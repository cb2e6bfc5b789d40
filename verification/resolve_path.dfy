/**
 * Dotted property lookup with a fallback (src/lib/resolve-path.ts), over a small model of
 * JavaScript values.
 */
module JsonPath {
  import opened Wrappers
  import opened JsString

  /** JavaScript values as far as the lookup can tell them apart; numbers are integers. */
  datatype Json =
    | Undefined
    | Null
    | Bool(b: bool)
    | Num(n: int)
    | Str(s: string)
    | Obj(fields: map<string, Json>)

  /** JavaScript truthiness: `undefined`, `null`, `false`, `0` and `''` are falsy. */
  predicate Truthy(v: Json)
  {
    match v
    case Undefined => false
    case Null => false
    case Bool(b) => b
    case Num(n) => n != 0
    case Str(s) => s != []
    case Obj(_) => true
  }

  /**
   * The array index a property key names: `Some(i)` exactly when the key is the numeral of
   * `i` without leading zeros (`"01"` and `"-1"` are plain keys).
   */
  function ArrayIndex(p: string): (r: Option<nat>)
    ensures r.Some? ==> NatToString(r.value) == p
  {
    if p != [] && AllDigits(p) && NatToString(DigitsValue(p)) == p then Some(DigitsValue(p)) else None
  }

  /** Every numeral names its index. */
  lemma ArrayIndexOfNatToString(i: nat)
    ensures ArrayIndex(NatToString(i)) == Some(i)
  {
    DigitsValueOfNatToString(i);
  }

  /**
   * The own property `p` of a value that is not `null` or `undefined`: an object's field, a
   * string's `length` or one of its characters; anything else is `undefined`.
   */
  function Own(o: Json, p: string): Json
  {
    match o
    case Obj(fields) => if p in fields then fields[p] else Undefined
    case Str(s) =>
      if p == "length" then Num(|s|)
      else if ArrayIndex(p).Some? && ArrayIndex(p).value < |s| then Str([s[ArrayIndex(p).value]])
      else Undefined
    case _ => Undefined
  }

  /** `o[p]`: `None` when `o` is `null` or `undefined` (a TypeError is thrown). */
  function Get(o: Json, p: string): (r: Option<Json>)
    ensures r.None? <==> o == Undefined || o == Null
  {
    match o
    case Undefined => None
    case Null => None
    case _ => Some(Own(o, p))
  }

  /**
   * A string answers `length` with its length and an index below it with that one
   * character; an index past the end is `undefined`.
   */
  lemma StringProperties(s: string, i: nat)
    ensures Get(Str(s), "length") == Some(Num(|s|))
    ensures i < |s| ==> Get(Str(s), NatToString(i)) == Some(Str([s[i]]))
    ensures i >= |s| ==> Get(Str(s), NatToString(i)) == Some(Undefined)
  {
    ArrayIndexOfNatToString(i);
    assert NatToString(i) != "length" by {
      assert IsDigit(NatToString(i)[0]);
    }
  }

  /** One step of the reduce: `o[p] ? o[p] : defaultValue`. */
  function Step(o: Json, p: string, defaultValue: Json): (r: Option<Json>)
    ensures r.Some? ==> Truthy(r.value) || r.value == defaultValue
  {
    match Get(o, p)
    case None => None
    case Some(v) => Some(if Truthy(v) then v else defaultValue)
  }

  /** The reduce over the segments, left to right; `None` once a step throws. */
  function Follow(o: Json, segments: seq<string>, defaultValue: Json): Option<Json>
    decreases |segments|
  {
    if segments == [] then Some(o)
    else
      match Step(o, segments[0], defaultValue)
      case None => None
      case Some(next) => Follow(next, segments[1..], defaultValue)
  }

  /** `resolvePath(obj, path, defaultValue)`: `None` stands for a thrown TypeError. */
  function ResolvePath(obj: Json, path: string, defaultValue: Json): Option<Json>
  {
    Follow(obj, Split(path, '.'), defaultValue)
  }

  /** After at least one step, the value is truthy or it is the default. */
  lemma {:induction false} FollowTruthyOrDefault(o: Json, segments: seq<string>, d: Json)
    requires segments != []
    ensures Follow(o, segments, d).Some? ==> Truthy(Follow(o, segments, d).value) || Follow(o, segments, d).value == d
    decreases |segments|
  {
    var next := Step(o, segments[0], d);
    if next.Some? && |segments| > 1 {
      FollowTruthyOrDefault(next.value, segments[1..], d);
    }
  }

  /** A resolved value is always truthy or the default: falsy values never come through. */
  lemma ResolvePathTruthyOrDefault(obj: Json, path: string, d: Json)
    ensures ResolvePath(obj, path, d).Some? ==>
      Truthy(ResolvePath(obj, path, d).value) || ResolvePath(obj, path, d).value == d
  {
    FollowTruthyOrDefault(obj, Split(path, '.'), d);
  }

  /** A single-segment path: the property when it is truthy, else the default. */
  lemma ResolveSingleSegment(obj: Json, path: string, d: Json)
    requires '.' !in path
    requires obj != Undefined && obj != Null
    ensures ResolvePath(obj, path, d) == Some(if Truthy(Own(obj, path)) then Own(obj, path) else d)
  {
    SplitWithoutSeparator(path, '.');
    var next := Step(obj, path, d);
    assert next.Some?;
    assert Follow(obj, [path], d) == Follow(next.value, [], d);
    assert next.value == if Truthy(Own(obj, path)) then Own(obj, path) else d;
  }

  /** Segments are followed left to right: `p.q` is `q` looked up on the result of `p`. */
  lemma ResolveFirstSegmentThenRest(obj: Json, p: string, q: string, d: Json)
    requires '.' !in p
    ensures ResolvePath(obj, p + "." + q, d) ==
      match Step(obj, p, d)
      case None => None
      case Some(next) => ResolvePath(next, q, d)
  {
    SplitAtFirstSeparator(p, '.', q);
    assert p + "." + q == p + ['.'] + q;
    assert ([p] + Split(q, '.'))[1..] == Split(q, '.');
  }

  /**
   * Once a segment is falsy and the default is `null`, looking up the next segment on that
   * `null` throws.
   */
  lemma NullDefaultThenLookupThrows(obj: Json, p: string, q: string)
    requires '.' !in p
    requires obj != Undefined && obj != Null
    requires !Truthy(Own(obj, p))
    ensures ResolvePath(obj, p + "." + q, Null) == None
  {
    ResolveFirstSegmentThenRest(obj, p, q, Null);
    assert Step(obj, p, Null) == Some(Null);
  }

  /** `resolvePath({t: 'abc'}, 't.length', null)` is `3`: a string has its own `length`. */
  lemma StringLengthExample()
    ensures ResolvePath(Obj(map["t" := Str("abc")]), "t.length", Null) == Some(Num(3))
  {
    var obj := Obj(map["t" := Str("abc")]);
    assert '.' !in "t";
    assert "t" + "." + "length" == "t.length";
    ResolveFirstSegmentThenRest(obj, "t", "length", Null);
    assert Own(obj, "t") == Str("abc");
    assert Step(obj, "t", Null) == Some(Str("abc"));
    assert '.' !in "length";
    ResolveSingleSegment(Str("abc"), "length", Null);
    assert Own(Str("abc"), "length") == Num(3);
  }
}
