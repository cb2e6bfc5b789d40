/**
 * Building an id-to-item lookup from a list (src/lib/group-by.ts): a left-to-right reduce
 * that files each item under the string form of its resolved key.
 */
module GroupBy {
  import opened Wrappers
  import opened JsString
  import opened JsonPath

  /** `itKey.toString()` when `typeof itKey` is `'string'` or `'number'`; otherwise no key. */
  function RecordKey(k: Json): Option<string>
  {
    match k
    case Str(s) => Some(s)
    case Num(n) => Some(NumberToString(n))
    case _ => None
  }

  /**
   * The key an item is filed under, given the lookup that resolves its key value
   * (`None` when the item is skipped or the lookup threw).
   */
  function FiledKey<T>(resolved: T -> Option<Json>, x: T): Option<string>
  {
    match resolved(x)
    case None => None
    case Some(k) => RecordKey(k)
  }

  /** No later item of `input` is filed under the same key as item `i`. */
  predicate LastWithKey<T>(input: seq<T>, resolved: T -> Option<Json>, i: int)
    requires 0 <= i < |input|
  {
    forall j :: i < j < |input| ==> FiledKey(resolved, input[j]) != FiledKey(resolved, input[i])
  }

  /**
   * The reduce of `groupBy` with the key lookup already applied to each item: `None` when
   * the lookup threw for some item (the exception leaves `groupBy`).
   */
  function GroupByResolved<T, V>(input: seq<T>, resolved: T -> Option<Json>, value: T -> V): Option<map<string, V>>
    decreases |input|
  {
    if input == [] then Some(map[])
    else
      var last := input[|input| - 1];
      match GroupByResolved(input[..|input| - 1], resolved, value)
      case None => None
      case Some(acc) =>
        if resolved(last).None? then None
        else
          match RecordKey(resolved(last).value)
          case None => Some(acc)
          case Some(k) => Some(acc[k := value(last)])
  }

  /** The key lookup of `groupBy`: `resolvePath(it, key, null)`. */
  function KeyLookup(key: string): Json -> Option<Json>
  {
    it => ResolvePath(it, key, Null)
  }

  /** What `groupBy` stores for an item: `valueFn(it)` when given, else the item itself. */
  function StoredValue(valueFn: Option<Json -> Json>): Json -> Json
  {
    it => if valueFn.Some? then valueFn.value(it) else it
  }

  /** `groupBy(input, key, valueFn)` over JavaScript values; `None` when it throws. */
  function GroupBy(input: seq<Json>, key: string, valueFn: Option<Json -> Json>): Option<map<string, Json>>
  {
    GroupByResolved(input, KeyLookup(key), StoredValue(valueFn))
  }

  /** Adding one key to a map adds at most one entry. */
  lemma MapUpdateSize<V>(m: map<string, V>, k: string, v: V)
    ensures |m[k := v]| <= |m| + 1
  {
    if k in m {
      assert m[k := v].Keys == m.Keys;
    } else {
      assert m[k := v].Keys == m.Keys + {k};
    }
  }

  /** No lookup throws: `groupBy` returns a record. */
  lemma {:induction false} GroupByDefined<T, V>(input: seq<T>, resolved: T -> Option<Json>, value: T -> V)
    requires forall i :: 0 <= i < |input| ==> resolved(input[i]).Some?
    ensures GroupByResolved(input, resolved, value).Some?
    decreases |input|
  {
    if input != [] {
      var n := |input| - 1;
      assert forall i :: 0 <= i < n ==> input[..n][i] == input[i];
      GroupByDefined(input[..n], resolved, value);
    }
  }

  /** The record's keys are exactly the keys the items are filed under. */
  lemma {:induction false} GroupByKeys<T, V>(input: seq<T>, resolved: T -> Option<Json>, value: T -> V)
    requires forall i :: 0 <= i < |input| ==> resolved(input[i]).Some?
    ensures GroupByResolved(input, resolved, value).Some?
    ensures forall k :: k in GroupByResolved(input, resolved, value).value <==>
      exists i :: 0 <= i < |input| && FiledKey(resolved, input[i]) == Some(k)
    decreases |input|
  {
    GroupByDefined(input, resolved, value);
    if input != [] {
      var n := |input| - 1;
      var pre, last := input[..n], input[n];
      assert forall i :: 0 <= i < n ==> pre[i] == input[i];
      GroupByKeys(pre, resolved, value);
      var acc := GroupByResolved(pre, resolved, value).value;
      var m := GroupByResolved(input, resolved, value).value;
      forall k ensures k in m <==> exists i :: 0 <= i < |input| && FiledKey(resolved, input[i]) == Some(k) {
        if k in m && FiledKey(resolved, last) != Some(k) {
          assert k in acc;
          var i :| 0 <= i < n && FiledKey(resolved, pre[i]) == Some(k);
          assert FiledKey(resolved, input[i]) == Some(k);
        }
        if exists i :: 0 <= i < |input| && FiledKey(resolved, input[i]) == Some(k) {
          var i :| 0 <= i < |input| && FiledKey(resolved, input[i]) == Some(k);
          if i < n {
            assert FiledKey(resolved, pre[i]) == Some(k);
          }
        }
      }
    }
  }

  /** An item's value is stored under its key unless a later item has the same key. */
  lemma {:induction false} GroupByLastWins<T, V>(input: seq<T>, resolved: T -> Option<Json>, value: T -> V)
    requires forall i :: 0 <= i < |input| ==> resolved(input[i]).Some?
    ensures GroupByResolved(input, resolved, value).Some?
    ensures forall i :: 0 <= i < |input| && FiledKey(resolved, input[i]).Some? && LastWithKey(input, resolved, i) ==>
      FiledKey(resolved, input[i]).value in GroupByResolved(input, resolved, value).value &&
      GroupByResolved(input, resolved, value).value[FiledKey(resolved, input[i]).value] == value(input[i])
    decreases |input|
  {
    GroupByDefined(input, resolved, value);
    if input != [] {
      var n := |input| - 1;
      var pre := input[..n];
      assert forall i :: 0 <= i < n ==> pre[i] == input[i];
      GroupByLastWins(pre, resolved, value);
      var m := GroupByResolved(input, resolved, value).value;
      forall i | 0 <= i < |input| && FiledKey(resolved, input[i]).Some? && LastWithKey(input, resolved, i)
        ensures FiledKey(resolved, input[i]).value in m && m[FiledKey(resolved, input[i]).value] == value(input[i])
      {
        if i < n {
          assert FiledKey(resolved, input[n]) != FiledKey(resolved, input[i]);
          assert LastWithKey(pre, resolved, i);
        }
      }
    }
  }

  /** There are no more keys than items. */
  lemma {:induction false} GroupBySize<T, V>(input: seq<T>, resolved: T -> Option<Json>, value: T -> V)
    requires forall i :: 0 <= i < |input| ==> resolved(input[i]).Some?
    ensures GroupByResolved(input, resolved, value).Some?
    ensures |GroupByResolved(input, resolved, value).value| <= |input|
    decreases |input|
  {
    GroupByDefined(input, resolved, value);
    if input != [] {
      var n := |input| - 1;
      var pre, last := input[..n], input[n];
      assert forall i :: 0 <= i < n ==> pre[i] == input[i];
      GroupBySize(pre, resolved, value);
      var acc := GroupByResolved(pre, resolved, value).value;
      if FiledKey(resolved, last).Some? {
        MapUpdateSize(acc, FiledKey(resolved, last).value, value(last));
      }
    }
  }

  /**
   * When no lookup throws: the record's keys are exactly the keys the items are filed under;
   * an item's value is stored under its key unless a later item has the same key (later
   * items overwrite earlier ones); and there are no more keys than items.
   */
  lemma GroupByContents<T, V>(input: seq<T>, resolved: T -> Option<Json>, value: T -> V)
    requires forall i :: 0 <= i < |input| ==> resolved(input[i]).Some?
    ensures GroupByResolved(input, resolved, value).Some?
    ensures var m := GroupByResolved(input, resolved, value).value;
      && (forall k :: k in m <==> exists i :: 0 <= i < |input| && FiledKey(resolved, input[i]) == Some(k))
      && (forall i :: 0 <= i < |input| && FiledKey(resolved, input[i]).Some? && LastWithKey(input, resolved, i) ==>
            FiledKey(resolved, input[i]).value in m && m[FiledKey(resolved, input[i]).value] == value(input[i]))
      && |m| <= |input|
  {
    GroupByKeys(input, resolved, value);
    GroupByLastWins(input, resolved, value);
    GroupBySize(input, resolved, value);
  }

  /** If the key lookup throws for any item, `groupBy` throws. */
  lemma {:induction false} GroupByThrows<T, V>(input: seq<T>, resolved: T -> Option<Json>, value: T -> V, i: int)
    requires 0 <= i < |input| && resolved(input[i]).None?
    ensures GroupByResolved(input, resolved, value).None?
    decreases |input|
  {
    var n := |input| - 1;
    if i < n {
      assert input[..n][i] == input[i];
      GroupByThrows(input[..n], resolved, value, i);
    }
  }

  /**
   * With a top-level key and no `valueFn`, every object whose key holds a non-empty string
   * or a non-zero number is found under that string, the last such object winning.
   */
  lemma GroupByStoresItem(input: seq<Json>, key: string, i: int)
    requires '.' !in key
    requires forall j :: 0 <= j < |input| ==> input[j].Obj?
    requires 0 <= i < |input| && key in input[i].fields
    requires var v := input[i].fields[key]; (v.Str? && v.s != []) || (v.Num? && v.n != 0)
    requires forall j :: i < j < |input| && key in input[j].fields && Truthy(input[j].fields[key]) ==>
      RecordKey(input[j].fields[key]) != RecordKey(input[i].fields[key])
    ensures GroupBy(input, key, None).Some?
    ensures RecordKey(input[i].fields[key]).value in GroupBy(input, key, None).value
    ensures GroupBy(input, key, None).value[RecordKey(input[i].fields[key]).value] == input[i]
  {
    var resolved := KeyLookup(key);
    forall j | 0 <= j < |input| ensures resolved(input[j]).Some? {
      ResolveSingleSegment(input[j], key, Null);
    }
    ResolveSingleSegment(input[i], key, Null);
    forall j | i < j < |input| ensures FiledKey(resolved, input[j]) != FiledKey(resolved, input[i]) {
      ResolveSingleSegment(input[j], key, Null);
    }
    GroupByContents(input, resolved, StoredValue(None));
  }

  /** An item whose key is `0` or `''` is skipped: `resolvePath` turns it into the `null` default. */
  lemma FalsyKeySkipped(input: seq<Json>, key: string, valueFn: Option<Json -> Json>, item: Json)
    requires '.' !in key
    requires item.Obj? && key in item.fields
    requires item.fields[key] == Num(0) || item.fields[key] == Str("")
    ensures GroupBy(input + [item], key, valueFn) == GroupBy(input, key, valueFn)
  {
    ResolveSingleSegment(item, key, Null);
    assert (input + [item])[..|input|] == input;
  }
}
