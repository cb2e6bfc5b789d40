/**
 * Turning a remote directory name into a local path segment (src/lib/slugify.ts).
 * Characters are Unicode scalar values; only ASCII letters change case.
 */
module Slugify {
  import opened JsString

  predicate IsUpper(c: char) { 'A' <= c <= 'Z' }

  predicate IsLower(c: char) { 'a' <= c <= 'z' }

  /** The characters the filter of `slugify` keeps: `[0-9a-zA-Z\-\.\(\)]`. */
  predicate Allowed(c: char) { IsDigit(c) || IsLower(c) || IsUpper(c) || c in "-.()" }

  /** The characters a slug is made of after its first one. */
  predicate SlugChar(c: char) { IsDigit(c) || IsLower(c) || c in "-.()" }

  predicate NoUpper(s: string) { forall i :: 0 <= i < |s| ==> !IsUpper(s[i]) }

  /** Lower-casing of one character, ASCII letters only. */
  function LowerAscii(c: char): (l: char)
    ensures !IsUpper(l)
  {
    if IsUpper(c) then (c as int + 32) as char else c
  }

  function CountUpper(s: string): nat
  {
    if s == [] then 0 else (if IsUpper(s[0]) then 1 else 0) + CountUpper(s[1..])
  }

  /** `camelCaseToSlug`: every ASCII capital `X` becomes `-x`; other characters stay. */
  function CamelCaseToSlug(s: string): (r: string)
    ensures NoUpper(r)
    ensures |r| == |s| + CountUpper(s)
  {
    if s == [] then []
    else (if IsUpper(s[0]) then ['-', LowerAscii(s[0])] else [s[0]]) + CamelCaseToSlug(s[1..])
  }

  /** The regular-expression filter over `path.slice(1)`: drops every character not `Allowed`. */
  function KeepAllowed(s: string): (r: string)
    ensures |r| <= |s|
    ensures forall i :: 0 <= i < |r| ==> Allowed(r[i])
  {
    if s == [] then [] else (if Allowed(s[0]) then [s[0]] else []) + KeepAllowed(s[1..])
  }

  /**
   * `slugify`: the first character lower-cased and kept whatever it is, the rest filtered,
   * then capitals expanded. For the empty string `path.at(0)` is `undefined`, which string
   * concatenation spells out.
   */
  function Slugify(path: string): string
  {
    var first := if path == [] then "undefined" else [LowerAscii(path[0])];
    CamelCaseToSlug(first + KeepAllowed(if path == [] then [] else path[1..]))
  }

  /** `camelCaseToSlug` works character by character, so it distributes over concatenation. */
  lemma {:induction false} CamelCaseToSlugAppend(a: string, b: string)
    ensures CamelCaseToSlug(a + b) == CamelCaseToSlug(a) + CamelCaseToSlug(b)
  {
    if a == [] {
      assert a + b == b;
    } else {
      assert (a + b)[0] == a[0] && (a + b)[1..] == a[1..] + b;
      CamelCaseToSlugAppend(a[1..], b);
    }
  }

  /** A string without ASCII capitals is a fixed point of `camelCaseToSlug`. */
  lemma {:induction false} CamelCaseToSlugNoUpper(s: string)
    requires NoUpper(s)
    ensures CamelCaseToSlug(s) == s
  {
    if s != [] {
      assert !IsUpper(s[0]);
      CamelCaseToSlugNoUpper(s[1..]);
    }
  }

  /** Expanding only allowed characters yields slug characters. */
  lemma {:induction false} CamelCaseToSlugOfAllowed(s: string)
    requires forall i :: 0 <= i < |s| ==> Allowed(s[i])
    ensures forall i :: 0 <= i < |CamelCaseToSlug(s)| ==> SlugChar(CamelCaseToSlug(s)[i])
  {
    if s != [] {
      CamelCaseToSlugOfAllowed(s[1..]);
      var head := if IsUpper(s[0]) then ['-', LowerAscii(s[0])] else [s[0]];
      assert CamelCaseToSlug(s) == head + CamelCaseToSlug(s[1..]);
      assert forall i :: 0 <= i < |head| ==> SlugChar(head[i]);
    }
  }

  /** Slug characters all pass the filter. */
  lemma {:induction false} KeepAllowedOfSlugChars(s: string)
    requires forall i :: 0 <= i < |s| ==> SlugChar(s[i])
    ensures KeepAllowed(s) == s
  {
    if s != [] {
      assert SlugChar(s[0]);
      KeepAllowedOfSlugChars(s[1..]);
    }
  }

  /** The empty path gives the literal text `undefined`. */
  lemma SlugifyEmpty()
    ensures Slugify("") == "undefined"
  {
    assert "undefined" + KeepAllowed([]) == "undefined";
    CamelCaseToSlugNoUpper("undefined");
  }

  /**
   * The shape of a slug: no ASCII capitals; its first character is the input's first
   * character lower-cased (whatever that character is); every later character is a digit,
   * a lower-case letter, `-`, `.`, `(` or `)`.
   */
  lemma SlugifyShape(path: string)
    requires path != []
    ensures var r := Slugify(path);
      && |r| >= 1
      && NoUpper(r)
      && r[0] == LowerAscii(path[0])
      && forall i :: 1 <= i < |r| ==> SlugChar(r[i])
  {
    var first := [LowerAscii(path[0])];
    var kept := KeepAllowed(path[1..]);
    CamelCaseToSlugAppend(first, kept);
    CamelCaseToSlugNoUpper(first);
    CamelCaseToSlugOfAllowed(kept);
    assert Slugify(path) == first + CamelCaseToSlug(kept);
  }

  /** Length: the first character, each kept character, and one dash per kept capital. */
  lemma SlugifyLength(path: string)
    requires path != []
    ensures |Slugify(path)| == 1 + |KeepAllowed(path[1..])| + CountUpper(KeepAllowed(path[1..]))
  {
    var first := [LowerAscii(path[0])];
    CamelCaseToSlugAppend(first, KeepAllowed(path[1..]));
    CamelCaseToSlugNoUpper(first);
  }

  /** A slug is its own slug, so a re-download maps a name to the same directory. */
  lemma SlugifyIdempotent(path: string)
    ensures Slugify(Slugify(path)) == Slugify(path)
  {
    var r := Slugify(path);
    if path == [] {
      SlugifyEmpty();
      assert r[1..] == "ndefined";
      KeepAllowedOfSlugChars("ndefined");
      CamelCaseToSlugNoUpper("undefined");
    } else {
      SlugifyShape(path);
      KeepAllowedOfSlugChars(r[1..]);
      assert [r[0]] + r[1..] == r;
      assert LowerAscii(r[0]) == r[0];
      CamelCaseToSlugNoUpper(r);
    }
  }

  /** Characters that all pass the filter are kept as they are. */
  lemma {:induction false} KeepAllowedOfAllowed(s: string)
    requires forall i :: 0 <= i < |s| ==> Allowed(s[i])
    ensures KeepAllowed(s) == s
  {
    if s != [] {
      KeepAllowedOfAllowed(s[1..]);
    }
  }

  /** The filter works character by character, so it distributes over concatenation. */
  lemma {:induction false} KeepAllowedAppend(a: string, b: string)
    ensures KeepAllowed(a + b) == KeepAllowed(a) + KeepAllowed(b)
  {
    if a == [] {
      assert a + b == b;
    } else {
      assert (a + b)[0] == a[0] && (a + b)[1..] == a[1..] + b;
      KeepAllowedAppend(a[1..], b);
    }
  }

  /** The filter drops exactly the one disallowed character between two allowed runs. */
  lemma KeepAllowedDropsOne(a: string, c: char, b: string)
    requires forall i :: 0 <= i < |a| ==> Allowed(a[i])
    requires forall i :: 0 <= i < |b| ==> Allowed(b[i])
    requires !Allowed(c)
    ensures KeepAllowed(a + [c] + b) == a + b
  {
    assert KeepAllowed([c]) == [] by {
      assert [c][1..] == [];
    }
    assert KeepAllowed(a + [c]) == a by {
      KeepAllowedAppend(a, [c]);
      KeepAllowedOfAllowed(a);
      assert a + [] == a;
    }
    assert KeepAllowed(a + [c] + b) == KeepAllowed(a + [c]) + KeepAllowed(b) by {
      KeepAllowedAppend(a + [c], b);
    }
    KeepAllowedOfAllowed(b);
  }

  lemma KeepAllowedExample()
    ensures KeepAllowed("ne Piece") == "nePiece"
  {
    KeepAllowedDropsOne("ne", ' ', "Piece");
    assert "ne Piece" == "ne" + [' '] + "Piece";
  }

  lemma CamelCaseToSlugExample()
    ensures CamelCaseToSlug("onePiece") == "one-piece"
  {
    assert CamelCaseToSlug(['P'] + "iece") == "-piece" by {
      assert CamelCaseToSlug(['P']) == "-p" by {
        assert ['P'][1..] == [];
      }
      CamelCaseToSlugAppend(['P'], "iece");
      CamelCaseToSlugNoUpper("iece");
    }
    assert CamelCaseToSlug("one" + (['P'] + "iece")) == "one-piece" by {
      CamelCaseToSlugAppend("one", ['P'] + "iece");
      CamelCaseToSlugNoUpper("one");
    }
    assert "onePiece" == "one" + (['P'] + "iece");
  }

  /** `slugify` of a non-empty path, from its first character and the rest. */
  lemma SlugifyCons(c: char, rest: string)
    ensures Slugify([c] + rest) == CamelCaseToSlug([LowerAscii(c)] + KeepAllowed(rest))
  {
    assert ([c] + rest)[0] == c && ([c] + rest)[1..] == rest;
  }

  lemma SlugifyOnePiece()
    ensures Slugify("One Piece") == "one-piece"
  {
    assert "One Piece" == ['O'] + "ne Piece";
    SlugifyCons('O', "ne Piece");
    KeepAllowedExample();
    assert [LowerAscii('O')] + "nePiece" == "onePiece";
    CamelCaseToSlugExample();
  }

  /** `One Piece` becomes `one-piece`, which is its own slug. */
  lemma SlugifyExample()
    ensures Slugify("One Piece") == "one-piece"
    ensures Slugify("one-piece") == "one-piece"
  {
    SlugifyOnePiece();
    SlugifyIdempotent("One Piece");
  }
}
