/**
 * The JavaScript string built-ins the data layer relies on, over `string` (a sequence of
 * characters): `Number#toString` for integers, `parseInt(digits, 10)`, `split` on one
 * character, `Array#join` and `replaceAll`.
 */
module JsString {
  import opened Wrappers

  predicate IsDigit(c: char) { '0' <= c <= '9' }

  predicate AllDigits(s: string) { forall i :: 0 <= i < |s| ==> IsDigit(s[i]) }

  function DigitChar(d: nat): (c: char)
    requires d < 10
    ensures IsDigit(c) && c as int - '0' as int == d
  {
    ('0' as int + d) as char
  }

  /** The decimal numeral of a non-negative integer, without leading zeros. */
  function NatToString(n: nat): (s: string)
    ensures |s| >= 1 && AllDigits(s)
    ensures s[0] == '0' <==> n == 0
    decreases n
  {
    if n < 10 then [DigitChar(n)] else NatToString(n / 10) + [DigitChar(n % 10)]
  }

  /** `String(n)` / `n.toString()` for an integral JavaScript number. */
  function NumberToString(n: int): (s: string)
    ensures |s| >= 1
    ensures s[0] == '-' <==> n < 0
  {
    if n < 0 then "-" + NatToString(-n) else NatToString(n)
  }

  /** The value in base ten of a string of digits (leading zeros allowed). */
  function DigitsValue(s: string): nat
    requires AllDigits(s)
  {
    if s == [] then 0
    else DigitsValue(s[..|s| - 1]) * 10 + (s[|s| - 1] as int - '0' as int)
  }

  /** `parseInt(s, 10)` on a string holding only digits: NaN (`None`) for the empty string. */
  function ParseDigits(s: string): (r: Option<nat>)
    requires AllDigits(s)
    ensures r.None? <==> s == []
  {
    if s == [] then None else Some(DigitsValue(s))
  }

  /** Reading back a numeral gives the number it was printed from. */
  lemma {:induction false} DigitsValueOfNatToString(n: nat)
    ensures DigitsValue(NatToString(n)) == n
    decreases n
  {
    var s := NatToString(n);
    if n >= 10 {
      DigitsValueOfNatToString(n / 10);
      assert s[..|s| - 1] == NatToString(n / 10);
    }
  }

  /** Distinct integers print differently, so `String(id)` is a faithful record key. */
  lemma NumberToStringInjective(a: int, b: int)
    ensures NumberToString(a) == NumberToString(b) ==> a == b
  {
    if NumberToString(a) == NumberToString(b) {
      if a < 0 {
        assert NatToString(-a) == NumberToString(a)[1..];
        assert NatToString(-b) == NumberToString(b)[1..];
        DigitsValueOfNatToString(-a);
        DigitsValueOfNatToString(-b);
      } else {
        DigitsValueOfNatToString(a);
        DigitsValueOfNatToString(b);
      }
    }
  }

  /** `s.split(sep)` for a one-character separator: always at least one part. */
  function Split(s: string, sep: char): (parts: seq<string>)
    ensures |parts| >= 1
  {
    if s == [] then [""]
    else
      var rest := Split(s[1..], sep);
      if s[0] == sep then [""] + rest else [[s[0]] + rest[0]] + rest[1..]
  }

  /** `parts.join(sep)`: the empty string for no parts. */
  function Join(parts: seq<string>, sep: string): string
  {
    if parts == [] then ""
    else if |parts| == 1 then parts[0]
    else parts[0] + sep + Join(parts[1..], sep)
  }

  /** No part of a split holds the separator. */
  lemma {:induction false} SplitPartsLackSeparator(s: string, sep: char)
    ensures forall i :: 0 <= i < |Split(s, sep)| ==> sep !in Split(s, sep)[i]
  {
    if s != [] {
      SplitPartsLackSeparator(s[1..], sep);
    }
  }

  /** Joining the parts of a split with the separator gives back the string. */
  lemma {:induction false} JoinSplit(s: string, sep: char)
    ensures Join(Split(s, sep), [sep]) == s
  {
    if s != [] {
      var rest := Split(s[1..], sep);
      JoinSplit(s[1..], sep);
      if s[0] == sep {
        assert ([""] + rest)[1..] == rest;
      } else if |rest| > 1 {
        assert ([[s[0]] + rest[0]] + rest[1..])[1..] == rest[1..];
      }
    }
  }

  /** A string without the separator splits into itself alone. */
  lemma {:induction false} SplitWithoutSeparator(s: string, sep: char)
    requires sep !in s
    ensures Split(s, sep) == [s]
  {
    if s != [] {
      assert s[0] != sep && sep !in s[1..];
      SplitWithoutSeparator(s[1..], sep);
      assert [s[0]] + s[1..] == s;
    }
  }

  /** Splitting `p + sep + q`, where `p` has no separator, peels off `p` as the first part. */
  lemma {:induction false} SplitAtFirstSeparator(p: string, sep: char, q: string)
    requires sep !in p
    ensures Split(p + [sep] + q, sep) == [p] + Split(q, sep)
  {
    if p == [] {
      assert ([sep] + q)[1..] == q;
    } else {
      SplitAtFirstSeparator(p[1..], sep, q);
      assert (p + [sep] + q)[1..] == p[1..] + [sep] + q;
      assert [p[0]] + p[1..] == p;
    }
  }

  /** `s.split(sep)[0]`: the text before the first separator (all of `s` when there is none). */
  function BeforeFirst(s: string, sep: char): (r: string)
    ensures r == Split(s, sep)[0]
    ensures sep !in r && r <= s
    ensures |r| < |s| ==> s[|r|] == sep
  {
    SplitPartsLackSeparator(s, sep);
    if s == [] || s[0] == sep then "" else [s[0]] + BeforeFirst(s[1..], sep)
  }

  /** `q` occurs in `s` starting at index `i`. */
  predicate OccursAt(q: string, s: string, i: int)
  {
    0 <= i && i + |q| <= |s| && s[i..i + |q|] == q
  }

  predicate Occurs(q: string, s: string)
  {
    exists i | 0 <= i <= |s| :: OccursAt(q, s, i)
  }

  /**
   * `s.replaceAll(pat, rep)` for a non-empty pattern: occurrences are found left to right
   * and do not overlap.
   */
  function ReplaceAll(s: string, pat: string, rep: string): string
    requires pat != []
    decreases |s|
  {
    if |s| < |pat| then s
    else if s[..|pat|] == pat then rep + ReplaceAll(s[|pat|..], pat, rep)
    else [s[0]] + ReplaceAll(s[1..], pat, rep)
  }

  /** A string holding no occurrence of the pattern is left unchanged. */
  lemma {:induction false} ReplaceAllWithoutOccurrence(s: string, pat: string, rep: string)
    requires pat != [] && !Occurs(pat, s)
    ensures ReplaceAll(s, pat, rep) == s
    decreases |s|
  {
    if |s| >= |pat| {
      assert !OccursAt(pat, s, 0);
      forall i | OccursAt(pat, s[1..], i) ensures false {
        assert s[1..][i..i + |pat|] == s[i + 1..i + 1 + |pat|];
        assert OccursAt(pat, s, i + 1);
      }
      ReplaceAllWithoutOccurrence(s[1..], pat, rep);
    }
  }

  /** When the input starts with the pattern, the output starts with the replacement. */
  lemma ReplaceAllStartsWithReplacement(s: string, pat: string, rep: string)
    requires pat != [] && rep != [] && |s| >= |pat| && s[..|pat|] == pat
    ensures ReplaceAll(s, pat, rep)[0] in rep
  {
    assert ReplaceAll(s, pat, rep)[0] == rep[0];
  }

  /**
   * A prefix of the output that holds no character of `rep` was copied unchanged from the
   * input (a non-empty replacement always marks where a match was replaced).
   */
  lemma {:induction false} CopiedPrefix(s: string, pat: string, rep: string, m: nat)
    requires pat != [] && rep != []
    requires m <= |ReplaceAll(s, pat, rep)|
    requires forall k :: 0 <= k < m ==> ReplaceAll(s, pat, rep)[k] !in rep
    ensures m <= |s| && ReplaceAll(s, pat, rep)[..m] == s[..m]
    decreases |s|
  {
    var r := ReplaceAll(s, pat, rep);
    if m > 0 && |s| >= |pat| {
      if s[..|pat|] == pat {
        ReplaceAllStartsWithReplacement(s, pat, rep);
        assert false;
      } else {
        var t := ReplaceAll(s[1..], pat, rep);
        assert r == [s[0]] + t;
        forall k | 0 <= k < m - 1 ensures t[k] !in rep {
          assert t[k] == r[k + 1];
        }
        CopiedPrefix(s[1..], pat, rep, m - 1);
        assert r[..m] == [s[0]] + t[..m - 1];
      }
    }
  }

  /** An occurrence starting inside the replacement text starts with one of its characters. */
  lemma OccurrenceStartsInReplacement(r: string, rep: string, t: string, q: string, i: int)
    requires r == rep + t && q != [] && OccursAt(q, r, i) && i < |rep|
    ensures q[0] in rep && q[0] in q
  {
    assert q[0] == r[i] == rep[i];
  }

  lemma SliceOfSuffix(s: string, d: nat, k: nat, n: nat)
    requires d <= |s| && k + n <= |s| - d
    ensures s[d..][k..k + n] == s[d + k..d + k + n]
  {
  }

  /** An occurrence in the output of a replaced front match lies after the replacement. */
  lemma OccurrenceAfterReplacement(s: string, pat: string, rep: string, q: string, i: int)
    requires pat != [] && rep != [] && q != []
    requires |s| >= |pat| && s[..|pat|] == pat
    requires forall c :: c in rep ==> c !in q
    requires OccursAt(q, ReplaceAll(s, pat, rep), i)
    ensures i >= |rep| && OccursAt(q, ReplaceAll(s[|pat|..], pat, rep), i - |rep|)
  {
    var r := ReplaceAll(s, pat, rep);
    var t := ReplaceAll(s[|pat|..], pat, rep);
    assert r == rep + t;
    if i < |rep| {
      OccurrenceStartsInReplacement(r, rep, t, q, i);
      assert false;
    }
    assert r[i..i + |q|] == t[i - |rep|..i - |rep| + |q|];
  }

  /** An occurrence in the output of a copied front character is at the front or in the rest. */
  lemma OccurrenceAfterCopy(s: string, pat: string, rep: string, q: string, i: int)
    requires pat != [] && rep != [] && q != []
    requires |s| >= |pat| && s[..|pat|] != pat
    requires forall c :: c in rep ==> c !in q
    requires OccursAt(q, ReplaceAll(s, pat, rep), i)
    ensures i == 0 ==> OccursAt(q, s, 0)
    ensures i != 0 ==> OccursAt(q, ReplaceAll(s[1..], pat, rep), i - 1)
  {
    var r := ReplaceAll(s, pat, rep);
    var t := ReplaceAll(s[1..], pat, rep);
    assert r == [s[0]] + t;
    if i == 0 {
      forall k | 0 <= k < |q| ensures r[k] !in rep {
        assert r[k] == q[k] && q[k] in q;
      }
      CopiedPrefix(s, pat, rep, |q|);
    } else {
      assert r[i..i + |q|] == t[i - 1..i - 1 + |q|];
    }
  }

  /** An occurrence of `q` in the output that shares no character with `rep` was in the input. */
  lemma {:induction false} OccurrenceInOutputWasInInput(s: string, pat: string, rep: string, q: string, i: int)
    returns (j: int)
    requires pat != [] && rep != []
    requires forall c :: c in rep ==> c !in q
    requires OccursAt(q, ReplaceAll(s, pat, rep), i)
    ensures OccursAt(q, s, j)
    decreases |s|
  {
    if q == [] {
      j := 0;
    } else if |s| < |pat| {
      j := i;
    } else if s[..|pat|] == pat {
      OccurrenceAfterReplacement(s, pat, rep, q, i);
      var k := OccurrenceInOutputWasInInput(s[|pat|..], pat, rep, q, i - |rep|);
      SliceOfSuffix(s, |pat|, k, |q|);
      j := |pat| + k;
    } else {
      OccurrenceAfterCopy(s, pat, rep, q, i);
      if i == 0 {
        j := 0;
      } else {
        var k := OccurrenceInOutputWasInInput(s[1..], pat, rep, q, i - 1);
        SliceOfSuffix(s, 1, k, |q|);
        j := 1 + k;
      }
    }
  }

  /**
   * After `replaceAll`, the pattern no longer occurs, provided the replacement is non-empty
   * and shares no character with the pattern.
   */
  lemma {:induction false} ReplaceAllRemovesPattern(s: string, pat: string, rep: string)
    requires pat != [] && rep != []
    requires forall c :: c in rep ==> c !in pat
    ensures !Occurs(pat, ReplaceAll(s, pat, rep))
    decreases |s|
  {
    var r := ReplaceAll(s, pat, rep);
    if |s| < |pat| {
      forall i | OccursAt(pat, r, i) ensures false { }
    } else if s[..|pat|] == pat {
      var t := ReplaceAll(s[|pat|..], pat, rep);
      assert r == rep + t;
      forall i | OccursAt(pat, r, i) ensures false {
        if i < |rep| {
          OccurrenceStartsInReplacement(r, rep, t, pat, i);
          assert false;
        } else {
          assert r[i..i + |pat|] == t[i - |rep|..i - |rep| + |pat|];
          assert OccursAt(pat, t, i - |rep|);
          ReplaceAllRemovesPattern(s[|pat|..], pat, rep);
        }
      }
    } else {
      var t := ReplaceAll(s[1..], pat, rep);
      assert r == [s[0]] + t;
      forall i | OccursAt(pat, r, i) ensures false {
        if i == 0 {
          forall k | 0 <= k < |pat| ensures r[k] !in rep {
            assert r[k] == pat[k] && pat[k] in pat;
          }
          CopiedPrefix(s, pat, rep, |pat|);
        } else {
          assert r[i..i + |pat|] == t[i - 1..i - 1 + |pat|];
          assert OccursAt(pat, t, i - 1);
          ReplaceAllRemovesPattern(s[1..], pat, rep);
        }
      }
    }
  }
}
