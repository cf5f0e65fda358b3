/**
 Text helpers with the meaning of the Python string operations the audit
 script relies on: `sub in s`, `s.startswith(p)`, `s.lower()`,
 `s.lstrip(c)` and `sep.join(xs)`.
 */
module Strings {

  /** Python's `sub in s`: some suffix of `s` starts with `sub` (true for the empty `sub`). */
  predicate Contains(s: string, sub: string)
    decreases |s|
  {
    StartsWith(s, sub) || (|s| > 0 && Contains(s[1..], sub))
  }

  /** Python's `s.startswith(prefix)`. */
  predicate StartsWith(s: string, prefix: string) {
    |prefix| <= |s| && s[..|prefix|] == prefix
  }

  /** Lower-casing of one character; only ASCII letters change. The result is
      never a capital; a capital becomes the small letter at the same place in
      the alphabet; every other character is kept. */
  function LowerChar(c: char): (r: char)
    ensures !('A' <= r <= 'Z')
    ensures !('A' <= c <= 'Z') ==> r == c
    ensures 'A' <= c <= 'Z' ==> 'a' <= r <= 'z' && r as int - 'a' as int == c as int - 'A' as int
  {
    if 'A' <= c <= 'Z' then (c as int + 32) as char else c
  }

  /** Python's `s.lower()`, character by character: the text keeps its length,
      loses every capital, and keeps every character that is not one. */
  function Lower(s: string): (r: string)
    ensures |r| == |s|
    ensures forall i :: 0 <= i < |s| ==> r[i] == LowerChar(s[i])
    ensures forall i :: 0 <= i < |r| ==> !('A' <= r[i] <= 'Z')
    ensures forall i :: 0 <= i < |s| && !('A' <= s[i] <= 'Z') ==> r[i] == s[i]
  {
    seq(|s|, i requires 0 <= i < |s| => LowerChar(s[i]))
  }

  /** Lower-casing twice is lower-casing once. */
  lemma LowerIdempotent(s: string)
    ensures Lower(Lower(s)) == Lower(s)
  {
  }

  /** Python's `s.lstrip(c)`: drops every leading `c`, and nothing else. */
  function StripLeading(s: string, c: char): (r: string)
    ensures |r| <= |s|
    ensures r == s[|s| - |r|..]
    ensures forall i :: 0 <= i < |s| - |r| ==> s[i] == c
    ensures r == [] || r[0] != c
  {
    if |s| > 0 && s[0] == c then StripLeading(s[1..], c) else s
  }

  /** Python's `sep.join(xs)`. */
  function Join(xs: seq<string>, sep: string): (r: string)
    ensures |xs| > 0 ==> StartsWith(r, xs[0])
  {
    if |xs| == 0 then ""
    else if |xs| == 1 then xs[0]
    else xs[0] + sep + Join(xs[1..], sep)
  }

  /** An occurrence in a part of a concatenation is an occurrence in the whole. */
  lemma {:induction false} ContainsInConcat(a: string, b: string, sub: string)
    ensures Contains(b, sub) ==> Contains(a + b, sub)
    ensures Contains(a, sub) ==> Contains(a + b, sub)
  {
    if |a| > 0 {
      ContainsInConcat(a[1..], b, sub);
      assert (a + b)[1..] == a[1..] + b;
      if StartsWith(a, sub) {
        assert (a + b)[..|sub|] == a[..|sub|];
      }
    } else {
      assert a + b == b;
    }
  }

  /** A string longer than `s` does not occur in it. */
  lemma {:induction false} NotContainsLonger(s: string, sub: string)
    requires |s| < |sub|
    ensures !Contains(s, sub)
  {
    if |s| > 0 {
      NotContainsLonger(s[1..], sub);
    }
  }

  /** `sub` sits in `s` at position `i`. */
  predicate OccursAt(s: string, sub: string, i: int) {
    0 <= i <= |s| - |sub| && s[i..i + |sub|] == sub
  }

  /** The recursive search agrees with the positional reading of `sub in s`:
      it succeeds exactly when `sub` sits in `s` at some position. */
  lemma {:induction false} ContainsIffOccurs(s: string, sub: string)
    ensures Contains(s, sub) <==> exists i :: OccursAt(s, sub, i)
  {
    if StartsWith(s, sub) {
      assert OccursAt(s, sub, 0);
    } else if |s| > 0 {
      ContainsIffOccurs(s[1..], sub);
      if Contains(s[1..], sub) {
        var i :| OccursAt(s[1..], sub, i);
        assert s[1..][i..i + |sub|] == s[i + 1..i + 1 + |sub|];
        assert OccursAt(s, sub, i + 1);
      }
      if exists i :: OccursAt(s, sub, i) {
        var i :| OccursAt(s, sub, i);
        assert i != 0;
        assert s[1..][i - 1..i - 1 + |sub|] == s[i..i + |sub|];
        assert OccursAt(s[1..], sub, i - 1);
      }
    }
  }

  /** Every part occurs in the joined text. */
  lemma {:induction false} JoinContainsParts(xs: seq<string>, sep: string)
    ensures forall i :: 0 <= i < |xs| ==> Contains(Join(xs, sep), xs[i])
  {
    if |xs| > 1 {
      JoinContainsParts(xs[1..], sep);
      forall i | 1 <= i < |xs|
        ensures Contains(Join(xs, sep), xs[i])
      {
        assert xs[1..][i - 1] == xs[i];
        ContainsInConcat(xs[0] + sep, Join(xs[1..], sep), xs[i]);
        assert Join(xs, sep) == (xs[0] + sep) + Join(xs[1..], sep);
      }
    }
  }

  /** A string occurs in itself. */
  lemma ContainsSelf(s: string)
    ensures Contains(s, s)
  {
  }
}
