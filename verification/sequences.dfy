/**
 Order-preserving filter-and-map over sequences, the shape of a Python loop
 that skips some elements with `continue` and appends the image of the rest.
 */
module Sequences {

  /** The images under `f` of the elements of `xs` that satisfy `keep`, in order. */
  function FilterMap<T, U>(keep: T -> bool, f: T -> U, xs: seq<T>): (ys: seq<U>)
    ensures |ys| <= |xs|
  {
    if |xs| == 0 then []
    else (if keep(xs[0]) then [f(xs[0])] else []) + FilterMap(keep, f, xs[1..])
  }

  /** Number of elements of `xs` that satisfy `p`. */
  function Count<T>(p: T -> bool, xs: seq<T>): nat {
    if |xs| == 0 then 0
    else (if p(xs[0]) then 1 else 0) + Count(p, xs[1..])
  }

  /** Position `i` of `xs` holds an element that `keep` accepts. */
  predicate KeptAt<T>(keep: T -> bool, xs: seq<T>, i: int) {
    0 <= i < |xs| && keep(xs[i])
  }

  /** `origin` traces `ys` back to `xs`: `origin[k]` is the position in `xs`
      of the element whose image is `ys[k]`, positions strictly increase, and
      every accepted element has one. */
  ghost predicate Traces<T, U>(keep: T -> bool, f: T -> U, xs: seq<T>, ys: seq<U>, origin: seq<nat>) {
    && |origin| == |ys|
    && (forall k :: 0 <= k < |origin| ==> origin[k] < |xs|)
    && (forall k, m :: 0 <= k < m < |origin| ==> origin[k] < origin[m])
    && (forall k :: 0 <= k < |origin| ==> keep(xs[origin[k]]) && ys[k] == f(xs[origin[k]]))
    && (forall i :: KeptAt(keep, xs, i) ==> i in origin)
  }

  /** A filter-map is exactly the order-preserving image of the accepted elements. */
  lemma {:induction false} FilterMapOrigins<T, U>(keep: T -> bool, f: T -> U, xs: seq<T>) returns (origin: seq<nat>)
    ensures Traces(keep, f, xs, FilterMap(keep, f, xs), origin)
  {
    if |xs| == 0 {
      origin := [];
    } else {
      var rest := FilterMapOrigins(keep, f, xs[1..]);
      var shifted := ShiftTrace(keep, f, xs, rest);
      if keep(xs[0]) {
        origin := [0] + shifted;
        ConsTrace(keep, f, xs, shifted);
      } else {
        origin := shifted;
        assert FilterMap(keep, f, xs) == FilterMap(keep, f, xs[1..]);
        forall i | KeptAt(keep, xs, i)
          ensures i in origin
        {
          assert i != 0;
        }
      }
    }
  }

  /** Lifts a trace of `xs[1..]` to positions of `xs`. */
  lemma ShiftTrace<T, U>(keep: T -> bool, f: T -> U, xs: seq<T>, rest: seq<nat>) returns (shifted: seq<nat>)
    requires |xs| > 0
    requires Traces(keep, f, xs[1..], FilterMap(keep, f, xs[1..]), rest)
    ensures |shifted| == |rest|
    ensures forall k :: 0 <= k < |shifted| ==> 1 <= shifted[k] < |xs|
    ensures forall k, m :: 0 <= k < m < |shifted| ==> shifted[k] < shifted[m]
    ensures forall k :: 0 <= k < |shifted| ==>
      keep(xs[shifted[k]]) && FilterMap(keep, f, xs[1..])[k] == f(xs[shifted[k]])
    ensures forall i :: 1 <= i && KeptAt(keep, xs, i) ==> i in shifted
  {
    var tail := xs[1..];
    shifted := seq(|rest|, k requires 0 <= k < |rest| => rest[k] + 1);
    forall k | 0 <= k < |shifted|
      ensures keep(xs[shifted[k]])
    {
      assert tail[rest[k]] == xs[shifted[k]];
    }
    forall i | 1 <= i && KeptAt(keep, xs, i)
      ensures i in shifted
    {
      assert tail[i - 1] == xs[i];
      assert KeptAt(keep, tail, i - 1);
      var k :| 0 <= k < |rest| && rest[k] == i - 1;
      assert shifted[k] == i;
    }
  }

  /** An accepted first element comes first, with position 0 in front of the shifted trace. */
  lemma ConsTrace<T, U>(keep: T -> bool, f: T -> U, xs: seq<T>, shifted: seq<nat>)
    requires |xs| > 0 && keep(xs[0])
    requires |shifted| == |FilterMap(keep, f, xs[1..])|
    requires forall k :: 0 <= k < |shifted| ==> 1 <= shifted[k] < |xs|
    requires forall k, m :: 0 <= k < m < |shifted| ==> shifted[k] < shifted[m]
    requires forall k :: 0 <= k < |shifted| ==>
      keep(xs[shifted[k]]) && FilterMap(keep, f, xs[1..])[k] == f(xs[shifted[k]])
    requires forall i :: 1 <= i && KeptAt(keep, xs, i) ==> i in shifted
    ensures Traces(keep, f, xs, FilterMap(keep, f, xs), [0] + shifted)
  {
  }

  /** A filter-map keeps at most as many elements as a weaker filter accepts. */
  lemma {:induction false} FilterMapLengthBound<T, U>(keep: T -> bool, p: T -> bool, f: T -> U, xs: seq<T>)
    requires forall x :: keep(x) ==> p(x)
    ensures |FilterMap(keep, f, xs)| <= Count(p, xs)
  {
    if |xs| > 0 {
      FilterMapLengthBound(keep, p, f, xs[1..]);
    }
  }
}
