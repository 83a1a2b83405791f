/**
 * Sequence combinators for the list building loops of nicepro.py: keeping
 * the elements that pass a test, mapping a conversion over a list and
 * concatenating nested lists. All three are defined from the END of the
 * sequence, so that one more loop iteration is one more unfolding.
 */
module Seqs {

  /** The elements of `s` that satisfy `p`, in their order in `s`. */
  function Filter<T>(p: T -> bool, s: seq<T>): (r: seq<T>)
    ensures |r| <= |s|
    ensures forall i :: 0 <= i < |r| ==> r[i] in s && p(r[i])
    ensures forall i :: 0 <= i < |s| && p(s[i]) ==> s[i] in r
    decreases |s|
  {
    if s == [] then []
    else
      assert s == s[..|s| - 1] + [s[|s| - 1]];
      Filter(p, s[..|s| - 1]) + (if p(s[|s| - 1]) then [s[|s| - 1]] else [])
  }

  function Map<T, U>(f: T -> U, s: seq<T>): seq<U> {
    seq(|s|, i requires 0 <= i < |s| => f(s[i]))
  }

  /** The concatenation of the lists in `ss`, in order. */
  function Flatten<T>(ss: seq<seq<T>>): seq<T>
    decreases |ss|
  {
    if ss == [] then [] else Flatten(ss[..|ss| - 1]) + ss[|ss| - 1]
  }

  lemma {:induction false} FilterAppend<T>(p: T -> bool, a: seq<T>, b: seq<T>)
    ensures Filter(p, a + b) == Filter(p, a) + Filter(p, b)
    decreases |b|
  {
    if b == [] {
      assert a + b == a;
    } else {
      assert (a + b)[..|a + b| - 1] == a + b[..|b| - 1];
      FilterAppend(p, a, b[..|b| - 1]);
    }
  }

  lemma MapAppend<T, U>(f: T -> U, a: seq<T>, b: seq<T>)
    ensures Map(f, a + b) == Map(f, a) + Map(f, b)
  {
  }

  /** One more element at the end of the input: one more step of a filter-and-convert loop. */
  lemma FilterMapSnoc<T, U>(p: T -> bool, f: T -> U, s: seq<T>, x: T)
    ensures Map(f, Filter(p, s + [x])) == Map(f, Filter(p, s)) + (if p(x) then [f(x)] else [])
  {
    assert (s + [x])[..|s + [x]| - 1] == s;
    MapAppend(f, Filter(p, s), if p(x) then [x] else []);
  }

  /** Indices strictly increasing: the positions of a subsequence. */
  ghost predicate StrictlyIncreasing(idx: seq<nat>) {
    forall j, k :: 0 <= j < k < |idx| ==> idx[j] < idx[k]
  }

  /** `a` is `b` with some of its elements left out and the rest in order. */
  ghost predicate IsSubsequence<T>(a: seq<T>, b: seq<T>) {
    exists idx: seq<nat> ::
      |idx| == |a| && StrictlyIncreasing(idx) &&
      forall k :: 0 <= k < |idx| ==> idx[k] < |b| && a[k] == b[idx[k]]
  }

  /** The positions in `s` of the elements `Filter` keeps, in increasing order. */
  lemma {:induction false} FilterPositions<T>(p: T -> bool, s: seq<T>) returns (idx: seq<nat>)
    ensures |idx| == |Filter(p, s)| && StrictlyIncreasing(idx)
    ensures forall k :: 0 <= k < |idx| ==> idx[k] < |s| && Filter(p, s)[k] == s[idx[k]]
    decreases |s|
  {
    if s == [] {
      idx := [];
    } else {
      var init := s[..|s| - 1];
      var prev := FilterPositions(p, init);
      var last := s[|s| - 1];
      assert forall k :: 0 <= k < |prev| ==> prev[k] < |init| && s[prev[k]] == init[prev[k]];
      if p(last) {
        idx := prev + [|s| - 1];
        assert Filter(p, s) == Filter(p, init) + [last];
      } else {
        idx := prev;
        assert Filter(p, s) == Filter(p, init);
      }
    }
  }

  /** `Filter` keeps order: its result is a subsequence of its input. */
  lemma FilterIsSubsequence<T>(p: T -> bool, s: seq<T>)
    ensures IsSubsequence(Filter(p, s), s)
  {
    var idx := FilterPositions(p, s);
  }
}
