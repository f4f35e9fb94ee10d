/**
 This module defines the one selection operation the rest of the model is
 built on: keeping, in their original order, the elements of a sequence that
 satisfy a predicate. A boolean-mask row selection over a table and a list
 comprehension with an `if` clause both have this meaning.
 */
module Sequences {

  /** The elements of `s` that satisfy `p`, in the order they occur in `s`.
      Duplicates are kept: every occurrence is judged on its own. */
  function Filter<T(!new)>(s: seq<T>, p: T -> bool): (r: seq<T>)
    ensures |r| <= |s|
    ensures forall x :: x in r <==> x in s && p(x)
    decreases |s|
  {
    if |s| == 0 then []
    else
      var init := s[..|s| - 1];
      assert forall x :: x in s <==> x in init || x == s[|s| - 1];
      Filter(init, p) + (if p(s[|s| - 1]) then [s[|s| - 1]] else [])
  }

  /** The indices of `s` whose elements satisfy `p`, in increasing order. */
  function Positions<T>(s: seq<T>, p: T -> bool): (idx: seq<nat>)
    ensures forall k :: 0 <= k < |idx| ==> idx[k] < |s| && p(s[idx[k]])
    ensures forall k, l :: 0 <= k < l < |idx| ==> idx[k] < idx[l]
    ensures forall i :: 0 <= i < |s| && p(s[i]) ==> i in idx
    decreases |s|
  {
    if |s| == 0 then []
    else
      var init := s[..|s| - 1];
      Positions(init, p) + (if p(s[|s| - 1]) then [|s| - 1] else [])
  }

  /** `r` is read off `s` at the strictly increasing indices `idx`. */
  ghost predicate SelectedAt<T>(r: seq<T>, s: seq<T>, idx: seq<nat>)
  {
    && |idx| == |r|
    && (forall k :: 0 <= k < |idx| ==> idx[k] < |s| && r[k] == s[idx[k]])
    && (forall k, l :: 0 <= k < l < |idx| ==> idx[k] < idx[l])
  }

  /** `r` is a sub-sequence of `s`: some strictly increasing choice of indices reads it off `s`. */
  ghost predicate IsSubsequence<T>(r: seq<T>, s: seq<T>)
  {
    exists idx :: SelectedAt(r, s, idx)
  }

  /** Appending one element to the input appends it to the selection exactly when it qualifies. */
  lemma {:induction false} FilterSnoc<T(!new)>(s: seq<T>, x: T, p: T -> bool)
    ensures Filter(s + [x], p) == Filter(s, p) + (if p(x) then [x] else [])
  {
    assert (s + [x])[..|s + [x]| - 1] == s;
  }

  /** The selection is exactly the input read at the qualifying positions, in order:
      an element is kept if and only if it satisfies `p`, and nothing is reordered. */
  lemma FilterSelectsPositions<T(!new)>(s: seq<T>, p: T -> bool)
    ensures SelectedAt(Filter(s, p), s, Positions(s, p))
    ensures forall i :: 0 <= i < |s| ==> (i in Positions(s, p) <==> p(s[i]))
  {
    FilterReadsPositions(s, p);
  }

  /** The k-th selected element is the input's element at the k-th qualifying position. */
  lemma {:induction false} FilterReadsPositions<T(!new)>(s: seq<T>, p: T -> bool)
    ensures |Filter(s, p)| == |Positions(s, p)|
    ensures forall k :: 0 <= k < |Filter(s, p)| ==> Filter(s, p)[k] == s[Positions(s, p)[k]]
    decreases |s|
  {
    if |s| > 0 {
      var init := s[..|s| - 1];
      var last := |s| - 1;
      FilterReadsPositions(init, p);
      var f, q := Filter(init, p), Positions(init, p);
      var r, idx := Filter(s, p), Positions(s, p);
      if p(s[last]) {
        assert r == f + [s[last]];
        assert idx == q + [last];
        forall k | 0 <= k < |r|
          ensures r[k] == s[idx[k]]
        {
          if k < |f| {
            assert r[k] == f[k] == init[q[k]];
          }
        }
      } else {
        assert r == f && idx == q;
        forall k | 0 <= k < |r|
          ensures r[k] == s[idx[k]]
        {
          assert r[k] == init[q[k]];
        }
      }
    }
  }

  /** Every selection is a sub-sequence of its input. */
  lemma FilterIsSubsequence<T(!new)>(s: seq<T>, p: T -> bool)
    ensures IsSubsequence(Filter(s, p), s)
  {
    FilterSelectsPositions(s, p);
  }

  /** Selecting again with the same predicate changes nothing. */
  lemma {:induction false} FilterIdempotent<T(!new)>(s: seq<T>, p: T -> bool)
    ensures Filter(Filter(s, p), p) == Filter(s, p)
    decreases |s|
  {
    if |s| > 0 {
      var init := s[..|s| - 1];
      var last := s[|s| - 1];
      FilterIdempotent(init, p);
      if p(last) {
        assert Filter(s, p) == Filter(init, p) + [last];
        FilterSnoc(Filter(init, p), last, p);
      } else {
        assert Filter(s, p) == Filter(init, p);
      }
    }
  }

  /** Two selections over the same input can be applied in either order. */
  lemma {:induction false} FilterCommutes<T(!new)>(s: seq<T>, p: T -> bool, q: T -> bool)
    ensures Filter(Filter(s, p), q) == Filter(Filter(s, q), p)
    decreases |s|
  {
    if |s| > 0 {
      var init := s[..|s| - 1];
      var last := s[|s| - 1];
      FilterCommutes(init, p, q);
      if p(last) {
        assert Filter(s, p) == Filter(init, p) + [last];
        FilterSnoc(Filter(init, p), last, q);
      } else {
        assert Filter(s, p) == Filter(init, p);
      }
      if q(last) {
        assert Filter(s, q) == Filter(init, q) + [last];
        FilterSnoc(Filter(init, q), last, p);
      } else {
        assert Filter(s, q) == Filter(init, q);
      }
    }
  }

  /** Concatenation regroups freely. */
  lemma ConcatAssociates<X>(a: seq<X>, b: seq<X>, c: seq<X>)
    ensures (a + b) + c == a + (b + c)
  {
  }
}
