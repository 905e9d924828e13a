/** `Array.prototype.filter` and the order-preservation it promises. */
module Seqs {

  /** The elements of `s` that satisfy `keep`, in their original order. */
  function Filter<T(==,!new)>(s: seq<T>, keep: T -> bool): (r: seq<T>)
    ensures |r| <= |s|
    ensures forall i :: 0 <= i < |r| ==> keep(r[i])
    ensures forall x :: multiset(r)[x] == if keep(x) then multiset(s)[x] else 0
  {
    if s == [] then []
    else
      assert s == [s[0]] + s[1..];
      if keep(s[0]) then [s[0]] + Filter(s[1..], keep) else Filter(s[1..], keep)
  }

  /** `idx` lists, in increasing order, the positions of `s` that make up `r`. */
  ghost predicate IsEmbedding<T>(idx: seq<nat>, r: seq<T>, s: seq<T>)
  {
    && |idx| == |r|
    && (forall k :: 0 <= k < |idx| ==> idx[k] < |s| && r[k] == s[idx[k]])
    && (forall k, l :: 0 <= k < l < |idx| ==> idx[k] < idx[l])
  }

  /** `r` is obtained from `s` by deleting elements, without reordering the rest. */
  ghost predicate IsSubsequence<T>(r: seq<T>, s: seq<T>)
  {
    exists idx :: IsEmbedding(idx, r, s)
  }

  /** An embedding of `r` into the tail of `s` is one into `s`, shifted by one. */
  lemma ShiftEmbedding<T>(idx: seq<nat>, r: seq<T>, s: seq<T>) returns (shifted: seq<nat>)
    requires s != [] && IsEmbedding(idx, r, s[1..])
    ensures IsEmbedding(shifted, r, s)
    ensures forall k :: 0 <= k < |shifted| ==> shifted[k] > 0
  {
    shifted := seq(|idx|, k requires 0 <= k < |idx| => idx[k] + 1);
    forall k | 0 <= k < |shifted|
      ensures shifted[k] < |s| && r[k] == s[shifted[k]]
    {
      assert s[shifted[k]] == s[1..][idx[k]];
    }
  }

  /** An embedding whose positions are all past 0 extends by the head of `s`. */
  lemma ConsEmbedding<T>(idx: seq<nat>, r: seq<T>, s: seq<T>)
    requires s != [] && IsEmbedding(idx, r, s)
    requires forall k :: 0 <= k < |idx| ==> idx[k] > 0
    ensures IsEmbedding([0] + idx, [s[0]] + r, s)
  {
  }

  /** Filtering only deletes elements and never reorders the ones it keeps. */
  lemma {:induction false} FilterIsSubsequence<T(!new)>(s: seq<T>, keep: T -> bool)
    ensures IsSubsequence(Filter(s, keep), s)
  {
    if s == [] {
      assert IsEmbedding([], Filter(s, keep), s);
    } else {
      FilterIsSubsequence(s[1..], keep);
      var tail := Filter(s[1..], keep);
      var idx :| IsEmbedding(idx, tail, s[1..]);
      var shifted := ShiftEmbedding(idx, tail, s);
      if keep(s[0]) {
        ConsEmbedding(shifted, tail, s);
        assert IsEmbedding([0] + shifted, Filter(s, keep), s);
      } else {
        assert IsEmbedding(shifted, Filter(s, keep), s);
      }
    }
  }

  /** A filter that every element passes returns its input unchanged. */
  lemma {:induction false} FilterKeepsAll<T(!new)>(s: seq<T>, keep: T -> bool)
    requires forall i :: 0 <= i < |s| ==> keep(s[i])
    ensures Filter(s, keep) == s
  {
    if s != [] {
      FilterKeepsAll(s[1..], keep);
    }
  }

  /** Filtering by two extensionally equal conditions gives the same list. */
  lemma {:induction false} FilterCongruent<T(!new)>(s: seq<T>, p: T -> bool, q: T -> bool)
    requires forall x :: p(x) == q(x)
    ensures Filter(s, p) == Filter(s, q)
  {
    if s != [] {
      FilterCongruent(s[1..], p, q);
    }
  }

  /** Two filters in a row are one filter by the conjunction of their conditions. */
  lemma {:induction false} FilterFuse<T(!new)>(s: seq<T>, p: T -> bool, q: T -> bool, pq: T -> bool)
    requires forall x :: pq(x) == (p(x) && q(x))
    ensures Filter(Filter(s, p), q) == Filter(s, pq)
  {
    if s != [] {
      FilterFuse(s[1..], p, q, pq);
      if p(s[0]) {
        assert Filter(s, p) == [s[0]] + Filter(s[1..], p);
        assert Filter(s, p)[1..] == Filter(s[1..], p);
      } else {
        assert Filter(s, p) == Filter(s[1..], p);
      }
    }
  }
}
