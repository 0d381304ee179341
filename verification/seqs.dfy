/** Sequence operations shared by the pipeline and the listing code:
    `Array.prototype.filter` and `Array.prototype.sort` with a comparator,
    and the order relations used to state what they guarantee. */
module Seqs {

  /** `Array.prototype.filter`: keeps, left to right, the elements that
      satisfy `p`. */
  function Filter<T>(p: T -> bool, s: seq<T>): (r: seq<T>)
    ensures |r| <= |s|
    ensures forall k :: 0 <= k < |r| ==> r[k] in s && p(r[k])
    ensures forall k :: 0 <= k < |s| && p(s[k]) ==> s[k] in r
    decreases |s|
  {
    if |s| == 0 then []
    else if p(s[0]) then [s[0]] + Filter(p, s[1..])
    else Filter(p, s[1..])
  }

  /** `idx` embeds `a` into `b` in order: `a[k]` is `b[idx[k]]` and the
      positions strictly increase. */
  ghost predicate Embedding<T>(idx: seq<int>, a: seq<T>, b: seq<T>) {
    && |idx| == |a|
    && (forall k :: 0 <= k < |idx| ==> 0 <= idx[k] < |b| && a[k] == b[idx[k]])
    && (forall k, l :: 0 <= k < l < |idx| ==> idx[k] < idx[l])
  }

  /** `a` is an order-preserving subsequence of `b`. */
  ghost predicate IsSubsequence<T>(a: seq<T>, b: seq<T>) {
    exists idx :: Embedding(idx, a, b)
  }

  function Shift(idx: seq<int>): (r: seq<int>)
    ensures |r| == |idx| && forall k :: 0 <= k < |idx| ==> r[k] == idx[k] + 1
  {
    seq(|idx|, k requires 0 <= k < |idx| => idx[k] + 1)
  }

  lemma ShiftMembers(idx: seq<int>)
    ensures forall j :: j in Shift(idx) <==> j - 1 in idx
  {
    forall j ensures j in Shift(idx) <==> j - 1 in idx {
      if j - 1 in idx {
        var k :| 0 <= k < |idx| && idx[k] == j - 1;
        assert Shift(idx)[k] == j;
      }
    }
  }

  /** An embedding survives putting one more element in front of the
      target, and of both sequences. */
  lemma EmbedCons<T>(idx: seq<int>, a: seq<T>, b: seq<T>, x: T)
    requires Embedding(idx, a, b)
    ensures Embedding(Shift(idx), a, [x] + b)
    ensures Embedding([0] + Shift(idx), [x] + a, [x] + b)
  {
    var sh := Shift(idx);
    assert forall k :: 0 <= k < |sh| ==> ([x] + b)[sh[k]] == b[idx[k]];
    var sh0 := [0] + sh;
    forall k | 0 <= k < |sh0| ensures 0 <= sh0[k] < |[x] + b| && ([x] + a)[k] == ([x] + b)[sh0[k]] {
      if k > 0 {
        assert sh0[k] == sh[k - 1];
      }
    }
  }

  /** The filter's result picks out exactly the positions of `s` whose
      element satisfies `p`, in their original order. */
  lemma {:induction false} FilterPicksPositions<T>(p: T -> bool, s: seq<T>) returns (idx: seq<int>)
    ensures Embedding(idx, Filter(p, s), s)
    ensures forall j :: 0 <= j < |s| ==> (p(s[j]) <==> j in idx)
    decreases |s|
  {
    if |s| == 0 {
      idx := [];
    } else {
      var rest := FilterPicksPositions(p, s[1..]);
      EmbedCons(rest, Filter(p, s[1..]), s[1..], s[0]);
      ShiftMembers(rest);
      assert [s[0]] + s[1..] == s;
      idx := if p(s[0]) then [0] + Shift(rest) else Shift(rest);
      forall j | 0 <= j < |s| ensures p(s[j]) <==> j in idx {
        if j > 0 {
          assert s[j] == s[1..][j - 1];
          assert j in idx <==> j in Shift(rest);
        }
      }
    }
  }

  /** Filtering returns an order-preserving subsequence of its input. */
  lemma FilterIsSubsequence<T>(p: T -> bool, s: seq<T>)
    ensures IsSubsequence(Filter(p, s), s)
  {
    var idx := FilterPicksPositions(p, s);
  }

  /** Filtering a second time with the same predicate changes nothing. */
  lemma {:induction false} FilterIsIdempotent<T>(p: T -> bool, s: seq<T>)
    ensures Filter(p, Filter(p, s)) == Filter(p, s)
    decreases |s|
  {
    if |s| > 0 {
      FilterIsIdempotent(p, s[1..]);
      if p(s[0]) {
        assert ([s[0]] + Filter(p, s[1..]))[1..] == Filter(p, s[1..]);
      }
    }
  }

  /** A filter whose predicate holds of every element returns its input. */
  lemma {:induction false} FilterKeepsAll<T>(p: T -> bool, s: seq<T>)
    requires forall k :: 0 <= k < |s| ==> p(s[k])
    ensures Filter(p, s) == s
    decreases |s|
  {
    if |s| > 0 {
      FilterKeepsAll(p, s[1..]);
      assert [s[0]] + s[1..] == s;
    }
  }

  /** Two filters whose predicates agree on every element of `s` return the
      same result. */
  lemma {:induction false} FilterCongruent<T>(p: T -> bool, q: T -> bool, s: seq<T>)
    requires forall k :: 0 <= k < |s| ==> p(s[k]) == q(s[k])
    ensures Filter(p, s) == Filter(q, s)
    decreases |s|
  {
    if |s| > 0 {
      FilterCongruent(p, q, s[1..]);
    }
  }

  /** A filter whose predicate holds of no element returns nothing. */
  lemma {:induction false} FilterKeepsNone<T>(p: T -> bool, s: seq<T>)
    requires forall k :: 0 <= k < |s| ==> !p(s[k])
    ensures Filter(p, s) == []
    decreases |s|
  {
    if |s| > 0 {
      FilterKeepsNone(p, s[1..]);
    }
  }

  /** `le` is total and transitive: what a comparator derived from
      `localeCompare` is assumed to be. Totality makes it reflexive. */
  ghost predicate TotalPreorder<T(!new)>(le: (T, T) -> bool) {
    && (forall a, b :: le(a, b) || le(b, a))
    && (forall a, b, c :: le(a, b) && le(b, c) ==> le(a, c))
  }

  ghost predicate SortedBy<T>(le: (T, T) -> bool, s: seq<T>) {
    forall i, j :: 0 <= i < j < |s| ==> le(s[i], s[j])
  }

  /** An element below everything in a sorted sequence can go in front. */
  lemma PrependSorted<T(!new)>(le: (T, T) -> bool, x: T, s: seq<T>)
    requires TotalPreorder(le) && SortedBy(le, s)
    requires forall k :: 0 <= k < |s| ==> le(x, s[k])
    ensures SortedBy(le, [x] + s)
  {
    forall i, j | 0 <= i < j < |s| + 1 ensures le(([x] + s)[i], ([x] + s)[j]) {
      assert ([x] + s)[j] == s[j - 1];
      if i > 0 {
        assert ([x] + s)[i] == s[i - 1];
      }
    }
  }

  /** Whatever is below every element of `s` and below `x` is below every
      element of a sequence with the same elements as `s` plus `x`. */
  lemma BelowAllOfPermutation<T(!new)>(le: (T, T) -> bool, y: T, x: T, s: seq<T>, t: seq<T>)
    requires multiset(t) == multiset(s) + multiset{x}
    requires le(y, x) && forall k :: 0 <= k < |s| ==> le(y, s[k])
    ensures forall k :: 0 <= k < |t| ==> le(y, t[k])
  {
    forall k | 0 <= k < |t| ensures le(y, t[k]) {
      assert t[k] in multiset(t);
      if t[k] != x {
        assert t[k] in multiset(s);
        var m :| 0 <= m < |s| && s[m] == t[k];
      }
    }
  }

  /** Inserts `x` into sorted `s` after every element that is not above it,
      so that equal elements keep their arrival order. */
  function Insert<T(!new)>(le: (T, T) -> bool, x: T, s: seq<T>): (r: seq<T>)
    requires TotalPreorder(le) && SortedBy(le, s)
    ensures SortedBy(le, r)
    ensures multiset(r) == multiset(s) + multiset{x}
    decreases |s|
  {
    if |s| == 0 then [x]
    else if le(s[0], x) then
      var tail := Insert(le, x, s[1..]);
      assert s == [s[0]] + s[1..];
      assert forall k :: 0 <= k < |s[1..]| ==> le(s[0], s[1..][k]);
      BelowAllOfPermutation(le, s[0], x, s[1..], tail);
      PrependSorted(le, s[0], tail);
      [s[0]] + tail
    else
      assert le(x, s[0]);
      assert forall k :: 0 <= k < |s| ==> le(x, s[k]);
      PrependSorted(le, x, s);
      [x] + s
  }

  /** A stable insertion sort: `Array.prototype.sort` with a comparator is
      stable, so elements are inserted in input order, each after the equal
      ones already placed. The result is sorted and a permutation of `s`. */
  function Sort<T(!new)>(le: (T, T) -> bool, s: seq<T>): (r: seq<T>)
    requires TotalPreorder(le)
    ensures SortedBy(le, r)
    ensures multiset(r) == multiset(s)
    decreases |s|
  {
    if |s| == 0 then []
    else
      assert s == s[..|s| - 1] + [s[|s| - 1]];
      Insert(le, s[|s| - 1], Sort(le, s[..|s| - 1]))
  }
}
