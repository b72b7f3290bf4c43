/** Order-preserving selection over sequences: the one operation behind every
    row filter of the screening script and the portfolio's bucket selection. */
module Sequences {

  /** The elements of `s` that satisfy `p`, in their original order. */
  function Filter<T>(s: seq<T>, p: T -> bool): (r: seq<T>)
    ensures |r| <= |s|
    ensures forall x :: x in r ==> x in s && p(x)
    ensures forall i :: 0 <= i < |s| && p(s[i]) ==> s[i] in r
  {
    if |s| == 0 then []
    else if p(s[0]) then [s[0]] + Filter(s[1..], p)
    else Filter(s[1..], p)
  }

  /** The positions `lo <= i < |s|` whose element satisfies `p`, ascending. */
  function KeptFrom<T>(s: seq<T>, p: T -> bool, lo: nat): (idx: seq<nat>)
    requires lo <= |s|
    ensures forall k :: 0 <= k < |idx| ==> lo <= idx[k] < |s| && p(s[idx[k]])
    ensures forall k, l :: 0 <= k < l < |idx| ==> idx[k] < idx[l]
    ensures forall i :: lo <= i < |s| && p(s[i]) ==> i in idx
    decreases |s| - lo
  {
    if lo == |s| then []
    else if p(s[lo]) then [lo] + KeptFrom(s, p, lo + 1)
    else KeptFrom(s, p, lo + 1)
  }

  /** The positions of `s` whose element satisfies `p`, ascending. */
  function Kept<T>(s: seq<T>, p: T -> bool): seq<nat> {
    KeptFrom(s, p, 0)
  }

  /** `r` is `s` read at the strictly increasing positions `idx`: a subsequence whose
      elements are carried over unchanged. */
  ghost predicate SelectedAt<T>(r: seq<T>, s: seq<T>, idx: seq<nat>) {
    && |idx| == |r|
    && (forall k :: 0 <= k < |idx| ==> idx[k] < |s| && r[k] == s[idx[k]])
    && (forall k, l :: 0 <= k < l < |idx| ==> idx[k] < idx[l])
  }

  /** Filtering keeps exactly the satisfying positions, in order, with elements unchanged. */
  lemma FilterSelection<T>(s: seq<T>, p: T -> bool)
    ensures SelectedAt(Filter(s, p), s, Kept(s, p))
  {
    assert s[0..] == s;
    FilterSelectionFrom(s, p, 0);
  }

  lemma {:induction false} FilterSelectionFrom<T>(s: seq<T>, p: T -> bool, lo: nat)
    requires lo <= |s|
    ensures SelectedAt(Filter(s[lo..], p), s, KeptFrom(s, p, lo))
    decreases |s| - lo
  {
    if lo < |s| {
      FilterSelectionFrom(s, p, lo + 1);
      var f := Filter(s[lo + 1..], p);
      var idx := KeptFrom(s, p, lo + 1);
      assert s[lo..][0] == s[lo];
      assert s[lo..][1..] == s[lo + 1..];
      if p(s[lo]) {
        assert Filter(s[lo..], p) == [s[lo]] + f;
        assert KeptFrom(s, p, lo) == [lo] + idx;
        SelectedAtCons(f, s, idx, lo);
      } else {
        assert Filter(s[lo..], p) == f;
        assert KeptFrom(s, p, lo) == idx;
      }
    }
  }

  /** Selecting one more position, before all the others, extends the selection. */
  lemma SelectedAtCons<T>(r: seq<T>, s: seq<T>, idx: seq<nat>, lo: nat)
    requires SelectedAt(r, s, idx)
    requires lo < |s|
    requires forall k :: 0 <= k < |idx| ==> lo < idx[k]
    ensures SelectedAt([s[lo]] + r, s, [lo] + idx)
  {
    var r', idx' := [s[lo]] + r, [lo] + idx;
    forall k | 0 <= k < |idx'|
      ensures idx'[k] < |s| && r'[k] == s[idx'[k]]
    {
      if k > 0 {
        assert r'[k] == r[k - 1] && idx'[k] == idx[k - 1];
      }
    }
  }

  /** A sequence all of whose elements pass is left as it is. */
  lemma {:induction false} FilterKeepsAll<T>(s: seq<T>, p: T -> bool)
    requires forall i :: 0 <= i < |s| ==> p(s[i])
    ensures Filter(s, p) == s
  {
    if |s| > 0 {
      FilterKeepsAll(s[1..], p);
    }
  }

  /** Filtering a second time with the same predicate removes nothing. */
  lemma FilterIdempotent<T>(s: seq<T>, p: T -> bool)
    ensures Filter(Filter(s, p), p) == Filter(s, p)
  {
    var r := Filter(s, p);
    assert forall i :: 0 <= i < |r| ==> p(r[i]) by {
      forall i | 0 <= i < |r|
        ensures p(r[i])
      {
        assert r[i] in r;
      }
    }
    FilterKeepsAll(r, p);
  }

  /** Two filters in a row are one filter by the conjunction. */
  lemma {:induction false} FilterFuse<T>(s: seq<T>, p: T -> bool, q: T -> bool, both: T -> bool)
    requires forall x :: both(x) == (p(x) && q(x))
    ensures Filter(Filter(s, p), q) == Filter(s, both)
  {
    if |s| > 0 {
      FilterFuse(s[1..], p, q, both);
      if p(s[0]) {
        var t := [s[0]] + Filter(s[1..], p);
        assert t[0] == s[0] && t[1..] == Filter(s[1..], p);
      }
    }
  }

  /** Filtering depends only on which elements pass. */
  lemma FilterExtensional<T>(s: seq<T>, p: T -> bool, q: T -> bool)
    requires forall x :: p(x) == q(x)
    ensures Filter(s, p) == Filter(s, q)
  {
    FilterFuse(s, p, p, q);
    FilterIdempotent(s, p);
  }

  /** Filtering depends only on which elements of `s` pass. */
  lemma {:induction false} FilterAgree<T>(s: seq<T>, p: T -> bool, q: T -> bool)
    requires forall x :: x in s ==> p(x) == q(x)
    ensures Filter(s, p) == Filter(s, q)
  {
    if |s| > 0 {
      assert s[0] in s;
      assert forall x :: x in s[1..] ==> x in s;
      FilterAgree(s[1..], p, q);
    }
  }

  /** Filters commute. */
  lemma FilterCommute<T>(s: seq<T>, p: T -> bool, q: T -> bool)
    ensures Filter(Filter(s, p), q) == Filter(Filter(s, q), p)
  {
    var both := (x: T) => p(x) && q(x);
    FilterFuse(s, p, q, both);
    FilterFuse(s, q, p, both);
  }

  /** Filtering an element put in front. */
  lemma FilterCons<T>(x: T, s: seq<T>, p: T -> bool)
    ensures Filter([x] + s, p) == if p(x) then [x] + Filter(s, p) else Filter(s, p)
  {
    assert ([x] + s)[0] == x && ([x] + s)[1..] == s;
  }

  /** Filtering distributes over concatenation. */
  lemma {:induction false} FilterConcat<T>(a: seq<T>, b: seq<T>, p: T -> bool)
    ensures Filter(a + b, p) == Filter(a, p) + Filter(b, p)
  {
    if |a| > 0 {
      FilterConcat(a[1..], b, p);
      assert a == [a[0]] + a[1..];
      FilterConcatStep(a[0], a[1..], b, p);
    } else {
      assert a + b == b;
    }
  }

  lemma FilterConcatStep<T>(x: T, a: seq<T>, b: seq<T>, p: T -> bool)
    requires Filter(a + b, p) == Filter(a, p) + Filter(b, p)
    ensures Filter(([x] + a) + b, p) == Filter([x] + a, p) + Filter(b, p)
  {
    ConsAssociates(x, a, b);
    FilterCons(x, a, p);
    FilterCons(x, a + b, p);
    if p(x) {
      ConsAssociates(x, Filter(a, p), Filter(b, p));
    }
  }

  lemma ConsAssociates<T>(x: T, a: seq<T>, b: seq<T>)
    ensures ([x] + a) + b == [x] + (a + b)
  {
  }

  /** A sequence none of whose elements pass filters to nothing. */
  lemma FilterKeepsNone<T>(s: seq<T>, p: T -> bool)
    requires forall i :: 0 <= i < |s| ==> !p(s[i])
    ensures Filter(s, p) == []
  {
  }

  /** A middle part that passes entirely, between two parts that fail entirely, is
      exactly what the filter keeps. */
  lemma FilterMiddle<T>(a: seq<T>, b: seq<T>, c: seq<T>, p: T -> bool)
    requires forall i :: 0 <= i < |a| ==> !p(a[i])
    requires forall i :: 0 <= i < |b| ==> p(b[i])
    requires forall i :: 0 <= i < |c| ==> !p(c[i])
    ensures Filter(a + (b + c), p) == b
  {
    FilterConcat(a, b + c, p);
    FilterConcat(b, c, p);
    FilterKeepsNone(a, p);
    FilterKeepsNone(c, p);
    FilterKeepsAll(b, p);
    assert [] + (b + []) == b;
  }

  /** A weaker predicate keeps at least as many elements. */
  lemma {:induction false} FilterCountMonotone<T>(s: seq<T>, p: T -> bool, q: T -> bool)
    requires forall x :: p(x) ==> q(x)
    ensures |Filter(s, p)| <= |Filter(s, q)|
  {
    if |s| > 0 {
      FilterCountMonotone(s[1..], p, q);
    }
  }

  /** One failing element is enough to make the filter drop something. */
  lemma {:induction false} FilterDropsFailing<T>(s: seq<T>, p: T -> bool, i: int)
    requires 0 <= i < |s| && !p(s[i])
    ensures |Filter(s, p)| < |s|
  {
    if i > 0 {
      assert s[1..][i - 1] == s[i];
      FilterDropsFailing(s[1..], p, i - 1);
    }
  }
}
