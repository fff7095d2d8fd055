/**
 * Kotlin's collection helpers over lists, as the locators and the mock
 * servlet classes use them: `filter` and `firstOrNull`.
 */
module Seqs {
  import opened Wrappers

  /** Concatenation is associative: a named step for proofs that regroup. */
  lemma Regroup<T>(a: seq<T>, b: seq<T>, c: seq<T>)
    ensures (a + b) + c == a + (b + c)
  {
  }

  /** `filter { keep(it) }`: the elements that pass, in their order. */
  function Filter<T(!new)>(xs: seq<T>, keep: T -> bool): (r: seq<T>)
    ensures forall x :: x in r <==> x in xs && keep(x)
    ensures |r| <= |xs|
  {
    if |xs| == 0 then []
    else
      var rest := Filter(xs[1..], keep);
      assert forall x :: x in xs <==> x == xs[0] || x in xs[1..];
      if keep(xs[0]) then [xs[0]] + rest else rest
  }

  /** Filtering keeps the order: it distributes over concatenation. */
  lemma {:induction false} FilterAppend<T(!new)>(a: seq<T>, b: seq<T>, keep: T -> bool)
    ensures Filter(a + b, keep) == Filter(a, keep) + Filter(b, keep)
  {
    if |a| == 0 {
      assert a + b == b;
    } else {
      assert (a + b)[0] == a[0];
      assert (a + b)[1..] == a[1..] + b;
      FilterAppend(a[1..], b, keep);
    }
  }

  /**
   * `r` is the elements of `xs` at the positions `idx`, which ascend: `r` is
   * a subsequence of `xs`, in the same order, duplicates included.
   */
  ghost predicate Picks<T>(xs: seq<T>, idx: seq<int>, r: seq<T>)
  {
    && |idx| == |r|
    && (forall k :: 0 <= k < |idx| ==> 0 <= idx[k] < |xs| && xs[idx[k]] == r[k])
    && (forall k, l :: 0 <= k < l < |idx| ==> idx[k] < idx[l])
  }

  /** Every position of `xs` is shifted by the element put in front. */
  function Shifted(idx: seq<int>): (r: seq<int>)
    ensures |r| == |idx| && forall k :: 0 <= k < |idx| ==> r[k] == idx[k] + 1
  {
    seq(|idx|, k requires 0 <= k < |idx| => idx[k] + 1)
  }

  /** A position is in the shifted list exactly when the one before it was in the list. */
  lemma ShiftedIn(idx: seq<int>, i: int)
    ensures i in Shifted(idx) <==> i - 1 in idx
  {
    var sh := Shifted(idx);
    if i - 1 in idx {
      var k :| 0 <= k < |idx| && idx[k] == i - 1;
      assert sh[k] == i;
    }
    if i in sh {
      var k :| 0 <= k < |sh| && sh[k] == i;
    }
  }

  /** Putting an element in front of `xs` shifts the positions of a subsequence by one. */
  lemma ShiftPicks<T>(x: T, xs: seq<T>, idx: seq<int>, r: seq<T>)
    requires Picks(xs, idx, r)
    ensures Picks([x] + xs, Shifted(idx), r)
    ensures Picks([x] + xs, [0] + Shifted(idx), [x] + r)
  {
    var full := [0] + Shifted(idx);
    forall k | 0 < k < |full|
      ensures full[k] == idx[k - 1] + 1 && ([x] + r)[k] == r[k - 1]
    {
    }
  }

  /**
   * `filter` keeps the order of the list: its result is the elements at
   * exactly the positions whose element passes, in ascending position order.
   */
  lemma {:induction false} FilterInOrder<T(!new)>(xs: seq<T>, keep: T -> bool)
    ensures exists idx :: Picks(xs, idx, Filter(xs, keep))
                          && forall i :: 0 <= i < |xs| ==> (keep(xs[i]) <==> i in idx)
  {
    if |xs| == 0 {
      assert Picks(xs, [], Filter(xs, keep));
    } else {
      var tail := xs[1..];
      assert xs == [xs[0]] + tail;
      FilterInOrder(tail, keep);
      var idx :| Picks(tail, idx, Filter(tail, keep)) && forall i :: 0 <= i < |tail| ==> (keep(tail[i]) <==> i in idx);
      ShiftPicks(xs[0], tail, idx, Filter(tail, keep));
      var full := if keep(xs[0]) then [0] + Shifted(idx) else Shifted(idx);
      assert Picks(xs, full, Filter(xs, keep));
      forall i | 0 <= i < |xs|
        ensures keep(xs[i]) <==> i in full
      {
        ShiftedIn(idx, i);
        if i > 0 {
          assert xs[i] == tail[i - 1];
        }
      }
    }
  }

  /** A single element is kept exactly when it passes. */
  lemma FilterOne<T(!new)>(x: T, keep: T -> bool)
    ensures Filter([x], keep) == if keep(x) then [x] else []
  {
    assert [x][1..] == [];
  }

  /** `firstOrNull { p(it) }`: the earliest element satisfying `p`, null when none does. */
  function FirstOrNull<T>(xs: seq<T>, p: T -> bool): (r: Option<T>)
    ensures r.None? <==> forall i :: 0 <= i < |xs| ==> !p(xs[i])
    ensures r.Some? ==> exists i :: 0 <= i < |xs| && xs[i] == r.value && p(xs[i])
                                    && forall j :: 0 <= j < i ==> !p(xs[j])
  {
    if |xs| == 0 then None
    else if p(xs[0]) then Some(xs[0])
    else
      var rest := FirstOrNull(xs[1..], p);
      assert forall i :: 1 <= i < |xs| ==> xs[i] == xs[1..][i - 1];
      rest
  }
}
