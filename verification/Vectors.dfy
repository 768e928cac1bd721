/** The numpy vocabulary the sparse kernels are written in: prefix sums, `repeat`,
    the ragged gather, stable `argsort`, run starts and `bincount`. */
module Vectors {

  // ---------------------------------------------------------------- totals and ranges

  function Total(counts: seq<nat>): nat
  {
    if counts == [] then 0 else Total(counts[..|counts| - 1]) + counts[|counts| - 1]
  }

  function Range(start: int, count: nat): seq<int>
  {
    seq(count, i => start + i)
  }

  /** The meaning of a ragged gather: the ranges, one after the other. */
  function ConcatRanges(starts: seq<int>, counts: seq<nat>): seq<int>
    requires |starts| == |counts|
  {
    if starts == [] then []
    else
      var n := |starts| - 1;
      ConcatRanges(starts[..n], counts[..n]) + Range(starts[n], counts[n])
  }

  /** `np.repeat(xs, counts)`. */
  function Repeat<T>(xs: seq<T>, counts: seq<nat>): seq<T>
    requires |xs| == |counts|
  {
    if xs == [] then []
    else
      var n := |xs| - 1;
      Repeat(xs[..n], counts[..n]) + seq(counts[n], _ => xs[n])
  }

  lemma {:induction false} TotalPrefix(counts: seq<nat>, k: nat)
    requires k < |counts|
    ensures Total(counts[..k + 1]) == Total(counts[..k]) + counts[k]
    ensures Total(counts[..k + 1]) <= Total(counts)
    decreases |counts|
  {
    assert counts[..k + 1][..k] == counts[..k];
    var n := |counts| - 1;
    if k == n {
      assert counts[..k + 1] == counts;
    } else {
      assert counts[..n][..k + 1] == counts[..k + 1];
      assert counts[..n][..k] == counts[..k];
      TotalPrefix(counts[..n], k);
    }
  }

  /** Element `i` of range `k` sits at `Total(counts[..k]) + i`. */
  lemma {:induction false} ConcatAt(starts: seq<int>, counts: seq<nat>, k: nat, i: nat)
    requires |starts| == |counts|
    requires k < |starts| && i < counts[k]
    ensures |ConcatRanges(starts, counts)| == Total(counts)
    ensures Total(counts[..k]) + i < Total(counts)
    ensures ConcatRanges(starts, counts)[Total(counts[..k]) + i] == starts[k] + i
    decreases |starts|
  {
    var n := |starts| - 1;
    ConcatLength(starts, counts);
    ConcatLength(starts[..n], counts[..n]);
    TotalPrefix(counts, k);
    if k < n {
      assert counts[..n][..k] == counts[..k];
      ConcatAt(starts[..n], counts[..n], k, i);
    } else {
      assert counts[..k] == counts[..n];
    }
  }

  lemma {:induction false} ConcatLength(starts: seq<int>, counts: seq<nat>)
    requires |starts| == |counts|
    ensures |ConcatRanges(starts, counts)| == Total(counts)
  {
    if starts != [] {
      var n := |starts| - 1;
      ConcatLength(starts[..n], counts[..n]);
    }
  }

  lemma {:induction false} RepeatLength<T>(xs: seq<T>, counts: seq<nat>)
    requires |xs| == |counts|
    ensures |Repeat(xs, counts)| == Total(counts)
  {
    if xs != [] {
      var n := |xs| - 1;
      RepeatLength(xs[..n], counts[..n]);
    }
  }

  lemma {:induction false} RepeatAt<T>(xs: seq<T>, counts: seq<nat>, k: nat, i: nat)
    requires |xs| == |counts|
    requires k < |xs| && i < counts[k]
    ensures |Repeat(xs, counts)| == Total(counts)
    ensures Total(counts[..k]) + i < Total(counts)
    ensures Repeat(xs, counts)[Total(counts[..k]) + i] == xs[k]
    decreases |xs|
  {
    var n := |xs| - 1;
    RepeatLength(xs, counts);
    RepeatLength(xs[..n], counts[..n]);
    TotalPrefix(counts, k);
    if k < n {
      assert counts[..n][..k] == counts[..k];
      RepeatAt(xs[..n], counts[..n], k, i);
    } else {
      assert counts[..k] == counts[..n];
    }
  }

  /** Every position of a ragged layout lies in exactly one range. */
  lemma {:induction false} Locate(counts: seq<nat>, t: nat) returns (k: nat, i: nat)
    requires t < Total(counts)
    ensures k < |counts| && i < counts[k]
    ensures t == Total(counts[..k]) + i
  {
    var n := |counts| - 1;
    if t < Total(counts[..n]) {
      k, i := Locate(counts[..n], t);
      assert counts[..n][..k] == counts[..k];
    } else {
      k, i := n, t - Total(counts[..n]);
    }
  }

  // ---------------------------------------------------------------- ragged gather

  /** `starts[counts > 0], counts[counts > 0]`. */
  function KeepStarts(starts: seq<int>, counts: seq<nat>): seq<int>
    requires |starts| == |counts|
  {
    if starts == [] then []
    else
      var n := |starts| - 1;
      KeepStarts(starts[..n], counts[..n]) + (if counts[n] > 0 then [starts[n]] else [])
  }

  function KeepCounts(counts: seq<nat>): seq<nat>
  {
    if counts == [] then []
    else
      var n := |counts| - 1;
      KeepCounts(counts[..n]) + (if counts[n] > 0 then [counts[n]] else [])
  }

  lemma ConcatAppend(starts: seq<int>, counts: seq<nat>, start: int, count: nat)
    requires |starts| == |counts|
    ensures ConcatRanges(starts + [start], counts + [count]) == ConcatRanges(starts, counts) + Range(start, count)
  {
    assert (starts + [start])[..|starts|] == starts;
    assert (counts + [count])[..|counts|] == counts;
  }

  lemma {:induction false} KeepPreservesRanges(starts: seq<int>, counts: seq<nat>)
    requires |starts| == |counts|
    ensures |KeepStarts(starts, counts)| == |KeepCounts(counts)|
    ensures forall k :: 0 <= k < |KeepCounts(counts)| ==> KeepCounts(counts)[k] > 0
    ensures ConcatRanges(KeepStarts(starts, counts), KeepCounts(counts)) == ConcatRanges(starts, counts)
  {
    if starts != [] {
      var n := |starts| - 1;
      var ks, kc := KeepStarts(starts[..n], counts[..n]), KeepCounts(counts[..n]);
      KeepPreservesRanges(starts[..n], counts[..n]);
      if counts[n] > 0 {
        ConcatAppend(ks, kc, starts[n], counts[n]);
      } else {
        assert ks + [] == ks && kc + [] == kc;
        assert Range(starts[n], counts[n]) == [];
      }
    }
  }

  ghost function Delta(s: seq<int>, p: nat): int
    requires p < |s|
  {
    s[p] - if p == 0 then 0 else s[p - 1]
  }

  /** Difference-encode the ranges into a vector of ones, then take the running sum. */
  method RaggedGather(allStarts: seq<int>, allCounts: seq<nat>) returns (gather: seq<int>)
    requires |allStarts| == |allCounts|
    ensures gather == ConcatRanges(allStarts, allCounts)
  {
    var starts, counts := KeepStarts(allStarts, allCounts), KeepCounts(allCounts);
    KeepPreservesRanges(allStarts, allCounts);
    ghost var spec := ConcatRanges(starts, counts);
    ConcatLength(starts, counts);
    var total := Total(counts);
    if total == 0 {
      return [];
    }
    var out := new int[total](_ => 1);
    out[0] := starts[0];
    var off := counts[0];
    FirstRun(starts, counts);
    for k := 1 to |starts|
      invariant off == Total(counts[..k]) <= total
      invariant forall p :: 0 <= p < off ==> out[p] == Delta(spec, p)
      invariant forall p :: off <= p < total ==> out[p] == 1
    {
      RunDeltas(starts, counts, k);
      out[off] := starts[k] - (starts[k - 1] + counts[k - 1]) + 1;
      off := off + counts[k];
    }
    assert counts[..|starts|] == counts;
    CumSum(out, spec);
    gather := out[..];
  }

  lemma {:induction false} FirstRun(starts: seq<int>, counts: seq<nat>)
    requires |starts| == |counts| > 0
    requires forall k :: 0 <= k < |counts| ==> counts[k] > 0
    ensures |ConcatRanges(starts, counts)| == Total(counts)
    ensures Total(counts[..1]) == counts[0] <= Total(counts)
    ensures forall p :: 0 <= p < counts[0] ==>
      Delta(ConcatRanges(starts, counts), p) == if p == 0 then starts[0] else 1
  {
    TotalPrefix(counts, 0);
    ConcatLength(starts, counts);
    forall p | 0 <= p < counts[0]
      ensures Delta(ConcatRanges(starts, counts), p) == if p == 0 then starts[0] else 1
    {
      ConcatAt(starts, counts, 0, p);
      if p > 0 {
        ConcatAt(starts, counts, 0, p - 1);
      }
    }
  }

  lemma {:induction false} RunDeltas(starts: seq<int>, counts: seq<nat>, k: nat)
    requires |starts| == |counts|
    requires 1 <= k < |counts|
    requires forall m :: 0 <= m < |counts| ==> counts[m] > 0
    ensures |ConcatRanges(starts, counts)| == Total(counts)
    ensures Total(counts[..k + 1]) == Total(counts[..k]) + counts[k] <= Total(counts)
    ensures forall p :: Total(counts[..k]) <= p < Total(counts[..k + 1]) ==>
      Delta(ConcatRanges(starts, counts), p) ==
        if p == Total(counts[..k]) then starts[k] - (starts[k - 1] + counts[k - 1]) + 1 else 1
  {
    TotalPrefix(counts, k);
    ConcatLength(starts, counts);
    DeltaAtStart(starts, counts, k);
    var off := Total(counts[..k]);
    forall p | off < p < off + counts[k]
      ensures Delta(ConcatRanges(starts, counts), p) == 1
    {
      DeltaInside(starts, counts, k, p - off);
    }
  }

  lemma {:induction false} DeltaInside(starts: seq<int>, counts: seq<nat>, k: nat, i: nat)
    requires |starts| == |counts| && k < |counts| && 0 < i < counts[k]
    ensures Total(counts[..k]) + i < |ConcatRanges(starts, counts)|
    ensures Delta(ConcatRanges(starts, counts), Total(counts[..k]) + i) == 1
  {
    ConcatAt(starts, counts, k, i);
    ConcatAt(starts, counts, k, i - 1);
  }

  lemma {:induction false} DeltaAtStart(starts: seq<int>, counts: seq<nat>, k: nat)
    requires |starts| == |counts| && 1 <= k < |counts| && counts[k - 1] > 0 && counts[k] > 0
    ensures Total(counts[..k]) < |ConcatRanges(starts, counts)|
    ensures Delta(ConcatRanges(starts, counts), Total(counts[..k])) == starts[k] - (starts[k - 1] + counts[k - 1]) + 1
  {
    TotalPrefix(counts, k - 1);
    ConcatAt(starts, counts, k, 0);
    ConcatAt(starts, counts, k - 1, counts[k - 1] - 1);
  }

  /** `np.cumsum`, in place: it undoes the difference encoding. */
  method CumSum(out: array<int>, ghost spec: seq<int>)
    requires out.Length == |spec| > 0
    requires forall p :: 0 <= p < |spec| ==> out[p] == Delta(spec, p)
    modifies out
    ensures out[..] == spec
  {
    for p := 1 to out.Length
      invariant forall q :: 0 <= q < p ==> out[q] == spec[q]
      invariant forall q :: p <= q < |spec| ==> out[q] == Delta(spec, q)
    {
      out[p] := out[p] + out[p - 1];
    }
  }

  // ---------------------------------------------------------------- stable argsort

  ghost predicate Before(keys: seq<int>, p: nat, q: nat)
    requires p < |keys| && q < |keys|
  {
    keys[p] < keys[q] || (keys[p] == keys[q] && p < q)
  }

  /** `order` lists every index of `keys` once, by key and then by position. */
  ghost predicate IsArgsort(keys: seq<int>, order: seq<nat>)
  {
    && |order| == |keys|
    && (forall t :: 0 <= t < |order| ==> order[t] < |keys|)
    && (forall p :: 0 <= p < |keys| ==> p in order)
    && (forall s, t :: 0 <= s < t < |order| ==> Before(keys, order[s], order[t]))
  }

  /** `np.argsort(keys, kind="stable")`, as an insertion sort of the indices. */
  method Argsort(keys: seq<int>) returns (order: seq<nat>)
    ensures IsArgsort(keys, order)
  {
    order := [];
    for n := 0 to |keys|
      invariant |order| == n
      invariant forall t :: 0 <= t < n ==> order[t] < n
      invariant forall p :: 0 <= p < n ==> p in order
      invariant forall s, t :: 0 <= s < t < n ==> Before(keys, order[s], order[t])
    {
      var at := n;
      while at > 0 && keys[n] < keys[order[at - 1]]
        invariant 0 <= at <= n
        invariant forall t :: at <= t < n ==> keys[n] < keys[order[t]]
      {
        at := at - 1;
      }
      assert forall t :: 0 <= t < at ==> keys[order[t]] <= keys[n] by {
        if at > 0 {
          assert forall t :: 0 <= t < at - 1 ==> Before(keys, order[t], order[at - 1]);
        }
      }
      InsertCovers(order, at, n);
      order := order[..at] + [n] + order[at..];
    }
  }

  lemma InsertCovers(was: seq<nat>, at: nat, n: nat)
    requires at <= |was| == n && forall p :: 0 <= p < n ==> p in was
    ensures forall p :: 0 <= p < n + 1 ==> p in was[..at] + [n] + was[at..]
  {
    var order := was[..at] + [n] + was[at..];
    assert order[at] == n;
    forall p | 0 <= p < n
      ensures p in order
    {
      assert p in was;
      var t :| 0 <= t < n && was[t] == p;
      assert order[if t < at then t else t + 1] == p;
    }
  }

  // ---------------------------------------------------------------- runs of equal keys

  /** Starts of the runs of a non-decreasing key vector, as
      `flatnonzero(concatenate(([True], f[1:] != f[:-1])))`. */
  ghost predicate IsRunStarts(f: seq<int>, starts: seq<nat>)
  {
    && (|f| == 0 <==> |starts| == 0)
    && (|f| > 0 ==> starts[0] == 0)
    && (forall k :: 0 <= k < |starts| ==> starts[k] < |f|)
    && (forall k, m :: 0 <= k < m < |starts| ==> starts[k] < starts[m])
    && (forall k :: 0 < k < |starts| ==> f[starts[k] - 1] != f[starts[k]])
    && (forall p {:trigger p in starts} :: 0 < p < |f| && f[p - 1] != f[p] ==> p in starts)
  }

  method RunStarts(f: seq<int>) returns (starts: seq<nat>)
    ensures IsRunStarts(f, starts)
  {
    if |f| == 0 {
      return [];
    }
    starts := [0];
    for p := 1 to |f|
      invariant |starts| > 0 && starts[0] == 0
      invariant forall k :: 0 <= k < |starts| ==> starts[k] < p
      invariant forall k, m :: 0 <= k < m < |starts| ==> starts[k] < starts[m]
      invariant forall k :: 0 < k < |starts| ==> f[starts[k] - 1] != f[starts[k]]
      invariant forall q {:trigger q in starts} :: 0 < q < p && f[q - 1] != f[q] ==> q in starts
    {
      if f[p - 1] != f[p] {
        ghost var was := starts;
        starts := starts + [p];
        assert starts[|was|] == p;
        assert forall q :: q in was ==> q in starts;
      }
    }
  }

  function RunEnd(starts: seq<nat>, n: nat, k: nat): nat
    requires k < |starts|
  {
    if k + 1 < |starts| then starts[k + 1] else n
  }

  /** Inside a run the key is constant, because a change of key starts a run. */
  lemma {:induction false} RunIsConstant(f: seq<int>, starts: seq<nat>, k: nat, p: nat)
    requires IsRunStarts(f, starts)
    requires k < |starts| && starts[k] <= p < RunEnd(starts, |f|, k)
    ensures f[p] == f[starts[k]]
    decreases p
  {
    if starts[k] < p {
      assert p !in starts;
      RunIsConstant(f, starts, k, p - 1);
    }
  }

  /** Every position lies in some run. */
  lemma {:induction false} RunOf(f: seq<int>, starts: seq<nat>, p: nat) returns (k: nat)
    requires IsRunStarts(f, starts)
    requires p < |f|
    ensures k < |starts| && starts[k] <= p < RunEnd(starts, |f|, k)
  {
    k := 0;
    while k + 1 < |starts| && starts[k + 1] <= p
      invariant k < |starts| && starts[k] <= p
      decreases |starts| - k
    {
      k := k + 1;
    }
  }

  // ---------------------------------------------------------------- bincount

  function CountEq(xs: seq<nat>, v: int): nat
  {
    if xs == [] then 0 else CountEq(xs[..|xs| - 1], v) + if xs[|xs| - 1] == v then 1 else 0
  }

  /** `np.bincount(xs, minlength=n)` for entries below `n`. */
  function BinCount(xs: seq<nat>, n: nat): seq<nat>
  {
    seq(n, v => CountEq(xs, v))
  }

  function CountBelow(xs: seq<nat>, v: nat): nat
  {
    if xs == [] then 0 else CountBelow(xs[..|xs| - 1], v) + if xs[|xs| - 1] < v then 1 else 0
  }

  lemma {:induction false} CountBelowStep(xs: seq<nat>, v: nat)
    ensures CountBelow(xs, v + 1) == CountBelow(xs, v) + CountEq(xs, v)
  {
    if xs != [] {
      CountBelowStep(xs[..|xs| - 1], v);
    }
  }

  lemma {:induction false} CountBelowZero(xs: seq<nat>)
    ensures CountBelow(xs, 0) == 0
  {
    if xs != [] {
      CountBelowZero(xs[..|xs| - 1]);
    }
  }

  /** The running sum of `bincount` is the number of entries below. */
  lemma {:induction false} BinCountTotals(xs: seq<nat>, n: nat, v: nat)
    requires v <= n
    ensures Total(BinCount(xs, n)[..v]) == CountBelow(xs, v)
    decreases v
  {
    if v == 0 {
      CountBelowZero(xs);
    } else {
      BinCountTotals(xs, n, v - 1);
      TotalPrefix(BinCount(xs, n), v - 1);
      CountBelowStep(xs, v - 1);
    }
  }

  /** For sorted entries that number is the boundary between "below" and "not below". */
  lemma {:induction false} CountBelowSplits(xs: seq<nat>, v: nat)
    requires forall s, t :: 0 <= s < t < |xs| ==> xs[s] <= xs[t]
    ensures CountBelow(xs, v) <= |xs|
    ensures forall t :: 0 <= t < |xs| ==> (t < CountBelow(xs, v) <==> xs[t] < v)
  {
    if xs != [] {
      CountBelowSplits(xs[..|xs| - 1], v);
    }
  }

  lemma {:induction false} CountBelowConcat(xs: seq<nat>, ys: seq<nat>, v: nat)
    ensures CountBelow(xs + ys, v) == CountBelow(xs, v) + CountBelow(ys, v)
  {
    if ys == [] {
      assert xs + ys == xs;
    } else {
      var n := |ys| - 1;
      assert (xs + ys)[..|xs + ys| - 1] == xs + ys[..n];
      CountBelowConcat(xs, ys[..n], v);
    }
  }

  lemma {:induction false} CountBelowAll(xs: seq<nat>, v: nat)
    requires forall t :: 0 <= t < |xs| ==> xs[t] < v
    ensures CountBelow(xs, v) == |xs|
  {
    if xs != [] {
      CountBelowAll(xs[..|xs| - 1], v);
    }
  }

  lemma {:induction false} CountBelowNone(xs: seq<nat>, v: nat)
    requires forall t :: 0 <= t < |xs| ==> v <= xs[t]
    ensures CountBelow(xs, v) == 0
  {
    if xs != [] {
      CountBelowNone(xs[..|xs| - 1], v);
    }
  }

  lemma {:induction false} CountBelowMonotone(xs: seq<nat>, v: nat, w: nat)
    requires v <= w
    ensures CountBelow(xs, v) <= CountBelow(xs, w)
  {
    if xs != [] {
      CountBelowMonotone(xs[..|xs| - 1], v, w);
    }
  }
}
