/** Asynchronous, deterministic label propagation on a weighted CSR graph. */
module LabelPropagation {
  import opened Vectors
  import opened Sparse
  import opened Graphs

  // ---------------------------------------------------------------- incident weight

  /** Total weight carried by label `l` among parallel labels and weights. */
  function WeightOf(nbr: seq<int>, w: seq<real>, l: int): real
    requires |nbr| == |w|
  {
    if nbr == [] then 0.0
    else
      var n := |nbr| - 1;
      WeightOf(nbr[..n], w[..n], l) + if nbr[n] == l then w[n] else 0.0
  }

  ghost predicate Preferred(nbr: seq<int>, w: seq<real>, l: int, other: int)
    requires |nbr| == |w|
  {
    || WeightOf(nbr, w, other) < WeightOf(nbr, w, l)
    || (WeightOf(nbr, w, other) == WeightOf(nbr, w, l) && l <= other)
  }

  /** `l` is the smallest of the labels of maximal total weight. */
  ghost predicate IsBestLabel(nbr: seq<int>, w: seq<real>, l: int)
    requires |nbr| == |w|
  {
    l in nbr && forall other :: other in nbr ==> Preferred(nbr, w, l, other)
  }

  function SumReal(s: seq<real>): real
  {
    if s == [] then 0.0 else SumReal(s[..|s| - 1]) + s[|s| - 1]
  }

  /** `picked` lists, ascending, exactly the positions below `n` that carry `l`. */
  ghost predicate PicksLabel(nbr: seq<int>, l: int, n: nat, picked: seq<nat>)
    requires n <= |nbr|
  {
    && (forall s :: 0 <= s < |picked| ==> picked[s] < n && nbr[picked[s]] == l)
    && (forall s, t :: 0 <= s < t < |picked| ==> picked[s] < picked[t])
    && (forall p :: 0 <= p < n && nbr[p] == l ==> p in picked)
  }

  ghost function FirstOf(s: seq<nat>): int { if s == [] then -1 else s[0] }

  lemma StillPicked(nbr: seq<int>, l: int, n: nat, picked: seq<nat>, last: nat)
    requires 0 < n <= |nbr| && PicksLabel(nbr, l, n, picked) && last + 1 == |picked| && picked[last] == n - 1
    ensures PicksLabel(nbr, l, n - 1, picked[..last])
  {
    forall p | 0 <= p < n - 1 && nbr[p] == l
      ensures p in picked[..last]
    {
      assert p in picked;
    }
  }

  lemma {:induction false} PickedSum(nbr: seq<int>, w: seq<real>, l: int, n: nat, picked: seq<nat>, vals: seq<real>)
    requires |nbr| == |w| && n <= |nbr| && PicksLabel(nbr, l, n, picked)
    requires |vals| == |picked| && forall s :: 0 <= s < |picked| ==> vals[s] == w[picked[s]]
    ensures SumReal(vals) == WeightOf(nbr[..n], w[..n], l)
    decreases n
  {
    if n == 0 {
      assert FirstOf(picked) < n;
    } else {
      assert nbr[..n][..n - 1] == nbr[..n - 1] && w[..n][..n - 1] == w[..n - 1];
      if nbr[n - 1] == l {
        assert n - 1 in picked;
        var last := |picked| - 1;
        assert picked[last] == n - 1;
        StillPicked(nbr, l, n, picked, last);
        PickedSum(nbr, w, l, n - 1, picked[..last], vals[..last]);
      } else {
        assert forall s :: 0 <= s < |picked| ==> picked[s] != n - 1;
        PickedSum(nbr, w, l, n - 1, picked, vals);
      }
    }
  }

  /** A run of the stable order picks exactly the positions of its label. */
  lemma RunPicksLabel(nbr: seq<int>, order: seq<nat>, nb: seq<int>, starts: seq<nat>, k: nat)
    requires IsArgsort(nbr, order) && |nb| == |order| && forall t :: 0 <= t < |nb| ==> nb[t] == nbr[order[t]]
    requires IsRunStarts(nb, starts) && k < |starts|
    ensures starts[k] < RunEnd(starts, |nb|, k) <= |nb|
    ensures PicksLabel(nbr, nb[starts[k]], |nbr|, order[starts[k]..RunEnd(starts, |nb|, k)])
  {
    SortedKeys(nbr, order, nb);
    var lo, hi, l := starts[k], RunEnd(starts, |nb|, k), nb[starts[k]];
    RunLabels(nbr, order, nb, starts, k);
    RunAscends(nbr, order, lo, hi, l);
    forall p | 0 <= p < |nbr| && nbr[p] == l
      ensures p in order[lo..hi]
    {
      LabelInRun(nbr, order, nb, starts, k, p);
    }
  }

  lemma RunLabels(nbr: seq<int>, order: seq<nat>, nb: seq<int>, starts: seq<nat>, k: nat)
    requires IsArgsort(nbr, order) && |nb| == |order| && forall t :: 0 <= t < |nb| ==> nb[t] == nbr[order[t]]
    requires IsRunStarts(nb, starts) && k < |starts| && starts[k] < RunEnd(starts, |nb|, k) <= |nb|
    ensures forall s :: starts[k] <= s < RunEnd(starts, |nb|, k) ==> nbr[order[s]] == nb[starts[k]]
  {
    forall s | starts[k] <= s < RunEnd(starts, |nb|, k)
      ensures nbr[order[s]] == nb[starts[k]]
    {
      RunIsConstant(nb, starts, k, s);
    }
  }

  lemma RunAscends(nbr: seq<int>, order: seq<nat>, lo: nat, hi: nat, l: int)
    requires IsArgsort(nbr, order) && lo <= hi <= |order|
    requires forall s :: lo <= s < hi ==> nbr[order[s]] == l
    ensures forall s, t :: 0 <= s < t < hi - lo ==> order[lo..hi][s] < order[lo..hi][t]
  {
    forall s, t | 0 <= s < t < hi - lo
      ensures order[lo..hi][s] < order[lo..hi][t]
    {
      assert Before(nbr, order[lo + s], order[lo + t]);
    }
  }

  lemma LabelInRun(nbr: seq<int>, order: seq<nat>, nb: seq<int>, starts: seq<nat>, k: nat, p: nat)
    requires IsArgsort(nbr, order) && |nb| == |order| && forall t :: 0 <= t < |nb| ==> nb[t] == nbr[order[t]]
    requires IsRunStarts(nb, starts) && Ascending(nb) && k < |starts|
    requires p < |nbr| && nbr[p] == nb[starts[k]]
    ensures starts[k] <= RunEnd(starts, |nb|, k) <= |order|
    ensures p in order[starts[k]..RunEnd(starts, |nb|, k)]
  {
    assert p in order;
    var s :| 0 <= s < |order| && order[s] == p;
    InItsRun(nb, starts, k, s);
    assert order[starts[k]..RunEnd(starts, |nb|, k)][s - starts[k]] == p;
  }

  ghost predicate Ascending(nb: seq<int>)
  {
    forall s, t :: 0 <= s < t < |nb| ==> nb[s] <= nb[t]
  }

  lemma RunKeysAscend(f: seq<int>, starts: seq<nat>, k: nat, m: nat)
    requires IsRunStarts(f, starts) && Ascending(f) && k < m < |starts|
    ensures f[starts[k]] < f[starts[m]]
  {
    var p := starts[m];
    assert starts[k] < p;
    assert f[p - 1] != f[p] && f[p - 1] <= f[p];
    assert starts[k] == p - 1 || f[starts[k]] <= f[p - 1];
  }

  lemma SortedKeys(nbr: seq<int>, order: seq<nat>, nb: seq<int>)
    requires IsArgsort(nbr, order) && |nb| == |order| && forall t :: 0 <= t < |nb| ==> nb[t] == nbr[order[t]]
    ensures Ascending(nb)
  {
    forall s, t | 0 <= s < t < |nb|
      ensures nb[s] <= nb[t]
    {
      assert Before(nbr, order[s], order[t]);
    }
  }

  lemma InItsRun(nb: seq<int>, starts: seq<nat>, k: nat, s: nat)
    requires IsRunStarts(nb, starts) && Ascending(nb) && k < |starts| && s < |nb|
    requires nb[s] == nb[starts[k]]
    ensures starts[k] <= s < RunEnd(starts, |nb|, k)
  {
    var r := RunOf(nb, starts, s);
    RunIsConstant(nb, starts, r, s);
    if r < k {
      RunKeysAscend(nb, starts, r, k);
    } else if k < r {
      RunKeysAscend(nb, starts, k, r);
    }
  }

  ghost predicate RunsFit(n: nat, starts: seq<nat>)
  {
    forall k :: 0 <= k < |starts| ==> starts[k] < RunEnd(starts, n, k) <= n
  }

  function RunTotal(wb: seq<real>, starts: seq<nat>, k: nat): real
    requires RunsFit(|wb|, starts) && k < |starts|
  {
    SumReal(wb[starts[k]..RunEnd(starts, |wb|, k)])
  }

  /** `np.add.reduceat(wb, starts)`. */
  method ReduceAdd(wb: seq<real>, starts: seq<nat>) returns (sums: seq<real>)
    requires RunsFit(|wb|, starts)
    ensures |sums| == |starts|
    ensures forall k :: 0 <= k < |sums| ==> sums[k] == RunTotal(wb, starts, k)
  {
    sums := [];
    for k := 0 to |starts|
      invariant |sums| == k
      invariant forall r :: 0 <= r < k ==> sums[r] == RunTotal(wb, starts, r)
    {
      sums := sums + [RunTotal(wb, starts, k)];
    }
  }

  /** `np.argmax`: the first position of the maximum. */
  method Argmax(s: seq<real>) returns (at: nat)
    requires |s| > 0
    ensures at < |s| && (forall t :: 0 <= t < |s| ==> s[t] <= s[at]) && (forall t :: 0 <= t < at ==> s[t] < s[at])
  {
    at := 0;
    for t := 1 to |s|
      invariant at < t && (forall u :: 0 <= u < t ==> s[u] <= s[at]) && (forall u :: 0 <= u < at ==> s[u] < s[at])
    {
      if s[at] < s[t] {
        at := t;
      }
    }
  }

  /** One node's vote: sort neighbour labels, sum weights per label, take the first maximum. */
  method BestLabel(nbr: seq<int>, w: seq<real>) returns (best: int)
    requires |nbr| == |w| > 0
    ensures IsBestLabel(nbr, w, best)
  {
    var order := Argsort(nbr);
    var nb := seq<int>(|nbr|, t requires 0 <= t < |nbr| => nbr[order[t]]);
    var wb := seq<real>(|nbr|, t requires 0 <= t < |nbr| => w[order[t]]);
    var starts := RunStarts(nb);
    SortedKeys(nbr, order, nb);
    var sums := ReduceAdd(wb, starts);
    forall k | 0 <= k < |starts|
      ensures sums[k] == WeightOf(nbr, w, nb[starts[k]])
    {
      RunSum(nbr, w, order, nb, wb, starts, k);
    }
    var at := Argmax(sums);
    best := nb[starts[at]];
    assert nbr[order[starts[at]]] == best;
    forall other | other in nbr
      ensures Preferred(nbr, w, best, other)
    {
      LabelHasRun(nbr, order, nb, starts, other);
      FirstMaximumPreferred(nbr, w, nb, starts, sums, at, other);
    }
  }

  lemma FirstMaximumPreferred(nbr: seq<int>, w: seq<real>, nb: seq<int>, starts: seq<nat>, sums: seq<real>, at: nat,
                              other: int)
    requires |nbr| == |w| && IsRunStarts(nb, starts) && Ascending(nb) && |sums| == |starts| && at < |starts|
    requires forall k :: 0 <= k < |starts| ==> sums[k] == WeightOf(nbr, w, nb[starts[k]])
    requires (forall u :: 0 <= u < |sums| ==> sums[u] <= sums[at]) && (forall u :: 0 <= u < at ==> sums[u] < sums[at])
    requires exists k :: 0 <= k < |starts| && nb[starts[k]] == other
    ensures Preferred(nbr, w, nb[starts[at]], other)
  {
    var k :| 0 <= k < |starts| && nb[starts[k]] == other;
    if at < k {
      RunKeysAscend(nb, starts, at, k);
    }
  }

  lemma RunSum(nbr: seq<int>, w: seq<real>, order: seq<nat>, nb: seq<int>, wb: seq<real>, starts: seq<nat>, k: nat)
    requires |nbr| == |w| && IsArgsort(nbr, order) && |nb| == |wb| == |order|
    requires forall t :: 0 <= t < |nb| ==> nb[t] == nbr[order[t]] && wb[t] == w[order[t]]
    requires IsRunStarts(nb, starts) && k < |starts|
    ensures starts[k] < RunEnd(starts, |wb|, k) <= |wb|
    ensures SumReal(wb[starts[k]..RunEnd(starts, |wb|, k)]) == WeightOf(nbr, w, nb[starts[k]])
  {
    SortedKeys(nbr, order, nb);
    RunPicksLabel(nbr, order, nb, starts, k);
    var lo, hi := starts[k], RunEnd(starts, |nb|, k);
    PickedSum(nbr, w, nb[lo], |nbr|, order[lo..hi], wb[lo..hi]);
    assert nbr[..|nbr|] == nbr && w[..|nbr|] == w;
  }

  lemma LabelHasRun(nbr: seq<int>, order: seq<nat>, nb: seq<int>, starts: seq<nat>, l: int)
    requires IsArgsort(nbr, order) && |nb| == |order| && forall t :: 0 <= t < |nb| ==> nb[t] == nbr[order[t]]
    requires IsRunStarts(nb, starts) && l in nbr
    ensures exists k :: 0 <= k < |starts| && nb[starts[k]] == l
  {
    var p :| 0 <= p < |nbr| && nbr[p] == l;
    assert p in order;
    var s :| 0 <= s < |order| && order[s] == p;
    var k := RunOf(nb, starts, s);
    RunIsConstant(nb, starts, k, s);
  }

  // ---------------------------------------------------------------- one node of the graph

  /** `labels[ind[lo:hi]]`. */
  function NbrLabels(m: Csr, labels: seq<nat>, i: nat): (r: seq<int>)
    requires Square(m) && |labels| == m.nRows && i < m.nRows
    ensures |r| == Degree(m, i)
    ensures forall t :: 0 <= t < |r| ==> m.indptr[i] + t < |m.indices| && r[t] == labels[m.indices[m.indptr[i] + t]]
  {
    RowBounds(m, i);
    seq<int>(Degree(m, i), t requires 0 <= t < Degree(m, i) => labels[m.indices[m.indptr[i] + t]])
  }

  /** `dat[lo:hi]`. */
  function Weights(m: Csr, i: nat): (r: seq<real>)
    requires Square(m) && i < m.nRows
    ensures |r| == Degree(m, i)
  {
    RowBounds(m, i);
    m.data[m.indptr[i]..m.indptr[i + 1]]
  }

  /** Node `i` is isolated, or holds the smallest label of maximal incident weight. */
  ghost predicate Settled(m: Csr, labels: seq<nat>, i: nat)
    requires Square(m) && |labels| == m.nRows && i < m.nRows
  {
    Degree(m, i) > 0 ==> IsBestLabel(NbrLabels(m, labels, i), Weights(m, i), labels[i])
  }

  ghost predicate Stable(m: Csr, labels: seq<nat>)
    requires Square(m) && |labels| == m.nRows
  {
    forall i :: 0 <= i < m.nRows ==> Settled(m, labels, i)
  }

  /** Node `i`'s label names a node `i` can reach. */
  ghost predicate LabelReachable(m: Csr, labels: seq<nat>, i: nat)
    requires |labels| == m.nRows && i < m.nRows
  {
    labels[i] < m.nRows && Connected(m, i, labels[i])
  }

  ghost predicate InsideComponents(m: Csr, labels: seq<nat>)
    requires |labels| == m.nRows
  {
    forall i :: 0 <= i < m.nRows ==> LabelReachable(m, labels, i)
  }

  /** A neighbour's label is reachable too. */
  lemma NeighbourLabelReachable(m: Csr, labels: seq<nat>, i: nat, best: int)
    requires Square(m) && |labels| == m.nRows && i < m.nRows && InsideComponents(m, labels)
    requires best in NbrLabels(m, labels, i)
    ensures 0 <= best < m.nRows && Connected(m, i, best)
  {
    var nbr := NbrLabels(m, labels, i);
    var t :| 0 <= t < |nbr| && nbr[t] == best;
    var p := m.indptr[i] + t;
    RowBounds(m, i);
    var u := m.indices[p];
    assert InRow(m, i, p);
    assert Stored(m, i, u);
    assert LabelReachable(m, labels, u);
    ConnectedStep(m, i, u, best);
  }

  // ---------------------------------------------------------------- rounds

  /** What node `i` sees in a pass: the new labels below it, the old ones from it on. */
  function Mixed(before: seq<nat>, after: seq<nat>, i: nat): seq<nat>
    requires |before| == |after| && i <= |before|
  {
    after[..i] + before[i..]
  }

  /** Node `i` keeps its label if it is isolated, and else takes the best of what it sees. */
  ghost predicate Visited(m: Csr, before: seq<nat>, after: seq<nat>, i: nat)
    requires Square(m) && |before| == |after| == m.nRows && i < m.nRows
  {
    if Degree(m, i) == 0 then after[i] == before[i]
    else IsBestLabel(NbrLabels(m, Mixed(before, after, i), i), Weights(m, i), after[i])
  }

  /** `after` is `before` after one asynchronous pass in ascending node order. */
  ghost predicate IsPass(m: Csr, before: seq<nat>, after: seq<nat>)
    requires Square(m) && |before| == |after| == m.nRows
  {
    forall i :: 0 <= i < m.nRows ==> Visited(m, before, after, i)
  }

  /** One pass over the nodes in ascending order, labels rewritten in place. */
  method Round(m: Csr, labels: array<nat>) returns (moved: bool)
    requires Square(m) && labels.Length == m.nRows && InsideComponents(m, labels[..])
    modifies labels
    ensures InsideComponents(m, labels[..]) && IsPass(m, old(labels[..]), labels[..])
    ensures moved <==> labels[..] != old(labels[..])
    ensures !moved ==> Stable(m, labels[..])
  {
    moved := false;
    ghost var start := labels[..];
    for i := 0 to m.nRows
      invariant InsideComponents(m, labels[..])
      invariant labels[..] == Mixed(start, labels[..], i)
      invariant forall k :: 0 <= k < i ==> Visited(m, start, labels[..], k)
      invariant moved <==> exists k :: 0 <= k < i && labels[k] != start[k]
    {
      ghost var before := labels[..];
      if m.indptr[i] != m.indptr[i + 1] {
        var best := BestLabel(NbrLabels(m, labels[..], i), Weights(m, i));
        NeighbourLabelReachable(m, labels[..], i, best);
        assert labels[i] == start[i];
        if best != labels[i] {
          labels[i] := best;
          moved := true;
          Relabelled(m, before, labels[..], i);
        }
      }
      VisitedNext(m, start, before, labels[..], i);
    }
    if !moved {
      assert labels[..] == start;
      QuietPassIsStable(m, start);
    }
  }

  /** Relabelling node `i` leaves the visits below it as they were, and visits it. */
  lemma VisitedNext(m: Csr, start: seq<nat>, before: seq<nat>, after: seq<nat>, i: nat)
    requires Square(m) && |start| == |before| == |after| == m.nRows && i < m.nRows
    requires before == Mixed(start, before, i) && after == before[i := after[i]]
    requires forall k :: 0 <= k < i ==> Visited(m, start, before, k)
    requires Degree(m, i) == 0 ==> after[i] == before[i]
    requires Degree(m, i) != 0 ==> IsBestLabel(NbrLabels(m, before, i), Weights(m, i), after[i])
    ensures after == Mixed(start, after, i + 1)
    ensures forall k :: 0 <= k < i + 1 ==> Visited(m, start, after, k)
  {
    assert forall k :: i <= k < |before| ==> before[k] == Mixed(start, before, i)[k] == start[k];
    assert Mixed(start, after, i) == before;
    forall k | 0 <= k < i
      ensures Visited(m, start, after, k)
    {
      assert Visited(m, start, before, k);
      assert Mixed(start, after, k) == Mixed(start, before, k);
    }
  }

  lemma QuietPassIsStable(m: Csr, labels: seq<nat>)
    requires Square(m) && |labels| == m.nRows && IsPass(m, labels, labels)
    ensures Stable(m, labels)
  {
    forall i | 0 <= i < m.nRows
      ensures Settled(m, labels, i)
    {
      assert Visited(m, labels, labels, i) && Mixed(labels, labels, i) == labels;
    }
  }

  lemma Relabelled(m: Csr, before: seq<nat>, after: seq<nat>, i: nat)
    requires |before| == |after| == m.nRows && i < m.nRows && InsideComponents(m, before)
    requires after == before[i := after[i]] && after[i] < m.nRows && Connected(m, i, after[i])
    ensures InsideComponents(m, after)
  {
    forall k | 0 <= k < m.nRows
      ensures LabelReachable(m, after, k)
    {
      if k != i {
        assert LabelReachable(m, before, k);
      }
    }
  }

  // ---------------------------------------------------------------- compaction

  function Rank(labels: seq<nat>, l: nat): nat
  {
    |set x | x in labels && x < l|
  }

  lemma RankStrict(labels: seq<nat>, l: nat, k: nat)
    requires l in labels && l < k
    ensures Rank(labels, l) < Rank(labels, k)
  {
    var below, upto := set x | x in labels && x < l, set x | x in labels && x < k;
    assert l in upto && l !in below;
    assert upto == below + (upto - below);
    assert |upto| == |below| + |upto - below|;
    assert l in upto - below;
  }

  /** Every rank below that of a label is the rank of a smaller label. */
  lemma {:induction false} RankBelow(labels: seq<nat>, l: nat, u: nat) returns (p: nat)
    requires u < Rank(labels, l)
    ensures p in labels && p < l && Rank(labels, p) == u
    decreases l
  {
    var below := set x | x in labels && x < l;
    p := LargestOf(below);
    var less := set x | x in labels && x < p;
    assert below == less + {p};
    if u < Rank(labels, p) {
      p := RankBelow(labels, p, u);
    }
  }

  lemma {:induction false} LargestOf(s: set<nat>) returns (m: nat)
    requires s != {}
    ensures m in s && forall x :: x in s ==> x <= m
    decreases |s|
  {
    m :| m in s;
    var rest := s - {m};
    if rest == {} {
      assert s == {m};
    } else {
      var k := LargestOf(rest);
      assert forall x :: x in s ==> x == m || x in rest;
      m := if k > m then k else m;
    }
  }

  /** No label is skipped. */
  ghost predicate Gapless(labels: seq<nat>)
  {
    forall i, u :: 0 <= i < |labels| && 0 <= u < labels[i] ==> u in labels
  }

  /** `np.unique(labels, return_inverse=True)`: the labels in their order, without gaps. */
  method Compact(labels: seq<nat>) returns (compact: seq<nat>)
    ensures |compact| == |labels| && Gapless(compact)
    ensures forall i, j :: 0 <= i < |labels| && 0 <= j < |labels| ==>
      (labels[i] < labels[j] <==> compact[i] < compact[j])
  {
    compact := seq<nat>(|labels|, i requires 0 <= i < |labels| => Rank(labels, labels[i]));
    forall i, j | 0 <= i < |labels| && 0 <= j < |labels|
      ensures labels[i] < labels[j] <==> compact[i] < compact[j]
    {
      if labels[i] < labels[j] {
        RankStrict(labels, labels[i], labels[j]);
      } else if labels[j] < labels[i] {
        RankStrict(labels, labels[j], labels[i]);
      }
    }
    forall i, u | 0 <= i < |labels| && 0 <= u < compact[i]
      ensures u in compact
    {
      var p := RankBelow(labels, labels[i], u);
      var j :| 0 <= j < |labels| && labels[j] == p;
      assert compact[j] == u;
    }
  }

  lemma {:induction false} IsomorphicWeights(a: seq<int>, b: seq<int>, w: seq<real>, x: int, y: int)
    requires |a| == |b| == |w|
    requires forall i :: 0 <= i < |a| ==> (a[i] == x <==> b[i] == y)
    ensures WeightOf(a, w, x) == WeightOf(b, w, y)
  {
    if a != [] {
      var n := |a| - 1;
      IsomorphicWeights(a[..n], b[..n], w[..n], x, y);
    }
  }

  /** Compaction keeps a settled node settled, because it keeps the order of labels. */
  lemma CompactSettled(m: Csr, labels: seq<nat>, compact: seq<nat>, i: nat)
    requires Square(m) && |labels| == |compact| == m.nRows && i < m.nRows
    requires forall k, j :: 0 <= k < |labels| && 0 <= j < |labels| ==>
      (labels[k] < labels[j] <==> compact[k] < compact[j])
    requires Settled(m, labels, i)
    ensures Settled(m, compact, i)
  {
    if Degree(m, i) > 0 {
      var a, b, w := NbrLabels(m, labels, i), NbrLabels(m, compact, i), Weights(m, i);
      RowBounds(m, i);
      var t0 :| 0 <= t0 < |a| && a[t0] == labels[i];
      var k0 := m.indices[m.indptr[i] + t0];
      assert b[t0] == compact[k0] == compact[i];
      forall t, k | 0 <= t < |a| && 0 <= k < m.nRows
        ensures a[t] == labels[k] <==> b[t] == compact[k]
        ensures a[t] <= labels[k] <==> b[t] <= compact[k]
        ensures labels[k] <= a[t] <==> compact[k] <= b[t]
      {
        var u := m.indices[m.indptr[i] + t];
        assert a[t] == labels[u] && b[t] == compact[u];
      }
      IsomorphicWeights(a, b, w, labels[i], compact[i]);
      forall other | other in b
        ensures Preferred(b, w, compact[i], other)
      {
        var t :| 0 <= t < |b| && b[t] == other;
        var u := m.indices[m.indptr[i] + t];
        IsomorphicWeights(a, b, w, a[t], b[t]);
        assert Preferred(a, w, labels[i], a[t]);
      }
    }
  }

  // ---------------------------------------------------------------- the whole method

  /** The labellings a run goes through: every node its own label, then pass after pass. */
  ghost predicate IsHistory(m: Csr, history: seq<seq<nat>>)
    requires Square(m)
  {
    && |history| > 0 && (forall r :: 0 <= r < |history| ==> |history[r]| == m.nRows)
    && (forall i :: 0 <= i < m.nRows ==> history[0][i] == i)
    && (forall r :: 0 <= r < |history| - 1 ==> PassAt(m, history, r))
  }

  ghost predicate PassAt(m: Csr, history: seq<seq<nat>>, r: nat)
    requires Square(m) && r + 1 < |history| && |history[r]| == |history[r + 1]| == m.nRows
  {
    IsPass(m, history[r], history[r + 1])
  }

  /** Pass `r` moved nothing. */
  ghost predicate Quiet(history: seq<seq<nat>>, r: int)
  {
    0 <= r < |history| - 1 && history[r + 1] == history[r]
  }

  ghost predicate SameOrder(labels: seq<nat>, compact: seq<nat>)
  {
    && |labels| == |compact|
    && forall i, j :: 0 <= i < |labels| && 0 <= j < |labels| ==> (labels[i] < labels[j] <==> compact[i] < compact[j])
  }

  lemma HistoryGrows(m: Csr, history: seq<seq<nat>>, next: seq<nat>) returns (longer: seq<seq<nat>>)
    requires Square(m) && IsHistory(m, history) && |next| == m.nRows && IsPass(m, history[|history| - 1], next)
    ensures longer == history + [next] && IsHistory(m, longer)
    ensures forall r :: 0 <= r < |history| - 1 ==> Quiet(longer, r) == Quiet(history, r)
  {
    longer := history + [next];
    forall r | 0 <= r < |longer| - 1
      ensures PassAt(m, longer, r)
    {
      assert r < |history| - 1 ==> PassAt(m, history, r);
    }
  }

  /** `label_propagation`: the partition refines the components of a symmetric graph, and a
      run that stopped before its rounds were spent is settled at every node. */
  method Propagate(m: Csr, rounds: nat) returns (compact: seq<nat>, converged: bool, ghost history: seq<seq<nat>>)
    requires Square(m)
    ensures |compact| == m.nRows && IsHistory(m, history)
    ensures converged <==> Quiet(history, |history| - 2)
    ensures forall r :: 0 <= r < |history| - 2 ==> !Quiet(history, r)
    ensures !converged ==> |history| == rounds + 1
    ensures SameOrder(history[|history| - 1], compact) && Gapless(compact)
    ensures Symmetric(m) ==> forall i, j :: 0 <= i < m.nRows && 0 <= j < m.nRows && compact[i] == compact[j] ==>
      Connected(m, i, j)
    ensures converged ==> Stable(m, compact)
  {
    var labels := new nat[m.nRows](i => i);
    forall i | 0 <= i < m.nRows
      ensures LabelReachable(m, labels[..], i)
    {
      ConnectedSelf(m, i);
    }
    converged := false;
    history := [labels[..]];
    var r := 0;
    while r < rounds && !converged
      invariant r <= rounds && fresh(labels)
      invariant InsideComponents(m, labels[..])
      invariant converged ==> Stable(m, labels[..])
      invariant |history| == r + 1 && IsHistory(m, history) && history[r] == labels[..]
      invariant converged <==> Quiet(history, r - 1)
      invariant forall k :: 0 <= k < r - 1 ==> !Quiet(history, k)
      decreases rounds - r, !converged
    {
      var moved := Round(m, labels);
      converged := !moved;
      history := HistoryGrows(m, history, labels[..]);
      r := r + 1;
    }
    var final := labels[..];
    compact := Compact(final);
    if converged {
      forall i | 0 <= i < m.nRows
        ensures Settled(m, compact, i)
      {
        assert Settled(m, final, i);
        CompactSettled(m, final, compact, i);
      }
    }
    if Symmetric(m) {
      forall i, j | 0 <= i < m.nRows && 0 <= j < m.nRows && compact[i] == compact[j]
        ensures Connected(m, i, j)
      {
        assert final[i] == final[j];
        assert LabelReachable(m, final, i) && LabelReachable(m, final, j);
        ConnectedSymmetric(m, j, final[j]);
        ConnectedTrans(m, i, final[i], j);
      }
    }
  }
}
