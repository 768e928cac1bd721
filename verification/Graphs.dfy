/** Walks along the stored entries of a square CSR. */
module Graphs {
  import opened Sparse

  ghost predicate Square(m: Csr)
  {
    Valid(m) && m.nRows == m.nCols
  }

  ghost predicate IsWalk(m: Csr, walk: seq<nat>)
  {
    && |walk| > 0
    && (forall t :: 0 <= t < |walk| ==> walk[t] < m.nRows)
    && (forall t :: 0 < t < |walk| ==> Stored(m, walk[t - 1], walk[t]))
  }

  ghost predicate WalkFrom(m: Csr, u: nat, v: nat, walk: seq<nat>)
  {
    IsWalk(m, walk) && walk[0] == u && walk[|walk| - 1] == v
  }

  /** Some walk leads from `u` to `v`. */
  ghost predicate Connected(m: Csr, u: nat, v: nat)
  {
    exists walk :: WalkFrom(m, u, v, walk)
  }

  lemma ConnectedSelf(m: Csr, u: nat)
    requires u < m.nRows
    ensures Connected(m, u, u)
  {
    assert WalkFrom(m, u, u, [u]);
  }

  lemma ConnectedStep(m: Csr, u: nat, v: nat, w: nat)
    requires u < m.nRows && v < m.nRows && Stored(m, u, v) && Connected(m, v, w)
    ensures Connected(m, u, w)
  {
    var walk :| WalkFrom(m, v, w, walk);
    assert WalkFrom(m, u, w, [u] + walk);
  }

  lemma ConnectedTrans(m: Csr, u: nat, v: nat, w: nat)
    requires Connected(m, u, v) && Connected(m, v, w)
    ensures Connected(m, u, w)
  {
    var a :| WalkFrom(m, u, v, a);
    var b :| WalkFrom(m, v, w, b);
    var walk := a + b[1..];
    forall t | 0 < t < |walk|
      ensures Stored(m, walk[t - 1], walk[t])
    {
      if t == |a| {
        assert walk[t - 1] == b[0] && walk[t] == b[1];
      } else if t > |a| {
        assert walk[t - 1] == b[t - |a|] && walk[t] == b[t - |a| + 1];
      }
    }
    assert WalkFrom(m, u, w, walk);
  }

  ghost predicate Symmetric(m: Csr)
  {
    forall u, v :: Stored(m, u, v) ==> Stored(m, v, u)
  }

  lemma ConnectedSymmetric(m: Csr, u: nat, v: nat)
    requires Symmetric(m) && Connected(m, u, v)
    ensures Connected(m, v, u)
  {
    var a :| WalkFrom(m, u, v, a);
    var back := seq<nat>(|a|, t requires 0 <= t < |a| => a[|a| - 1 - t]);
    forall t | 0 < t < |back|
      ensures Stored(m, back[t - 1], back[t])
    {
      var k := |a| - t;
      assert Stored(m, a[k - 1], a[k]);
    }
    assert WalkFrom(m, v, u, back);
  }
}

/** `_hop_levels`: breadth-first levels by frontier. */
module HopLevels {
  import opened Sparse
  import opened Graphs

  /** A walk of exactly `k` edges from some seed to `v`. */
  ghost predicate WalkOf(m: Csr, seeds: seq<nat>, k: nat, v: nat, walk: seq<nat>)
  {
    IsWalk(m, walk) && |walk| == k + 1 && walk[0] in seeds && walk[k] == v
  }

  ghost predicate Reaches(m: Csr, seeds: seq<nat>, k: nat, v: nat)
  {
    exists walk :: WalkOf(m, seeds, k, v, walk)
  }

  /** `k` is the length of a shortest walk from the seeds to `v`. */
  ghost predicate Shortest(m: Csr, seeds: seq<nat>, k: nat, v: nat)
  {
    Reaches(m, seeds, k, v) && forall l: nat :: l < k ==> !Reaches(m, seeds, l, v)
  }

  ghost predicate SeedsFit(m: Csr, seeds: seq<nat>)
  {
    forall s :: s in seeds ==> s < m.nRows
  }

  lemma ReachZero(m: Csr, seeds: seq<nat>, v: nat)
    requires SeedsFit(m, seeds)
    ensures Reaches(m, seeds, 0, v) <==> v in seeds
  {
    if v in seeds {
      assert WalkOf(m, seeds, 0, v, [v]);
    }
  }

  lemma ReachExtend(m: Csr, seeds: seq<nat>, k: nat, u: nat, v: nat)
    requires Reaches(m, seeds, k, u) && v < m.nRows && Stored(m, u, v)
    ensures Reaches(m, seeds, k + 1, v)
  {
    var walk :| WalkOf(m, seeds, k, u, walk);
    assert WalkOf(m, seeds, k + 1, v, walk + [v]);
  }

  lemma ReachPenultimate(m: Csr, seeds: seq<nat>, k: nat, v: nat) returns (u: nat)
    requires k > 0 && Reaches(m, seeds, k, v)
    ensures u < m.nRows && v < m.nRows && Reaches(m, seeds, k - 1, u) && Stored(m, u, v)
  {
    var walk :| WalkOf(m, seeds, k, v, walk);
    u := walk[k - 1];
    assert WalkOf(m, seeds, k - 1, u, walk[..k]);
  }

  lemma {:induction false} ShortestExists(m: Csr, seeds: seq<nat>, k: nat, v: nat) returns (d: nat)
    requires Reaches(m, seeds, k, v)
    ensures d <= k && Shortest(m, seeds, d, v)
  {
    if l: nat :| l < k && Reaches(m, seeds, l, v) {
      d := ShortestExists(m, seeds, l, v);
    } else {
      d := k;
    }
  }

  /** The node before the last on a shortest walk is itself one hop closer. */
  lemma ShortestPenultimate(m: Csr, seeds: seq<nat>, k: nat, v: nat) returns (u: nat)
    requires k > 0 && Shortest(m, seeds, k, v)
    ensures u < m.nRows && v < m.nRows && Shortest(m, seeds, k - 1, u) && Stored(m, u, v)
  {
    u := ReachPenultimate(m, seeds, k, v);
    forall l: nat | l < k - 1
      ensures !Reaches(m, seeds, l, u)
    {
      if Reaches(m, seeds, l, u) {
        ReachExtend(m, seeds, l, u, v);
      }
    }
  }

  /** An empty level is followed by empty levels only. */
  lemma {:induction false} EmptyLevelEnds(m: Csr, seeds: seq<nat>, hop: nat, k: nat, v: nat)
    requires forall w: nat :: w < m.nRows ==> !Shortest(m, seeds, hop, w)
    requires hop <= k && v < m.nRows
    ensures !Shortest(m, seeds, k, v)
    decreases k
  {
    if hop < k && Shortest(m, seeds, k, v) {
      var u := ShortestPenultimate(m, seeds, k, v);
      EmptyLevelEnds(m, seeds, hop, k - 1, u);
    }
  }

  ghost predicate LevelOk(m: Csr, seeds: seq<nat>, level: int, hop: nat, v: nat)
  {
    && (level >= 0 ==> level < hop && Shortest(m, seeds, level, v))
    && (level < 0 ==> level == -1 && forall k: nat :: k < hop ==> !Reaches(m, seeds, k, v))
  }

  /** Some frontier node has a stored edge to `v`. */
  ghost predicate FedBy(m: Csr, frontier: seq<bool>, v: nat)
    requires Square(m) && |frontier| == m.nRows && v < m.nRows
  {
    exists u :: 0 <= u < m.nRows && frontier[u] && Stored(m, u, v)
  }

  /** The frontier row-vector times the binarised adjacency, as a mask. */
  method Spread(m: Csr, frontier: array<bool>) returns (next: array<bool>)
    requires Square(m) && frontier.Length == m.nRows
    ensures fresh(next) && next.Length == m.nRows
    ensures forall v :: 0 <= v < m.nRows ==> (next[v] <==> FedBy(m, frontier[..], v))
  {
    next := new bool[m.nRows](_ => false);
    for u := 0 to m.nRows
      invariant forall v :: 0 <= v < m.nRows ==> (next[v] <==> exists w :: 0 <= w < u && frontier[w] && Stored(m, w, v))
    {
      RowBounds(m, u);
      if frontier[u] {
        ghost var before := next[..];
        for p := m.indptr[u] to m.indptr[u + 1]
          invariant forall v :: 0 <= v < m.nRows ==>
            (next[v] <==> before[v] || exists q :: m.indptr[u] <= q < p && m.indices[q] == v)
        {
          next[m.indices[p]] := true;
        }
        forall v | 0 <= v < m.nRows
          ensures next[v] <==> exists w :: 0 <= w < u + 1 && frontier[w] && Stored(m, w, v)
        {
          assert Stored(m, u, v) <==> exists q :: m.indptr[u] <= q < m.indptr[u + 1] && m.indices[q] == v by {
            if q :| m.indptr[u] <= q < m.indptr[u + 1] && m.indices[q] == v {
              assert InRow(m, u, q);
            }
          }
        }
      }
    }
  }

  /** The mask of nodes first reached at `hop`. */
  lemma NextIsNextLevel(m: Csr, seeds: seq<nat>, level: seq<int>, frontier: seq<bool>, hop: nat, v: nat)
    requires Square(m) && |level| == |frontier| == m.nRows && hop >= 1 && v < m.nRows
    requires forall w :: 0 <= w < m.nRows ==> LevelOk(m, seeds, level[w], hop, w)
    requires forall w :: 0 <= w < m.nRows ==> (frontier[w] <==> level[w] == hop - 1)
    ensures FedBy(m, frontier, v) && level[v] < 0 <==> Shortest(m, seeds, hop, v)
  {
    assert LevelOk(m, seeds, level[v], hop, v);
    if FedBy(m, frontier, v) && level[v] < 0 {
      var u :| 0 <= u < m.nRows && frontier[u] && Stored(m, u, v);
      assert LevelOk(m, seeds, level[u], hop, u);
      ReachExtend(m, seeds, hop - 1, u, v);
    }
    if Shortest(m, seeds, hop, v) {
      var u := ShortestPenultimate(m, seeds, hop, v);
      assert LevelOk(m, seeds, level[u], hop, u);
      LevelIsDistance(m, seeds, level[u], hop, u, hop - 1);
      assert frontier[u];
    }
  }

  lemma LevelIsDistance(m: Csr, seeds: seq<nat>, level: int, hop: nat, v: nat, k: nat)
    requires LevelOk(m, seeds, level, hop, v) && k < hop && Shortest(m, seeds, k, v)
    ensures level == k
  {
  }

  /** `nxt = frontier @ m > 0; nxt &= level < 0; nxt.any()`. */
  method NextFrontier(m: Csr, ghost seeds: seq<nat>, level: array<int>, frontier: array<bool>, ghost hop: nat)
    returns (next: array<bool>, any: bool)
    requires Square(m) && level.Length == frontier.Length == m.nRows && hop >= 1
    requires forall w :: 0 <= w < m.nRows ==> LevelOk(m, seeds, level[w], hop, w)
    requires forall w :: 0 <= w < m.nRows ==> (frontier[w] <==> level[w] == hop - 1)
    ensures fresh(next) && next.Length == m.nRows
    ensures forall v :: 0 <= v < m.nRows ==> (next[v] <==> Shortest(m, seeds, hop, v))
    ensures any <==> exists v :: 0 <= v < m.nRows && next[v]
  {
    next := Spread(m, frontier);
    any := false;
    for v := 0 to m.nRows
      invariant forall w :: v <= w < m.nRows ==> (next[w] <==> FedBy(m, frontier[..], w))
      invariant forall w :: 0 <= w < v ==> (next[w] <==> Shortest(m, seeds, hop, w))
      invariant any <==> exists w :: 0 <= w < v && next[w]
      modifies next
    {
      NextIsNextLevel(m, seeds, level[..], frontier[..], hop, v);
      next[v] := next[v] && level[v] < 0;
      any := any || next[v];
    }
  }

  /** `level[nxt] = hop`. */
  method Mark(level: array<int>, next: array<bool>, hop: nat)
    requires level.Length == next.Length
    modifies level
    ensures forall v :: 0 <= v < level.Length ==> level[v] == if next[v] then hop else old(level[v])
  {
    for v := 0 to level.Length
      invariant forall w :: v <= w < level.Length ==> level[w] == old(level[w])
      invariant forall w :: 0 <= w < v ==> level[w] == if next[w] then hop else old(level[w])
      modifies level
    {
      if next[v] {
        level[v] := hop;
      }
    }
  }

  /** Levels are shortest hop counts up to `maxHops`, and -1 exactly beyond it, also when the
      loop stops early on an empty frontier. */
  method Levels(m: Csr, seeds: seq<nat>, maxHops: int) returns (level: array<int>)
    requires Square(m) && SeedsFit(m, seeds)
    ensures level.Length == m.nRows
    ensures forall v :: 0 <= v < m.nRows ==> LevelOk(m, seeds, level[v], (if maxHops < 0 then 0 else maxHops) + 1, v)
  {
    var n := m.nRows;
    level := new int[n](v requires 0 <= v < n => if v in seeds then 0 else -1);
    var frontier := new bool[n](v requires 0 <= v < n => v in seeds);
    forall v | 0 <= v < n
      ensures LevelOk(m, seeds, level[v], 1, v) && (frontier[v] <==> level[v] == 0)
    {
      ReachZero(m, seeds, v);
    }
    var hop := 1;
    while hop <= maxHops
      invariant hop >= 1 && (hop == 1 || hop <= maxHops + 1)
      invariant frontier.Length == n && level.Length == n && fresh(frontier) && fresh(level)
      invariant forall v :: 0 <= v < n ==> LevelOk(m, seeds, level[v], hop, v)
      invariant forall v :: 0 <= v < n ==> (frontier[v] <==> level[v] == hop - 1)
    {
      var next, any := NextFrontier(m, seeds, level, frontier, hop);
      if !any {
        forall v | 0 <= v < n
          ensures LevelOk(m, seeds, level[v], maxHops + 1, v)
        {
          BeyondEmptyLevel(m, seeds, level[v], hop, maxHops + 1, v);
        }
        return;
      }
      ghost var was := level[..];
      assert forall v :: 0 <= v < n ==> LevelOk(m, seeds, was[v], hop, v);
      Mark(level, next, hop);
      forall v | 0 <= v < n
        ensures LevelOk(m, seeds, level[v], hop + 1, v) && (next[v] <==> level[v] == hop)
      {
        NextLevelOk(m, seeds, was[v], level[v], next[v], hop, v);
      }
      frontier := next;
      hop := hop + 1;
    }
  }

  lemma NextLevelOk(m: Csr, seeds: seq<nat>, was: int, level: int, next: bool, hop: nat, v: nat)
    requires LevelOk(m, seeds, was, hop, v)
    requires next <==> Shortest(m, seeds, hop, v)
    requires level == if next then hop else was
    ensures LevelOk(m, seeds, level, hop + 1, v)
  {
    if level < 0 {
      forall k: nat | k < hop + 1
        ensures !Reaches(m, seeds, k, v)
      {
        if k == hop && Reaches(m, seeds, k, v) {
          var d := ShortestExists(m, seeds, k, v);
        }
      }
    }
  }

  lemma BeyondEmptyLevel(m: Csr, seeds: seq<nat>, level: int, hop: nat, top: nat, v: nat)
    requires LevelOk(m, seeds, level, hop, v) && hop <= top && v < m.nRows
    requires forall w: nat :: w < m.nRows ==> !Shortest(m, seeds, hop, w)
    ensures LevelOk(m, seeds, level, top, v)
  {
    if level < 0 {
      forall k: nat | k < top
        ensures !Reaches(m, seeds, k, v)
      {
        if Reaches(m, seeds, k, v) {
          var d := ShortestExists(m, seeds, k, v);
          EmptyLevelEnds(m, seeds, hop, if d < hop then hop else d, v);
        }
      }
    }
  }
}
