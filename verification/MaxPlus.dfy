/** The chunked segment-max product `out[i, j] = max_k combine(a[i, k], b[k, j])`. */
module MaxPlus {
  import opened Vectors
  import opened Sparse

  type Combine = (real, real) -> real

  // ---------------------------------------------------------------- the definition

  /** One term of the product: position `p` of `a` in row `i`, position `q` of `b` in the
      row that `p` names, landing in column `j`. */
  ghost predicate Flop(a: Csr, b: Csr, i: int, j: int, p: int, q: int)
  {
    && 0 <= p < |a.indices| && p < |a.data| && 0 <= q < |b.indices| && q < |b.data|
    && InRow(a, i, p) && InRow(b, a.indices[p], q)
    && b.indices[q] == j
  }

  function Term(a: Csr, b: Csr, combine: Combine, p: nat, q: nat): real
    requires p < |a.data| && q < |b.data|
  {
    combine(b.data[q], a.data[p])
  }

  ghost predicate Attained(a: Csr, b: Csr, combine: Combine, i: int, j: int, v: real)
  {
    exists p, q :: Flop(a, b, i, j, p, q) && v == Term(a, b, combine, p, q)
  }

  ghost predicate Bounds(a: Csr, b: Csr, combine: Combine, i: int, j: int, v: real)
  {
    forall p, q :: Flop(a, b, i, j, p, q) ==> Term(a, b, combine, p, q) <= v
  }

  ghost predicate IsMax(a: Csr, b: Csr, combine: Combine, i: int, j: int, v: real)
  {
    Attained(a, b, combine, i, j, v) && Bounds(a, b, combine, i, j, v)
  }

  /** The entry at position `o`, if it lies in row `i`, carries the largest term of its cell. */
  ghost predicate EntryIsMax(a: Csr, b: Csr, combine: Combine, m: Csr, i: int, o: int)
    requires Valid(m)
  {
    InRow(m, i, o) ==> 0 <= o < |m.data| && IsMax(a, b, combine, i, m.indices[o], m.data[o])
  }

  /** `m` is the product: sorted rows, an entry exactly where some term lands, and the
      largest term as its value. */
  ghost predicate IsProduct(a: Csr, b: Csr, combine: Combine, m: Csr)
    requires Valid(a) && Valid(b)
  {
    && Valid(m) && RowsSorted(m)
    && m.nRows == a.nRows && m.nCols == b.nCols
    && (forall i, o :: EntryIsMax(a, b, combine, m, i, o))
    && (forall i, j, p, q :: Flop(a, b, i, j, p, q) ==> Stored(m, i, j))
  }

  // ---------------------------------------------------------------- segment max

  function MaxOver(v: seq<real>, lo: nat, hi: nat): (r: real)
    requires lo < hi <= |v|
    ensures forall t :: lo <= t < hi ==> v[t] <= r
    ensures exists t :: lo <= t < hi && v[t] == r
  {
    if lo + 1 == hi then v[lo]
    else
      var rest := MaxOver(v, lo, hi - 1);
      if rest < v[hi - 1] then v[hi - 1] else rest
  }

  /** Reduced entry `k` occurs among the inputs. */
  ghost predicate OccursAt(flat: seq<int>, vals: seq<real>, redF: seq<int>, redV: seq<real>, k: nat)
    requires |flat| == |vals| && k < |redF| == |redV|
  {
    exists t :: 0 <= t < |flat| && flat[t] == redF[k] && vals[t] == redV[k]
  }

  /** Input `t` is bounded by the reduced entry of its key. */
  ghost predicate CoveredAt(flat: seq<int>, vals: seq<real>, redF: seq<int>, redV: seq<real>, t: nat)
    requires |redF| == |redV| && t < |flat| == |vals|
  {
    exists k :: 0 <= k < |redF| && redF[k] == flat[t] && vals[t] <= redV[k]
  }

  /** One entry per distinct key, keys ascending, the value the largest the key carried. */
  ghost predicate IsSegmentMax(flat: seq<int>, vals: seq<real>, redF: seq<int>, redV: seq<real>)
  {
    && |flat| == |vals| && |redF| == |redV|
    && (forall k, m :: 0 <= k < m < |redF| ==> redF[k] < redF[m])
    && (forall k :: 0 <= k < |redF| ==> OccursAt(flat, vals, redF, redV, k))
    && (forall t :: 0 <= t < |flat| ==> CoveredAt(flat, vals, redF, redV, t))
  }

  /** `np.maximum.reduceat(v, starts)`. */
  method ReduceMax(v: seq<real>, starts: seq<nat>) returns (red: seq<real>)
    requires forall k :: 0 <= k < |starts| ==> starts[k] < RunEnd(starts, |v|, k) <= |v|
    ensures |red| == |starts|
    ensures forall k :: 0 <= k < |red| ==> red[k] == MaxOver(v, starts[k], RunEnd(starts, |v|, k))
  {
    red := [];
    for k := 0 to |starts|
      invariant |red| == k
      invariant forall m :: 0 <= m < k ==> red[m] == MaxOver(v, starts[m], RunEnd(starts, |v|, m))
    {
      red := red + [MaxOver(v, starts[k], RunEnd(starts, |v|, k))];
    }
  }

  ghost predicate PairOccurs(flat: seq<int>, vals: seq<real>, f: seq<int>, v: seq<real>, t: nat)
    requires |flat| == |vals| && t < |f| == |v|
  {
    exists u :: 0 <= u < |flat| && flat[u] == f[t] && vals[u] == v[t]
  }

  /** `f, v` are `flat, vals` reordered, keys ascending. */
  ghost predicate IsReordering(flat: seq<int>, vals: seq<real>, f: seq<int>, v: seq<real>)
  {
    && |flat| == |vals| && |f| == |v|
    && (forall s, t :: 0 <= s < t < |f| ==> f[s] <= f[t])
    && (forall t :: 0 <= t < |f| ==> PairOccurs(flat, vals, f, v, t))
    && (forall u :: 0 <= u < |flat| ==> PairOccurs(f, v, flat, vals, u))
  }

  /** `order = argsort(flat, kind="stable"); f, v = flat[order], vals[order]`. */
  method SortPairs(flat: seq<int>, vals: seq<real>) returns (f: seq<int>, v: seq<real>)
    requires |flat| == |vals|
    ensures IsReordering(flat, vals, f, v)
  {
    var order := Argsort(flat);
    f := seq<int>(|flat|, t requires 0 <= t < |flat| => flat[order[t]]);
    v := seq<real>(|flat|, t requires 0 <= t < |flat| => vals[order[t]]);
    forall s, t | 0 <= s < t < |f|
      ensures f[s] <= f[t]
    {
      assert Before(flat, order[s], order[t]);
    }
    forall t | 0 <= t < |f|
      ensures PairOccurs(flat, vals, f, v, t)
    {
      assert flat[order[t]] == f[t] && vals[order[t]] == v[t];
    }
    forall u | 0 <= u < |flat|
      ensures PairOccurs(f, v, flat, vals, u)
    {
      assert u in order;
      var s :| 0 <= s < |order| && order[s] == u;
      assert f[s] == flat[u] && v[s] == vals[u];
    }
  }

  /** Run starts and `np.maximum.reduceat` over sorted keys. */
  method ReduceSorted(f: seq<int>, v: seq<real>) returns (redF: seq<int>, redV: seq<real>)
    requires |f| == |v| && forall s, t :: 0 <= s < t < |f| ==> f[s] <= f[t]
    ensures IsSegmentMax(f, v, redF, redV)
  {
    var starts := RunStarts(f);
    redF := seq<int>(|starts|, k requires 0 <= k < |starts| => f[starts[k]]);
    redV := ReduceMax(v, starts);
    SegmentKeysAscend(f, starts);
    forall k | 0 <= k < |redF|
      ensures OccursAt(f, v, redF, redV, k)
    {
      var t :| starts[k] <= t < RunEnd(starts, |f|, k) && v[t] == MaxOver(v, starts[k], RunEnd(starts, |f|, k));
      RunIsConstant(f, starts, k, t);
    }
    forall s | 0 <= s < |f|
      ensures CoveredAt(f, v, redF, redV, s)
    {
      var k := RunOf(f, starts, s);
      RunIsConstant(f, starts, k, s);
      assert redF[k] == f[s] && v[s] <= redV[k];
    }
  }

  /** Stable argsort, run starts, `np.maximum.reduceat`. */
  method SegmentMax(flat: seq<int>, vals: seq<real>) returns (redF: seq<int>, redV: seq<real>)
    requires |flat| == |vals|
    ensures IsSegmentMax(flat, vals, redF, redV)
  {
    var f, v := SortPairs(flat, vals);
    redF, redV := ReduceSorted(f, v);
    forall k | 0 <= k < |redF|
      ensures OccursAt(flat, vals, redF, redV, k)
    {
      assert OccursAt(f, v, redF, redV, k);
      var t :| 0 <= t < |f| && f[t] == redF[k] && v[t] == redV[k];
      assert PairOccurs(flat, vals, f, v, t);
    }
    forall u | 0 <= u < |flat|
      ensures CoveredAt(flat, vals, redF, redV, u)
    {
      assert PairOccurs(f, v, flat, vals, u);
      var t :| 0 <= t < |f| && f[t] == flat[u] && v[t] == vals[u];
      assert CoveredAt(f, v, redF, redV, t);
    }
  }

  lemma SegmentKeysAscend(f: seq<int>, starts: seq<nat>)
    requires IsRunStarts(f, starts)
    requires forall s, t :: 0 <= s < t < |f| ==> f[s] <= f[t]
    ensures forall k, m :: 0 <= k < m < |starts| ==> f[starts[k]] < f[starts[m]]
  {
    forall k, m | 0 <= k < m < |starts|
      ensures f[starts[k]] < f[starts[m]]
    {
      var p := starts[m];
      assert f[p - 1] != f[p] && f[p - 1] <= f[p];
      assert starts[k] < p;
      assert starts[k] == p - 1 || f[starts[k]] <= f[p - 1];
    }
  }

  // ---------------------------------------------------------------- one chunk's terms

  function Arange(n: nat): (r: seq<nat>)
    ensures |r| == n && forall t :: 0 <= t < n ==> r[t] == t
  {
    seq<nat>(n, t requires 0 <= t < n => t)
  }

  /** `np.diff(indptr)` over rows `lo..hi`. */
  function Degrees(a: Csr, lo: nat, hi: nat): (r: seq<nat>)
    requires Valid(a) && lo <= hi <= a.nRows
    ensures |r| == hi - lo && forall t :: 0 <= t < hi - lo ==> r[t] == Degree(a, lo + t)
  {
    seq<nat>(hi - lo, t requires 0 <= t < hi - lo => Degree(a, lo + t))
  }

  lemma {:induction false} RowStarts(a: Csr, lo: nat, hi: nat, r: nat)
    requires Valid(a) && lo + r <= hi <= a.nRows
    ensures Total(Degrees(a, lo, hi)[..r]) == a.indptr[lo + r] - a.indptr[lo]
    decreases r
  {
    if r > 0 {
      RowStarts(a, lo, hi, r - 1);
      TotalPrefix(Degrees(a, lo, hi), r - 1);
    }
  }

  /** Position `s` of the row block belongs to the block row `rowsOfNz[s]`. */
  lemma RowOfNz(a: Csr, lo: nat, hi: nat, rowsOfNz: seq<nat>, r: nat, s: nat)
    requires Valid(a) && lo + r < hi <= a.nRows
    requires rowsOfNz == Repeat(Arange(hi - lo),
                                Degrees(a, lo, hi))
    requires a.indptr[lo + r] <= a.indptr[lo] + s < a.indptr[lo + r + 1]
    ensures s < |rowsOfNz| && rowsOfNz[s] == r
  {
    var nz := Degrees(a, lo, hi);
    RowStarts(a, lo, hi, r);
    RepeatAt(Arange(hi - lo), nz, r, a.indptr[lo] + s - a.indptr[lo + r]);
  }

  ghost predicate Listed(rows: seq<nat>, cols: seq<nat>, vals: seq<real>, r: int, j: int, v: real)
    requires |rows| == |cols| == |vals|
  {
    exists t :: 0 <= t < |rows| && rows[t] == r && cols[t] == j && vals[t] == v
  }

  /** The vectors a chunk is expanded from: block rows, inner keys and left values of the
      stored entries of rows `lo..hi`, and the ranges of `b` those keys select. */
  datatype Layout = Layout(rowsOfNz: seq<nat>, kIdx: seq<nat>, kVal: seq<real>, starts: seq<int>, cnt: seq<nat>)

  ghost predicate SlotOk(a: Csr, b: Csr, lo: nat, hi: nat, l: Layout, s: nat)
    requires Valid(a) && Valid(b) && lo < hi <= a.nRows
    requires s < |l.rowsOfNz| == |l.kIdx| == |l.kVal| == |l.starts| == |l.cnt|
  {
    var p := a.indptr[lo] + s;
    && p < |a.indices| == |a.data| && l.kIdx[s] == a.indices[p] < b.nRows && l.kVal[s] == a.data[p]
    && l.starts[s] == b.indptr[l.kIdx[s]] && l.cnt[s] == Degree(b, l.kIdx[s])
    && l.rowsOfNz[s] < hi - lo && InRow(a, lo + l.rowsOfNz[s], p)
  }

  ghost predicate IsLayout(a: Csr, b: Csr, lo: nat, hi: nat, l: Layout)
    requires Valid(a) && Valid(b) && lo < hi <= a.nRows
  {
    && |l.rowsOfNz| == |l.kIdx| == |l.kVal| == |l.starts| == |l.cnt| == a.indptr[hi] - a.indptr[lo]
    && forall s :: 0 <= s < |l.kIdx| ==> SlotOk(a, b, lo, hi, l, s)
  }

  method LayOut(a: Csr, b: Csr, lo: nat, hi: nat) returns (l: Layout)
    requires Valid(a) && Valid(b) && a.nCols == b.nRows
    requires lo < hi <= a.nRows
    ensures IsLayout(a, b, lo, hi, l)
  {
    var base, top := a.indptr[lo], a.indptr[hi];
    assert top <= a.indptr[a.nRows];
    var kIdx, kVal := a.indices[base..top], a.data[base..top];
    BlockLength(a, lo, hi);
    var rowsOfNz := Repeat(Arange(hi - lo), Degrees(a, lo, hi));
    var starts := seq<int>(|kIdx|, s requires 0 <= s < |kIdx| => b.indptr[kIdx[s]]);
    var cnt := seq<nat>(|kIdx|, s requires 0 <= s < |kIdx| => Degree(b, kIdx[s]));
    l := Layout(rowsOfNz, kIdx, kVal, starts, cnt);
    forall s | 0 <= s < |kIdx|
      ensures SlotOk(a, b, lo, hi, l, s)
    {
      var r := RowContaining(a, lo, hi, base + s);
      RowOfNz(a, lo, hi, rowsOfNz, r, s);
    }
  }

  lemma BlockLength(a: Csr, lo: nat, hi: nat)
    requires Valid(a) && lo < hi <= a.nRows
    ensures |Repeat(Arange(hi - lo), Degrees(a, lo, hi))| == a.indptr[hi] - a.indptr[lo]
  {
    RowStarts(a, lo, hi, hi - lo);
    assert Degrees(a, lo, hi)[..hi - lo] == Degrees(a, lo, hi);
    RepeatLength(Arange(hi - lo), Degrees(a, lo, hi));
  }

  /** Position `t` of the ragged expansion holds element `o` of range `s`. */
  ghost predicate HoldsAt(l: Layout, gather: seq<int>, rows: seq<nat>, kVals: seq<real>, t: nat, s: nat, o: nat)
    requires |l.rowsOfNz| == |l.kVal| == |l.starts| == |l.cnt|
  {
    && t < |gather| == |rows| == |kVals|
    && s < |l.cnt| && o < l.cnt[s]
    && gather[t] == l.starts[s] + o && rows[t] == l.rowsOfNz[s] && kVals[t] == l.kVal[s]
  }

  /** The three ragged vectors stay aligned: one slot for every position, one position for
      every element of every range. */
  lemma Aligned(l: Layout, gather: seq<int>, rows: seq<nat>, kVals: seq<real>)
    requires |l.rowsOfNz| == |l.kVal| == |l.starts| == |l.cnt|
    requires gather == ConcatRanges(l.starts, l.cnt)
    requires rows == Repeat(l.rowsOfNz, l.cnt) && kVals == Repeat(l.kVal, l.cnt)
    ensures |gather| == |rows| == |kVals|
    ensures forall t :: 0 <= t < |gather| ==> PositionFilled(l, gather, rows, kVals, t)
    ensures forall s, o :: 0 <= s < |l.cnt| && 0 <= o < l.cnt[s] ==> ElementPlaced(l, gather, rows, kVals, s, o)
  {
    ConcatLength(l.starts, l.cnt);
    RepeatLength(l.rowsOfNz, l.cnt);
    RepeatLength(l.kVal, l.cnt);
    forall t | 0 <= t < |gather|
      ensures PositionFilled(l, gather, rows, kVals, t)
    {
      var s, o := Locate(l.cnt, t);
      PlaceElement(l, s, o);
      assert HoldsAt(l, gather, rows, kVals, t, s, o);
    }
    forall s, o | 0 <= s < |l.cnt| && 0 <= o < l.cnt[s]
      ensures ElementPlaced(l, gather, rows, kVals, s, o)
    {
      PlaceElement(l, s, o);
      assert HoldsAt(l, gather, rows, kVals, Total(l.cnt[..s]) + o, s, o);
    }
  }

  ghost predicate PositionFilled(l: Layout, gather: seq<int>, rows: seq<nat>, kVals: seq<real>, t: nat)
    requires |l.rowsOfNz| == |l.kVal| == |l.starts| == |l.cnt|
  {
    exists s: nat, o: nat :: HoldsAt(l, gather, rows, kVals, t, s, o)
  }

  ghost predicate ElementPlaced(l: Layout, gather: seq<int>, rows: seq<nat>, kVals: seq<real>, s: nat, o: nat)
    requires |l.rowsOfNz| == |l.kVal| == |l.starts| == |l.cnt|
  {
    exists t: nat :: HoldsAt(l, gather, rows, kVals, t, s, o)
  }

  lemma PlaceElement(l: Layout, s: nat, o: nat)
    requires |l.rowsOfNz| == |l.kVal| == |l.starts| == |l.cnt|
    requires s < |l.cnt| && o < l.cnt[s]
    ensures HoldsAt(l, ConcatRanges(l.starts, l.cnt), Repeat(l.rowsOfNz, l.cnt), Repeat(l.kVal, l.cnt),
                    Total(l.cnt[..s]) + o, s, o)
  {
    ConcatAt(l.starts, l.cnt, s, o);
    RepeatAt(l.rowsOfNz, l.cnt, s, o);
    RepeatAt(l.kVal, l.cnt, s, o);
  }

  /** The flop expansion of rows `lo..hi`: `repeat` for the rows and the left values, the
      ragged gather for the right positions. It lists exactly the product's terms. */
  method Expand(a: Csr, b: Csr, combine: Combine, lo: nat, hi: nat)
    returns (rows: seq<nat>, cols: seq<nat>, vals: seq<real>)
    requires Valid(a) && Valid(b) && a.nCols == b.nRows
    requires lo < hi <= a.nRows
    ensures IsExpansion(a, b, combine, lo, hi, rows, cols, vals)
  {
    var l := LayOut(a, b, lo, hi);
    var gather := RaggedGather(l.starts, l.cnt);
    rows := Repeat(l.rowsOfNz, l.cnt);
    var kVals := Repeat(l.kVal, l.cnt);
    Aligned(l, gather, rows, kVals);
    forall t | 0 <= t < |gather|
      ensures 0 <= gather[t] < |b.indices| == |b.data|
    {
      var p, q := TermOfPosition(a, b, lo, hi, l, gather, rows, kVals, t);
    }
    cols := seq<nat>(|gather|, t requires 0 <= t < |gather| => b.indices[gather[t]]);
    vals := seq<real>(|gather|, t requires 0 <= t < |gather| => combine(b.data[gather[t]], kVals[t]));
    forall t | 0 <= t < |rows|
      ensures rows[t] < hi - lo && cols[t] < b.nCols && TermAt(a, b, combine, lo, rows, cols, vals, t)
    {
      var p, q := TermOfPosition(a, b, lo, hi, l, gather, rows, kVals, t);
      assert Flop(a, b, lo + rows[t], cols[t], p, q) && vals[t] == Term(a, b, combine, p, q);
    }
    forall i, j, p, q | lo <= i < hi && Flop(a, b, i, j, p, q)
      ensures Listed(rows, cols, vals, i - lo, j, Term(a, b, combine, p, q))
    {
      var t := PositionOfTerm(a, b, lo, hi, l, gather, rows, kVals, i, j, p, q);
      assert rows[t] == i - lo && cols[t] == j && vals[t] == Term(a, b, combine, p, q);
    }
  }

  /** What the expansion holds at position `t`, as positions of `a` and `b`. */
  lemma TermOfPosition(a: Csr, b: Csr, lo: nat, hi: nat, l: Layout, gather: seq<int>, rows: seq<nat>, kVals: seq<real>,
                       t: nat)
    returns (p: nat, q: nat)
    requires Valid(a) && Valid(b) && a.nCols == b.nRows && lo < hi <= a.nRows && IsLayout(a, b, lo, hi, l)
    requires t < |gather| == |rows| == |kVals|
    requires PositionFilled(l, gather, rows, kVals, t)
    ensures q < |b.indices| == |b.data| && p < |a.data|
    ensures q == gather[t] && a.data[p] == kVals[t] && rows[t] < hi - lo
    ensures Flop(a, b, lo + rows[t], b.indices[q], p, q)
  {
    var s: nat, o: nat :| HoldsAt(l, gather, rows, kVals, t, s, o);
    assert SlotOk(a, b, lo, hi, l, s);
    p, q := a.indptr[lo] + s, gather[t];
    RowBounds(b, l.kIdx[s]);
  }

  /** Where the expansion lists a given term. */
  lemma PositionOfTerm(a: Csr, b: Csr, lo: nat, hi: nat, l: Layout, gather: seq<int>, rows: seq<nat>, kVals: seq<real>,
                       i: int, j: int, p: int, q: int) returns (t: nat)
    requires Valid(a) && Valid(b) && a.nCols == b.nRows && lo < hi <= a.nRows && IsLayout(a, b, lo, hi, l)
    requires forall s, o :: 0 <= s < |l.cnt| && 0 <= o < l.cnt[s] ==> ElementPlaced(l, gather, rows, kVals, s, o)
    requires lo <= i < hi && Flop(a, b, i, j, p, q)
    ensures t < |gather| == |rows| == |kVals|
    ensures gather[t] == q && kVals[t] == a.data[p] && rows[t] == i - lo
  {
    assert a.indptr[lo] <= a.indptr[i] && a.indptr[i + 1] <= a.indptr[hi];
    var s := p - a.indptr[lo];
    assert SlotOk(a, b, lo, hi, l, s);
    SameRow(a, i, lo + l.rowsOfNz[s], p);
    var o := q - l.starts[s];
    assert ElementPlaced(l, gather, rows, kVals, s, o);
    t :| HoldsAt(l, gather, rows, kVals, t, s, o);
  }

  lemma SameRow(a: Csr, i: nat, k: nat, p: nat)
    requires Valid(a) && InRow(a, i, p) && InRow(a, k, p)
    ensures i == k
  {
  }

  lemma RowContaining(a: Csr, lo: nat, hi: nat, p: nat) returns (r: nat)
    requires Valid(a) && lo < hi <= a.nRows
    requires a.indptr[lo] <= p < a.indptr[hi]
    ensures lo + r < hi && InRow(a, lo + r, p)
  {
    r := 0;
    while a.indptr[lo + r + 1] <= p
      invariant lo + r < hi && a.indptr[lo + r] <= p
      decreases hi - r
    {
      r := r + 1;
    }
  }

  // ---------------------------------------------------------------- one chunk's product

  lemma {:induction false} MulAtLeast(k: nat, n: nat)
    requires k >= 1
    ensures k * n >= n
  {
    if k > 1 {
      MulAtLeast(k - 1, n);
    }
  }

  /** `row * n + col` is decoded by division and remainder. */
  lemma EncodeDecode(n: nat, r: nat, c: nat)
    requires c < n
    ensures (r * n + c) / n == r && (r * n + c) % n == c
  {
    var x := r * n + c;
    var q := x / n;
    assert x == q * n + x % n;
    if q < r {
      assert (r - q) * n == r * n - q * n;
      MulAtLeast(r - q, n);
    } else if r < q {
      assert (q - r) * n == q * n - r * n;
      MulAtLeast(q - r, n);
    }
  }

  lemma EncodeOrder(n: nat, r: nat, c: nat, s: nat, d: nat)
    requires c < n && d < n
    requires LexBefore(r, c, s, d)
    ensures r * n + c < s * n + d
  {
    if r < s {
      assert (s - r) * n == s * n - r * n;
      MulAtLeast(s - r, n);
    }
  }

  ghost predicate LexBefore(r: nat, c: nat, s: nat, d: nat)
  {
    r < s || (r == s && c < d)
  }

  ghost predicate RowMajor(rows: seq<nat>, cols: seq<nat>)
  {
    && |rows| == |cols|
    && forall k, m :: 0 <= k < m < |rows| ==> LexBefore(rows[k], cols[k], rows[m], cols[m])
  }

  ghost predicate AllMax(a: Csr, b: Csr, combine: Combine, lo: nat, hi: nat, rows: seq<nat>, cols: seq<nat>,
                         vals: seq<real>)
  {
    && |rows| == |cols| == |vals|
    && (forall k :: 0 <= k < |rows| ==> lo <= rows[k] < hi && cols[k] < b.nCols)
    && (forall k :: 0 <= k < |rows| ==> MaxAt(a, b, combine, rows, cols, vals, k))
  }

  ghost predicate MaxAt(a: Csr, b: Csr, combine: Combine, rows: seq<nat>, cols: seq<nat>, vals: seq<real>, k: nat)
    requires k < |rows| == |cols| == |vals|
  {
    IsMax(a, b, combine, rows[k], cols[k], vals[k])
  }

  ghost predicate ListsAll(a: Csr, b: Csr, lo: nat, hi: nat, rows: seq<nat>, cols: seq<nat>)
    requires |rows| == |cols|
  {
    forall i, j, p, q :: lo <= i < hi && Flop(a, b, i, j, p, q) ==> ListedAt(rows, cols, i, j)
  }

  /** Rows `lo..hi` of the product as a row-major list of entries. */
  ghost predicate IsBlock(a: Csr, b: Csr, combine: Combine, lo: nat, hi: nat, rows: seq<nat>, cols: seq<nat>,
                          vals: seq<real>)
  {
    && RowMajor(rows, cols)
    && AllMax(a, b, combine, lo, hi, rows, cols, vals)
    && ListsAll(a, b, lo, hi, rows, cols)
  }

  ghost predicate ListedAt(rows: seq<nat>, cols: seq<nat>, i: int, j: int)
    requires |rows| == |cols|
  {
    exists k :: 0 <= k < |rows| && rows[k] == i && cols[k] == j
  }

  /** Reduced key `k` decodes to row `rows[k]` and column `cols[k]`. */
  ghost predicate Decoded(n: nat, hi: nat, outRows: seq<nat>, outCols: seq<nat>, flat: seq<int>,
                          redF: seq<int>, rows: seq<nat>, cols: seq<nat>)
    requires |flat| == |outRows| == |outCols|
  {
    && |rows| == |cols| == |redF|
    && (forall k :: 0 <= k < |redF| ==> rows[k] < hi && cols[k] < n)
    && (forall k, t :: 0 <= k < |redF| && 0 <= t < |flat| ==>
        (flat[t] == redF[k] <==> outRows[t] == rows[k] && outCols[t] == cols[k]))
    && RowMajor(rows, cols)
  }

  lemma DecodeKey(n: nat, hi: nat, outRows: seq<nat>, outCols: seq<nat>, flat: seq<int>, vals: seq<real>,
                  redF: seq<int>, redV: seq<real>, k: nat)
    returns (r: nat, c: nat)
    requires |flat| == |outRows| == |outCols| == |vals|
    requires forall t :: 0 <= t < |flat| ==> outRows[t] < hi && outCols[t] < n && flat[t] == outRows[t] * n + outCols[t]
    requires k < |redF| == |redV| && OccursAt(flat, vals, redF, redV, k)
    ensures n > 0 && r < hi && c < n && redF[k] == r * n + c
    ensures redF[k] / n == r && redF[k] - redF[k] / n * n == c
  {
    var t :| 0 <= t < |flat| && flat[t] == redF[k] && vals[t] == redV[k];
    r, c := outRows[t], outCols[t];
    EncodeDecode(n, r, c);
  }

  /** Split reduced keys into rows and columns. */
  method DecodeKeys(n: nat, ghost hi: nat, ghost outRows: seq<nat>, ghost outCols: seq<nat>, ghost flat: seq<int>,
                    ghost vals: seq<real>,
                    redF: seq<int>, ghost redV: seq<real>) returns (rows: seq<nat>, cols: seq<nat>)
    requires |flat| == |outRows| == |outCols| == |vals| && |redF| == |redV|
    requires forall t :: 0 <= t < |flat| ==> outRows[t] < hi && outCols[t] < n && flat[t] == outRows[t] * n + outCols[t]
    requires IsSegmentMax(flat, vals, redF, redV)
    ensures Decoded(n, hi, outRows, outCols, flat, redF, rows, cols)
  {
    rows, cols := [], [];
    for k := 0 to |redF|
      invariant |rows| == |cols| == k
      invariant forall m :: 0 <= m < k ==> rows[m] < hi && cols[m] < n && redF[m] == rows[m] * n + cols[m]
    {
      ghost var r, c := DecodeKey(n, hi, outRows, outCols, flat, vals, redF, redV, k);
      rows := rows + [redF[k] / n];
      cols := cols + [redF[k] - redF[k] / n * n];
    }
    forall k, t | 0 <= k < |redF| && 0 <= t < |flat|
      ensures flat[t] == redF[k] <==> outRows[t] == rows[k] && outCols[t] == cols[k]
    {
      EncodeDecode(n, rows[k], cols[k]);
      EncodeDecode(n, outRows[t], outCols[t]);
    }
    forall k, m | 0 <= k < m < |redF|
      ensures LexBefore(rows[k], cols[k], rows[m], cols[m])
    {
      if LexBefore(rows[m], cols[m], rows[k], cols[k]) {
        EncodeOrder(n, rows[m], cols[m], rows[k], cols[k]);
      }
    }
  }

  ghost predicate TermAt(a: Csr, b: Csr, combine: Combine, lo: nat, rows: seq<nat>, cols: seq<nat>, vals: seq<real>,
                         t: nat)
    requires t < |rows| == |cols| == |vals|
  {
    Attained(a, b, combine, lo + rows[t], cols[t], vals[t])
  }

  /** The expansion of rows `lo..hi` lists exactly the product's terms. */
  ghost predicate IsExpansion(a: Csr, b: Csr, combine: Combine, lo: nat, hi: nat, rows: seq<nat>, cols: seq<nat>,
                              vals: seq<real>)
  {
    && |rows| == |cols| == |vals|
    && (forall t :: 0 <= t < |rows| ==> rows[t] < hi - lo && cols[t] < b.nCols)
    && (forall t :: 0 <= t < |rows| ==> TermAt(a, b, combine, lo, rows, cols, vals, t))
    && (forall i, j, p, q :: lo <= i < hi && Flop(a, b, i, j, p, q) ==>
        Listed(rows, cols, vals, i - lo, j, Term(a, b, combine, p, q)))
  }

  function Shift(rows: seq<nat>, lo: nat): (r: seq<nat>)
    ensures |r| == |rows| && forall k :: 0 <= k < |rows| ==> r[k] == lo + rows[k]
  {
    seq<nat>(|rows|, k requires 0 <= k < |rows| => lo + rows[k])
  }

  /** One entry per distinct cell, row-major, carrying the cell's largest value. */
  ghost predicate IsCellMax(outRows: seq<nat>, outCols: seq<nat>, outVals: seq<real>, rows: seq<nat>, cols: seq<nat>,
                            vals: seq<real>)
  {
    && |outRows| == |outCols| == |outVals| && |rows| == |vals|
    && RowMajor(rows, cols)
    && (forall k :: 0 <= k < |rows| ==> CellOccurs(outRows, outCols, outVals, rows, cols, vals, k))
    && (forall t :: 0 <= t < |outRows| ==> CellCovered(outRows, outCols, outVals, rows, cols, vals, t))
  }

  ghost predicate CellOccurs(outRows: seq<nat>, outCols: seq<nat>, outVals: seq<real>, rows: seq<nat>, cols: seq<nat>,
                             vals: seq<real>, k: nat)
    requires |outRows| == |outCols| == |outVals| && k < |rows| == |cols| == |vals|
  {
    Listed(outRows, outCols, outVals, rows[k], cols[k], vals[k])
  }

  ghost predicate CellCovered(outRows: seq<nat>, outCols: seq<nat>, outVals: seq<real>, rows: seq<nat>, cols: seq<nat>,
                              vals: seq<real>, t: nat)
    requires t < |outRows| == |outCols| == |outVals| && |rows| == |cols| == |vals|
  {
    Dominated(rows, cols, vals, outRows[t], outCols[t], outVals[t])
  }

  ghost predicate Dominated(rows: seq<nat>, cols: seq<nat>, vals: seq<real>, r: nat, c: nat, v: real)
    requires |rows| == |cols| == |vals|
  {
    exists k :: 0 <= k < |rows| && rows[k] == r && cols[k] == c && v <= vals[k]
  }

  /** Encode cells as `row * n + col`, reduce, decode. */
  method ReduceCells(outRows: seq<nat>, outCols: seq<nat>, outVals: seq<real>, n: nat, ghost hi: nat)
    returns (rows: seq<nat>, cols: seq<nat>, vals: seq<real>)
    requires |outRows| == |outCols| == |outVals|
    requires forall t :: 0 <= t < |outRows| ==> outRows[t] < hi && outCols[t] < n
    ensures IsCellMax(outRows, outCols, outVals, rows, cols, vals)
    ensures forall k :: 0 <= k < |rows| ==> rows[k] < hi && cols[k] < n
  {
    var flat := Flatten(outRows, outCols, n);
    var redF, redV := SegmentMax(flat, outVals);
    rows, cols := DecodeKeys(n, hi, outRows, outCols, flat, outVals, redF, redV);
    vals := redV;
    DecodedIsCellMax(n, hi, outRows, outCols, outVals, flat, redF, redV, rows, cols);
  }

  lemma DecodedIsCellMax(n: nat, hi: nat, outRows: seq<nat>, outCols: seq<nat>, outVals: seq<real>, flat: seq<int>,
                         redF: seq<int>, redV: seq<real>, rows: seq<nat>, cols: seq<nat>)
    requires |outRows| == |outCols| == |outVals| == |flat| && |redF| == |redV|
    requires Decoded(n, hi, outRows, outCols, flat, redF, rows, cols)
    requires IsSegmentMax(flat, outVals, redF, redV)
    ensures IsCellMax(outRows, outCols, outVals, rows, cols, redV)
  {
    forall k | 0 <= k < |rows|
      ensures CellOccurs(outRows, outCols, outVals, rows, cols, redV, k)
    {
      assert OccursAt(flat, outVals, redF, redV, k);
      var t :| 0 <= t < |flat| && flat[t] == redF[k] && outVals[t] == redV[k];
      assert outRows[t] == rows[k] && outCols[t] == cols[k];
    }
    forall t | 0 <= t < |outRows|
      ensures CellCovered(outRows, outCols, outVals, rows, cols, redV, t)
    {
      assert CoveredAt(flat, outVals, redF, redV, t);
      var k :| 0 <= k < |redF| && redF[k] == flat[t] && outVals[t] <= redV[k];
      assert rows[k] == outRows[t] && cols[k] == outCols[t];
    }
  }

  lemma CellMaxIsMax(a: Csr, b: Csr, combine: Combine, lo: nat, hi: nat,
                     outRows: seq<nat>, outCols: seq<nat>, outVals: seq<real>,
                     rows: seq<nat>, cols: seq<nat>, vals: seq<real>, k: nat)
    requires IsExpansion(a, b, combine, lo, hi, outRows, outCols, outVals)
    requires IsCellMax(outRows, outCols, outVals, rows, cols, vals)
    requires k < |rows| && lo + rows[k] < hi
    ensures IsMax(a, b, combine, lo + rows[k], cols[k], vals[k])
  {
    assert CellOccurs(outRows, outCols, outVals, rows, cols, vals, k);
    var t :| 0 <= t < |outRows| && outRows[t] == rows[k] && outCols[t] == cols[k] && outVals[t] == vals[k];
    assert TermAt(a, b, combine, lo, outRows, outCols, outVals, t);
    forall p, q | Flop(a, b, lo + rows[k], cols[k], p, q)
      ensures Term(a, b, combine, p, q) <= vals[k]
    {
      var v := Term(a, b, combine, p, q);
      assert Listed(outRows, outCols, outVals, lo + rows[k] - lo, cols[k], v);
      var u :| 0 <= u < |outRows| && outRows[u] == rows[k] && outCols[u] == cols[k] && outVals[u] == v;
      assert CellCovered(outRows, outCols, outVals, rows, cols, vals, u);
      var m :| 0 <= m < |rows| && rows[m] == rows[k] && cols[m] == cols[k] && v <= vals[m];
      SameCell(rows, cols, k, m);
    }
  }

  lemma SameCell(rows: seq<nat>, cols: seq<nat>, k: nat, m: nat)
    requires RowMajor(rows, cols) && k < |rows| && m < |rows|
    requires rows[k] == rows[m] && cols[k] == cols[m]
    ensures k == m
  {
  }

  lemma CellMaxListsAll(a: Csr, b: Csr, combine: Combine, lo: nat, hi: nat,
                        outRows: seq<nat>, outCols: seq<nat>, outVals: seq<real>,
                        rows: seq<nat>, cols: seq<nat>, vals: seq<real>)
    requires IsExpansion(a, b, combine, lo, hi, outRows, outCols, outVals)
    requires IsCellMax(outRows, outCols, outVals, rows, cols, vals)
    ensures ListsAll(a, b, lo, hi, Shift(rows, lo), cols)
  {
    forall i, j, p, q | lo <= i < hi && Flop(a, b, i, j, p, q)
      ensures ListedAt(Shift(rows, lo), cols, i, j)
    {
      var v := Term(a, b, combine, p, q);
      assert Listed(outRows, outCols, outVals, i - lo, j, v);
      var u :| 0 <= u < |outRows| && outRows[u] == i - lo && outCols[u] == j && outVals[u] == v;
      assert CellCovered(outRows, outCols, outVals, rows, cols, vals, u);
      var k :| 0 <= k < |rows| && rows[k] == i - lo && cols[k] == j && v <= vals[k];
      assert Shift(rows, lo)[k] == i && cols[k] == j;
    }
  }

  lemma ShiftRowMajor(rows: seq<nat>, cols: seq<nat>, lo: nat)
    requires RowMajor(rows, cols)
    ensures RowMajor(Shift(rows, lo), cols)
  {
  }

  /** One pass of the chunk loop, up to the counting of entries per row. */
  method Chunk(a: Csr, b: Csr, combine: Combine, lo: nat, hi: nat)
    returns (rows: seq<nat>, cols: seq<nat>, vals: seq<real>)
    requires Valid(a) && Valid(b) && a.nCols == b.nRows
    requires lo < hi <= a.nRows
    ensures forall k :: 0 <= k < |rows| ==> rows[k] < hi - lo
    ensures IsBlock(a, b, combine, lo, hi, Shift(rows, lo), cols, vals)
  {
    var outRows, outCols, outVals := Expand(a, b, combine, lo, hi);
    rows, cols, vals := ReduceCells(outRows, outCols, outVals, b.nCols, hi - lo);
    forall k | 0 <= k < |rows|
      ensures MaxAt(a, b, combine, Shift(rows, lo), cols, vals, k)
    {
      CellMaxIsMax(a, b, combine, lo, hi, outRows, outCols, outVals, rows, cols, vals, k);
    }
    CellMaxListsAll(a, b, combine, lo, hi, outRows, outCols, outVals, rows, cols, vals);
    ShiftRowMajor(rows, cols, lo);
  }

  function Flatten(rows: seq<nat>, cols: seq<nat>, n: nat): (flat: seq<int>)
    requires |rows| == |cols|
    ensures |flat| == |rows| && forall t :: 0 <= t < |rows| ==> flat[t] == rows[t] * n + cols[t]
  {
    seq<int>(|rows|, t requires 0 <= t < |rows| => rows[t] * n + cols[t])
  }

  // ---------------------------------------------------------------- the chunk loop

  /** Up to row `hi`, `indptr[r]` counts the entries of the rows below `r`. */
  ghost predicate Separates(indptr: seq<nat>, rows: seq<nat>, hi: nat)
    requires hi < |indptr|
  {
    forall r :: 0 <= r <= hi ==> indptr[r] == CountBelow(rows, r)
  }

  lemma AppendRowMajor(lo: nat, rows: seq<nat>, cols: seq<nat>, rows': seq<nat>, cols': seq<nat>)
    requires RowMajor(rows, cols) && RowMajor(rows', cols')
    requires forall k :: 0 <= k < |rows| ==> rows[k] < lo
    requires forall k :: 0 <= k < |rows'| ==> lo <= rows'[k]
    ensures RowMajor(rows + rows', cols + cols')
  {
  }

  lemma AppendListsAll(a: Csr, b: Csr, lo: nat, hi: nat, rows: seq<nat>, cols: seq<nat>, rows': seq<nat>,
                       cols': seq<nat>)
    requires Valid(a) && Valid(b) && lo <= hi
    requires |rows| == |cols| && |rows'| == |cols'|
    requires ListsAll(a, b, 0, lo, rows, cols) && ListsAll(a, b, lo, hi, rows', cols')
    ensures ListsAll(a, b, 0, hi, rows + rows', cols + cols')
  {
    forall i, j, p, q | 0 <= i < hi && Flop(a, b, i, j, p, q)
      ensures ListedAt(rows + rows', cols + cols', i, j)
    {
      if i < lo {
        assert ListedAt(rows, cols, i, j);
      } else {
        assert ListedAt(rows', cols', i, j);
      }
      ListedInEither(rows, cols, rows', cols', i, j);
    }
  }

  lemma AppendAllMax(a: Csr, b: Csr, combine: Combine, lo: nat, hi: nat,
                     rows: seq<nat>, cols: seq<nat>, vals: seq<real>,
                     rows': seq<nat>, cols': seq<nat>, vals': seq<real>)
    requires Valid(a) && Valid(b) && lo <= hi
    requires AllMax(a, b, combine, 0, lo, rows, cols, vals) && AllMax(a, b, combine, lo, hi, rows', cols', vals')
    ensures AllMax(a, b, combine, 0, hi, rows + rows', cols + cols', vals + vals')
  {
    var r, c, v := rows + rows', cols + cols', vals + vals';
    forall k | 0 <= k < |r|
      ensures MaxAt(a, b, combine, r, c, v, k)
    {
      if k < |rows| {
        assert MaxAt(a, b, combine, rows, cols, vals, k);
      } else {
        assert MaxAt(a, b, combine, rows', cols', vals', k - |rows|);
      }
    }
  }

  lemma ListedInEither(rows: seq<nat>, cols: seq<nat>, rows': seq<nat>, cols': seq<nat>, i: int, j: int)
    requires |rows| == |cols| && |rows'| == |cols'|
    requires ListedAt(rows, cols, i, j) || ListedAt(rows', cols', i, j)
    ensures ListedAt(rows + rows', cols + cols', i, j)
  {
    var allRows, allCols := rows + rows', cols + cols';
    if k :| 0 <= k < |rows| && rows[k] == i && cols[k] == j {
      assert allRows[k] == i && allCols[k] == j;
    } else {
      var k :| 0 <= k < |rows'| && rows'[k] == i && cols'[k] == j;
      assert allRows[|rows| + k] == i && allCols[|rows| + k] == j;
    }
  }

  /** `_max_plus` for any chunk size. */
  method Product(a: Csr, b: Csr, combine: Combine, chunkRows: nat) returns (m: Csr)
    requires Valid(a) && Valid(b) && a.nCols == b.nRows
    requires chunkRows >= 1
    ensures IsProduct(a, b, combine, m)
  {
    var outIndptr := new nat[a.nRows + 1](_ => 0);
    var indices: seq<nat>, data: seq<real> := [], [];
    ghost var rows: seq<nat> := [];
    var lo := 0;
    while lo < a.nRows
      invariant 0 <= lo <= a.nRows
      invariant IsBlock(a, b, combine, 0, lo, rows, indices, data)
      invariant Separates(outIndptr[..], rows, lo)
    {
      var hi := if lo + chunkRows < a.nRows then lo + chunkRows else a.nRows;
      var blockRows, cols, vals := Chunk(a, b, combine, lo, hi);
      ghost var block := Shift(blockRows, lo);
      assert forall k, m :: 0 <= k < m < |blockRows| ==>
        LexBefore(block[k], cols[k], block[m], cols[m]) && block[k] <= block[m];
      FillIndptr(outIndptr, lo, hi, rows, blockRows);
      AppendRowMajor(lo, rows, indices, block, cols);
      AppendAllMax(a, b, combine, lo, hi, rows, indices, data, block, cols, vals);
      AppendListsAll(a, b, lo, hi, rows, indices, block, cols);
      rows, indices, data := rows + block, indices + cols, data + vals;
      lo := hi;
    }
    m := Csr(a.nRows, b.nCols, outIndptr[..], indices, data);
    BlockIsProduct(a, b, combine, rows, m);
  }

  lemma {:induction false} CountBelowShift(rows: seq<nat>, lo: nat, r: nat)
    ensures CountBelow(Shift(rows, lo), lo + r) == CountBelow(rows, r)
  {
    if rows != [] {
      CountBelowShift(rows[..|rows| - 1], lo, r);
      assert Shift(rows, lo)[..|rows| - 1] == Shift(rows[..|rows| - 1], lo);
    }
  }

  /** The entries before the block and the running total of its counts make the pointer. */
  lemma PointerOf(rows: seq<nat>, blockRows: seq<nat>, lo: nat, n: nat, r: nat)
    requires r <= n && forall k :: 0 <= k < |rows| ==> rows[k] < lo
    ensures CountBelow(rows + Shift(blockRows, lo), lo + r) == |rows| + Total(BinCount(blockRows, n)[..r])
  {
    BinCountTotals(blockRows, n, r);
    CountBelowConcat(rows, Shift(blockRows, lo), lo + r);
    CountBelowShift(blockRows, lo, r);
    CountBelowAll(rows, lo + r);
  }

  /** `out_indptr[lo+1 : hi+1] = out_indptr[lo] + cumsum(bincount(rows, minlength=hi-lo))`. */
  method FillIndptr(outIndptr: array<nat>, lo: nat, hi: nat, ghost rows: seq<nat>, blockRows: seq<nat>)
    requires lo <= hi < outIndptr.Length
    requires forall k :: 0 <= k < |rows| ==> rows[k] < lo
    requires Separates(outIndptr[..], rows, lo)
    modifies outIndptr
    ensures Separates(outIndptr[..], rows + Shift(blockRows, lo), hi)
  {
    var perRow := BinCount(blockRows, hi - lo);
    var base := outIndptr[lo];
    ghost var block := Shift(blockRows, lo);
    ghost var before := outIndptr[..];
    CountBelowAll(rows, lo);
    assert base == before[lo] == |rows|;
    forall r | 0 <= r <= lo
      ensures before[r] == CountBelow(rows + block, r)
    {
      CountBelowConcat(rows, block, r);
      CountBelowNone(block, r);
    }
    var acc := 0;
    for r := 0 to hi - lo
      invariant acc == Total(perRow[..r])
      invariant Separates(outIndptr[..], rows + block, lo + r)
    {
      TotalPrefix(perRow, r);
      PointerOf(rows, blockRows, lo, hi - lo, r + 1);
      acc := acc + perRow[r];
      outIndptr[lo + r + 1] := base + acc;
    }
  }

  lemma CountsAreIndptr(indptr: seq<nat>, rows: seq<nat>, n: nat)
    requires |indptr| == n + 1 && Separates(indptr, rows, n)
    requires forall k :: 0 <= k < |rows| ==> rows[k] < n
    ensures indptr[0] == 0 && indptr[n] == |rows|
    ensures forall i, k :: 0 <= i <= k <= n ==> indptr[i] <= indptr[k]
  {
    CountBelowZero(rows);
    CountBelowAll(rows, n);
    forall i, k | 0 <= i <= k <= n
      ensures indptr[i] <= indptr[k]
    {
      CountBelowMonotone(rows, i, k);
    }
  }

  lemma PositionsOfRow(m: Csr, rows: seq<nat>, i: nat, o: nat)
    requires |m.indptr| == m.nRows + 1 && Separates(m.indptr, rows, m.nRows)
    requires |m.indices| == |rows| && RowMajor(rows, m.indices)
    requires i < m.nRows && o < |rows|
    ensures InRow(m, i, o) <==> rows[o] == i
  {
    assert forall s, t :: 0 <= s < t < |rows| ==>
      LexBefore(rows[s], m.indices[s], rows[t], m.indices[t]) && rows[s] <= rows[t];
    CountBelowSplits(rows, i);
    CountBelowSplits(rows, i + 1);
  }

  lemma BlockIsProduct(a: Csr, b: Csr, combine: Combine, rows: seq<nat>, m: Csr)
    requires Valid(a) && Valid(b)
    requires m.nRows == a.nRows && m.nCols == b.nCols && |m.indptr| == m.nRows + 1
    requires IsBlock(a, b, combine, 0, a.nRows, rows, m.indices, m.data)
    requires Separates(m.indptr, rows, m.nRows)
    ensures IsProduct(a, b, combine, m)
  {
    CountsAreIndptr(m.indptr, rows, m.nRows);
    forall i, o | InRow(m, i, o)
      ensures 0 <= o < |rows| && rows[o] == i
    {
      InRowBounds(m, i, o);
      PositionsOfRow(m, rows, i, o);
    }
    forall i, o
      ensures EntryIsMax(a, b, combine, m, i, o)
    {
      if InRow(m, i, o) {
        assert MaxAt(a, b, combine, rows, m.indices, m.data, o);
      }
    }
    forall i, p, q | InRow(m, i, p) && InRow(m, i, q) && p < q
      ensures m.indices[p] < m.indices[q]
    {
      assert LexBefore(rows[p], m.indices[p], rows[q], m.indices[q]);
    }
    forall i, j, p, q | Flop(a, b, i, j, p, q)
      ensures Stored(m, i, j)
    {
      assert ListedAt(rows, m.indices, i, j);
      var k :| 0 <= k < |rows| && rows[k] == i && m.indices[k] == j;
      PositionsOfRow(m, rows, i, k);
    }
  }
}
