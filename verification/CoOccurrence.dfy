/** Chunked, pruned co-occurrence, the Jaccard normalisation of it, and the mean over a
    pair list, each against its set definition. */
module CoOccurrence {
  import opened Vectors
  import opened Sparse

  // ---------------------------------------------------------------- the definition

  predicate HasColumn(row: seq<Entry>, j: nat)
  {
    exists t :: 0 <= t < |row| && row[t].0 == j
  }

  /** The two rows share a stored column: the product has a structural entry. */
  predicate Meets(x: seq<Entry>, y: seq<Entry>)
  {
    exists t :: 0 <= t < |x| && HasColumn(y, x[t].0)
  }

  /** The plus-times value of one cell of `A B'`. */
  function Dot(x: seq<Entry>, y: seq<Entry>): real
  {
    if x == [] then 0.0
    else
      var n := |x| - 1;
      Dot(x[..n], y) + x[n].1 * Find(y, x[n].0)
  }

  predicate Kept(x: seq<Entry>, y: seq<Entry>, minOverlap: real)
  {
    Meets(x, y) && (minOverlap > 1.0 ==> Dot(x, y) >= minOverlap)
  }

  /** Row `i` of the pruned product, columns below `n`. */
  function PrunedRow(x: seq<Entry>, b: Csr, minOverlap: real, n: nat): (r: seq<Entry>)
    requires Valid(b) && n <= b.nRows
    ensures FitsColumns(r, n)
  {
    if n == 0 then []
    else
      var y := Row(b, n - 1);
      PrunedRow(x, b, minOverlap, n - 1) + (if Kept(x, y, minOverlap) then [(n - 1, Dot(x, y))] else [])
  }

  ghost function PrunedRows(a: Csr, b: Csr, minOverlap: real, n: nat): (rows: seq<seq<Entry>>)
    requires Valid(a) && Valid(b) && n <= a.nRows
    ensures |rows| == n
    ensures forall i :: 0 <= i < n ==> rows[i] == PrunedRow(Row(a, i), b, minOverlap, b.nRows)
  {
    seq<seq<Entry>>(n, i requires 0 <= i < n => PrunedRow(Row(a, i), b, minOverlap, b.nRows))
  }

  /** The co-occurrence matrix, with no chunks in sight. */
  ghost function Product(a: Csr, b: Csr, minOverlap: real): Csr
    requires Valid(a) && Valid(b)
  {
    FromRows(PrunedRows(a, b, minOverlap, a.nRows), b.nRows)
  }

  lemma {:induction false} PrunedRowMembers(x: seq<Entry>, b: Csr, minOverlap: real, n: nat, e: Entry)
    requires Valid(b) && n <= b.nRows
    ensures e in PrunedRow(x, b, minOverlap, n) <==>
      e.0 < n && Kept(x, Row(b, e.0), minOverlap) && e.1 == Dot(x, Row(b, e.0))
  {
    if n > 0 {
      PrunedRowMembers(x, b, minOverlap, n - 1, e);
    }
  }

  lemma {:induction false} PrunedRowSorted(x: seq<Entry>, b: Csr, minOverlap: real, n: nat)
    requires Valid(b) && n <= b.nRows
    ensures RowSorted(PrunedRow(x, b, minOverlap, n))
  {
    if n > 0 {
      PrunedRowSorted(x, b, minOverlap, n - 1);
    }
  }

  lemma ProductRow(a: Csr, b: Csr, minOverlap: real, i: nat)
    requires Valid(a) && Valid(b) && i < a.nRows
    ensures Valid(Product(a, b, minOverlap))
    ensures Row(Product(a, b, minOverlap), i) == PrunedRow(Row(a, i), b, minOverlap, b.nRows)
    ensures RowSorted(Row(Product(a, b, minOverlap), i))
  {
    RowsOfFromRows(PrunedRows(a, b, minOverlap, a.nRows), b.nRows);
    PrunedRowSorted(Row(a, i), b, minOverlap, b.nRows);
  }

  // ---------------------------------------------------------------- the chunk loop

  function ZeroBelow(row: seq<Entry>, minOverlap: real): (r: seq<Entry>)
    ensures |r| == |row|
  {
    if row == [] then []
    else
      var n := |row| - 1;
      ZeroBelow(row[..n], minOverlap) + [if row[n].1 < minOverlap then (row[n].0, 0.0) else row[n]]
  }

  /** Zeroing the small values and eliminating zeros is pruning, once the floor exceeds 1. */
  lemma {:induction false} PruneIsZeroAndEliminate(x: seq<Entry>, b: Csr, minOverlap: real, n: nat)
    requires Valid(b) && n <= b.nRows && minOverlap > 1.0
    ensures NonZero(ZeroBelow(PrunedRow(x, b, 1.0, n), minOverlap)) == PrunedRow(x, b, minOverlap, n)
  {
    if n > 0 {
      PruneIsZeroAndEliminate(x, b, minOverlap, n - 1);
      var y := Row(b, n - 1);
      PrunedRowStep(x, b, 1.0, n - 1, y);
      PrunedRowStep(x, b, minOverlap, n - 1, y);
      ZeroThenDrop(PrunedRow(x, b, 1.0, n - 1), ((n - 1) as nat, Dot(x, y)), minOverlap);
    }
  }

  lemma PrunedRowStep(x: seq<Entry>, b: Csr, minOverlap: real, n: nat, y: seq<Entry>)
    requires Valid(b) && n < b.nRows && y == Row(b, n)
    ensures !Kept(x, y, minOverlap) ==> PrunedRow(x, b, minOverlap, n + 1) == PrunedRow(x, b, minOverlap, n)
    ensures Kept(x, y, minOverlap) ==>
      PrunedRow(x, b, minOverlap, n + 1) == PrunedRow(x, b, minOverlap, n) + [(n, Dot(x, y))]
  {
  }

  lemma ZeroThenDrop(row: seq<Entry>, e: Entry, minOverlap: real)
    requires minOverlap > 1.0
    ensures NonZero(ZeroBelow(row + [e], minOverlap)) ==
      NonZero(ZeroBelow(row, minOverlap)) + (if e.1 < minOverlap then [] else [e])
  {
    assert (row + [e])[..|row|] == row;
    var z, last := ZeroBelow(row, minOverlap), if e.1 < minOverlap then (e.0, 0.0) else e;
    assert (z + [last])[..|z|] == z;
  }

  /** One row of scipy's `lm[lo:hi, :] @ rm_t`, then the in-loop pruning of it. */
  method ChunkRow(x: seq<Entry>, b: Csr, minOverlap: real) returns (row: seq<Entry>)
    requires Valid(b)
    ensures row == PrunedRow(x, b, minOverlap, b.nRows)
  {
    row := PrunedRow(x, b, 1.0, b.nRows);
    if minOverlap > 1.0 {
      PruneIsZeroAndEliminate(x, b, minOverlap, b.nRows);
      row := NonZero(ZeroBelow(row, minOverlap));
    } else {
      UnprunedRow(x, b, minOverlap, b.nRows);
    }
  }

  lemma {:induction false} UnprunedRow(x: seq<Entry>, b: Csr, minOverlap: real, n: nat)
    requires Valid(b) && n <= b.nRows && minOverlap <= 1.0
    ensures PrunedRow(x, b, 1.0, n) == PrunedRow(x, b, minOverlap, n)
  {
    if n > 0 {
      UnprunedRow(x, b, minOverlap, n - 1);
    }
  }

  /** Entry `r` of `rows` is row `lo + r` of the pruned product. */
  ghost predicate PrunedAt(a: Csr, b: Csr, minOverlap: real, lo: nat, rows: seq<seq<Entry>>, r: nat)
    requires Valid(a) && Valid(b) && r < |rows| && lo + r < a.nRows
  {
    rows[r] == PrunedRow(Row(a, lo + r), b, minOverlap, b.nRows)
  }

  lemma AppendPruned(a: Csr, b: Csr, minOverlap: real, lo: nat, done: seq<seq<Entry>>, rows: seq<seq<Entry>>)
    requires Valid(a) && Valid(b) && |done| == lo && lo + |rows| <= a.nRows
    requires forall i :: 0 <= i < lo ==> PrunedAt(a, b, minOverlap, 0, done, i)
    requires forall r :: 0 <= r < |rows| ==> PrunedAt(a, b, minOverlap, lo, rows, r)
    ensures forall i :: 0 <= i < lo + |rows| ==> PrunedAt(a, b, minOverlap, 0, done + rows, i)
  {
    forall i | 0 <= i < lo + |rows|
      ensures PrunedAt(a, b, minOverlap, 0, done + rows, i)
    {
      if i < lo {
        assert PrunedAt(a, b, minOverlap, 0, done, i);
      } else {
        assert PrunedAt(a, b, minOverlap, lo, rows, i - lo);
      }
    }
  }

  /** The pruned product of rows `lo..hi` as a small CSR of its own. */
  method ChunkProduct(a: Csr, b: Csr, minOverlap: real, lo: nat, hi: nat)
    returns (prod: Csr, ghost rows: seq<seq<Entry>>)
    requires Valid(a) && Valid(b) && lo <= hi <= a.nRows
    ensures |rows| == hi - lo && prod == FromRows(rows, b.nRows)
    ensures forall r :: 0 <= r < hi - lo ==> PrunedAt(a, b, minOverlap, lo, rows, r)
  {
    var all: seq<seq<Entry>> := [];
    for r := 0 to hi - lo
      invariant |all| == r
      invariant forall k :: 0 <= k < r ==> all[k] == PrunedRow(Row(a, lo + k), b, minOverlap, b.nRows)
    {
      var row := ChunkRow(Row(a, lo + r), b, minOverlap);
      all := all + [row];
    }
    prod, rows := FromRows(all, b.nRows), all;
  }

  /** `indptr[lo+1 : hi+1] = indptr[lo] + cumsum(diff(prod.indptr))`. */
  method AppendIndptr(indptr: array<nat>, lo: nat, prod: Csr, ghost before: Csr, ghost whole: Csr)
    requires Continues(before, prod, whole) && before.nRows == lo
    requires lo + prod.nRows < indptr.Length
    requires indptr[..lo + 1] == before.indptr
    modifies indptr
    ensures indptr[..lo + prod.nRows + 1] == whole.indptr
  {
    for r := 0 to prod.nRows
      invariant indptr[..lo + r + 1] == whole.indptr[..lo + r + 1]
    {
      assert indptr[lo + r] == indptr[..lo + r + 1][lo + r] == whole.indptr[lo + r];
      assert whole.indptr[lo + (r + 1)] == |before.indices| + prod.indptr[r + 1];
      indptr[lo + r + 1] := indptr[lo + r] + prod.indptr[r + 1] - prod.indptr[r];
      assert whole.indptr[..lo + r + 2] == whole.indptr[..lo + r + 1] + [whole.indptr[lo + r + 1]];
    }
    assert whole.indptr[..lo + prod.nRows + 1] == whole.indptr;
  }

  /** `co_occurrence` for any chunk size: the parts concatenate to the unchunked product. */
  method CoOccur(a: Csr, b: Csr, minOverlap: real, chunkRows: nat) returns (m: Csr)
    requires Valid(a) && Valid(b) && a.nCols == b.nCols
    requires chunkRows >= 1
    ensures m == Product(a, b, minOverlap)
  {
    ghost var done: seq<seq<Entry>> := [];
    m, done := Chunks(a, b, minOverlap, chunkRows);
    forall i | 0 <= i < a.nRows
      ensures done[i] == PrunedRows(a, b, minOverlap, a.nRows)[i]
    {
      assert PrunedAt(a, b, minOverlap, 0, done, i);
    }
    assert done == PrunedRows(a, b, minOverlap, a.nRows);
  }

  method Chunks(a: Csr, b: Csr, minOverlap: real, chunkRows: nat) returns (m: Csr, ghost done: seq<seq<Entry>>)
    requires Valid(a) && Valid(b) && a.nCols == b.nCols
    requires chunkRows >= 1
    ensures |done| == a.nRows && m == FromRows(done, b.nRows)
    ensures forall i :: 0 <= i < a.nRows ==> PrunedAt(a, b, minOverlap, 0, done, i)
  {
    var indptr := new nat[a.nRows + 1](_ => 0);
    var indices: seq<nat>, data: seq<real> := [], [];
    done := [];
    ghost var built := FromRows(done, b.nRows);
    var lo := 0;
    while lo < a.nRows
      invariant 0 <= lo <= a.nRows
      invariant |done| == lo && built == FromRows(done, b.nRows)
      invariant forall i :: 0 <= i < lo ==> PrunedAt(a, b, minOverlap, 0, done, i)
      invariant built.indices == indices && built.data == data && built.indptr == indptr[..lo + 1]
    {
      var hi := if lo + chunkRows < a.nRows then lo + chunkRows else a.nRows;
      var prod, rows := ChunkProduct(a, b, minOverlap, lo, hi);
      FromRowsConcat(done, rows, b.nRows);
      ghost var whole := FromRows(done + rows, b.nRows);
      AppendIndptr(indptr, lo, prod, built, whole);
      indices, data := indices + prod.indices, data + prod.data;
      AppendPruned(a, b, minOverlap, lo, done, rows);
      done, built := done + rows, whole;
      lo := hi;
    }
    m := Csr(a.nRows, b.nRows, indptr[..], indices, data);
    assert indptr[..] == indptr[..lo + 1];
  }

  // ---------------------------------------------------------------- on 0/1 rows

  ghost function Cols(row: seq<Entry>): set<nat>
  {
    set e | e in row :: e.0
  }

  ghost predicate Ones(row: seq<Entry>)
  {
    RowSorted(row) && forall t :: 0 <= t < |row| ==> row[t].1 == 1.0
  }

  lemma BinaryRow(m: Csr, i: nat)
    requires Valid(m) && Binary(m) && i < m.nRows
    ensures Ones(Row(m, i)) && Cols(Row(m, i)) == RowSet(m, i)
  {
    SortedRowView(m, i);
    RowBounds(m, i);
  }

  lemma HasColumnIsMember(row: seq<Entry>, j: nat)
    ensures HasColumn(row, j) <==> j in Cols(row)
  {
    if HasColumn(row, j) {
      var t :| 0 <= t < |row| && row[t].0 == j;
      assert row[t] in row;
    }
  }

  lemma FindOne(row: seq<Entry>, j: nat)
    requires Ones(row)
    ensures Find(row, j) == if j in Cols(row) then 1.0 else 0.0
  {
    if j in Cols(row) {
      var e :| e in row && e.0 == j;
      assert e == (j, 1.0);
      FindStored(row, j, 1.0);
    } else {
      forall v ensures (j, v) !in row {
        assert (j, v) in row ==> (j, v).0 in Cols(row);
      }
      FindMissing(row, j);
    }
  }

  /** On 0/1 rows the product counts the intersection. */
  lemma {:induction false} DotCountsIntersection(x: seq<Entry>, y: seq<Entry>)
    requires Ones(x) && Ones(y)
    ensures Dot(x, y) == |Cols(x) * Cols(y)| as real
    decreases |x|
  {
    if x == [] {
      assert Cols(x) * Cols(y) == {};
    } else {
      var n := |x| - 1;
      DotCountsIntersection(x[..n], y);
      DotSnoc(x, y, n);
      ColsSnoc(x, n);
      IntersectInsert(Cols(x[..n]), Cols(y), x[n].0);
    }
  }

  lemma {:induction false} DotSnoc(x: seq<Entry>, y: seq<Entry>, n: nat)
    requires Ones(x) && Ones(y) && |x| == n + 1
    ensures Dot(x, y) == Dot(x[..n], y) + if x[n].0 in Cols(y) then 1.0 else 0.0
  {
    FindOne(y, x[n].0);
  }

  lemma ColsSnoc(x: seq<Entry>, n: nat)
    requires RowSorted(x) && |x| == n + 1
    ensures Cols(x) == Cols(x[..n]) + {x[n].0} && x[n].0 !in Cols(x[..n])
  {
    assert x == x[..n] + [x[n]];
  }

  lemma IntersectInsert(a: set<nat>, b: set<nat>, c: nat)
    requires c !in a
    ensures |(a + {c}) * b| == |a * b| + if c in b then 1 else 0
  {
    if c in b {
      assert (a + {c}) * b == a * b + {c};
    } else {
      assert (a + {c}) * b == a * b;
    }
  }

  lemma MeetsIsIntersection(x: seq<Entry>, y: seq<Entry>)
    ensures Meets(x, y) <==> Cols(x) * Cols(y) != {}
  {
    if Meets(x, y) {
      var t :| 0 <= t < |x| && HasColumn(y, x[t].0);
      HasColumnIsMember(y, x[t].0);
      assert x[t] in x;
      assert x[t].0 in Cols(x) * Cols(y);
    }
    if Cols(x) * Cols(y) != {} {
      var j :| j in Cols(x) * Cols(y);
      HasColumnIsMember(x, j);
      HasColumnIsMember(y, j);
      var t :| 0 <= t < |x| && x[t].0 == j;
      assert HasColumn(y, x[t].0);
    }
  }

  function Overlap(a: Csr, i: nat, b: Csr, j: nat): nat
    requires Valid(a) && Valid(b) && i < a.nRows && j < b.nRows
  {
    |RowSet(a, i) * RowSet(b, j)|
  }

  /** On 0/1 operands the product stores (i, j) exactly when the rows share at least
      `max(1, minOverlap)` columns, and stores the number they share. */
  lemma ProductOfSets(a: Csr, b: Csr, minOverlap: real, i: nat, e: Entry)
    requires Valid(a) && Valid(b) && Binary(a) && Binary(b) && i < a.nRows
    ensures Valid(Product(a, b, minOverlap))
    ensures e in Row(Product(a, b, minOverlap), i) <==>
      && e.0 < b.nRows
      && Overlap(a, i, b, e.0) >= 1 && Overlap(a, i, b, e.0) as real >= minOverlap
      && e.1 == Overlap(a, i, b, e.0) as real
  {
    ProductRow(a, b, minOverlap, i);
    PrunedRowMembers(Row(a, i), b, minOverlap, b.nRows, e);
    if e.0 < b.nRows {
      var x, y := Row(a, i), Row(b, e.0);
      BinaryRow(a, i);
      BinaryRow(b, e.0);
      DotCountsIntersection(x, y);
      MeetsIsIntersection(x, y);
      assert Cols(x) * Cols(y) == RowSet(a, i) * RowSet(b, e.0);
    }
  }

  // ---------------------------------------------------------------- Jaccard

  function Ratio(v: real, dl: nat, dr: nat): real
  {
    var denom := dl as real + dr as real - v;
    if denom > 0.0 then v / denom else 0.0
  }

  function JaccardRow(row: seq<Entry>, dl: nat, rightDeg: seq<nat>): (r: seq<Entry>)
    requires FitsColumns(row, |rightDeg|)
    ensures |r| == |row|
    ensures forall t :: 0 <= t < |row| ==> r[t] == (row[t].0, Ratio(row[t].1, dl, rightDeg[row[t].0]))
  {
    seq<Entry>(|row|, t requires 0 <= t < |row| => (row[t].0, Ratio(row[t].1, dl, rightDeg[row[t].0])))
  }

  lemma RowFits(m: Csr, i: nat)
    requires Valid(m) && i < m.nRows
    ensures FitsColumns(Row(m, i), m.nCols)
  {
    RowBounds(m, i);
  }

  /** `_normalise(kind="jaccard")` before `eliminate_zeros`. */
  function Ratios(prod: Csr, leftDeg: seq<nat>, rightDeg: seq<nat>): Csr
    requires Valid(prod) && |leftDeg| == prod.nRows && |rightDeg| == prod.nCols
  {
    FromRows(seq<seq<Entry>>(prod.nRows, i requires 0 <= i < prod.nRows =>
                             RowFits(prod, i); JaccardRow(Row(prod, i), leftDeg[i], rightDeg)), prod.nCols)
  }

  lemma RatiosRows(prod: Csr, leftDeg: seq<nat>, rightDeg: seq<nat>)
    requires Valid(prod) && |leftDeg| == prod.nRows && |rightDeg| == prod.nCols
    ensures var r := Ratios(prod, leftDeg, rightDeg);
      && Valid(r) && r.nRows == prod.nRows && r.nCols == prod.nCols
      && r.indptr == prod.indptr && r.indices == prod.indices
      && forall i :: 0 <= i < prod.nRows ==>
           FitsColumns(Row(prod, i), prod.nCols) && Row(r, i) == JaccardRow(Row(prod, i), leftDeg[i], rightDeg)
  {
    forall i | 0 <= i < prod.nRows
      ensures FitsColumns(Row(prod, i), prod.nCols)
    {
      RowFits(prod, i);
    }
    var rows := seq<seq<Entry>>(prod.nRows, i requires 0 <= i < prod.nRows =>
                                RowFits(prod, i); JaccardRow(Row(prod, i), leftDeg[i], rightDeg));
    RowsOfFromRows(rows, prod.nCols);
    forall i | 0 <= i < prod.nRows
      ensures |rows[i]| == |AllRows(prod)[i]| && Columns(rows[i]) == Columns(AllRows(prod)[i])
    {
    }
    FromRowsSameColumns(rows, AllRows(prod), prod.nCols);
    FromRowsOfRows(prod);
  }

  function Jaccard(prod: Csr, leftDeg: seq<nat>, rightDeg: seq<nat>): Csr
    requires Valid(prod) && |leftDeg| == prod.nRows && |rightDeg| == prod.nCols
  {
    RatiosRows(prod, leftDeg, rightDeg);
    EliminateZeros(Ratios(prod, leftDeg, rightDeg))
  }

  /** Every stored value is non-zero and every denominator positive. */
  ghost predicate Normalisable(prod: Csr, leftDeg: seq<nat>, rightDeg: seq<nat>)
    requires Valid(prod) && |leftDeg| == prod.nRows && |rightDeg| == prod.nCols
  {
    forall i, t :: 0 <= i < prod.nRows && 0 <= t < |Row(prod, i)| ==>
      var e := Row(prod, i)[t];
      e.0 < |rightDeg| && e.1 != 0.0 && leftDeg[i] as real + rightDeg[e.0] as real > e.1
  }

  /** The ratio array stays position-aligned with the overlap array exactly when no entry is
      eliminated, i.e. when every overlap is non-zero and below the sum of the two sizes. */
  lemma JaccardAligned(prod: Csr, leftDeg: seq<nat>, rightDeg: seq<nat>)
    requires Valid(prod) && |leftDeg| == prod.nRows && |rightDeg| == prod.nCols
    ensures Jaccard(prod, leftDeg, rightDeg) == Ratios(prod, leftDeg, rightDeg)
      <==> Normalisable(prod, leftDeg, rightDeg)
  {
    RatiosRows(prod, leftDeg, rightDeg);
    var r := Ratios(prod, leftDeg, rightDeg);
    EliminateZerosAligned(r);
    forall i, t | 0 <= i < prod.nRows && 0 <= t < |Row(prod, i)|
      ensures Row(prod, i)[t].0 < |rightDeg| && |Row(r, i)| == |Row(prod, i)|
      ensures Row(r, i)[t].1 != 0.0 <==>
        Row(prod, i)[t].1 != 0.0 && leftDeg[i] as real + rightDeg[Row(prod, i)[t].0] as real > Row(prod, i)[t].1
    {
      RowFits(prod, i);
      var e := Row(prod, i)[t];
      RatioNonZero(e.1, leftDeg[i], rightDeg[e.0]);
    }
    if NoZeros(r) {
      forall i, t | 0 <= i < prod.nRows && 0 <= t < |Row(prod, i)|
        ensures var e := Row(prod, i)[t];
          e.0 < |rightDeg| && e.1 != 0.0 && leftDeg[i] as real + rightDeg[e.0] as real > e.1
      {
        assert Row(r, i)[t].1 != 0.0;
      }
    }
    if Normalisable(prod, leftDeg, rightDeg) {
      forall i, t | 0 <= i < r.nRows && 0 <= t < |Row(r, i)|
        ensures Row(r, i)[t].1 != 0.0
      {
        assert Row(prod, i)[t].1 != 0.0;
      }
    }
  }

  lemma RatioNonZero(v: real, dl: nat, dr: nat)
    ensures Ratio(v, dl, dr) != 0.0 <==> v != 0.0 && dl as real + dr as real > v
  {
    var denom := dl as real + dr as real - v;
    if denom > 0.0 {
      assert v / denom * denom == v;
    }
  }

  // ---------------------------------------------------------------- mean Jaccard over pairs

  function SetJaccard(x: set<nat>, y: set<nat>): real
  {
    if |x + y| == 0 then 0.0 else |x * y| as real / |x + y| as real
  }

  lemma UnionSize(x: set<nat>, y: set<nat>)
    ensures |x + y| == |x| + |y| - |x * y|
  {
  }

  function Degs(a: Csr): (d: seq<nat>)
    requires Valid(a)
    ensures |d| == a.nRows && forall i :: 0 <= i < a.nRows ==> d[i] == Degree(a, i)
  {
    seq<nat>(a.nRows, i requires 0 <= i < a.nRows => Degree(a, i))
  }

  lemma StoredCell(row: seq<Entry>, dl: nat, rd: seq<nat>, k: nat, v: real)
    requires RowSorted(row) && FitsColumns(row, |rd|) && (k, v) in row
    requires v != 0.0 && dl as real + rd[k] as real > v
    ensures Find(NonZero(JaccardRow(row, dl, rd)), k) == Ratio(v, dl, rd[k])
  {
    var r := JaccardRow(row, dl, rd);
    var t :| 0 <= t < |row| && row[t] == (k, v);
    var e: Entry := (k, Ratio(v, dl, rd[k]));
    assert r[t] == e;
    RatioNonZero(v, dl, rd[k]);
    NonZeroMembers(r, e);
    NonZeroSorted(r);
    FindStored(NonZero(r), k, e.1);
  }

  lemma MissingCell(row: seq<Entry>, dl: nat, rd: seq<nat>, k: nat)
    requires FitsColumns(row, |rd|) && !HasColumn(row, k)
    ensures Find(NonZero(JaccardRow(row, dl, rd)), k) == 0.0
  {
    var r := JaccardRow(row, dl, rd);
    forall v ensures (k, v) !in NonZero(r) {
      NonZeroMembers(r, (k, v));
    }
    FindMissing(NonZero(r), k);
  }

  lemma JaccardRows(a: Csr, prod: Csr, i: nat)
    requires Valid(a) && Binary(a) && i < a.nRows
    requires prod == Product(a, a, 1.0)
    ensures Valid(prod) && prod.nRows == prod.nCols == a.nRows && RowSorted(Row(prod, i))
    ensures FitsColumns(Row(prod, i), a.nRows)
    ensures var j := Jaccard(prod, Degs(a), Degs(a));
      Valid(j) && j.nRows == a.nRows && Row(j, i) == NonZero(JaccardRow(Row(prod, i), Degree(a, i), Degs(a)))
  {
    ProductRow(a, a, 1.0, i);
    RatiosRows(prod, Degs(a), Degs(a));
    EliminateZerosRows(Ratios(prod, Degs(a), Degs(a)));
  }

  /** One cell of the normalised self-product is the Jaccard of the two row sets, whether or
      not the product stored it. */
  lemma JaccardCell(a: Csr, prod: Csr, i: nat, k: nat)
    requires Valid(a) && Binary(a) && i < a.nRows && k < a.nRows
    requires prod == Product(a, a, 1.0)
    ensures Valid(prod) && prod.nRows == prod.nCols == a.nRows
    ensures Valid(Jaccard(prod, Degs(a), Degs(a)))
    ensures Jaccard(prod, Degs(a), Degs(a)).nRows == a.nRows
    ensures Lookup(Jaccard(prod, Degs(a), Degs(a)), i, k) == SetJaccard(RowSet(a, i), RowSet(a, k))
  {
    JaccardRows(a, prod, i);
    CellOfRow(a, prod, i, k);
  }

  lemma RatioIsSetJaccard(x: set<nat>, y: set<nat>)
    requires |x * y| >= 1
    ensures |x| as real + |y| as real > |x * y| as real
    ensures Ratio(|x * y| as real, |x|, |y|) == SetJaccard(x, y)
  {
    UnionSize(x, y);
    SubsetSize(x * y, x + y);
  }

  lemma NoIntersectionNoRatio(x: set<nat>, y: set<nat>)
    requires |x * y| == 0
    ensures SetJaccard(x, y) == 0.0
  {
  }

  lemma ColumnStored(a: Csr, prod: Csr, i: nat, k: nat)
    requires Valid(a) && Binary(a) && i < a.nRows && k < a.nRows
    requires prod == Product(a, a, 1.0) && Valid(prod) && prod.nRows == a.nRows
    ensures HasColumn(Row(prod, i), k) <==> Overlap(a, i, a, k) >= 1
    ensures Overlap(a, i, a, k) >= 1 ==> (k, Overlap(a, i, a, k) as real) in Row(prod, i)
  {
    ProductOfSets(a, a, 1.0, i, (k, Overlap(a, i, a, k) as real));
    if HasColumn(Row(prod, i), k) {
      var t :| 0 <= t < |Row(prod, i)| && Row(prod, i)[t].0 == k;
      ProductOfSets(a, a, 1.0, i, Row(prod, i)[t]);
    }
  }

  lemma CellOfRow(a: Csr, prod: Csr, i: nat, k: nat)
    requires Valid(a) && Binary(a) && i < a.nRows && k < a.nRows
    requires prod == Product(a, a, 1.0) && Valid(prod) && prod.nRows == a.nRows
    requires RowSorted(Row(prod, i)) && FitsColumns(Row(prod, i), a.nRows)
    ensures Find(NonZero(JaccardRow(Row(prod, i), Degree(a, i), Degs(a))), k) == SetJaccard(RowSet(a, i), RowSet(a, k))
  {
    DegreeIsCardinality(a, i);
    DegreeIsCardinality(a, k);
    ColumnStored(a, prod, i, k);
    var ov := Overlap(a, i, a, k);
    if ov >= 1 {
      RatioIsSetJaccard(RowSet(a, i), RowSet(a, k));
      StoredCell(Row(prod, i), Degree(a, i), Degs(a), k, ov as real);
    } else {
      NoIntersectionNoRatio(RowSet(a, i), RowSet(a, k));
      MissingCell(Row(prod, i), Degree(a, i), Degs(a), k);
    }
  }

  lemma SubsetSize(x: set<nat>, y: set<nat>)
    requires x <= y
    ensures |x| <= |y|
  {
    assert y == x + (y - x);
  }

  datatype Mean = NaN | Mean(value: real)

  type Pair = (nat, nat)

  function TotalJaccard(a: Csr, pairs: seq<Pair>): real
    requires Valid(a) && forall t :: 0 <= t < |pairs| ==> pairs[t].0 < a.nRows && pairs[t].1 < a.nRows
  {
    if pairs == [] then 0.0
    else
      var n := |pairs| - 1;
      TotalJaccard(a, pairs[..n]) + SetJaccard(RowSet(a, pairs[n].0), RowSet(a, pairs[n].1))
  }

  function MeanJaccard(a: Csr, pairs: seq<Pair>): Mean
    requires Valid(a) && forall t :: 0 <= t < |pairs| ==> pairs[t].0 < a.nRows && pairs[t].1 < a.nRows
  {
    if pairs == [] then NaN else Mean(TotalJaccard(a, pairs) / |pairs| as real)
  }

  /** `mean_jaccard_over_pairs`: the set loop. */
  method MeanJaccardOverPairs(a: Csr, pairs: seq<Pair>) returns (mean: Mean)
    requires Valid(a) && forall t :: 0 <= t < |pairs| ==> pairs[t].0 < a.nRows && pairs[t].1 < a.nRows
    ensures mean == MeanJaccard(a, pairs)
  {
    if pairs == [] {
      return NaN;
    }
    var total := 0.0;
    for t := 0 to |pairs|
      invariant total == TotalJaccard(a, pairs[..t])
    {
      var left, right := RowSet(a, pairs[t].0), RowSet(a, pairs[t].1);
      assert pairs[..t + 1][..t] == pairs[..t];
      if |left + right| != 0 {
        total := total + |left * right| as real / |left + right| as real;
      }
    }
    assert pairs[..|pairs|] == pairs;
    mean := Mean(total / |pairs| as real);
  }

  ghost predicate CellIsJaccard(a: Csr, j: Csr, i: nat, k: nat)
    requires Valid(a) && Valid(j) && j.nRows == a.nRows && i < a.nRows && k < a.nRows
  {
    Lookup(j, i, k) == SetJaccard(RowSet(a, i), RowSet(a, k))
  }

  /** One product and one normalisation give every pair's Jaccard. */
  method SelfJaccard(a: Csr) returns (j: Csr)
    requires Valid(a) && Binary(a)
    ensures Valid(j) && j.nRows == a.nRows
    ensures forall i, k :: 0 <= i < a.nRows && 0 <= k < a.nRows ==> CellIsJaccard(a, j, i, k)
  {
    var prod := CoOccur(a, a, 1.0, 2048);
    JaccardShape(a, prod);
    j := Jaccard(prod, Degs(a), Degs(a));
    forall i, k | 0 <= i < a.nRows && 0 <= k < a.nRows
      ensures CellIsJaccard(a, j, i, k)
    {
      JaccardCell(a, prod, i, k);
    }
  }

  lemma JaccardShape(a: Csr, prod: Csr)
    requires Valid(a) && prod == Product(a, a, 1.0)
    ensures Valid(prod) && prod.nRows == prod.nCols == a.nRows
    ensures Valid(Jaccard(prod, Degs(a), Degs(a))) && Jaccard(prod, Degs(a), Degs(a)).nRows == a.nRows
  {
    RowsOfFromRows(PrunedRows(a, a, 1.0, a.nRows), a.nRows);
    RatiosRows(prod, Degs(a), Degs(a));
    EliminateZerosRows(Ratios(prod, Degs(a), Degs(a)));
  }

  /** `_algebra_mean_jaccard`: one product, one normalisation, one lookup per pair. */
  method AlgebraMeanJaccard(a: Csr, pairs: seq<Pair>) returns (mean: Mean)
    requires Valid(a) && Binary(a)
    requires forall t :: 0 <= t < |pairs| ==> pairs[t].0 < a.nRows && pairs[t].1 < a.nRows
    ensures mean == MeanJaccard(a, pairs)
  {
    if pairs == [] {
      return NaN;
    }
    var j := SelfJaccard(a);
    var total := 0.0;
    for t := 0 to |pairs|
      invariant total == TotalJaccard(a, pairs[..t])
    {
      assert CellIsJaccard(a, j, pairs[t].0, pairs[t].1);
      assert pairs[..t + 1][..t] == pairs[..t];
      total := total + Lookup(j, pairs[t].0, pairs[t].1);
    }
    assert pairs[..|pairs|] == pairs;
    mean := Mean(total / |pairs| as real);
  }
}
