/** `matmul` over the three segment-max semirings: the sign trick, the kernel, and the
    elimination of computed zeros that follows it. */
module Semirings {
  import opened Vectors
  import opened Sparse
  import opened MaxPlus

  datatype Semiring = MaxPlus | MinPlus | MaxMin

  /** A string-keyed matrix. */
  datatype Assoc = Assoc(row: seq<string>, col: seq<string>, m: Csr)

  datatype Result<T> = Ok(value: T) | InnerKeysDiffer

  ghost predicate ValidAssoc(a: Assoc)
  {
    Valid(a.m) && a.m.nRows == |a.row| && a.m.nCols == |a.col|
  }

  // ---------------------------------------------------------------- the definition

  /** Some chain into cell (i, j) sums to `v`. */
  ghost predicate SumReached(a: Csr, b: Csr, i: int, j: int, v: real)
  {
    exists p, q :: Flop(a, b, i, j, p, q) && v == a.data[p] + b.data[q]
  }

  ghost predicate IsLargestSum(a: Csr, b: Csr, i: int, j: int, v: real)
  {
    && SumReached(a, b, i, j, v)
    && forall p, q :: Flop(a, b, i, j, p, q) ==> a.data[p] + b.data[q] <= v
  }

  ghost predicate IsSmallestSum(a: Csr, b: Csr, i: int, j: int, v: real)
  {
    && SumReached(a, b, i, j, v)
    && forall p, q :: Flop(a, b, i, j, p, q) ==> v <= a.data[p] + b.data[q]
  }

  /** `v` is the weaker link of some chain, and no chain has both its links above `v`. */
  ghost predicate IsWidest(a: Csr, b: Csr, i: int, j: int, v: real)
  {
    && (exists p, q :: Flop(a, b, i, j, p, q) && IsWeakerLink(a.data[p], b.data[q], v))
    && forall p, q :: Flop(a, b, i, j, p, q) ==> a.data[p] <= v || b.data[q] <= v
  }

  predicate IsWeakerLink(x: real, y: real, v: real)
  {
    v <= x && v <= y && (v == x || v == y)
  }

  /** The semiring's value for cell (i, j), where it has one: the largest sum of a chain
      through any inner key, the smallest, or the largest weaker link. */
  ghost predicate IsBest(a: Csr, b: Csr, s: Semiring, i: int, j: int, v: real)
  {
    match s
    case MaxPlus => IsLargestSum(a, b, i, j, v)
    case MinPlus => IsSmallestSum(a, b, i, j, v)
    case MaxMin => IsWidest(a, b, i, j, v)
  }

  ghost predicate Chained(a: Csr, b: Csr, i: int, j: int)
  {
    exists p, q :: Flop(a, b, i, j, p, q)
  }

  /** What `matmul` returns: sorted rows that hold exactly the non-zero best values. */
  ghost predicate IsMatmul(a: Csr, b: Csr, s: Semiring, m: Csr)
  {
    && Valid(m) && RowsSorted(m) && m.nRows == a.nRows && m.nCols == b.nCols
    && forall i, e :: 0 <= i < m.nRows ==> (e in Row(m, i) <==> e.1 != 0.0 && IsBest(a, b, s, i, e.0, e.1))
  }

  // ---------------------------------------------------------------- the kernel's rows

  /** The kernel's row view: exactly the largest terms. */
  lemma ProductRows(a: Csr, b: Csr, combine: Combine, m: Csr, i: nat, e: Entry)
    requires Valid(a) && Valid(b) && IsProduct(a, b, combine, m) && i < m.nRows
    ensures e in Row(m, i) <==> IsMax(a, b, combine, i, e.0, e.1)
  {
    RowMembers(m, i, e);
    if e in Row(m, i) {
      var p :| InRow(m, i, p) && m.indices[p] == e.0 && m.data[p] == e.1;
      assert EntryIsMax(a, b, combine, m, i, p);
    }
    if IsMax(a, b, combine, i, e.0, e.1) {
      var p, q :| Flop(a, b, i, e.0, p, q) && e.1 == Term(a, b, combine, p, q);
      assert Stored(m, i, e.0);
      var o :| 0 <= o < |m.indices| && InRow(m, i, o) && m.indices[o] == e.0;
      assert EntryIsMax(a, b, combine, m, i, o);
      MaxUnique(a, b, combine, i, e.0, e.1, m.data[o]);
    }
  }

  lemma MaxUnique(a: Csr, b: Csr, combine: Combine, i: int, j: int, v: real, w: real)
    requires IsMax(a, b, combine, i, j, v) && IsMax(a, b, combine, i, j, w)
    ensures v == w
  {
    var p, q :| Flop(a, b, i, j, p, q) && v == Term(a, b, combine, p, q);
    var p', q' :| Flop(a, b, i, j, p', q') && w == Term(a, b, combine, p', q');
  }

  // ---------------------------------------------------------------- the sign trick

  function Add(x: real, y: real): real { x + y }

  function Min(x: real, y: real): real { if x <= y then x else y }

  function CombineOf(s: Semiring): Combine
  {
    if s.MaxMin? then Min else Add
  }

  /** The kernel's largest term under the ufunc that `matmul` picks is the semiring's value. */
  lemma LargestIsBest(a: Csr, b: Csr, s: Semiring, i: int, j: int, v: real)
    requires !s.MinPlus?
    ensures IsMax(a, b, CombineOf(s), i, j, v) <==> IsBest(a, b, s, i, j, v)
  {
    forall p, q | Flop(a, b, i, j, p, q)
      ensures v == Term(a, b, CombineOf(s), p, q) <==>
        if s.MaxMin? then IsWeakerLink(a.data[p], b.data[q], v) else v == a.data[p] + b.data[q]
      ensures Term(a, b, CombineOf(s), p, q) <= v <==>
        if s.MaxMin? then a.data[p] <= v || b.data[q] <= v else a.data[p] + b.data[q] <= v
    {
    }
  }

  /** `m.data * sign`. */
  function Scale(m: Csr, sign: real): (r: Csr)
    ensures r.nRows == m.nRows && r.nCols == m.nCols && r.indptr == m.indptr && r.indices == m.indices
    ensures |r.data| == |m.data| && forall p :: 0 <= p < |m.data| ==> r.data[p] == m.data[p] * sign
  {
    m.(data := seq<real>(|m.data|, p requires 0 <= p < |m.data| => m.data[p] * sign))
  }

  lemma ScaleFlop(a: Csr, b: Csr, sign: real, i: int, j: int, p: int, q: int)
    ensures Flop(Scale(a, sign), Scale(b, sign), i, j, p, q) <==> Flop(a, b, i, j, p, q)
  {
    var sa, sb := Scale(a, sign), Scale(b, sign);
    assert InRow(sa, i, p) <==> InRow(a, i, p);
    if 0 <= p < |a.indices| {
      assert InRow(sb, a.indices[p], q) <==> InRow(b, a.indices[p], q);
    }
  }

  /** Max-plus of the negated operands is min-plus of the operands, negated. */
  lemma NegatedMaxIsMin(a: Csr, b: Csr, i: int, j: int, v: real)
    ensures IsMax(Scale(a, -1.0), Scale(b, -1.0), Add, i, j, v) <==> IsBest(a, b, MinPlus, i, j, -v)
  {
    var na, nb := Scale(a, -1.0), Scale(b, -1.0);
    forall p, q
      ensures Flop(na, nb, i, j, p, q) <==> Flop(a, b, i, j, p, q)
      ensures Flop(a, b, i, j, p, q) ==> Term(na, nb, Add, p, q) == -(a.data[p] + b.data[q])
    {
      ScaleFlop(a, b, -1.0, i, j, p, q);
    }
    if Attained(na, nb, Add, i, j, v) {
      var p, q :| Flop(na, nb, i, j, p, q) && v == Term(na, nb, Add, p, q);
      assert Flop(a, b, i, j, p, q) && -v == a.data[p] + b.data[q];
    }
    if SumReached(a, b, i, j, -v) {
      var p, q :| Flop(a, b, i, j, p, q) && -v == a.data[p] + b.data[q];
      assert Flop(na, nb, i, j, p, q) && v == Term(na, nb, Add, p, q);
    }
    if Bounds(na, nb, Add, i, j, v) {
      forall p, q | Flop(a, b, i, j, p, q) ensures -v <= a.data[p] + b.data[q] {
        assert Flop(na, nb, i, j, p, q);
      }
    }
    if IsSmallestSum(a, b, i, j, -v) {
      forall p, q | Flop(na, nb, i, j, p, q) ensures Term(na, nb, Add, p, q) <= v {
        assert Flop(a, b, i, j, p, q);
      }
    }
  }

  lemma ScaleRow(m: Csr, sign: real, i: nat, e: Entry)
    requires Valid(m) && Valid(Scale(m, sign)) && i < m.nRows
    requires sign == 1.0 || sign == -1.0
    ensures e in Row(Scale(m, sign), i) <==> (e.0, e.1 * sign) in Row(m, i)
  {
    RowBounds(m, i);
    ScaledMembers(Row(m, i), Row(Scale(m, sign), i), sign, e, e.1 * sign);
  }

  lemma ScaledMembers(row: seq<Entry>, scaled: seq<Entry>, sign: real, e: Entry, v: real)
    requires |scaled| == |row| && (sign == 1.0 || sign == -1.0) && v == e.1 * sign
    requires forall t :: 0 <= t < |row| ==> scaled[t].0 == row[t].0 && scaled[t].1 == row[t].1 * sign
    ensures e in scaled <==> (e.0, v) in row
  {
    if e in scaled {
      var t :| 0 <= t < |scaled| && scaled[t] == e;
      SignTwice(row[t].1, e.1, sign);
      assert row[t].1 == v;
      assert row[t] == (e.0, v);
    }
    if (e.0, v) in row {
      var t :| 0 <= t < |row| && row[t] == (e.0, v);
      SignTwice(e.1, v, sign);
      assert scaled[t].1 == e.1;
      assert scaled[t] == e;
    }
  }

  lemma SignTwice(x: real, y: real, sign: real)
    requires (sign == 1.0 || sign == -1.0) && y == x * sign
    ensures y * sign == x
  {
  }

  // ---------------------------------------------------------------- matmul

  function SignOf(s: Semiring): real { if s.MinPlus? then -1.0 else 1.0 }

  lemma ScaledIdentity(m: Csr)
    ensures Scale(m, 1.0) == m
  {
    assert Scale(m, 1.0).data == m.data;
  }

  lemma KernelRow(a: Csr, b: Csr, s: Semiring, k: Csr, i: nat, e: Entry)
    requires Valid(a) && Valid(b)
    requires Valid(Scale(a, SignOf(s))) && Valid(Scale(b, SignOf(s)))
    requires IsProduct(Scale(a, SignOf(s)), Scale(b, SignOf(s)), CombineOf(s), k) && i < k.nRows
    requires Valid(Scale(k, SignOf(s)))
    ensures e in Row(Scale(k, SignOf(s)), i) <==> IsBest(a, b, s, i, e.0, e.1)
  {
    var sign := SignOf(s);
    ScaleRow(k, sign, i, e);
    ProductRows(Scale(a, sign), Scale(b, sign), CombineOf(s), k, i, (e.0, e.1 * sign));
    if s.MinPlus? {
      NegatedMaxIsMin(a, b, i, e.0, e.1 * sign);
    } else {
      ScaledIdentity(a);
      ScaledIdentity(b);
      LargestIsBest(a, b, s, i, e.0, e.1);
    }
  }

  /** `matmul`: refuse differing inner keys, then sign, kernel, sign, `eliminate_zeros`. */
  method Matmul(a: Assoc, b: Assoc, s: Semiring, chunkRows: nat) returns (r: Result<Assoc>)
    requires ValidAssoc(a) && ValidAssoc(b)
    requires chunkRows >= 1
    ensures r.InnerKeysDiffer? <==> a.col != b.row
    ensures r.Ok? ==> ValidAssoc(r.value) && r.value.row == a.row && r.value.col == b.col
    ensures r.Ok? ==> IsMatmul(a.m, b.m, s, r.value.m)
  {
    if a.col != b.row {
      return InnerKeysDiffer;
    }
    var sign := SignOf(s);
    var k := Product(Scale(a.m, sign), Scale(b.m, sign), CombineOf(s), chunkRows);
    var signed := Scale(k, sign);
    var m := EliminateZeros(signed);
    FinishMatmul(a.m, b.m, s, k, m);
    r := Ok(Assoc(a.row, b.col, m));
  }

  lemma FinishMatmul(a: Csr, b: Csr, s: Semiring, k: Csr, m: Csr)
    requires Valid(a) && Valid(b)
    requires Valid(Scale(a, SignOf(s))) && Valid(Scale(b, SignOf(s)))
    requires IsProduct(Scale(a, SignOf(s)), Scale(b, SignOf(s)), CombineOf(s), k)
    requires Valid(Scale(k, SignOf(s))) && m == EliminateZeros(Scale(k, SignOf(s)))
    ensures IsMatmul(a, b, s, m)
  {
    var signed := Scale(k, SignOf(s));
    EliminateZerosRows(signed);
    forall i, e | 0 <= i < m.nRows
      ensures e in Row(m, i) <==> e.1 != 0.0 && IsBest(a, b, s, i, e.0, e.1)
    {
      NonZeroMembers(Row(signed, i), e);
      KernelRow(a, b, s, k, i, e);
    }
    SortedAfterElimination(k, signed, m);
  }

  lemma SortedAfterElimination(k: Csr, signed: Csr, m: Csr)
    requires Valid(k) && RowsSorted(k) && Valid(signed)
    requires signed.nRows == k.nRows && signed.indptr == k.indptr && signed.indices == k.indices
    requires Valid(m) && m.nRows == k.nRows
    requires forall i :: 0 <= i < m.nRows ==> Row(m, i) == NonZero(Row(signed, i))
    ensures RowsSorted(m)
  {
    forall i, p, q | InRow(m, i, p) && InRow(m, i, q) && p < q
      ensures m.indices[p] < m.indices[q]
    {
      assert RowsSorted(signed) by {
        forall i, p, q | InRow(signed, i, p) && InRow(signed, i, q) && p < q
          ensures signed.indices[p] < signed.indices[q]
        {
          assert InRow(k, i, p) && InRow(k, i, q);
        }
      }
      SortedRowView(signed, i);
      NonZeroSorted(Row(signed, i));
      RowBounds(m, i);
      assert Row(m, i)[p - m.indptr[i]].0 < Row(m, i)[q - m.indptr[i]].0;
    }
  }

  // ---------------------------------------------------------------- what elimination costs

  /** Finitely many terms have a best one. */
  lemma BestExists(a: Csr, b: Csr, s: Semiring, i: int, j: int) returns (v: real)
    requires Valid(a) && Valid(b) && Chained(a, b, i, j)
    ensures IsBest(a, b, s, i, j, v)
  {
    var p0, q0 :| Flop(a, b, i, j, p0, q0);
    var bestP, bestQ := p0, q0;
    var n := 0;
    while n < |a.indices|
      invariant 0 <= n <= |a.indices|
      invariant Flop(a, b, i, j, bestP, bestQ)
      invariant forall p, q :: Flop(a, b, i, j, p, q) && p < n ==> AtLeast(a, b, s, bestP, bestQ, p, q)
    {
      var k := 0;
      while k < |b.indices|
        invariant 0 <= k <= |b.indices|
        invariant Flop(a, b, i, j, bestP, bestQ)
        invariant forall p, q :: Flop(a, b, i, j, p, q) && (p < n || (p == n && q < k)) ==>
          AtLeast(a, b, s, bestP, bestQ, p, q)
      {
        if Flop(a, b, i, j, n, k) && AtLeast(a, b, s, n, k, bestP, bestQ) {
          bestP, bestQ := n, k;
        }
        k := k + 1;
      }
      n := n + 1;
    }
    v := Worth(s, a.data[bestP], b.data[bestQ]);
  }

  /** What a chain of two links is worth. */
  function Worth(s: Semiring, x: real, y: real): real
  {
    if s.MaxMin? then Min(x, y) else x + y
  }

  ghost predicate AtLeast(a: Csr, b: Csr, s: Semiring, p: int, q: int, p': int, q': int)
  {
    0 <= p < |a.data| && 0 <= q < |b.data| && 0 <= p' < |a.data| && 0 <= q' < |b.data| &&
    var v, w := Worth(s, a.data[p], b.data[q]), Worth(s, a.data[p'], b.data[q']);
    if s.MinPlus? then v <= w else w <= v
  }

  /** The product's pattern is the boolean product's exactly when no cell's best value is
      zero: a zero best is computed and then eliminated. */
  lemma PatternIsBooleanProduct(a: Csr, b: Csr, s: Semiring, m: Csr)
    requires Valid(a) && Valid(b) && IsMatmul(a, b, s, m)
    ensures (forall i, j :: 0 <= i < a.nRows ==> (Stored(m, i, j) <==> Chained(a, b, i, j)))
      <==> (forall i, j :: 0 <= i < a.nRows ==> !IsBest(a, b, s, i, j, 0.0))
  {
    forall i, j | 0 <= i < a.nRows
      ensures Stored(m, i, j) ==> Chained(a, b, i, j)
      ensures IsBest(a, b, s, i, j, 0.0) ==> !Stored(m, i, j) && Chained(a, b, i, j)
      ensures Chained(a, b, i, j) && !IsBest(a, b, s, i, j, 0.0) ==> Stored(m, i, j)
    {
      CellStored(a, b, s, m, i, j);
    }
  }

  lemma CellStored(a: Csr, b: Csr, s: Semiring, m: Csr, i: int, j: int)
    requires Valid(a) && Valid(b) && IsMatmul(a, b, s, m) && 0 <= i < a.nRows
    ensures Stored(m, i, j) ==> Chained(a, b, i, j)
    ensures IsBest(a, b, s, i, j, 0.0) ==> !Stored(m, i, j) && Chained(a, b, i, j)
    ensures Chained(a, b, i, j) && !IsBest(a, b, s, i, j, 0.0) ==> Stored(m, i, j)
  {
    if Stored(m, i, j) {
      var p :| 0 <= p < |m.indices| && InRow(m, i, p) && m.indices[p] == j;
      RowMembers(m, i, (j, m.data[p]));
      var e: Entry := (j, m.data[p]);
      assert e in Row(m, i);
      assert IsBest(a, b, s, i, e.0, e.1) && e.1 != 0.0;
      if IsBest(a, b, s, i, j, 0.0) {
        BestUnique(a, b, s, i, j, 0.0, e.1);
      }
    }
    if Chained(a, b, i, j) && !IsBest(a, b, s, i, j, 0.0) {
      var v := BestExists(a, b, s, i, j);
      var p, q :| Flop(a, b, i, j, p, q);
      var e: Entry := (j, v);
      assert e in Row(m, i);
      RowMembers(m, i, e);
      var o :| InRow(m, i, o) && m.indices[o] == e.0 && m.data[o] == e.1;
      InRowBounds(m, i, o);
    }
  }

  lemma BestUnique(a: Csr, b: Csr, s: Semiring, i: int, j: int, v: real, w: real)
    requires IsBest(a, b, s, i, j, v) && IsBest(a, b, s, i, j, w)
    ensures v == w
  {
    if s.MaxMin? {
      var p, q :| Flop(a, b, i, j, p, q) && IsWeakerLink(a.data[p], b.data[q], v);
      var p', q' :| Flop(a, b, i, j, p', q') && IsWeakerLink(a.data[p'], b.data[q'], w);
    } else {
      var p, q :| Flop(a, b, i, j, p, q) && v == a.data[p] + b.data[q];
      var p', q' :| Flop(a, b, i, j, p', q') && w == a.data[p'] + b.data[q'];
    }
  }

  /** A chain of weights 1 and -1 has best value 0, so its cell is not stored. */
  lemma ZeroSumChainIsDropped(m: Csr)
    requires IsMatmul(Csr(1, 1, [0, 1], [0], [1.0]), Csr(1, 1, [0, 1], [0], [-1.0]), MaxPlus, m)
    ensures Chained(Csr(1, 1, [0, 1], [0], [1.0]), Csr(1, 1, [0, 1], [0], [-1.0]), 0, 0)
    ensures !Stored(m, 0, 0)
  {
    var a, b := Csr(1, 1, [0, 1], [0], [1.0]), Csr(1, 1, [0, 1], [0], [-1.0]);
    assert Flop(a, b, 0, 0, 0, 0);
    assert a.data[0] + b.data[0] == 0.0;
    assert forall p, q :: Flop(a, b, 0, 0, p, q) ==> p == 0 && q == 0;
    assert IsBest(a, b, MaxPlus, 0, 0, 0.0);
    CellStored(a, b, MaxPlus, m, 0, 0);
  }
}
