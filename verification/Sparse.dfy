/** Compressed sparse rows: three parallel vectors and what they mean row by row. */
module Sparse {
  import opened Vectors

  datatype Csr = Csr(nRows: nat, nCols: nat, indptr: seq<nat>, indices: seq<nat>, data: seq<real>)

  type Entry = (nat, real)

  ghost predicate Valid(m: Csr)
  {
    && |m.indptr| == m.nRows + 1
    && m.indptr[0] == 0
    && m.indptr[m.nRows] == |m.indices| == |m.data|
    && (forall i, k :: 0 <= i <= k <= m.nRows ==> m.indptr[i] <= m.indptr[k])
    && (forall p :: 0 <= p < |m.indices| ==> m.indices[p] < m.nCols)
  }

  /** Position `p` belongs to row `i`. */
  ghost predicate InRow(m: Csr, i: int, p: int)
  {
    0 <= i < m.nRows && i + 1 < |m.indptr| && m.indptr[i] <= p < m.indptr[i + 1]
  }

  /** Row `i` stores an entry in column `j`. */
  ghost predicate Stored(m: Csr, i: int, j: int)
  {
    exists p :: 0 <= p < |m.indices| && InRow(m, i, p) && m.indices[p] == j
  }

  /** Column indices strictly increase inside every row: sorted and free of duplicates. */
  ghost predicate RowsSorted(m: Csr)
    requires Valid(m)
  {
    forall i, p, q :: InRow(m, i, p) && InRow(m, i, q) && p < q ==> m.indices[p] < m.indices[q]
  }

  lemma InRowBounds(m: Csr, i: int, p: int)
    requires Valid(m) && InRow(m, i, p)
    ensures 0 <= p < |m.indices| == |m.data|
    ensures m.indices[p] < m.nCols
  {
    assert m.indptr[i + 1] <= m.indptr[m.nRows];
    assert m.indptr[0] <= m.indptr[i];
  }

  // ---------------------------------------------------------------- the row view

  function Row(m: Csr, i: nat): seq<Entry>
    requires Valid(m) && i < m.nRows
  {
    RowBounds(m, i);
    seq(m.indptr[i + 1] - m.indptr[i],
        t requires 0 <= t < m.indptr[i + 1] - m.indptr[i] => (m.indices[m.indptr[i] + t], m.data[m.indptr[i] + t]))
  }

  lemma RowBounds(m: Csr, i: nat)
    requires Valid(m) && i < m.nRows
    ensures m.indptr[i] <= m.indptr[i + 1] <= |m.indices| == |m.data|
  {
  }

  /** The row view reads the three vectors at one slice. */
  lemma RowSlices(m: Csr, i: nat)
    requires Valid(m) && i < m.nRows
    ensures m.indptr[i] <= m.indptr[i + 1] <= |m.indices| == |m.data|
    ensures |Row(m, i)| == m.indptr[i + 1] - m.indptr[i]
    ensures forall t :: 0 <= t < |Row(m, i)| ==>
      Row(m, i)[t] == (m.indices[m.indptr[i]..m.indptr[i + 1]][t], m.data[m.indptr[i]..m.indptr[i + 1]][t])
  {
    RowBounds(m, i);
  }

  function Columns(row: seq<Entry>): seq<nat>
  {
    seq(|row|, t requires 0 <= t < |row| => row[t].0)
  }

  function Values(row: seq<Entry>): seq<real>
  {
    seq(|row|, t requires 0 <= t < |row| => row[t].1)
  }

  /** Lay rows out one after the other; `indptr` is the running sum of the row lengths. */
  function FromRows(rows: seq<seq<Entry>>, nCols: nat): (m: Csr)
    ensures m.nRows == |rows| && m.nCols == nCols
    ensures |m.indptr| == |rows| + 1
  {
    if rows == [] then Csr(0, nCols, [0], [], [])
    else
      var n := |rows| - 1;
      AppendRow(FromRows(rows[..n], nCols), rows[n])
  }

  function AppendRow(m: Csr, row: seq<Entry>): Csr
  {
    Csr(m.nRows + 1, m.nCols, m.indptr + [|m.indices| + |row|], m.indices + Columns(row), m.data + Values(row))
  }

  ghost predicate FitsColumns(row: seq<Entry>, nCols: nat)
  {
    forall t :: 0 <= t < |row| ==> row[t].0 < nCols
  }

  lemma AppendRowValid(m: Csr, row: seq<Entry>)
    requires Valid(m) && FitsColumns(row, m.nCols)
    ensures Valid(AppendRow(m, row))
    ensures forall i :: 0 <= i < m.nRows ==> Row(AppendRow(m, row), i) == Row(m, i)
    ensures Row(AppendRow(m, row), m.nRows) == row
  {
    var r := AppendRow(m, row);
    assert forall p :: |m.indices| <= p < |r.indices| ==> r.indices[p] == row[p - |m.indices|].0;
    forall i | 0 <= i < m.nRows
      ensures Row(r, i) == Row(m, i)
    {
      RowBounds(m, i);
    }
  }

  /** Reading back what was laid out. */
  lemma {:induction false} RowsOfFromRows(rows: seq<seq<Entry>>, nCols: nat)
    requires forall i :: 0 <= i < |rows| ==> FitsColumns(rows[i], nCols)
    ensures Valid(FromRows(rows, nCols))
    ensures forall i :: 0 <= i < |rows| ==> Row(FromRows(rows, nCols), i) == rows[i]
  {
    if rows != [] {
      var n := |rows| - 1;
      RowsOfFromRows(rows[..n], nCols);
      AppendRowValid(FromRows(rows[..n], nCols), rows[n]);
    }
  }

  ghost function AllRows(m: Csr): seq<seq<Entry>>
    requires Valid(m)
  {
    seq(m.nRows, i requires 0 <= i < m.nRows => Row(m, i))
  }

  /** All rows but the last. */
  ghost function DropLastRow(m: Csr): Csr
    requires Valid(m) && m.nRows > 0
  {
    var n := m.nRows - 1;
    RowBounds(m, n);
    Csr(n, m.nCols, m.indptr[..n + 1], m.indices[..m.indptr[n]], m.data[..m.indptr[n]])
  }

  lemma DropLastRowValid(m: Csr)
    requires Valid(m) && m.nRows > 0
    ensures Valid(DropLastRow(m))
    ensures AppendRow(DropLastRow(m), Row(m, m.nRows - 1)) == m
  {
    var n, less := m.nRows - 1, DropLastRow(m);
    RowBounds(m, n);
    assert m.indptr == less.indptr + [|less.indices| + |Row(m, n)|];
    assert m.indices == less.indices + Columns(Row(m, n));
    assert m.data == less.data + Values(Row(m, n));
  }

  lemma DropLastRowRows(m: Csr)
    requires Valid(m) && m.nRows > 0
    requires Valid(DropLastRow(m))
    ensures AllRows(DropLastRow(m)) == AllRows(m)[..m.nRows - 1]
  {
    var less := DropLastRow(m);
    forall i | 0 <= i < less.nRows
      ensures Row(less, i) == Row(m, i)
    {
      RowBounds(less, i);
    }
  }

  /** Laying out what was read: a valid matrix is determined by its rows. */
  lemma {:induction false} FromRowsOfRows(m: Csr)
    requires Valid(m)
    ensures FromRows(AllRows(m), m.nCols) == m
    decreases m.nRows
  {
    if m.nRows == 0 {
      assert m.indptr == [0];
    } else {
      DropLastRowValid(m);
      DropLastRowRows(m);
      FromRowsOfRows(DropLastRow(m));
      FromRowsSnoc(AllRows(m), m.nRows - 1, m.nCols);
    }
  }

  lemma {:induction false} FromRowsSnoc(rows: seq<seq<Entry>>, n: nat, nCols: nat)
    requires |rows| == n + 1
    ensures FromRows(rows, nCols) == AppendRow(FromRows(rows[..n], nCols), rows[n])
  {
  }

  lemma RowMembers(m: Csr, i: nat, e: Entry)
    requires Valid(m) && i < m.nRows
    ensures e in Row(m, i) <==> exists p :: InRow(m, i, p) && m.indices[p] == e.0 && m.data[p] == e.1
  {
    RowBounds(m, i);
    if p :| InRow(m, i, p) && m.indices[p] == e.0 && m.data[p] == e.1 {
      assert Row(m, i)[p - m.indptr[i]] == e;
    }
    if e in Row(m, i) {
      var t :| 0 <= t < |Row(m, i)| && Row(m, i)[t] == e;
      assert InRow(m, i, m.indptr[i] + t);
    }
  }

  /** `whole` lays out the rows of `x` and then the rows of `y`. */
  ghost predicate Continues(x: Csr, y: Csr, whole: Csr)
  {
    && |x.indptr| == x.nRows + 1 && |y.indptr| == y.nRows + 1 && |whole.indptr| == x.nRows + y.nRows + 1
    && whole.indices == x.indices + y.indices && whole.data == x.data + y.data
    && whole.indptr[..x.nRows + 1] == x.indptr
    && forall r :: 0 <= r <= y.nRows ==> whole.indptr[x.nRows + r] == |x.indices| + y.indptr[r]
  }

  lemma AppendContinues(x: Csr, y: Csr, xy: Csr, row: seq<Entry>)
    requires Continues(x, y, xy)
    ensures Continues(x, AppendRow(y, row), AppendRow(xy, row))
  {
    var y', xy' := AppendRow(y, row), AppendRow(xy, row);
    assert xy'.indices == x.indices + y'.indices;
    assert xy'.data == x.data + y'.data;
    assert xy'.indptr[..x.nRows + 1] == xy.indptr[..x.nRows + 1];
  }

  /** Laying out more rows continues the same three vectors. */
  lemma {:induction false} FromRowsConcat(xs: seq<seq<Entry>>, ys: seq<seq<Entry>>, nCols: nat)
    ensures Continues(FromRows(xs, nCols), FromRows(ys, nCols), FromRows(xs + ys, nCols))
    decreases |ys|
  {
    if ys == [] {
      assert xs + ys == xs;
      FromRowsEnds(xs, nCols);
    } else {
      var n := |ys| - 1;
      FromRowsConcat(xs, ys[..n], nCols);
      assert (xs + ys)[..|xs| + n] == xs + ys[..n];
      AppendContinues(FromRows(xs, nCols), FromRows(ys[..n], nCols), FromRows(xs + ys[..n], nCols), ys[n]);
    }
  }

  lemma FromRowsEnds(rows: seq<seq<Entry>>, nCols: nat)
    ensures var m := FromRows(rows, nCols); m.indptr[0] == 0 && m.indptr[|rows|] == |m.indices| == |m.data|
  {
    if rows != [] {
      FromRowsEnds(rows[..|rows| - 1], nCols);
    }
  }

  /** `indptr` and `indices` depend on the columns only. */
  lemma {:induction false} FromRowsSameColumns(xs: seq<seq<Entry>>, ys: seq<seq<Entry>>, nCols: nat)
    requires |xs| == |ys|
    requires forall i :: 0 <= i < |xs| ==> |xs[i]| == |ys[i]| && Columns(xs[i]) == Columns(ys[i])
    ensures FromRows(xs, nCols).indptr == FromRows(ys, nCols).indptr
    ensures FromRows(xs, nCols).indices == FromRows(ys, nCols).indices
  {
    if xs != [] {
      var n := |xs| - 1;
      FromRowsSameColumns(xs[..n], ys[..n], nCols);
    }
  }

  // ---------------------------------------------------------------- eliminate_zeros

  function NonZero(row: seq<Entry>): seq<Entry>
  {
    if row == [] then []
    else
      var n := |row| - 1;
      NonZero(row[..n]) + (if row[n].1 != 0.0 then [row[n]] else [])
  }

  /** scipy's `eliminate_zeros`: every explicitly stored zero leaves the structure. */
  function EliminateZeros(m: Csr): Csr
    requires Valid(m)
  {
    FromRows(seq(m.nRows, i requires 0 <= i < m.nRows => NonZero(Row(m, i))), m.nCols)
  }

  lemma {:induction false} NonZeroMembers(row: seq<Entry>, e: Entry)
    ensures e in NonZero(row) <==> e in row && e.1 != 0.0
  {
    if row != [] {
      NonZeroMembers(row[..|row| - 1], e);
      assert row == row[..|row| - 1] + [row[|row| - 1]];
    }
  }

  /** The row view strictly increases in the column. */
  ghost predicate RowSorted(row: seq<Entry>)
  {
    forall s, t :: 0 <= s < t < |row| ==> row[s].0 < row[t].0
  }

  lemma {:induction false} NonZeroSorted(row: seq<Entry>)
    requires RowSorted(row)
    ensures RowSorted(NonZero(row))
  {
    if row != [] {
      var n := |row| - 1;
      NonZeroSorted(row[..n]);
      forall t | 0 <= t < |NonZero(row[..n])|
        ensures NonZero(row[..n])[t].0 < row[n].0
      {
        NonZeroMembers(row[..n], NonZero(row[..n])[t]);
      }
    }
  }

  lemma {:induction false} NonZeroIdentity(row: seq<Entry>)
    ensures |NonZero(row)| <= |row|
    ensures |NonZero(row)| == |row| ==> NonZero(row) == row
    ensures (forall t :: 0 <= t < |row| ==> row[t].1 != 0.0) <==> |NonZero(row)| == |row|
  {
    if row != [] {
      var n := |row| - 1;
      NonZeroIdentity(row[..n]);
      assert row == row[..n] + [row[n]];
      if |NonZero(row)| == |row| {
        assert row[n].1 != 0.0;
      }
    }
  }

  /** What `eliminate_zeros` keeps, row by row. */
  lemma EliminateZerosRows(m: Csr)
    requires Valid(m)
    ensures Valid(EliminateZeros(m))
    ensures EliminateZeros(m).nRows == m.nRows && EliminateZeros(m).nCols == m.nCols
    ensures forall i :: 0 <= i < m.nRows ==> Row(EliminateZeros(m), i) == NonZero(Row(m, i))
  {
    var rows := seq(m.nRows, i requires 0 <= i < m.nRows => NonZero(Row(m, i)));
    forall i | 0 <= i < m.nRows
      ensures FitsColumns(rows[i], m.nCols)
    {
      RowBounds(m, i);
      forall t | 0 <= t < |rows[i]|
        ensures rows[i][t].0 < m.nCols
      {
        NonZeroMembers(Row(m, i), rows[i][t]);
      }
    }
    RowsOfFromRows(rows, m.nCols);
  }

  ghost predicate NoZeros(m: Csr)
    requires Valid(m)
  {
    forall i, t :: 0 <= i < m.nRows && 0 <= t < |Row(m, i)| ==> Row(m, i)[t].1 != 0.0
  }

  /** Positional alignment survives `eliminate_zeros` exactly when there was nothing to drop. */
  lemma EliminateZerosAligned(m: Csr)
    requires Valid(m)
    ensures EliminateZeros(m) == m <==> NoZeros(m)
  {
    if NoZeros(m) {
      NothingEliminated(m);
    }
    if EliminateZeros(m) == m {
      EliminateZerosRows(m);
      forall i, t | 0 <= i < m.nRows && 0 <= t < |Row(m, i)|
        ensures Row(m, i)[t].1 != 0.0
      {
        NonZeroIdentity(Row(m, i));
      }
    }
  }

  lemma NothingEliminated(m: Csr)
    requires Valid(m) && NoZeros(m)
    ensures EliminateZeros(m) == m
  {
    var rows := seq(m.nRows, i requires 0 <= i < m.nRows => NonZero(Row(m, i)));
    forall i | 0 <= i < m.nRows
      ensures rows[i] == AllRows(m)[i]
    {
      NonZeroIdentity(Row(m, i));
    }
    assert rows == AllRows(m);
    FromRowsOfRows(m);
  }

  // ---------------------------------------------------------------- rows as sets

  function RowSet(m: Csr, i: nat): set<nat>
    requires Valid(m) && i < m.nRows
  {
    set e | e in Row(m, i) :: e.0
  }

  /** The number of entries of a row, `np.diff(indptr)[i]`. */
  function Degree(m: Csr, i: nat): nat
    requires Valid(m) && i < m.nRows
  {
    m.indptr[i + 1] - m.indptr[i]
  }

  ghost predicate Binary(m: Csr)
    requires Valid(m)
  {
    RowsSorted(m) && forall p :: 0 <= p < |m.data| ==> m.data[p] == 1.0
  }

  lemma SortedRowView(m: Csr, i: nat)
    requires Valid(m) && RowsSorted(m) && i < m.nRows
    ensures RowSorted(Row(m, i))
  {
    RowBounds(m, i);
    forall s, t | 0 <= s < t < |Row(m, i)|
      ensures Row(m, i)[s].0 < Row(m, i)[t].0
    {
      assert InRow(m, i, m.indptr[i] + s) && InRow(m, i, m.indptr[i] + t);
    }
  }

  lemma {:induction false} SortedCardinality(row: seq<Entry>)
    requires RowSorted(row)
    ensures |set e | e in row :: e.0| == |row|
  {
    if row == [] {
      assert (set e | e in row :: e.0) == {};
    } else {
      var n := |row| - 1;
      SortedCardinality(row[..n]);
      SortedSnoc(row, n);
    }
  }

  lemma SortedSnoc(row: seq<Entry>, n: nat)
    requires RowSorted(row) && |row| == n + 1
    ensures row[n].0 !in (set e | e in row[..n] :: e.0)
    ensures (set e | e in row :: e.0) == (set e | e in row[..n] :: e.0) + {row[n].0}
  {
    assert row == row[..n] + [row[n]];
  }

  /** With sorted rows the stored degree is the cardinality of the row's set. */
  lemma DegreeIsCardinality(m: Csr, i: nat)
    requires Valid(m) && RowsSorted(m) && i < m.nRows
    ensures Degree(m, i) == |RowSet(m, i)|
  {
    SortedRowView(m, i);
    SortedCardinality(Row(m, i));
  }

  // ---------------------------------------------------------------- from sets to rows and back

  /** A row of ones over these columns, ascending. */
  ghost predicate IsRowOf(s: set<nat>, row: seq<Entry>)
  {
    && RowSorted(row)
    && (forall e :: e in row ==> e.1 == 1.0 && e.0 in s)
    && (forall c :: c in s ==> (c, 1.0) in row)
  }

  lemma ConsRow(c: nat, rest: seq<Entry>)
    requires RowSorted(rest) && forall e :: e in rest ==> c < e.0
    ensures RowSorted([(c, 1.0)] + rest)
  {
    assert forall t :: 0 <= t < |rest| ==> rest[t] in rest;
  }

  lemma UnconsRow(row: seq<Entry>)
    requires row != [] && RowSorted(row)
    ensures RowSorted(row[1..]) && (forall e :: e in row[1..] ==> row[0].0 < e.0)
    ensures forall e :: e in row <==> e == row[0] || e in row[1..]
  {
    assert row == [row[0]] + row[1..];
  }

  function InsertColumn(row: seq<Entry>, c: nat): (r: seq<Entry>)
    requires RowSorted(row) && forall e :: e in row ==> e.1 == 1.0 && e.0 != c
    ensures RowSorted(r) && forall e :: e in r <==> e == (c, 1.0) || e in row
  {
    if row == [] then [(c, 1.0)]
    else
      UnconsRow(row);
      if c < row[0].0 then
        ConsRow(c, row);
        [(c, 1.0)] + row
      else
        var rest := InsertColumn(row[1..], c);
        assert row[0] in row && row[0] == (row[0].0, 1.0);
        ConsRow(row[0].0, rest);
        [row[0]] + rest
  }

  /** `sorted(r)`, with the ones that go with it. */
  method SortedRow(s: set<nat>) returns (row: seq<Entry>)
    ensures IsRowOf(s, row)
  {
    row := [];
    var rest := s;
    while rest != {}
      invariant rest <= s && IsRowOf(s - rest, row)
      decreases rest
    {
      var c :| c in rest;
      row := InsertColumn(row, c);
      rest := rest - {c};
    }
    assert s - rest == s;
  }

  lemma {:induction false} RowOfSetUnique(s: set<nat>, a: seq<Entry>, b: seq<Entry>)
    requires IsRowOf(s, a) && IsRowOf(s, b)
    ensures a == b
    decreases |a|
  {
    assert |a| > 0 ==> a[0] in a;
    assert |b| > 0 ==> b[0] in b;
    if a != [] && b != [] {
      UnconsRow(a);
      UnconsRow(b);
      assert (a[0].0, 1.0) in b && (b[0].0, 1.0) in a;
      assert a[0] == b[0];
      RowOfSetUnique(s - {a[0].0}, a[1..], b[1..]);
      assert a == [a[0]] + a[1..] && b == [b[0]] + b[1..];
    }
  }

  lemma BinaryRowOf(m: Csr, i: nat)
    requires Valid(m) && Binary(m) && i < m.nRows
    ensures IsRowOf(RowSet(m, i), Row(m, i))
  {
    SortedRowView(m, i);
    RowBounds(m, i);
    forall e | e in Row(m, i)
      ensures e.1 == 1.0 && e == (e.0, 1.0)
    {
      var t :| 0 <= t < |Row(m, i)| && Row(m, i)[t] == e;
      assert m.data[m.indptr[i] + t] == 1.0;
    }
  }

  lemma {:induction false} OnesData(rows: seq<seq<Entry>>, nCols: nat)
    requires forall i, t :: 0 <= i < |rows| && 0 <= t < |rows[i]| ==> rows[i][t].1 == 1.0
    ensures forall p :: 0 <= p < |FromRows(rows, nCols).data| ==> FromRows(rows, nCols).data[p] == 1.0
  {
    if rows != [] {
      OnesData(rows[..|rows| - 1], nCols);
    }
  }

  lemma SortedFromView(m: Csr)
    requires Valid(m) && forall i :: 0 <= i < m.nRows ==> RowSorted(Row(m, i))
    ensures RowsSorted(m)
  {
    forall i, p, q | InRow(m, i, p) && InRow(m, i, q) && p < q
      ensures m.indices[p] < m.indices[q]
    {
      RowBounds(m, i);
      assert Row(m, i)[p - m.indptr[i]].0 < Row(m, i)[q - m.indptr[i]].0;
    }
  }

  /** `from_row_sets`: a 0/1 matrix with sorted rows whose row sets are the given ones. */
  method FromRowSets(sets: seq<set<nat>>, nCols: nat) returns (m: Csr)
    requires forall i, c :: 0 <= i < |sets| && c in sets[i] ==> c < nCols
    ensures Valid(m) && Binary(m) && m.nRows == |sets| && m.nCols == nCols
    ensures forall i :: 0 <= i < |sets| ==> RowSet(m, i) == sets[i]
  {
    var rows: seq<seq<Entry>> := [];
    for n := 0 to |sets|
      invariant |rows| == n && forall i :: 0 <= i < n ==> IsRowOf(sets[i], rows[i])
    {
      var row := SortedRow(sets[n]);
      rows := rows + [row];
    }
    m := FromRows(rows, nCols);
    RowSetsOfRows(sets, rows, nCols);
  }

  lemma RowSetsOfRows(sets: seq<set<nat>>, rows: seq<seq<Entry>>, nCols: nat)
    requires |rows| == |sets| && forall i :: 0 <= i < |sets| ==> IsRowOf(sets[i], rows[i])
    requires forall i, c :: 0 <= i < |sets| && c in sets[i] ==> c < nCols
    ensures Valid(FromRows(rows, nCols)) && Binary(FromRows(rows, nCols))
    ensures forall i :: 0 <= i < |sets| ==> RowSet(FromRows(rows, nCols), i) == sets[i]
  {
    var m := FromRows(rows, nCols);
    forall i, t | 0 <= i < |rows| && 0 <= t < |rows[i]|
      ensures rows[i][t].0 < nCols && rows[i][t].1 == 1.0
    {
      assert rows[i][t] in rows[i];
    }
    RowsOfFromRows(rows, nCols);
    OnesData(rows, nCols);
    SortedFromView(m);
    forall i | 0 <= i < |sets|
      ensures RowSet(m, i) == sets[i]
    {
      assert Row(m, i) == rows[i];
      assert forall c :: c in sets[i] ==> (c, 1.0) in rows[i] && (c, 1.0).0 == c;
    }
  }

  /** And back: a 0/1 matrix is determined by its row sets, so rebuilding from them is the identity. */
  lemma RowSetsDetermine(a: Csr, b: Csr)
    requires Valid(a) && Binary(a) && Valid(b) && Binary(b) && a.nRows == b.nRows && a.nCols == b.nCols
    requires forall i :: 0 <= i < a.nRows ==> RowSet(a, i) == RowSet(b, i)
    ensures a == b
  {
    forall i | 0 <= i < a.nRows
      ensures AllRows(a)[i] == AllRows(b)[i]
    {
      BinaryRowOf(a, i);
      BinaryRowOf(b, i);
      RowOfSetUnique(RowSet(a, i), Row(a, i), Row(b, i));
    }
    assert AllRows(a) == AllRows(b);
    FromRowsOfRows(a);
    FromRowsOfRows(b);
  }

  // ---------------------------------------------------------------- lookup

  /** `m[i, j]`: the stored value, or 0 where nothing is stored. */
  function Find(row: seq<Entry>, j: nat): real
  {
    if row == [] then 0.0
    else if row[0].0 == j then row[0].1 else Find(row[1..], j)
  }

  function Lookup(m: Csr, i: nat, j: nat): real
    requires Valid(m) && i < m.nRows
  {
    Find(Row(m, i), j)
  }

  lemma {:induction false} FindStored(row: seq<Entry>, j: nat, v: real)
    requires RowSorted(row)
    requires (j, v) in row
    ensures Find(row, j) == v
  {
    if row[0].0 != j {
      assert (j, v) in row[1..];
      FindStored(row[1..], j, v);
    } else {
      var t :| 0 <= t < |row| && row[t] == (j, v);
      assert t == 0;
    }
  }

  lemma {:induction false} FindMissing(row: seq<Entry>, j: nat)
    requires forall v :: (j, v) !in row
    ensures Find(row, j) == 0.0
  {
    if row != [] {
      assert row[0] in row;
      assert row[0] == (row[0].0, row[0].1);
      forall v ensures (j, v) !in row[1..] {
        assert (j, v) !in row;
      }
      FindMissing(row[1..], j);
    }
  }
}
