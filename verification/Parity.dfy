/** `algebra_matches`: the crew match read off one pruned product, and its agreement with
    the ledger's matcher. */
module Parity {
  import opened Vectors
  import opened Sparse
  import opened CoOccurrence
  import L = Ledger

  datatype Pick = NoPick | Pick(pos: nat, jaccard: real, tied: seq<nat>)

  datatype AlgebraMatch = AlgebraMatch(ix: nat, jaccard: real, overlap: nat, launchSize: nat, setSize: nat,
                                       nCandidates: nat, tiedIx: seq<nat>)

  // ---------------------------------------------------------------- one row of the product

  /** In the scan's order position `u` comes before `t`: larger overlap, then earlier. */
  predicate AheadAt(ov: seq<int>, u: nat, t: nat)
    requires u < |ov| && t < |ov|
  {
    ov[u] > ov[t] || (ov[u] == ov[t] && u < t)
  }

  ghost function RankAt(ov: seq<int>, t: nat): nat
    requires t < |ov|
  {
    |set u: nat | u < |ov| && AheadAt(ov, u, t)|
  }

  /** The positions a scan with this limit looks at: the first so many in its order. */
  ghost predicate Selected(ov: seq<int>, limit: L.Option<nat>, t: nat)
  {
    t < |ov| && (limit.None? || RankAt(ov, t) < limit.value)
  }

  /** The position chosen among the selected ones, out of parallel overlaps and ratios: floor,
      maximum, larger overlap first, then the earlier position. */
  ghost predicate IsPick(ov: seq<int>, js: seq<real>, limit: L.Option<nat>, minJaccard: real, pick: Pick)
    requires |ov| == |js|
  {
    match pick
    case NoPick => forall t: nat :: Selected(ov, limit, t) ==> js[t] < minJaccard
    case Pick(pos, j, tied) =>
      && Selected(ov, limit, pos) && js[pos] == j >= minJaccard
      && (forall t: nat :: Selected(ov, limit, t) ==> js[t] <= j)
      && (forall t: nat :: Selected(ov, limit, t) && js[t] == j ==> t == pos || AheadAt(ov, pos, t))
      && (forall t: nat :: t in tied <==> Selected(ov, limit, t) && js[t] == j)
  }

  /** The largest ratio at or above the floor among the selected positions. */
  method BestOf(js: seq<real>, sel: seq<nat>, minJaccard: real) returns (any: bool, best: real)
    requires forall s :: 0 <= s < |sel| ==> sel[s] < |js|
    ensures !any ==> forall s :: 0 <= s < |sel| ==> js[sel[s]] < minJaccard
    ensures any ==> best >= minJaccard && forall s :: 0 <= s < |sel| ==> js[sel[s]] <= best
    ensures any ==> exists s :: 0 <= s < |sel| && js[sel[s]] == best
  {
    any, best := false, minJaccard;
    for s := 0 to |sel|
      invariant !any ==> forall r :: 0 <= r < s ==> js[sel[r]] < minJaccard
      invariant any ==> best >= minJaccard && forall r :: 0 <= r < s ==> js[sel[r]] <= best
      invariant any ==> exists r :: 0 <= r < s && js[sel[r]] == best
    {
      if js[sel[s]] >= minJaccard && (!any || js[sel[s]] > best) {
        any, best := true, js[sel[s]];
      }
    }
  }

  /** The first selected position at the best ratio, and all of them. */
  method FirstAndTies(js: seq<real>, sel: seq<nat>, best: real) returns (first: nat, tied: seq<nat>)
    requires forall s :: 0 <= s < |sel| ==> sel[s] < |js|
    requires exists s :: 0 <= s < |sel| && js[sel[s]] == best
    ensures first < |sel| && js[sel[first]] == best
    ensures forall s :: 0 <= s < first ==> js[sel[s]] != best
    ensures forall t :: t in tied <==> t in sel && js[t] == best
  {
    var found := false;
    first, tied := 0, [];
    for s := 0 to |sel|
      invariant !found ==> forall r :: 0 <= r < s ==> js[sel[r]] != best
      invariant found ==> first < s && js[sel[first]] == best && forall r :: 0 <= r < first ==> js[sel[r]] != best
      invariant forall t :: t in tied <==> t in sel[..s] && js[t] == best
    {
      assert sel[..s + 1] == sel[..s] + [sel[s]];
      if js[sel[s]] == best {
        if !found {
          first, found := s, true;
        }
        tied := tied + [sel[s]];
      }
    }
    assert sel[..|sel|] == sel;
  }

  function Negated(ov: seq<int>): (r: seq<int>)
    ensures |r| == |ov| && forall t :: 0 <= t < |ov| ==> r[t] == -ov[t]
  {
    seq<int>(|ov|, t requires 0 <= t < |ov| => -ov[t])
  }

  /** `argsort(-cand_ov)` and the optional LIMIT. */
  method ScanOrder(ov: seq<int>, limit: L.Option<nat>) returns (sel: seq<nat>)
    ensures forall t: nat :: t in sel <==> Selected(ov, limit, t)
    ensures InScanOrder(ov, sel)
  {
    var order := Argsort(Negated(ov));
    sel := if limit.Some? && limit.value < |order| then order[..limit.value] else order;
    SelectedIsPrefix(ov, order, limit);
    forall s, r | 0 <= s < r < |sel|
      ensures sel[s] < |ov| && sel[r] < |ov| && AheadAt(ov, sel[s], sel[r])
    {
      assert Before(Negated(ov), order[s], order[r]);
    }
    assert forall s :: 0 <= s < |sel| ==> sel[s] == order[s] < |ov|;
  }

  ghost predicate InScanOrder(ov: seq<int>, sel: seq<nat>)
  {
    && (forall s :: 0 <= s < |sel| ==> sel[s] < |ov|)
    && (forall s, r :: 0 <= s < r < |sel| ==> AheadAt(ov, sel[s], sel[r]))
  }

  /** The floor, the maximum and the ties, over the positions scanned. */
  method PickFrom(ov: seq<int>, js: seq<real>, minJaccard: real, sel: seq<nat>) returns (pick: Pick)
    requires |ov| == |js| && InScanOrder(ov, sel)
    ensures IsPickOf(ov, js, sel, minJaccard, pick)
  {
    var any, best := BestOf(js, sel, minJaccard);
    if !any {
      return NoPick;
    }
    var first, tied := FirstAndTies(js, sel, best);
    pick := Pick(sel[first], best, tied);
    forall s | 0 <= s < |sel| && js[sel[s]] == best
      ensures sel[s] == sel[first] || AheadAt(ov, sel[first], sel[s])
    {
      assert first <= s;
    }
  }

  ghost predicate IsPickOf(ov: seq<int>, js: seq<real>, sel: seq<nat>, minJaccard: real, pick: Pick)
    requires |ov| == |js| && forall s :: 0 <= s < |sel| ==> sel[s] < |ov|
  {
    match pick
    case NoPick => forall s :: 0 <= s < |sel| ==> js[sel[s]] < minJaccard
    case Pick(pos, j, tied) =>
      && pos in sel && pos < |ov| && js[pos] == j >= minJaccard
      && (forall s :: 0 <= s < |sel| ==> js[sel[s]] <= j)
      && (forall s :: 0 <= s < |sel| && js[sel[s]] == j ==> sel[s] == pos || AheadAt(ov, pos, sel[s]))
      && (forall t: nat :: t in tied <==> t in sel && t < |ov| && js[t] == j)
  }

  lemma PickOfSelected(ov: seq<int>, js: seq<real>, limit: L.Option<nat>, sel: seq<nat>, minJaccard: real, pick: Pick)
    requires |ov| == |js| && InScanOrder(ov, sel) && IsPickOf(ov, js, sel, minJaccard, pick)
    requires forall t: nat :: t in sel <==> Selected(ov, limit, t)
    ensures IsPick(ov, js, limit, minJaccard, pick)
  {
    forall t: nat | Selected(ov, limit, t)
      ensures exists s :: 0 <= s < |sel| && sel[s] == t
    {
      assert t in sel;
    }
  }

  /** One row of the scan. */
  method PickRow(ov: seq<int>, js: seq<real>, minJaccard: real, limit: L.Option<nat>) returns (pick: Pick)
    requires |ov| == |js|
    ensures IsPick(ov, js, limit, minJaccard, pick)
  {
    var sel := ScanOrder(ov, limit);
    pick := PickFrom(ov, js, minJaccard, sel);
    PickOfSelected(ov, js, limit, sel, minJaccard, pick);
  }

  function First(order: seq<nat>, s: nat): set<nat>
    requires s <= |order|
  {
    set r | 0 <= r < s :: order[r]
  }

  lemma {:induction false} PrefixSize(keys: seq<int>, order: seq<nat>, s: nat)
    requires IsArgsort(keys, order) && s <= |order|
    ensures |First(order, s)| == s
  {
    if s == 0 {
      assert First(order, s) == {};
    } else {
      PrefixSize(keys, order, s - 1);
      assert First(order, s) == First(order, s - 1) + {order[s - 1]};
      forall r: nat | r < s - 1
        ensures order[r] != order[s - 1]
      {
        assert Before(keys, order[r], order[s - 1]);
      }
    }
  }

  /** The stable order of the negated overlaps lists the positions by rank. */
  lemma ArgsortRank(ov: seq<int>, order: seq<nat>, s: nat)
    requires IsArgsort(Negated(ov), order) && s < |order|
    ensures RankAt(ov, order[s]) == s
  {
    var t := order[s];
    forall r | 0 <= r < |order|
      ensures AheadAt(ov, order[r], t) <==> r < s
    {
      assert r < s ==> Before(Negated(ov), order[r], t);
      assert r > s ==> Before(Negated(ov), t, order[r]);
    }
    forall u: nat | u < |ov|
      ensures AheadAt(ov, u, t) <==> u in First(order, s)
    {
      assert u in order;
    }
    assert (set u: nat | u < |ov| && AheadAt(ov, u, t)) == First(order, s);
    PrefixSize(Negated(ov), order, s);
  }

  lemma SelectedIsPrefix(ov: seq<int>, order: seq<nat>, limit: L.Option<nat>)
    requires IsArgsort(Negated(ov), order)
    ensures var sel := if limit.Some? && limit.value < |order| then order[..limit.value] else order;
      forall t: nat :: t in sel <==> Selected(ov, limit, t)
  {
    forall s | 0 <= s < |order|
      ensures RankAt(ov, order[s]) == s
    {
      ArgsortRank(ov, order, s);
    }
    var sel := if limit.Some? && limit.value < |order| then order[..limit.value] else order;
    forall t: nat
      ensures t in sel <==> Selected(ov, limit, t)
    {
      assert t < |ov| ==> t in order;
    }
  }

  // ---------------------------------------------------------------- reporting a row

  datatype Cell = Cell(overlap: nat, jaccard: real)

  /** The candidates of one query row, by stored row index. */
  type Cells = map<nat, Cell>

  ghost predicate CellTied(cells: Cells, j: real, k: nat)
  {
    k in cells && cells[k].jaccard == j
  }

  /** Cell `h` comes before cell `k` in the scan: larger overlap, then smaller index. */
  ghost predicate Ahead(cells: Cells, h: nat, k: nat)
    requires h in cells && k in cells
  {
    cells[h].overlap > cells[k].overlap || (cells[h].overlap == cells[k].overlap && h < k)
  }

  ghost function Rank(cells: Cells, k: nat): nat
    requires k in cells
  {
    |set h | h in cells && Ahead(cells, h, k)|
  }

  /** What a scan with this limit sees: the first so many cells in its order. */
  ghost function Cut(cells: Cells, limit: L.Option<nat>): (r: Cells)
    ensures forall k :: k in r <==> k in cells && (limit.None? || Rank(cells, k) < limit.value)
    ensures forall k :: k in r ==> r[k] == cells[k]
  {
    if limit.None? then cells else map k | k in cells && Rank(cells, k) < limit.value :: cells[k]
  }

  /** The answer for one query row over the cells seen: None below the overlap size or the floor,
      otherwise the largest ratio, the largest overlap among its ties, all the ties. */
  ghost predicate IsAlgebraMatch(cells: Cells, size: nat, minOverlap: int, minJaccard: real, r: L.Option<AlgebraMatch>)
  {
    match r
    case None => size < minOverlap || forall k :: k in cells ==> cells[k].jaccard < minJaccard
    case Some(m) =>
      && size >= minOverlap && m.jaccard >= minJaccard && m.launchSize == size
      && CellTied(cells, m.jaccard, m.ix) && m.overlap == cells[m.ix].overlap
      && (forall k :: k in cells ==> cells[k].jaccard <= m.jaccard)
      && (forall k :: CellTied(cells, m.jaccard, k) ==>
          cells[k].overlap <= m.overlap && (cells[k].overlap == m.overlap ==> m.ix <= k))
      && (forall k :: k in m.tiedIx <==> CellTied(cells, m.jaccard, k))
  }

  ghost predicate SliceAt(cells: Cells, ix: seq<nat>, ov: seq<int>, js: seq<real>, t: nat)
    requires t < |ix| == |ov| == |js|
  {
    ix[t] in cells && ov[t] == cells[ix[t]].overlap && js[t] == cells[ix[t]].jaccard
  }

  /** Aligned slices of one row: column, overlap and ratio of every candidate, by column. */
  ghost predicate IsRowSlice(cells: Cells, ix: seq<nat>, ov: seq<int>, js: seq<real>)
  {
    && |ix| == |ov| == |js|
    && (forall t :: 0 <= t < |ix| ==> SliceAt(cells, ix, ov, js, t))
    && (forall k :: k in cells ==> k in ix)
    && (forall s, t :: 0 <= s < t < |ix| ==> ix[s] < ix[t])
  }

  lemma SliceOf(cells: Cells, ix: seq<nat>, ov: seq<int>, js: seq<real>, k: nat) returns (t: nat)
    requires IsRowSlice(cells, ix, ov, js) && k in cells
    ensures t < |ix| && ix[t] == k && ov[t] == cells[k].overlap && js[t] == cells[k].jaccard
  {
    assert k in ix;
    t :| 0 <= t < |ix| && ix[t] == k;
    assert SliceAt(cells, ix, ov, js, t);
  }

  function ImageOf(a: set<nat>, ix: seq<nat>): set<nat>
    requires forall u :: u in a ==> u < |ix|
  {
    set u | u in a :: ix[u]
  }

  lemma {:induction false} ImageSize(a: set<nat>, ix: seq<nat>)
    requires (forall u :: u in a ==> u < |ix|) && forall s, t :: 0 <= s < t < |ix| ==> ix[s] < ix[t]
    ensures |ImageOf(a, ix)| == |a|
    decreases a
  {
    if a == {} {
      assert ImageOf(a, ix) == {};
    } else {
      var x :| x in a;
      var less := a - {x};
      ImageSize(less, ix);
      assert ImageOf(a, ix) == ImageOf(less, ix) + {ix[x]};
      assert forall u :: u in less ==> ix[u] != ix[x];
    }
  }

  /** A cell has the rank of its position. */
  lemma RankAgrees(cells: Cells, ix: seq<nat>, ov: seq<int>, js: seq<real>, t: nat)
    requires IsRowSlice(cells, ix, ov, js) && t < |ix|
    ensures ix[t] in cells && Rank(cells, ix[t]) == RankAt(ov, t)
  {
    assert SliceAt(cells, ix, ov, js, t);
    var k := ix[t];
    var positions := set u: nat | u < |ov| && AheadAt(ov, u, t);
    var ahead := set h | h in cells && Ahead(cells, h, k);
    forall h
      ensures h in ahead <==> exists u :: u in positions && ix[u] == h
    {
      if h in cells {
        var u := SliceOf(cells, ix, ov, js, h);
        assert u < t <==> h < k;
        assert h in ahead <==> u in positions;
      }
      forall u | u in positions && ix[u] == h
        ensures h in ahead
      {
        assert SliceAt(cells, ix, ov, js, u);
      }
    }
    assert ahead == ImageOf(positions, ix);
    ImageSize(positions, ix);
  }

  lemma SelectedIsCut(cells: Cells, ix: seq<nat>, ov: seq<int>, js: seq<real>, limit: L.Option<nat>, t: nat)
    requires IsRowSlice(cells, ix, ov, js) && t < |ix|
    ensures SliceAt(cells, ix, ov, js, t) && (Selected(ov, limit, t) <==> ix[t] in Cut(cells, limit))
  {
    RankAgrees(cells, ix, ov, js, t);
    assert SliceAt(cells, ix, ov, js, t);
  }

  /** Turn a picked position into the reported match. */
  method ReportRow(ghost cells: Cells, sizes: seq<nat>, size: nat, ghost minOverlap: int, ghost minJaccard: real,
                   ghost limit: L.Option<nat>, ix: seq<nat>, ov: seq<int>, ghost js: seq<real>, pick: Pick)
    returns (r: L.Option<AlgebraMatch>)
    requires size >= minOverlap && IsRowSlice(cells, ix, ov, js)
    requires forall k :: k in cells ==> k < |sizes|
    requires IsPick(ov, js, limit, minJaccard, pick)
    ensures IsAlgebraMatch(Cut(cells, limit), size, minOverlap, minJaccard, r)
    ensures r.Some? ==> r.value.ix < |sizes| && r.value.setSize == sizes[r.value.ix] && r.value.nCandidates == |ix|
  {
    if pick.NoPick? {
      r := L.None;
      forall k | k in Cut(cells, limit)
        ensures cells[k].jaccard < minJaccard
      {
        var t := SliceOf(cells, ix, ov, js, k);
        SelectedIsCut(cells, ix, ov, js, limit, t);
      }
    } else {
      var pos, tied := pick.pos, pick.tied;
      SelectedIsCut(cells, ix, ov, js, limit, pos);
      assert forall s :: 0 <= s < |tied| ==> tied[s] in tied;
      var tiedIx := seq<nat>(|tied|, s requires 0 <= s < |tied| => ix[tied[s]]);
      r := L.Some(AlgebraMatch(ix[pos], pick.jaccard, ov[pos], size, sizes[ix[pos]], |ix|, tiedIx));
      ReportedBest(cells, minJaccard, limit, ix, ov, js, pick);
      ReportedTies(cells, minJaccard, limit, ix, ov, js, pick, tiedIx);
    }
  }

  lemma ReportedBest(cells: Cells, minJaccard: real, limit: L.Option<nat>, ix: seq<nat>, ov: seq<int>, js: seq<real>,
                     pick: Pick)
    requires IsRowSlice(cells, ix, ov, js)
    requires pick.Pick? && IsPick(ov, js, limit, minJaccard, pick)
    ensures forall k :: k in Cut(cells, limit) ==> cells[k].jaccard <= pick.jaccard
    ensures forall k :: CellTied(Cut(cells, limit), pick.jaccard, k) ==>
      cells[k].overlap <= ov[pick.pos] && (cells[k].overlap == ov[pick.pos] ==> ix[pick.pos] <= k)
  {
    forall k | k in Cut(cells, limit)
      ensures cells[k].jaccard <= pick.jaccard
      ensures cells[k].jaccard == pick.jaccard ==>
        cells[k].overlap <= ov[pick.pos] && (cells[k].overlap == ov[pick.pos] ==> ix[pick.pos] <= k)
    {
      var t := SliceOf(cells, ix, ov, js, k);
      SelectedIsCut(cells, ix, ov, js, limit, t);
    }
  }

  lemma ReportedTies(cells: Cells, minJaccard: real, limit: L.Option<nat>, ix: seq<nat>, ov: seq<int>, js: seq<real>,
                     pick: Pick, tiedIx: seq<nat>)
    requires IsRowSlice(cells, ix, ov, js)
    requires pick.Pick? && IsPick(ov, js, limit, minJaccard, pick)
    requires |tiedIx| == |pick.tied|
    requires forall s :: 0 <= s < |tiedIx| ==> pick.tied[s] < |ix| && tiedIx[s] == ix[pick.tied[s]]
    ensures forall k :: k in tiedIx <==> CellTied(Cut(cells, limit), pick.jaccard, k)
  {
    forall k: nat
      ensures k in tiedIx <==> CellTied(Cut(cells, limit), pick.jaccard, k)
    {
      if k in tiedIx {
        var s :| 0 <= s < |tiedIx| && tiedIx[s] == k;
        assert pick.tied[s] in pick.tied;
        SelectedIsCut(cells, ix, ov, js, limit, pick.tied[s]);
      }
      if CellTied(Cut(cells, limit), pick.jaccard, k) {
        var t := SliceOf(cells, ix, ov, js, k);
        SelectedIsCut(cells, ix, ov, js, limit, t);
        assert t in pick.tied;
        var s :| 0 <= s < |pick.tied| && pick.tied[s] == t;
        assert tiedIx[s] == k;
      }
    }
  }

  // ---------------------------------------------------------------- rows of the matrices

  ghost predicate Comparable(query: Csr, stored: Csr, launch: seq<nat>, sizes: seq<nat>)
  {
    && Valid(query) && Valid(stored) && Binary(query) && Binary(stored)
    && query.nCols == stored.nCols && |launch| == query.nRows
    && (forall i :: 0 <= i < query.nRows ==> launch[i] >= Degree(query, i))
    && |sizes| == stored.nRows && (forall k :: 0 <= k < stored.nRows && Degree(stored, k) > 0 ==> sizes[k] > 0)
  }

  ghost predicate IsCand(query: Csr, stored: Csr, i: nat, minOverlap: int, k: nat)
    requires Valid(query) && Valid(stored) && i < query.nRows
  {
    k < stored.nRows && Overlap(query, i, stored, k) >= 1 && Overlap(query, i, stored, k) >= minOverlap
  }

  /** Stored rows that share at least `max(1, minOverlap)` wallets with query row `i`, with
      the overlap and the Jaccard over the FULL launch size. */
  ghost function CellsOf(query: Csr, stored: Csr, i: nat, size: nat, sizes: seq<nat>, minOverlap: int): (cells: Cells)
    requires Valid(query) && Valid(stored) && i < query.nRows && |sizes| == stored.nRows
    ensures forall k :: k in cells <==> IsCand(query, stored, i, minOverlap, k)
    ensures forall k :: k in cells ==> k < stored.nRows && cells[k] == CellOf(query, stored, i, size, sizes, k)
  {
    map k: nat | 0 <= k < stored.nRows && IsCand(query, stored, i, minOverlap, k) ::
      CellOf(query, stored, i, size, sizes, k)
  }

  ghost function CellOf(query: Csr, stored: Csr, i: nat, size: nat, sizes: seq<nat>, k: nat): Cell
    requires Valid(query) && Valid(stored) && i < query.nRows && k < stored.nRows == |sizes|
  {
    var ov := Overlap(query, i, stored, k);
    Cell(ov, Ratio(ov as real, size, sizes[k]))
  }

  lemma OverlapBounds(query: Csr, stored: Csr, i: nat, k: nat)
    requires Valid(query) && Valid(stored) && Binary(query) && Binary(stored) && i < query.nRows && k < stored.nRows
    ensures Overlap(query, i, stored, k) <= Degree(query, i) && Overlap(query, i, stored, k) <= Degree(stored, k)
  {
    DegreeIsCardinality(query, i);
    DegreeIsCardinality(stored, k);
    SubsetSize(RowSet(query, i) * RowSet(stored, k), RowSet(query, i));
    SubsetSize(RowSet(query, i) * RowSet(stored, k), RowSet(stored, k));
  }

  /** With full launch sizes nothing is ever eliminated, so overlaps and ratios stay aligned. */
  lemma ProductNormalisable(query: Csr, stored: Csr, launch: seq<nat>, sizes: seq<nat>, minOverlap: real)
    requires Comparable(query, stored, launch, sizes)
    ensures Valid(Product(query, stored, minOverlap))
    ensures Normalisable(Product(query, stored, minOverlap), launch, sizes)
  {
    var prod := Product(query, stored, minOverlap);
    RowsOfFromRows(PrunedRows(query, stored, minOverlap, query.nRows), stored.nRows);
    forall i, t | 0 <= i < prod.nRows && 0 <= t < |Row(prod, i)|
      ensures var e := Row(prod, i)[t];
        e.0 < |sizes| && e.1 != 0.0 && launch[i] as real + sizes[e.0] as real > e.1
    {
      ProductOfSets(query, stored, minOverlap, i, Row(prod, i)[t]);
      OverlapBounds(query, stored, i, Row(prod, i)[t].0);
    }
  }

  function Floors(data: seq<real>): (r: seq<int>)
    ensures |r| == |data| && forall t :: 0 <= t < |data| ==> r[t] == data[t].Floor
  {
    seq<int>(|data|, t requires 0 <= t < |data| => data[t].Floor)
  }

  /** Row `i` of the product, through its row view, is the candidates of row `i`. */
  ghost predicate IsCandRow(cells: Cells, row: seq<Entry>)
  {
    && RowSorted(row)
    && (forall t :: 0 <= t < |row| ==> CandEntry(cells, row[t]))
    && (forall k :: k in cells ==> (k, cells[k].overlap as real) in row)
  }

  ghost predicate CandEntry(cells: Cells, e: Entry)
  {
    e.0 in cells && e.1 == cells[e.0].overlap as real
  }

  lemma ProductCandRow(query: Csr, stored: Csr, size: nat, sizes: seq<nat>, minOverlap: int, i: nat)
    requires Valid(query) && Valid(stored) && Binary(query) && Binary(stored) && i < query.nRows
    requires |sizes| == stored.nRows
    ensures Valid(Product(query, stored, minOverlap as real))
    ensures IsCandRow(CellsOf(query, stored, i, size, sizes, minOverlap),
                      Row(Product(query, stored, minOverlap as real), i))
  {
    ProductRow(query, stored, minOverlap as real, i);
    var row := Row(Product(query, stored, minOverlap as real), i);
    var cells := CellsOf(query, stored, i, size, sizes, minOverlap);
    forall t | 0 <= t < |row|
      ensures CandEntry(cells, row[t])
    {
      ProductOfSets(query, stored, minOverlap as real, i, row[t]);
    }
    forall k | k in cells
      ensures (k, cells[k].overlap as real) in row
    {
      ProductOfSets(query, stored, minOverlap as real, i, (k, cells[k].overlap as real));
    }
  }

  ghost predicate RatiosMatch(cells: Cells, size: nat, sizes: seq<nat>)
  {
    forall k :: k in cells ==> k < |sizes| && cells[k].jaccard == Ratio(cells[k].overlap as real, size, sizes[k])
  }

  lemma CandRowSlice(cells: Cells, row: seq<Entry>, size: nat, sizes: seq<nat>, ix: seq<nat>, data: seq<real>,
                     js: seq<real>)
    requires IsCandRow(cells, row) && RatiosMatch(cells, size, sizes) && FitsColumns(row, |sizes|)
    requires |ix| == |data| == |js| == |row|
    requires forall t :: 0 <= t < |row| ==>
      ix[t] == row[t].0 && data[t] == row[t].1 && js[t] == Ratio(row[t].1, size, sizes[row[t].0])
    ensures IsRowSlice(cells, ix, Floors(data), js)
  {
    forall t | 0 <= t < |ix|
      ensures SliceAt(cells, ix, Floors(data), js, t)
    {
      assert CandEntry(cells, row[t]);
    }
    forall k | k in cells
      ensures k in ix
    {
      var t :| 0 <= t < |row| && row[t] == (k, cells[k].overlap as real);
      assert ix[t] == k;
    }
  }

  /** Row `i` of the overlap matrix and of the ratio matrix are aligned and hold the cells. */
  ghost predicate RowReady(prod: Csr, j: Csr, cells: Cells, size: nat, sizes: seq<nat>, i: nat)
    requires Valid(prod) && Valid(j) && i < prod.nRows == j.nRows
  {
    && IsCandRow(cells, Row(prod, i)) && RatiosMatch(cells, size, sizes)
    && FitsColumns(Row(prod, i), |sizes|) && Row(j, i) == JaccardRow(Row(prod, i), size, sizes)
  }

  lemma SliceRows(cells: Cells, row: seq<Entry>, jrow: seq<Entry>, size: nat, sizes: seq<nat>,
                  ix: seq<nat>, data: seq<real>, jix: seq<nat>, js: seq<real>)
    requires IsCandRow(cells, row) && RatiosMatch(cells, size, sizes)
    requires FitsColumns(row, |sizes|) && jrow == JaccardRow(row, size, sizes)
    requires |ix| == |data| == |jix| == |js| == |row| == |jrow|
    requires forall t :: 0 <= t < |row| ==> row[t] == (ix[t], data[t])
    requires forall t :: 0 <= t < |jrow| ==> jrow[t] == (jix[t], js[t])
    ensures IsRowSlice(cells, ix, Floors(data), js)
  {
    forall t | 0 <= t < |row|
      ensures ix[t] == row[t].0 && data[t] == row[t].1 && js[t] == Ratio(row[t].1, size, sizes[row[t].0])
    {
      assert jrow[t] == (jix[t], js[t]);
    }
    CandRowSlice(cells, row, size, sizes, ix, data, js);
  }

  lemma RowSlice(prod: Csr, j: Csr, cells: Cells, size: nat, sizes: seq<nat>, i: nat)
    requires Valid(prod) && Valid(j) && i < prod.nRows == j.nRows && j.indptr == prod.indptr
    requires RowReady(prod, j, cells, size, sizes, i)
    ensures prod.indptr[i] <= prod.indptr[i + 1] <= |prod.indices| == |prod.data| == |j.data|
    ensures IsRowSlice(cells, prod.indices[prod.indptr[i]..prod.indptr[i + 1]],
                       Floors(prod.data[prod.indptr[i]..prod.indptr[i + 1]]),
                       j.data[prod.indptr[i]..prod.indptr[i + 1]])
  {
    RowSlices(prod, i);
    RowSlices(j, i);
    var lo, hi := prod.indptr[i], prod.indptr[i + 1];
    SliceRows(cells, Row(prod, i), Row(j, i), size, sizes, prod.indices[lo..hi], prod.data[lo..hi], j.indices[lo..hi],
              j.data[lo..hi]);
  }

  lemma ProductReady(query: Csr, stored: Csr, launch: seq<nat>, sizes: seq<nat>, minOverlap: int, i: nat)
    requires Comparable(query, stored, launch, sizes) && i < query.nRows
    ensures var prod := Product(query, stored, minOverlap as real);
      && Valid(prod) && Valid(Ratios(prod, launch, sizes)) && prod.nRows == query.nRows
      && Ratios(prod, launch, sizes).nRows == query.nRows && Ratios(prod, launch, sizes).indptr == prod.indptr
      && RowReady(prod, Ratios(prod, launch, sizes), CellsOf(query, stored, i, launch[i], sizes, minOverlap), launch[i],
                  sizes, i)
  {
    ProductCandRow(query, stored, launch[i], sizes, minOverlap, i);
    RatiosRows(Product(query, stored, minOverlap as real), launch, sizes);
  }

  /** Row `i` of the answer list: the match over the cells within the limit. */
  ghost predicate RowAnswered(cells: Cells, size: nat, minOverlap: int, minJaccard: real, limit: L.Option<nat>,
                              r: L.Option<AlgebraMatch>)
  {
    IsAlgebraMatch(Cut(cells, limit), size, minOverlap, minJaccard, r)
  }

  /** `algebra_matches`: one product, one normalisation, one pick per query row. */
  method Matches(query: Csr, stored: Csr, launch: seq<nat>, sizes: seq<nat>, minOverlap: int, minJaccard: real,
                 limit: L.Option<nat>)
    returns (out: seq<L.Option<AlgebraMatch>>)
    requires Comparable(query, stored, launch, sizes)
    ensures |out| == query.nRows
    ensures forall i :: 0 <= i < query.nRows ==>
      RowAnswered(CellsOf(query, stored, i, launch[i], sizes, minOverlap), launch[i], minOverlap, minJaccard, limit,
                  out[i])
  {
    var prod, j, all := ProductAndRatios(query, stored, launch, sizes, minOverlap);
    out := MatchRows(all, sizes, launch, minOverlap, minJaccard, limit, prod, j);
  }

  /** The co-occurrence product and its Jaccard, with nothing eliminated in between. */
  method ProductAndRatios(query: Csr, stored: Csr, launch: seq<nat>, sizes: seq<nat>, minOverlap: int)
    returns (prod: Csr, j: Csr, ghost all: seq<Cells>)
    requires Comparable(query, stored, launch, sizes)
    ensures Valid(prod) && Valid(j) && prod.nRows == j.nRows == query.nRows == |all| && j.indptr == prod.indptr
    ensures forall i :: 0 <= i < query.nRows ==> all[i] == CellsOf(query, stored, i, launch[i], sizes, minOverlap)
    ensures forall i :: 0 <= i < query.nRows ==> RowReady(prod, j, all[i], launch[i], sizes, i)
  {
    prod := CoOccur(query, stored, minOverlap as real, 2048);
    NothingEliminated(query, stored, launch, sizes, minOverlap);
    j := Jaccard(prod, launch, sizes);
    all := AllCells(query, stored, launch, sizes, minOverlap);
    AllRowsReady(query, stored, launch, sizes, minOverlap, prod, j, all);
  }

  ghost function AllCells(query: Csr, stored: Csr, launch: seq<nat>, sizes: seq<nat>,
                          minOverlap: int): (all: seq<Cells>)
    requires Comparable(query, stored, launch, sizes)
    ensures |all| == query.nRows
    ensures forall i :: 0 <= i < |all| ==> all[i] == CellsOf(query, stored, i, launch[i], sizes, minOverlap)
  {
    seq<Cells>(query.nRows, i requires 0 <= i < query.nRows => CellsOf(query, stored, i, launch[i], sizes, minOverlap))
  }

  lemma AllRowsReady(query: Csr, stored: Csr, launch: seq<nat>, sizes: seq<nat>, minOverlap: int, prod: Csr, j: Csr,
                     all: seq<Cells>)
    requires Comparable(query, stored, launch, sizes)
    requires prod == Product(query, stored, minOverlap as real) && Valid(prod) && prod.nRows == query.nRows
    requires j == Ratios(prod, launch, sizes) && Valid(j) && j.nRows == query.nRows
    requires |all| == query.nRows
    requires forall i :: 0 <= i < |all| ==> all[i] == CellsOf(query, stored, i, launch[i], sizes, minOverlap)
    ensures forall i :: 0 <= i < query.nRows ==> RowReady(prod, j, all[i], launch[i], sizes, i)
  {
    forall i | 0 <= i < query.nRows
      ensures RowReady(prod, j, all[i], launch[i], sizes, i)
    {
      ProductReady(query, stored, launch, sizes, minOverlap, i);
    }
  }

  lemma NothingEliminated(query: Csr, stored: Csr, launch: seq<nat>, sizes: seq<nat>, minOverlap: int)
    requires Comparable(query, stored, launch, sizes)
    ensures var prod := Product(query, stored, minOverlap as real);
      && Valid(prod) && prod.nRows == query.nRows && prod.nCols == stored.nRows
      && Jaccard(prod, launch, sizes) == Ratios(prod, launch, sizes)
      && Valid(Ratios(prod, launch, sizes)) && Ratios(prod, launch, sizes).nRows == query.nRows
      && Ratios(prod, launch, sizes).indptr == prod.indptr
  {
    ProductNormalisable(query, stored, launch, sizes, minOverlap as real);
    JaccardAligned(Product(query, stored, minOverlap as real), launch, sizes);
    RatiosRows(Product(query, stored, minOverlap as real), launch, sizes);
  }

  method MatchRows(ghost all: seq<Cells>, sizes: seq<nat>, launch: seq<nat>, minOverlap: int, minJaccard: real,
                   limit: L.Option<nat>, prod: Csr, j: Csr)
    returns (out: seq<L.Option<AlgebraMatch>>)
    requires Valid(prod) && Valid(j) && |all| == |launch| == prod.nRows == j.nRows && j.indptr == prod.indptr
    requires forall i :: 0 <= i < prod.nRows ==> RowReady(prod, j, all[i], launch[i], sizes, i)
    ensures |out| == prod.nRows
    ensures forall i :: 0 <= i < prod.nRows ==> RowAnswered(all[i], launch[i], minOverlap, minJaccard, limit, out[i])
  {
    out := [];
    for i := 0 to prod.nRows
      invariant |out| == i
      invariant forall r :: 0 <= r < i ==> RowAnswered(all[r], launch[r], minOverlap, minJaccard, limit, out[r])
    {
      ghost var before := out;
      assert RowReady(prod, j, all[i], launch[i], sizes, i);
      var row := MatchRowAt(all[i], sizes, launch[i], minOverlap, minJaccard, limit, prod, j, i);
      out := out + [row];
      assert forall r :: 0 <= r < i ==> out[r] == before[r];
    }
  }

  /** The slices of row `i`, then its pick. */
  method MatchRowAt(ghost cells: Cells, sizes: seq<nat>, size: nat, minOverlap: int, minJaccard: real,
                    limit: L.Option<nat>, prod: Csr, j: Csr, i: nat) returns (r: L.Option<AlgebraMatch>)
    requires Valid(prod) && Valid(j) && i < prod.nRows == j.nRows && j.indptr == prod.indptr
    requires RowReady(prod, j, cells, size, sizes, i)
    ensures RowAnswered(cells, size, minOverlap, minJaccard, limit, r)
  {
    RowSlice(prod, j, cells, size, sizes, i);
    var lo, hi := prod.indptr[i], prod.indptr[i + 1];
    r := MatchRow(cells, sizes, size, minOverlap, minJaccard, limit, prod.indices[lo..hi], Floors(prod.data[lo..hi]),
                  j.data[lo..hi]);
  }

  method MatchRow(ghost cells: Cells, sizes: seq<nat>, size: nat, minOverlap: int, minJaccard: real,
                  limit: L.Option<nat>, ix: seq<nat>, ov: seq<int>, js: seq<real>) returns (r: L.Option<AlgebraMatch>)
    requires IsRowSlice(cells, ix, ov, js)
    requires forall k :: k in cells ==> k < |sizes|
    ensures IsAlgebraMatch(Cut(cells, limit), size, minOverlap, minJaccard, r)
  {
    if size < minOverlap {
      return L.None;
    }
    var pick := PickRow(ov, js, minJaccard, limit);
    r := ReportRow(cells, sizes, size, minOverlap, minJaccard, limit, ix, ov, js, pick);
  }

  /** A truncated scan never reports a better ratio, and never a match where there is none. */
  lemma TruncationNeverBetter(cells: Cells, size: nat, minOverlap: int, minJaccard: real, limit: L.Option<nat>,
                              truncated: L.Option<AlgebraMatch>, full: L.Option<AlgebraMatch>)
    requires IsAlgebraMatch(Cut(cells, limit), size, minOverlap, minJaccard, truncated)
    requires IsAlgebraMatch(cells, size, minOverlap, minJaccard, full)
    ensures truncated.Some? ==> full.Some? && truncated.value.jaccard <= full.value.jaccard
  {
    if truncated.Some? {
      assert CellTied(Cut(cells, limit), truncated.value.jaccard, truncated.value.ix);
    }
  }

  ghost predicate SamePick(a: L.Option<AlgebraMatch>, b: L.Option<AlgebraMatch>)
  {
    && a.Some? == b.Some?
    && (a.Some? ==> a.value.ix == b.value.ix && a.value.jaccard == b.value.jaccard)
    && (a.Some? ==> a.value.overlap == b.value.overlap)
  }

  ghost predicate SameTies(a: L.Option<AlgebraMatch>, b: L.Option<AlgebraMatch>)
  {
    a.Some? && b.Some? ==> forall k :: k in a.value.tiedIx <==> k in b.value.tiedIx
  }

  /** What truncation costs, exactly: the truncated scan picks what the full one picks if and only if
      that pick is within the limit, and reports the same ties too if and only if all of them are. */
  lemma TruncationExactIff(cells: Cells, size: nat, minOverlap: int, minJaccard: real, limit: L.Option<nat>,
                           truncated: L.Option<AlgebraMatch>, full: L.Option<AlgebraMatch>)
    requires IsAlgebraMatch(Cut(cells, limit), size, minOverlap, minJaccard, truncated)
    requires IsAlgebraMatch(cells, size, minOverlap, minJaccard, full)
    ensures SamePick(truncated, full) <==> full.None? || full.value.ix in Cut(cells, limit)
    ensures SamePick(truncated, full) && SameTies(truncated, full) <==>
      full.None? || forall k :: CellTied(cells, full.value.jaccard, k) ==> k in Cut(cells, limit)
  {
    var seen := Cut(cells, limit);
    if full.Some? {
      var best := full.value;
      assert CellTied(cells, best.jaccard, best.ix);
      if best.ix in seen {
        assert truncated.Some? && truncated.value.jaccard == best.jaccard;
        assert CellTied(seen, best.jaccard, best.ix);
        assert CellTied(seen, best.jaccard, truncated.value.ix) && CellTied(cells, best.jaccard, truncated.value.ix);
        assert truncated.value.ix == best.ix;
      }
      if truncated.Some? {
        assert CellTied(seen, truncated.value.jaccard, truncated.value.ix);
      }
    }
  }
}
