/** The algebra and the ledger's matcher give the same answer. */
module Agreement {
  import opened Vectors
  import opened Sparse
  import opened CoOccurrence
  import opened Parity
  import L = Ledger

  ghost predicate Injective(s: seq<nat>)
  {
    forall i, j :: 0 <= i < j < |s| ==> s[i] != s[j]
  }

  ghost predicate DistinctRows(rows: seq<L.SetRow>)
  {
    forall i, j :: 0 <= i < j < |rows| ==> rows[i] != rows[j]
  }

  /** Stored row `k` is coin `mints[k]`, column `c` is wallet `wallets[c]`. */
  ghost predicate RowMirrors(t: L.Tables, stored: Csr, mints: seq<L.Mint>, wallets: seq<L.Wallet>, k: nat)
    requires Valid(stored) && k < stored.nRows == |mints| && stored.nCols == |wallets|
  {
    && mints[k] in t.crewCoins && t.crewCoins[mints[k]].setSize == Degree(stored, k)
    && forall w :: (mints[k], w) in t.crewSet <==>
      exists c :: c in RowSet(stored, k) && c < |wallets| && wallets[c] == w
  }

  /** The matrix holds exactly the `crew_set` table of the ledger. */
  ghost predicate Mirrors(t: L.Tables, stored: Csr, mints: seq<L.Mint>, wallets: seq<L.Wallet>)
  {
    && Valid(stored) && Binary(stored) && stored.nRows == |mints| && stored.nCols == |wallets|
    && Injective(mints) && Injective(wallets) && DistinctRows(t.crewSet)
    && (forall k :: 0 <= k < |mints| ==> RowMirrors(t, stored, mints, wallets, k))
    && (forall r :: r in t.crewSet ==> r.0 in mints)
  }

  /** Query row `i` is the launch set restricted to the ledger's wallets. */
  ghost predicate QueryMirrors(query: Csr, i: nat, wallets: seq<L.Wallet>, launch: set<L.Wallet>)
    requires Valid(query) && i < query.nRows
  {
    && query.nCols == |wallets|
    && forall c :: 0 <= c < |wallets| ==> (c in RowSet(query, i) <==> wallets[c] in launch)
  }

  // ---------------------------------------------------------------- counting

  ghost function Hits(rows: seq<L.SetRow>, mint: L.Mint, launch: set<L.Wallet>): set<L.SetRow>
  {
    set r | r in rows && r.0 == mint && r.1 in launch
  }

  lemma {:induction false} CountIsCardinality(rows: seq<L.SetRow>, mint: L.Mint, launch: set<L.Wallet>)
    requires DistinctRows(rows)
    ensures L.CountRows(rows, mint, launch) == |Hits(rows, mint, launch)|
  {
    if rows == [] {
      assert Hits(rows, mint, launch) == {};
    } else {
      var n := |rows| - 1;
      var less := rows[..n];
      CountIsCardinality(less, mint, launch);
      assert rows == less + [rows[n]];
      assert rows[n] !in less;
      if rows[n].0 == mint && rows[n].1 in launch {
        assert Hits(rows, mint, launch) == Hits(less, mint, launch) + {rows[n]};
      } else {
        assert Hits(rows, mint, launch) == Hits(less, mint, launch);
      }
    }
  }

  ghost function Image(cols: set<nat>, mint: L.Mint, wallets: seq<L.Wallet>): set<L.SetRow>
    requires forall c :: c in cols ==> c < |wallets|
  {
    set c | c in cols :: (mint, wallets[c])
  }

  lemma {:induction false} ImageCardinality(cols: set<nat>, mint: L.Mint, wallets: seq<L.Wallet>)
    requires Injective(wallets) && forall c :: c in cols ==> c < |wallets|
    ensures |Image(cols, mint, wallets)| == |cols|
    decreases cols
  {
    if cols == {} {
      assert Image(cols, mint, wallets) == {};
    } else {
      var c :| c in cols;
      var less := cols - {c};
      ImageCardinality(less, mint, wallets);
      ImageInsert(cols, less, c, mint, wallets);
    }
  }

  lemma ImageInsert(cols: set<nat>, less: set<nat>, c: nat, mint: L.Mint, wallets: seq<L.Wallet>)
    requires Injective(wallets) && (forall k :: k in cols ==> k < |wallets|) && c in cols && less == cols - {c}
    ensures (mint, wallets[c]) !in Image(less, mint, wallets)
    ensures Image(cols, mint, wallets) == Image(less, mint, wallets) + {(mint, wallets[c])}
  {
    assert cols == less + {c};
  }

  lemma RowSetFits(m: Csr, i: nat)
    requires Valid(m) && i < m.nRows
    ensures forall c :: c in RowSet(m, i) ==> c < m.nCols
  {
    RowBounds(m, i);
  }

  lemma HitsAreImage(t: L.Tables, query: Csr, stored: Csr, mints: seq<L.Mint>, wallets: seq<L.Wallet>, i: nat,
                     launch: set<L.Wallet>, k: nat)
    requires Mirrors(t, stored, mints, wallets) && k < |mints|
    requires Valid(query) && i < query.nRows && QueryMirrors(query, i, wallets, launch)
    ensures forall c :: c in RowSet(query, i) * RowSet(stored, k) ==> c < |wallets|
    ensures Hits(t.crewSet, mints[k], launch) == Image(RowSet(query, i) * RowSet(stored, k), mints[k], wallets)
  {
    RowSetFits(stored, k);
    var both := RowSet(query, i) * RowSet(stored, k);
    var hits, image := Hits(t.crewSet, mints[k], launch), Image(both, mints[k], wallets);
    assert RowMirrors(t, stored, mints, wallets, k);
    forall r | r in hits
      ensures r in image
    {
      assert r == (mints[k], r.1);
      var c :| c in RowSet(stored, k) && c < |wallets| && wallets[c] == r.1;
      assert c in both;
    }
    forall r | r in image
      ensures r in hits
    {
      var c :| c in both && r == (mints[k], wallets[c]);
      assert (mints[k], wallets[c]) in t.crewSet;
    }
  }

  /** The two overlaps count the same wallets. */
  lemma OverlapsAgree(t: L.Tables, query: Csr, stored: Csr, mints: seq<L.Mint>, wallets: seq<L.Wallet>, i: nat,
                      launch: set<L.Wallet>, k: nat)
    requires Mirrors(t, stored, mints, wallets) && k < |mints|
    requires Valid(query) && i < query.nRows && QueryMirrors(query, i, wallets, launch)
    ensures Overlap(query, i, stored, k) == L.CountRows(t.crewSet, mints[k], launch)
  {
    HitsAreImage(t, query, stored, mints, wallets, i, launch, k);
    CountIsCardinality(t.crewSet, mints[k], launch);
    ImageCardinality(RowSet(query, i) * RowSet(stored, k), mints[k], wallets);
  }

  lemma {:induction false} CountedRowExists(rows: seq<L.SetRow>, mint: L.Mint, launch: set<L.Wallet>)
    requires L.CountRows(rows, mint, launch) >= 1
    ensures exists r :: r in rows && r.0 == mint && r.1 in launch
  {
    var n := |rows| - 1;
    if rows[n].0 == mint && rows[n].1 in launch {
      assert rows[n] in rows;
    } else {
      CountedRowExists(rows[..n], mint, launch);
      var r :| r in rows[..n] && r.0 == mint && r.1 in launch;
      assert r in rows;
    }
  }

  // ---------------------------------------------------------------- candidates and cells

  /** Cells and ledger candidates are the same facts under `mints`. */
  ghost predicate SameCandidates(t: L.Tables, cells: Cells, mints: seq<L.Mint>, launch: set<L.Wallet>, minOverlap: int)
  {
    && (forall k :: k in cells ==> CellMatches(t, cells, mints, launch, minOverlap, k))
    && (forall c :: L.IsCandidate(t, launch, minOverlap, c) ==> CandidateMatches(cells, mints, c))
  }

  ghost predicate CellMatches(t: L.Tables, cells: Cells, mints: seq<L.Mint>, launch: set<L.Wallet>, minOverlap: int,
                              k: nat)
    requires k in cells
  {
    && k < |mints| && mints[k] in t.crewCoins
    && var coin := t.crewCoins[mints[k]];
       var c := L.Candidate(mints[k], cells[k].overlap, coin.setSize, coin.crewId);
       L.IsCandidate(t, launch, minOverlap, c) && L.Jaccard(|launch|, c) == cells[k].jaccard
  }

  ghost predicate CandidateMatches(cells: Cells, mints: seq<L.Mint>, c: L.Candidate)
  {
    exists k :: k in cells && k < |mints| && mints[k] == c.mint
  }

  lemma SameRatio(size: nat, ov: nat, setSize: nat, mint: L.Mint, crewId: L.CrewId)
    requires 1 <= ov <= setSize
    ensures L.Jaccard(size, L.Candidate(mint, ov, setSize, crewId)) == Ratio(ov as real, size, setSize)
  {
    var union := size + setSize - ov;
    assert union as real == size as real + setSize as real - ov as real;
  }

  lemma CandidatesAgree(t: L.Tables, query: Csr, stored: Csr, mints: seq<L.Mint>, wallets: seq<L.Wallet>, i: nat,
                        launch: set<L.Wallet>, minOverlap: int)
    requires Mirrors(t, stored, mints, wallets)
    requires Valid(query) && Binary(query) && i < query.nRows && QueryMirrors(query, i, wallets, launch)
    ensures SameCandidates(t, CellsOf(query, stored, i, |launch|, Degs(stored), minOverlap), mints, launch, minOverlap)
  {
    var cells := CellsOf(query, stored, i, |launch|, Degs(stored), minOverlap);
    forall k | k in cells
      ensures CellMatches(t, cells, mints, launch, minOverlap, k)
    {
      assert RowMirrors(t, stored, mints, wallets, k);
      OverlapsAgree(t, query, stored, mints, wallets, i, launch, k);
      OverlapBounds(query, stored, i, k);
      var coin := t.crewCoins[mints[k]];
      SameRatio(|launch|, cells[k].overlap, coin.setSize, mints[k], coin.crewId);
    }
    forall c | L.IsCandidate(t, launch, minOverlap, c)
      ensures CandidateMatches(cells, mints, c)
    {
      CountedRowExists(t.crewSet, c.mint, launch);
      var r :| r in t.crewSet && r.0 == c.mint && r.1 in launch;
      assert c.mint in mints;
      var k :| 0 <= k < |mints| && mints[k] == c.mint;
      OverlapsAgree(t, query, stored, mints, wallets, i, launch, k);
      assert IsCand(query, stored, i, minOverlap, k);
    }
  }

  // ---------------------------------------------------------------- the theorem

  lemma CandidateOfMint(t: L.Tables, cells: Cells, mints: seq<L.Mint>, launch: set<L.Wallet>, minOverlap: int,
                        c: L.Candidate) returns (k: nat)
    requires SameCandidates(t, cells, mints, launch, minOverlap) && L.IsCandidate(t, launch, minOverlap, c)
    ensures k in cells && k < |mints| && mints[k] == c.mint && cells[k] == Cell(c.overlap, L.Jaccard(|launch|, c))
  {
    assert CandidateMatches(cells, mints, c);
    k :| k in cells && k < |mints| && mints[k] == c.mint;
    assert CellMatches(t, cells, mints, launch, minOverlap, k);
  }

  lemma CellCandidate(t: L.Tables, cells: Cells, mints: seq<L.Mint>, launch: set<L.Wallet>, minOverlap: int, k: nat)
    returns (c: L.Candidate)
    requires SameCandidates(t, cells, mints, launch, minOverlap) && k in cells
    ensures L.IsCandidate(t, launch, minOverlap, c) && k < |mints| && mints[k] == c.mint
    ensures cells[k] == Cell(c.overlap, L.Jaccard(|launch|, c))
  {
    assert CellMatches(t, cells, mints, launch, minOverlap, k);
    var coin := t.crewCoins[mints[k]];
    c := L.Candidate(mints[k], cells[k].overlap, coin.setSize, coin.crewId);
  }

  /** Untruncated algebra and `crew_match` agree on None, on the best Jaccard and on the
      overlap, and on the mint wherever only one stored coin achieves the best. */
  lemma AlgebraAgreesWithLedger(t: L.Tables, query: Csr, stored: Csr, mints: seq<L.Mint>, wallets: seq<L.Wallet>,
                                i: nat, launch: set<L.Wallet>, minOverlap: int, minJaccard: real,
                                a: L.Option<AlgebraMatch>, c: L.Option<L.CrewMatch>)
    requires L.References(t) && Mirrors(t, stored, mints, wallets)
    requires Valid(query) && Binary(query) && i < query.nRows && QueryMirrors(query, i, wallets, launch)
    requires IsAlgebraMatch(CellsOf(query, stored, i, |launch|, Degs(stored), minOverlap), |launch|, minOverlap,
                            minJaccard, a)
    requires L.IsCrewMatch(t, launch, minOverlap, minJaccard, c)
    ensures a.None? <==> c.None?
    ensures a.Some? ==> a.value.jaccard == c.value.jaccard && a.value.overlap == c.value.overlap
    ensures a.Some? && (forall k :: k in a.value.tiedIx ==> k == a.value.ix) ==>
      a.value.ix < |mints| && mints[a.value.ix] == c.value.mint
  {
    CandidatesAgree(t, query, stored, mints, wallets, i, launch, minOverlap);
    SameCandidatesSameMatch(t, CellsOf(query, stored, i, |launch|, Degs(stored), minOverlap), mints, launch, minOverlap,
                            minJaccard, a, c);
  }

  lemma SameCandidatesSameMatch(t: L.Tables, cells: Cells, mints: seq<L.Mint>, launch: set<L.Wallet>, minOverlap: int,
                                minJaccard: real, a: L.Option<AlgebraMatch>, c: L.Option<L.CrewMatch>)
    requires L.References(t) && SameCandidates(t, cells, mints, launch, minOverlap)
    requires IsAlgebraMatch(cells, |launch|, minOverlap, minJaccard, a)
    requires L.IsCrewMatch(t, launch, minOverlap, minJaccard, c)
    ensures a.None? <==> c.None?
    ensures a.Some? ==> a.value.jaccard == c.value.jaccard && a.value.overlap == c.value.overlap
    ensures a.Some? && (forall k :: k in a.value.tiedIx ==> k == a.value.ix) ==>
      a.value.ix < |mints| && mints[a.value.ix] == c.value.mint
  {
    if c.Some? {
      var m := c.value;
      var rep := L.Candidate(m.mint, m.overlap, m.setSize, m.crewId);
      assert L.Tied(t, launch, minOverlap, m.jaccard, rep);
      var k := CandidateOfMint(t, cells, mints, launch, minOverlap, rep);
      assert a.Some?;
      var back := CellCandidate(t, cells, mints, launch, minOverlap, a.value.ix);
      assert a.value.jaccard == m.jaccard;
      assert L.Tied(t, launch, minOverlap, m.jaccard, back);
      assert CellTied(cells, a.value.jaccard, k);
    } else if a.Some? {
      var back := CellCandidate(t, cells, mints, launch, minOverlap, a.value.ix);
      assert false;
    }
  }
}
