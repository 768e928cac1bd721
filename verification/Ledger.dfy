/** The screen's ledger tables and `crew_match` over them. Wallets, mints and crew ids are
    numbers that stand for their rank in the tables' own sort order. */
module Ledger {

  type Wallet = nat
  type Mint = nat
  type CrewId = nat

  datatype Option<T> = None | Some(value: T)

  datatype History = History(launches: nat, rips: nat, dumps: nat, grads: nat)

  datatype Crew = Crew(deployer: Wallet, nCoins: nat, rips: nat, dumps: nat, dirty: bool)

  datatype Coin = Coin(setSize: nat, crewId: CrewId)

  type SetRow = (Mint, Wallet)

  datatype Tables = Tables(
    history: map<Wallet, History>,
    sniperCounts: map<Wallet, nat>,
    crews: map<CrewId, Crew>,
    crewCoins: map<Mint, Coin>,
    crewSet: seq<SetRow>)

  /** `crew_coins.crew_id REFERENCES crews(crew_id)`. */
  ghost predicate References(t: Tables)
  {
    forall mint :: mint in t.crewCoins ==> t.crewCoins[mint].crewId in t.crews
  }

  function SniperCount(t: Tables, wallet: Wallet): nat
  {
    if wallet in t.sniperCounts then t.sniperCounts[wallet] else 0
  }

  // ---------------------------------------------------------------- candidates

  /** `count(*)` of the rows of one mint whose wallet is in the launch set. */
  function CountRows(rows: seq<SetRow>, mint: Mint, wallets: set<Wallet>): nat
  {
    if rows == [] then 0
    else
      var n := |rows| - 1;
      CountRows(rows[..n], mint, wallets) + if rows[n].0 == mint && rows[n].1 in wallets then 1 else 0
  }

  datatype Candidate = Candidate(mint: Mint, overlap: nat, setSize: nat, crewId: CrewId)

  /** A row of the candidate query: a group exists, and it passes HAVING. */
  predicate IsCandidate(t: Tables, wallets: set<Wallet>, minOverlap: int, c: Candidate)
  {
    && c.mint in t.crewCoins
    && c.overlap == CountRows(t.crewSet, c.mint, wallets)
    && c.overlap >= 1 && c.overlap >= minOverlap
    && c.setSize == t.crewCoins[c.mint].setSize && c.crewId == t.crewCoins[c.mint].crewId
  }

  /** The engine's answer, in whatever order it comes. */
  ghost predicate IsFetch(t: Tables, wallets: set<Wallet>, minOverlap: int, rows: seq<Candidate>)
  {
    forall c :: c in rows <==> IsCandidate(t, wallets, minOverlap, c)
  }

  function Jaccard(size: nat, c: Candidate): real
  {
    var union := size + c.setSize - c.overlap;
    if union != 0 then c.overlap as real / union as real else 0.0
  }

  /** `(not dirty, -(rips + dumps), -n_coins, crew_id, mint)`. */
  function Key(t: Tables, c: Candidate): (int, int, int, int, int)
    requires c.crewId in t.crews
  {
    var crew := t.crews[c.crewId];
    (if crew.dirty then 0 else 1, 0 - (crew.rips + crew.dumps), 0 - crew.nCoins, c.crewId, c.mint)
  }

  predicate KeyLess(a: (int, int, int, int, int), b: (int, int, int, int, int))
  {
    || a.0 < b.0
    || (a.0 == b.0 && (|| a.1 < b.1
                       || (a.1 == b.1 && (|| a.2 < b.2
                                          || (a.2 == b.2 && (|| a.3 < b.3
                                                             || (a.3 == b.3 && a.4 < b.4)))))))
  }

  /** Candidate `d` is of worse recorded conduct than `c`: a dirty crew before a clean one, then
      more rips and dumps, then more coins; among equals the lower crew id, then the lower mint. */
  ghost predicate Worse(t: Tables, d: Candidate, c: Candidate)
    requires d.crewId in t.crews && c.crewId in t.crews
  {
    var x, y := t.crews[d.crewId], t.crews[c.crewId];
    if x.dirty != y.dirty then x.dirty
    else if x.rips + x.dumps != y.rips + y.dumps then x.rips + x.dumps > y.rips + y.dumps
    else if x.nCoins != y.nCoins then x.nCoins > y.nCoins
    else if d.crewId != c.crewId then d.crewId < c.crewId
    else d.mint < c.mint
  }

  /** The representative's key puts the worst conduct first. */
  lemma KeyIsConduct(t: Tables, d: Candidate, c: Candidate)
    requires d.crewId in t.crews && c.crewId in t.crews
    ensures KeyLess(Key(t, d), Key(t, c)) <==> Worse(t, d, c)
  {
  }

  // ---------------------------------------------------------------- the specification

  datatype CrewMatch = CrewMatch(
    crewId: CrewId, mint: Mint, jaccard: real, overlap: nat, launchSize: nat, setSize: nat,
    crew: Crew, tiedCrewIds: seq<CrewId>, nTiedDirty: nat)

  ghost predicate Ascending(ids: seq<nat>)
  {
    forall s, t :: 0 <= s < t < |ids| ==> ids[s] < ids[t]
  }

  ghost predicate Tied(t: Tables, wallets: set<Wallet>, minOverlap: int, j: real, c: Candidate)
  {
    IsCandidate(t, wallets, minOverlap, c) && Jaccard(|wallets|, c) == j
  }

  /** The crews of the coins that achieve `j`. */
  ghost predicate TiedCrew(t: Tables, wallets: set<Wallet>, minOverlap: int, j: real, id: CrewId)
  {
    exists c :: Tied(t, wallets, minOverlap, j, c) && c.crewId == id
  }

  /** No tied coin has more overlap, and among those of equal overlap none is of worse conduct. */
  ghost predicate Represents(t: Tables, wallets: set<Wallet>, minOverlap: int, j: real, c: Candidate)
    requires References(t)
  {
    && Tied(t, wallets, minOverlap, j, c)
    && forall d :: Tied(t, wallets, minOverlap, j, d) ==>
         d.overlap <= c.overlap && (d.overlap == c.overlap ==> !Worse(t, d, c))
  }

  function DirtyCount(crews: map<CrewId, Crew>, ids: seq<CrewId>): nat
  {
    if ids == [] then 0
    else
      var n := |ids| - 1;
      DirtyCount(crews, ids[..n]) + if ids[n] in crews && crews[ids[n]].dirty then 1 else 0
  }

  ghost function DirtyOnes(crews: map<CrewId, Crew>, ids: seq<CrewId>): set<CrewId>
  {
    set id | id in ids && id in crews && crews[id].dirty
  }

  /** The best match as a fact about the tables: the largest Jaccard at or above the floor,
      every crew that ties for it, and the representative coin of the tie. */
  ghost predicate IsBestMatch(t: Tables, wallets: set<Wallet>, minOverlap: int, minJaccard: real, m: CrewMatch)
    requires References(t)
  {
    && |wallets| >= minOverlap
    && m.jaccard >= minJaccard
    && (forall c :: IsCandidate(t, wallets, minOverlap, c) ==> Jaccard(|wallets|, c) <= m.jaccard)
    && Represents(t, wallets, minOverlap, m.jaccard, Candidate(m.mint, m.overlap, m.setSize, m.crewId))
    && m.launchSize == |wallets|
    && m.crew == t.crews[m.crewId]
    && Ascending(m.tiedCrewIds)
    && (forall id :: id in m.tiedCrewIds <==> TiedCrew(t, wallets, minOverlap, m.jaccard, id))
    && m.nTiedDirty == |DirtyOnes(t.crews, m.tiedCrewIds)|
  }

  ghost predicate NoMatch(t: Tables, wallets: set<Wallet>, minOverlap: int, minJaccard: real)
  {
    |wallets| < minOverlap || forall c :: IsCandidate(t, wallets, minOverlap, c) ==> Jaccard(|wallets|, c) < minJaccard
  }

  ghost predicate IsCrewMatch(t: Tables, wallets: set<Wallet>, minOverlap: int, minJaccard: real, r: Option<CrewMatch>)
    requires References(t)
  {
    match r
    case None => NoMatch(t, wallets, minOverlap, minJaccard)
    case Some(m) => IsBestMatch(t, wallets, minOverlap, minJaccard, m)
  }

  // ---------------------------------------------------------------- it determines the answer

  lemma {:induction false} AscendingUnique(a: seq<nat>, b: seq<nat>)
    requires Ascending(a) && Ascending(b) && forall x :: x in a <==> x in b
    ensures a == b
    decreases |a|
  {
    assert |b| > 0 ==> b[0] in a;
    assert |a| > 0 ==> a[0] in b;
    if a != [] {
      var a', b' := a[..|a| - 1], b[..|b| - 1];
      SameLast(a, b, a', b');
      AscendingUnique(a', b');
      assert a == a' + [a[|a| - 1]] && b == b' + [b[|b| - 1]];
    }
  }

  lemma SameLast(a: seq<nat>, b: seq<nat>, a': seq<nat>, b': seq<nat>)
    requires Ascending(a) && Ascending(b) && (forall x :: x in a <==> x in b) && a != [] && b != []
    requires a' == a[..|a| - 1] && b' == b[..|b| - 1]
    ensures a[|a| - 1] == b[|b| - 1]
    ensures forall z :: z in a' <==> z in b'
  {
    var x, y := a[|a| - 1], b[|b| - 1];
    assert x in b && y in a;
    assert a == a' + [x] && b == b' + [y];
    forall z ensures z in a' <==> z in b' {
      assert z in a <==> z in b;
    }
  }

  /** The tables and the launch set determine the match: row order, repeated launch wallets
      and the chunking of the crew lookup cannot show. */
  lemma CrewMatchIsFunction(t: Tables, wallets: set<Wallet>, minOverlap: int, minJaccard: real, r: Option<CrewMatch>,
                            s: Option<CrewMatch>)
    requires References(t)
    requires IsCrewMatch(t, wallets, minOverlap, minJaccard, r) && IsCrewMatch(t, wallets, minOverlap, minJaccard, s)
    ensures r == s
  {
    if r.Some? && s.Some? {
      var m, k := r.value, s.value;
      var c, d := Candidate(m.mint, m.overlap, m.setSize, m.crewId), Candidate(k.mint, k.overlap, k.setSize, k.crewId);
      assert Tied(t, wallets, minOverlap, m.jaccard, c) && Tied(t, wallets, minOverlap, k.jaccard, d);
      assert m.jaccard == k.jaccard;
      assert c.overlap == d.overlap;
      assert !Worse(t, c, d) && !Worse(t, d, c);
      assert c == d;
      AscendingUnique(m.tiedCrewIds, k.tiedCrewIds);
    } else if r.Some? {
      NoMatchExcludes(t, wallets, minOverlap, minJaccard, r.value);
    } else if s.Some? {
      NoMatchExcludes(t, wallets, minOverlap, minJaccard, s.value);
    }
  }

  lemma NoMatchExcludes(t: Tables, wallets: set<Wallet>, minOverlap: int, minJaccard: real, m: CrewMatch)
    requires References(t) && IsBestMatch(t, wallets, minOverlap, minJaccard, m)
    ensures !NoMatch(t, wallets, minOverlap, minJaccard)
  {
    assert Tied(t, wallets, minOverlap, m.jaccard, Candidate(m.mint, m.overlap, m.setSize, m.crewId));
  }

  // ---------------------------------------------------------------- the method

  method BestJaccard(rows: seq<Candidate>, size: nat, minJaccard: real) returns (best: Option<real>)
    ensures best.None? ==> forall c :: c in rows ==> Jaccard(size, c) < minJaccard
    ensures best.Some? ==> best.value >= minJaccard
    ensures best.Some? ==> forall c :: c in rows ==> Jaccard(size, c) <= best.value
    ensures best.Some? ==> exists c :: c in rows && Jaccard(size, c) == best.value
  {
    best := None;
    for n := 0 to |rows|
      invariant best.None? ==> forall k :: 0 <= k < n ==> Jaccard(size, rows[k]) < minJaccard
      invariant best.Some? ==> best.value >= minJaccard
      invariant best.Some? ==> forall k :: 0 <= k < n ==> Jaccard(size, rows[k]) <= best.value
      invariant best.Some? ==> exists k :: 0 <= k < n && Jaccard(size, rows[k]) == best.value
    {
      var j := Jaccard(size, rows[n]);
      if j >= minJaccard && (best.None? || j > best.value) {
        best := Some(j);
      }
    }
  }

  /** `[row for row in rows if _j(row) == best_j]`. */
  method TiedRows(rows: seq<Candidate>, size: nat, j: real) returns (tied: seq<Candidate>)
    ensures forall c :: c in tied <==> c in rows && Jaccard(size, c) == j
  {
    tied := [];
    for n := 0 to |rows|
      invariant forall c :: c in tied <==> c in rows[..n] && Jaccard(size, c) == j
    {
      assert rows[..n + 1] == rows[..n] + [rows[n]];
      if Jaccard(size, rows[n]) == j {
        tied := tied + [rows[n]];
      }
    }
    assert rows[..|rows|] == rows;
  }

  /** `sorted({crew_id for ... in tied})`. */
  method SortedIds(tied: seq<Candidate>) returns (ids: seq<CrewId>)
    ensures Ascending(ids)
    ensures forall id :: id in ids <==> exists c :: c in tied && c.crewId == id
  {
    ids := [];
    for n := 0 to |tied|
      invariant Ascending(ids)
      invariant forall id :: id in ids <==> exists k :: 0 <= k < n && tied[k].crewId == id
    {
      ids := Insert(ids, tied[n].crewId);
    }
    forall id
      ensures id in ids <==> exists c :: c in tied && c.crewId == id
    {
      if id in ids {
        var k :| 0 <= k < |tied| && tied[k].crewId == id;
        assert tied[k] in tied;
      }
      if c :| c in tied && c.crewId == id {
        var k :| 0 <= k < |tied| && tied[k] == c;
      }
    }
  }

  method Insert(ids: seq<CrewId>, id: CrewId) returns (r: seq<CrewId>)
    requires Ascending(ids)
    ensures Ascending(r)
    ensures forall x :: x in r <==> x in ids || x == id
  {
    var at := 0;
    while at < |ids| && ids[at] < id
      invariant at <= |ids| && forall s :: 0 <= s < at ==> ids[s] < id
    {
      at := at + 1;
    }
    if at < |ids| && ids[at] == id {
      return ids;
    }
    r := ids[..at] + [id] + ids[at..];
    assert ids == ids[..at] + ids[at..];
    assert r[at] == id;
  }

  /** The `SELECT ... WHERE crew_id IN (...)`, `chunk` ids at a time. */
  method LoadRecords(crews: map<CrewId, Crew>, ids: seq<CrewId>, chunk: nat) returns (records: map<CrewId, Crew>)
    requires chunk >= 1
    requires forall id :: id in ids ==> id in crews
    ensures forall id :: id in records <==> id in ids
    ensures forall id :: id in records ==> records[id] == crews[id]
  {
    records := map[];
    var lo := 0;
    while lo < |ids|
      invariant 0 <= lo <= |ids|
      invariant forall id :: id in records <==> id in ids[..lo]
      invariant forall id :: id in records ==> id in crews && records[id] == crews[id]
    {
      var hi := if lo + chunk < |ids| then lo + chunk else |ids|;
      var part := ids[lo..hi];
      assert ids[..hi] == ids[..lo] + part;
      records := records + map id | id in part :: crews[id];
      lo := hi;
    }
    assert ids[..lo] == ids;
  }

  /** The largest overlap among the tied, then the smallest key at that overlap. */
  method Representative(t: Tables, tied: seq<Candidate>, records: map<CrewId, Crew>) returns (best: Candidate)
    requires |tied| > 0
    requires forall c :: c in tied ==>
      c.crewId in t.crews && c.crewId in records && records[c.crewId] == t.crews[c.crewId]
    ensures best in tied
    ensures forall c :: c in tied ==>
      c.overlap <= best.overlap && (c.overlap == best.overlap ==> !Worse(t, c, best))
  {
    var maxOverlap := tied[0].overlap;
    for n := 1 to |tied|
      invariant forall k :: 0 <= k < n ==> tied[k].overlap <= maxOverlap
      invariant exists k :: 0 <= k < n && tied[k].overlap == maxOverlap
    {
      if tied[n].overlap > maxOverlap {
        maxOverlap := tied[n].overlap;
      }
    }
    var found := false;
    best := tied[0];
    for n := 0 to |tied|
      invariant !found ==> forall k :: 0 <= k < n ==> tied[k].overlap != maxOverlap
      invariant best in tied && (found ==> best.overlap == maxOverlap)
      invariant found ==> forall k :: 0 <= k < n && tied[k].overlap == maxOverlap ==>
        !Worse(t, tied[k], best)
    {
      var c := tied[n];
      KeyIsConduct(t, c, best);
      if c.overlap == maxOverlap && (!found || KeyLess(Key(t, c), Key(t, best))) {
        best, found := c, true;
      }
    }
  }

  /** `sorted(set(launch_set))`, as the set it is. */
  function Distinct(launch: seq<Wallet>): set<Wallet>
  {
    set w | w in launch
  }

  /** `crew_match`, with the engine's rows and the lookup's chunk size as inputs. */
  method Match(t: Tables, launch: seq<Wallet>, minOverlap: int, minJaccard: real, rows: seq<Candidate>, chunk: nat)
    returns (r: Option<CrewMatch>)
    requires References(t) && chunk >= 1
    requires IsFetch(t, Distinct(launch), minOverlap, rows)
    ensures IsCrewMatch(t, Distinct(launch), minOverlap, minJaccard, r)
  {
    var wallets := Distinct(launch);
    if |wallets| < minOverlap {
      return None;
    }
    var bestJ := BestJaccard(rows, |wallets|, minJaccard);
    if bestJ.None? {
      return None;
    }
    var tied := TiedRows(rows, |wallets|, bestJ.value);
    var ids := SortedIds(tied);
    assert forall c :: c in tied <==> Tied(t, wallets, minOverlap, bestJ.value, c);
    var records := LoadRecords(t.crews, ids, chunk);
    forall c | c in tied
      ensures c.crewId in t.crews && c.crewId in records && records[c.crewId] == t.crews[c.crewId]
    {
      assert IsCandidate(t, wallets, minOverlap, c);
      assert c.crewId in ids;
    }
    var c := Representative(t, tied, records);
    CountsDirty(t.crews, records, ids);
    r := Some(CrewMatch(c.crewId, c.mint, bestJ.value, c.overlap, |wallets|, c.setSize, records[c.crewId],
                        ids, DirtyCount(records, ids)));
    assert Candidate(c.mint, c.overlap, c.setSize, c.crewId) == c;
  }

  lemma DirtySnoc(crews: map<CrewId, Crew>, ids: seq<CrewId>, id: CrewId)
    requires id !in ids && id in crews
    ensures |DirtyOnes(crews, ids + [id])| == |DirtyOnes(crews, ids)| + if crews[id].dirty then 1 else 0
  {
    if crews[id].dirty {
      assert DirtyOnes(crews, ids + [id]) == DirtyOnes(crews, ids) + {id};
    } else {
      assert DirtyOnes(crews, ids + [id]) == DirtyOnes(crews, ids);
    }
  }

  /** Over ascending ids the count of dirty records is the number of dirty crews. */
  lemma {:induction false} CountsDirty(crews: map<CrewId, Crew>, records: map<CrewId, Crew>, ids: seq<CrewId>)
    requires Ascending(ids)
    requires forall id :: id in ids ==> id in crews && id in records && records[id] == crews[id]
    ensures DirtyCount(records, ids) == |DirtyOnes(crews, ids)|
  {
    if ids == [] {
      assert DirtyOnes(crews, ids) == {};
    } else {
      var n := |ids| - 1;
      CountsDirty(crews, records, ids[..n]);
      DirtySnoc(crews, ids[..n], ids[n]);
      assert ids == ids[..n] + [ids[n]] && ids[n] in ids;
    }
  }
}
