/** The relational content of the ledger build: event counts per deployer, appearances per
    sniper wallet, and the ex-deployer sniper sets of repeat deployers. */
module LedgerBuild {
  import opened Ledger

  datatype PanelRow = PanelRow(
    mint: Mint, deployer: Option<Wallet>, birthTime: int, isRip: bool, tDump: Option<int>,
    graduated: bool, tLast: Option<int>)

  datatype SniperRow = SniperRow(mint: Mint, owner: Wallet, birthTime: int)

  const CREW_MIN_COINS := 2

  /** Strictly before the cutoff; no cutoff is an infinite horizon. */
  predicate Before(t: int, cutoff: Option<int>)
  {
    cutoff.None? || t < cutoff.value
  }

  predicate IsLaunch(p: PanelRow, cutoff: Option<int>)
  {
    p.deployer.Some? && Before(p.birthTime, cutoff)
  }

  predicate IsDump(p: PanelRow, cutoff: Option<int>)
  {
    p.deployer.Some? && p.tDump.Some? && Before(p.tDump.value, cutoff)
  }

  predicate IsGrad(p: PanelRow, cutoff: Option<int>)
  {
    p.deployer.Some? && p.graduated && p.tLast.Some? && Before(p.tLast.value, cutoff)
  }

  function One(b: bool): nat { if b then 1 else 0 }

  /** `groupby("deployer").agg(sum)`: each event counts at its own clock. */
  function HistoryOf(panel: seq<PanelRow>, cutoff: Option<int>, deployer: Wallet): History
  {
    if panel == [] then History(0, 0, 0, 0)
    else
      var n := |panel| - 1;
      var h, p := HistoryOf(panel[..n], cutoff, deployer), panel[n];
      if p.deployer != Some(deployer) then h
      else History(h.launches + One(IsLaunch(p, cutoff)), h.rips + One(p.isRip && IsDump(p, cutoff)),
                   h.dumps + One(IsDump(p, cutoff)), h.grads + One(IsGrad(p, cutoff)))
  }

  function Deployers(panel: seq<PanelRow>): set<Wallet>
  {
    set p | p in panel && p.deployer.Some? :: p.deployer.value
  }

  predicate RepeatDeployer(panel: seq<PanelRow>, cutoff: Option<int>, deployer: Wallet)
  {
    HistoryOf(panel, cutoff, deployer).launches >= CREW_MIN_COINS
  }

  function CountOwner(snipers: seq<SniperRow>, cutoff: Option<int>, owner: Wallet): nat
  {
    if snipers == [] then 0
    else
      var n := |snipers| - 1;
      CountOwner(snipers[..n], cutoff, owner) + One(snipers[n].owner == owner && Before(snipers[n].birthTime, cutoff))
  }

  /** Launches of repeat deployers, as mint -> deployer. */
  function CrewMints(panel: seq<PanelRow>, cutoff: Option<int>, n: nat): map<Mint, Wallet>
    requires n <= |panel|
  {
    if n == 0 then map[]
    else
      var p := panel[n - 1];
      var less := CrewMints(panel, cutoff, n - 1);
      if IsLaunch(p, cutoff) && RepeatDeployer(panel, cutoff, p.deployer.value)
      then less[p.mint := p.deployer.value] else less
  }

  /** Sniper rows of those mints, without the mint's own deployer. */
  function SetRows(snipers: seq<SniperRow>, cutoff: Option<int>, crewMints: map<Mint, Wallet>): seq<SetRow>
  {
    if snipers == [] then []
    else
      var n := |snipers| - 1;
      var s, less := snipers[n], SetRows(snipers[..n], cutoff, crewMints);
      if Before(s.birthTime, cutoff) && s.mint in crewMints && s.owner != crewMints[s.mint]
      then less + [(s.mint, s.owner)] else less
  }

  function CountMint(rows: seq<SetRow>, mint: Mint): nat
  {
    if rows == [] then 0 else CountMint(rows[..|rows| - 1], mint) + One(rows[|rows| - 1].0 == mint)
  }

  function StoredMints(rows: seq<SetRow>): set<Mint>
  {
    set r | r in rows :: r.0
  }

  /** Crews are numbered from 1 in deployer order. */
  function CrewIdOf(deployers: set<Wallet>, deployer: Wallet): CrewId
  {
    |set d | d in deployers && d < deployer| + 1
  }

  lemma CrewIdsDistinct(deployers: set<Wallet>)
    ensures forall d, e :: d in deployers && e in deployers && d != e ==>
      CrewIdOf(deployers, d) != CrewIdOf(deployers, e)
  {
    forall d, e | d in deployers && e in deployers && d < e
      ensures CrewIdOf(deployers, d) < CrewIdOf(deployers, e)
    {
      var below, upto := set x | x in deployers && x < d, set x | x in deployers && x < e;
      assert upto == below + (upto - below);
      assert |upto| == |below| + |upto - below|;
      assert d in upto - below;
    }
  }

  function CrewOf(panel: seq<PanelRow>, cutoff: Option<int>, deployer: Wallet): Crew
  {
    var h := HistoryOf(panel, cutoff, deployer);
    Crew(deployer, h.launches, h.rips, h.dumps, h.rips + h.dumps > 0)
  }

  function CrewDeployers(crewMints: map<Mint, Wallet>, rows: seq<SetRow>): set<Wallet>
  {
    set mint | mint in StoredMints(rows) && mint in crewMints :: crewMints[mint]
  }

  /** Owners seen before the horizon. */
  function Owners(snipers: seq<SniperRow>, cutoff: Option<int>): set<Wallet>
  {
    set s | s in snipers && Before(s.birthTime, cutoff) :: s.owner
  }

  function Build(panel: seq<PanelRow>, snipers: seq<SniperRow>, cutoff: Option<int>): Tables
  {
    var crewMints := CrewMints(panel, cutoff, |panel|);
    var rows := SetRows(snipers, cutoff, crewMints);
    var deployers := CrewDeployers(crewMints, rows);
    CrewIdsDistinct(deployers);
    Tables(
      map d | d in Deployers(panel) && HistoryOf(panel, cutoff, d).launches > 0 :: HistoryOf(panel, cutoff, d),
      map w | w in Owners(snipers, cutoff) :: CountOwner(snipers, cutoff, w),
      map d | d in deployers :: CrewIdOf(deployers, d) := CrewOf(panel, cutoff, d),
      map mint | mint in StoredMints(rows) && mint in crewMints ::
        Coin(CountMint(rows, mint), CrewIdOf(deployers, crewMints[mint])),
      rows)
  }

  // ---------------------------------------------------------------- what the build guarantees

  lemma {:induction false} SetRowOrigin(snipers: seq<SniperRow>, cutoff: Option<int>, crewMints: map<Mint, Wallet>,
                                        r: SetRow)
    requires r in SetRows(snipers, cutoff, crewMints)
    ensures r.0 in crewMints && r.1 != crewMints[r.0]
    ensures CountOwner(snipers, cutoff, r.1) >= 1
    ensures exists s :: s in snipers && Before(s.birthTime, cutoff) && s.mint == r.0 && s.owner == r.1
  {
    var n := |snipers| - 1;
    var less := SetRows(snipers[..n], cutoff, crewMints);
    assert snipers == snipers[..n] + [snipers[n]];
    if r in less {
      SetRowOrigin(snipers[..n], cutoff, crewMints, r);
      var s :| s in snipers[..n] && Before(s.birthTime, cutoff) && s.mint == r.0 && s.owner == r.1;
      assert s in snipers;
    } else {
      assert snipers[n] in snipers;
    }
  }

  lemma {:induction false} CrewMintsAreRepeat(panel: seq<PanelRow>, cutoff: Option<int>, n: nat, mint: Mint)
    requires n <= |panel| && mint in CrewMints(panel, cutoff, n)
    ensures RepeatDeployer(panel, cutoff, CrewMints(panel, cutoff, n)[mint])
  {
    var p := panel[n - 1];
    if !(IsLaunch(p, cutoff) && RepeatDeployer(panel, cutoff, p.deployer.value) && p.mint == mint) {
      CrewMintsAreRepeat(panel, cutoff, n - 1, mint);
    }
  }

  /** Every stored crew wallet has a positive appearance count. */
  lemma CrewWalletsAreSnipers(panel: seq<PanelRow>, snipers: seq<SniperRow>, cutoff: Option<int>, r: SetRow)
    requires r in Build(panel, snipers, cutoff).crewSet
    ensures SniperCount(Build(panel, snipers, cutoff), r.1) >= 1
  {
    SetRowOrigin(snipers, cutoff, CrewMints(panel, cutoff, |panel|), r);
  }

  /** The tables reference each other soundly; every stored set is non-empty, excludes its own
      deployer and belongs to a deployer with at least two launches, whose record decides `dirty`. */
  lemma BuildIsConsistent(panel: seq<PanelRow>, snipers: seq<SniperRow>, cutoff: Option<int>)
    ensures References(Build(panel, snipers, cutoff))
    ensures forall r :: r in Build(panel, snipers, cutoff).crewSet ==> r.0 in Build(panel, snipers, cutoff).crewCoins
    ensures forall mint :: mint in Build(panel, snipers, cutoff).crewCoins ==>
      CoinSound(panel, cutoff, Build(panel, snipers, cutoff), mint)
  {
    var crewMints := CrewMints(panel, cutoff, |panel|);
    var t := Build(panel, snipers, cutoff);
    var deployers := CrewDeployers(crewMints, t.crewSet);
    CrewIdsDistinct(deployers);
    forall r | r in t.crewSet
      ensures r.0 in t.crewCoins
    {
      SetRowOrigin(snipers, cutoff, crewMints, r);
    }
    forall mint | mint in t.crewCoins
      ensures t.crewCoins[mint].crewId in t.crews
      ensures CoinSound(panel, cutoff, t, mint)
    {
      var d := crewMints[mint];
      assert d in deployers;
      assert CrewIdOf(deployers, d) in t.crews && t.crews[CrewIdOf(deployers, d)] == CrewOf(panel, cutoff, d);
      CrewMintsAreRepeat(panel, cutoff, |panel|, mint);
      var r :| r in t.crewSet && r.0 == mint;
      CountMintPositive(t.crewSet, r);
      forall r | r in t.crewSet && r.0 == mint
        ensures r.1 != d
      {
        SetRowOrigin(snipers, cutoff, crewMints, r);
      }
    }
  }

  ghost predicate CoinSound(panel: seq<PanelRow>, cutoff: Option<int>, t: Tables, mint: Mint)
    requires mint in t.crewCoins
  {
    && t.crewCoins[mint].crewId in t.crews
    && var crew := t.crews[t.crewCoins[mint].crewId];
       && t.crewCoins[mint].setSize == CountMint(t.crewSet, mint) >= 1
       && crew == CrewOf(panel, cutoff, crew.deployer) && RepeatDeployer(panel, cutoff, crew.deployer)
       && forall r :: r in t.crewSet && r.0 == mint ==> r.1 != crew.deployer
  }

  lemma {:induction false} CountMintPositive(rows: seq<SetRow>, r: SetRow)
    requires r in rows
    ensures CountMint(rows, r.0) >= 1
  {
    var n := |rows| - 1;
    if rows[n] != r {
      assert r in rows[..n];
      CountMintPositive(rows[..n], r);
    }
  }

  // ---------------------------------------------------------------- what the tables count

  datatype Kind = Launches | Rips | Dumps | Grads

  predicate Earlier(t: Option<int>, cutoff: Option<int>)
  {
    t.Some? && (cutoff.Some? ==> t.value < cutoff.value)
  }

  /** The panel row carries such an event, at that event's own clock, before the cutoff. */
  predicate HasEvent(p: PanelRow, cutoff: Option<int>, kind: Kind)
  {
    match kind
    case Launches => Earlier(Some(p.birthTime), cutoff)
    case Rips => p.isRip && Earlier(p.tDump, cutoff)
    case Dumps => Earlier(p.tDump, cutoff)
    case Grads => p.graduated && Earlier(p.tLast, cutoff)
  }

  predicate EventAt(panel: seq<PanelRow>, cutoff: Option<int>, deployer: Wallet, kind: Kind, i: int)
  {
    0 <= i < |panel| && panel[i].deployer == Some(deployer) && HasEvent(panel[i], cutoff, kind)
  }

  /** One more candidate index, in the set or not. */
  lemma OneMore<T>(less: set<T>, all: set<T>, n: T, hit: bool)
    requires n !in less
    requires forall i :: i in all <==> (i in less || (hit && i == n))
    ensures |all| == |less| + One(hit)
  {
    if hit {
      assert all == less + {n};
    } else {
      assert all == less;
    }
  }

  ghost function EventRows(panel: seq<PanelRow>, cutoff: Option<int>, deployer: Wallet, kind: Kind): set<int>
  {
    set i | 0 <= i < |panel| && EventAt(panel, cutoff, deployer, kind, i)
  }

  function Counted(h: History, kind: Kind): nat
  {
    match kind
    case Launches => h.launches
    case Rips => h.rips
    case Dumps => h.dumps
    case Grads => h.grads
  }

  lemma HistoryStep(panel: seq<PanelRow>, cutoff: Option<int>, deployer: Wallet, kind: Kind)
    requires panel != []
    ensures var n := |panel| - 1;
      Counted(HistoryOf(panel, cutoff, deployer), kind) == Counted(HistoryOf(panel[..n], cutoff, deployer), kind) +
      One(panel[n].deployer == Some(deployer) && HasEvent(panel[n], cutoff, kind))
  {
  }

  lemma EventRowsSnoc(panel: seq<PanelRow>, cutoff: Option<int>, deployer: Wallet, kind: Kind)
    requires panel != []
    ensures var n := |panel| - 1;
      |EventRows(panel, cutoff, deployer, kind)| == |EventRows(panel[..n], cutoff, deployer, kind)| +
      One(panel[n].deployer == Some(deployer) && HasEvent(panel[n], cutoff, kind))
  {
    var n := |panel| - 1;
    forall i
      ensures EventAt(panel, cutoff, deployer, kind, i) <==>
        EventAt(panel[..n], cutoff, deployer, kind, i) || (EventAt(panel, cutoff, deployer, kind, n) && i == n)
    {
    }
    OneMore(EventRows(panel[..n], cutoff, deployer, kind), EventRows(panel, cutoff, deployer, kind), n,
            EventAt(panel, cutoff, deployer, kind, n));
  }

  /** A deployer's history counts the panel rows of that deployer with such an event. */
  lemma {:induction false} HistoryCounts(panel: seq<PanelRow>, cutoff: Option<int>, deployer: Wallet, kind: Kind)
    ensures Counted(HistoryOf(panel, cutoff, deployer), kind) == |EventRows(panel, cutoff, deployer, kind)|
  {
    if panel == [] {
      assert EventRows(panel, cutoff, deployer, kind) == {};
    } else {
      var n := |panel| - 1;
      HistoryCounts(panel[..n], cutoff, deployer, kind);
      HistoryStep(panel, cutoff, deployer, kind);
      EventRowsSnoc(panel, cutoff, deployer, kind);
    }
  }

  ghost function Appearances(snipers: seq<SniperRow>, cutoff: Option<int>, owner: Wallet): set<int>
  {
    set i | 0 <= i < |snipers| && snipers[i].owner == owner && Earlier(Some(snipers[i].birthTime), cutoff)
  }

  lemma {:induction false} OwnerCounts(snipers: seq<SniperRow>, cutoff: Option<int>, owner: Wallet)
    ensures CountOwner(snipers, cutoff, owner) == |Appearances(snipers, cutoff, owner)|
  {
    if snipers == [] {
      assert Appearances(snipers, cutoff, owner) == {};
    } else {
      var n := |snipers| - 1;
      OwnerCounts(snipers[..n], cutoff, owner);
      var less, all := Appearances(snipers[..n], cutoff, owner), Appearances(snipers, cutoff, owner);
      if snipers[n].owner == owner && Earlier(Some(snipers[n].birthTime), cutoff) {
        assert all == less + {n};
      } else {
        assert all == less;
      }
    }
  }

  /** The two count tables: who is in them, and that every number is a number of rows. */
  lemma CountTables(panel: seq<PanelRow>, snipers: seq<SniperRow>, cutoff: Option<int>, w: Wallet)
    ensures var t := Build(panel, snipers, cutoff);
      && (w in t.history <==> EventRows(panel, cutoff, w, Launches) != {})
      && (forall kind :: w in t.history ==> Counted(t.history[w], kind) == |EventRows(panel, cutoff, w, kind)|)
      && (w in t.sniperCounts <==> Appearances(snipers, cutoff, w) != {})
      && (w in t.sniperCounts ==> t.sniperCounts[w] == |Appearances(snipers, cutoff, w)|)
  {
    forall kind
      ensures Counted(HistoryOf(panel, cutoff, w), kind) == |EventRows(panel, cutoff, w, kind)|
    {
      HistoryCounts(panel, cutoff, w, kind);
    }
    OwnerCounts(snipers, cutoff, w);
    assert HistoryOf(panel, cutoff, w).launches == Counted(HistoryOf(panel, cutoff, w), Launches);
    if EventRows(panel, cutoff, w, Launches) != {} {
      var i :| i in EventRows(panel, cutoff, w, Launches);
      assert panel[i] in panel && w in Deployers(panel);
    }
    if w in Owners(snipers, cutoff) {
      var s :| s in snipers && Before(s.birthTime, cutoff) && s.owner == w;
      var i :| 0 <= i < |snipers| && snipers[i] == s;
      assert i in Appearances(snipers, cutoff, w);
    }
    if i :| i in Appearances(snipers, cutoff, w) {
      assert snipers[i] in snipers;
    }
  }

  /** Panel row `i` is a launch before the cutoff by a deployer with at least two of them. */
  ghost predicate CrewLaunch(panel: seq<PanelRow>, cutoff: Option<int>, i: nat)
  {
    && i < |panel| && panel[i].deployer.Some? && HasEvent(panel[i], cutoff, Launches)
    && |EventRows(panel, cutoff, panel[i].deployer.value, Launches)| >= 2
  }

  ghost predicate CrewLaunchOf(panel: seq<PanelRow>, cutoff: Option<int>, n: nat, mint: Mint, deployer: Wallet, i: nat)
  {
    && i < n && CrewLaunch(panel, cutoff, i) && panel[i].mint == mint && panel[i].deployer == Some(deployer)
    && forall j: nat :: i < j < n && CrewLaunch(panel, cutoff, j) ==> panel[j].mint != mint
  }

  lemma {:induction false} CrewMintsIff(panel: seq<PanelRow>, cutoff: Option<int>, n: nat, mint: Mint, deployer: Wallet)
    requires n <= |panel|
    ensures mint in CrewMints(panel, cutoff, n) && CrewMints(panel, cutoff, n)[mint] == deployer <==>
      exists i: nat :: CrewLaunchOf(panel, cutoff, n, mint, deployer, i)
  {
    if n > 0 {
      CrewMintsIff(panel, cutoff, n - 1, mint, deployer);
      if panel[n - 1].deployer.Some? {
        HistoryCounts(panel, cutoff, panel[n - 1].deployer.value, Launches);
      }
      forall i: nat
        ensures CrewLaunchOf(panel, cutoff, n, mint, deployer, i) <==>
          if CrewLaunch(panel, cutoff, n - 1) && panel[n - 1].mint == mint then
            i == n - 1 && panel[i].deployer == Some(deployer)
          else CrewLaunchOf(panel, cutoff, n - 1, mint, deployer, i)
      {
      }
      if CrewLaunch(panel, cutoff, n - 1) && panel[n - 1].mint == mint && panel[n - 1].deployer == Some(deployer) {
        assert CrewLaunchOf(panel, cutoff, n, mint, deployer, n - 1);
      }
    }
  }

  predicate SourceAt(snipers: seq<SniperRow>, cutoff: Option<int>, crewMints: map<Mint, Wallet>, r: SetRow, i: int)
  {
    && 0 <= i < |snipers| && snipers[i].mint == r.0 && snipers[i].owner == r.1
    && Earlier(Some(snipers[i].birthTime), cutoff) && r.0 in crewMints && r.1 != crewMints[r.0]
  }

  /** The sniper rows that put this wallet into this coin's stored set. */
  ghost function SetSources(snipers: seq<SniperRow>, cutoff: Option<int>, crewMints: map<Mint, Wallet>,
                            r: SetRow): set<int>
  {
    set i | 0 <= i < |snipers| && SourceAt(snipers, cutoff, crewMints, r, i)
  }

  /** A wallet is stored for a coin once for each of its sniper rows there before the cutoff, if
      the coin is a crew's and the wallet is not its deployer. */
  lemma {:induction false} SetRowsCount(snipers: seq<SniperRow>, cutoff: Option<int>, crewMints: map<Mint, Wallet>,
                                        r: SetRow)
    ensures multiset(SetRows(snipers, cutoff, crewMints))[r] == |SetSources(snipers, cutoff, crewMints, r)|
  {
    if snipers == [] {
      assert SetSources(snipers, cutoff, crewMints, r) == {};
    } else {
      var n := |snipers| - 1;
      SetRowsCount(snipers[..n], cutoff, crewMints, r);
      forall i
        ensures SourceAt(snipers, cutoff, crewMints, r, i) <==>
          SourceAt(snipers[..n], cutoff, crewMints, r, i) || (SourceAt(snipers, cutoff, crewMints, r, n) && i == n)
      {
      }
      OneMore(SetSources(snipers[..n], cutoff, crewMints, r), SetSources(snipers, cutoff, crewMints, r), n,
              SourceAt(snipers, cutoff, crewMints, r, n));
      SetRowsSnoc(snipers, cutoff, crewMints, r);
    }
  }

  lemma SetRowsSnoc(snipers: seq<SniperRow>, cutoff: Option<int>, crewMints: map<Mint, Wallet>, r: SetRow)
    requires snipers != []
    ensures var n := |snipers| - 1;
      multiset(SetRows(snipers, cutoff, crewMints))[r] ==
      multiset(SetRows(snipers[..n], cutoff, crewMints))[r] + One(SourceAt(snipers, cutoff, crewMints, r, n))
  {
  }

  /** A stored set's size is its number of rows. */
  lemma {:induction false} CountMintIsRows(rows: seq<SetRow>, mint: Mint)
    ensures CountMint(rows, mint) == |set i | 0 <= i < |rows| && rows[i].0 == mint|
  {
    var all := set i | 0 <= i < |rows| && rows[i].0 == mint;
    if rows == [] {
      assert all == {};
    } else {
      var n := |rows| - 1;
      CountMintIsRows(rows[..n], mint);
      var less := set i | 0 <= i < n && rows[..n][i].0 == mint;
      if rows[n].0 == mint {
        assert all == less + {n};
      } else {
        assert all == less;
      }
    }
  }
}
