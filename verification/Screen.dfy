/** `score_launch`'s verdict precedence over a built ledger, and the hydration policy. */
module Screen {
  import opened Ledger
  import LB = LedgerBuild
  import F = Features

  datatype Cheap = Cheap(mint: Option<Mint>, signature: bool, creator: Option<Wallet>, devBuyRawEst: int,
                         isMayhem: bool)

  datatype Verdict = Clean | Bundled | KnownCrew | NotClean | Unscored

  datatype Reason =
    | NonstandardCurve | CrewFingerprint(crewId: CrewId) | DeployerRecord | RecidivistSniper(prior: nat)
    | BundledAtBirth(n: nat) | DevBuyShare | Because(why: string) | CheapGatesPassed | BirthSlotPartial
    | QuoteCurveNotMeasured | FiveGatesPassed | AllGatesPassed

  datatype Score = Score(verdict: Verdict, reasons: seq<Reason>, hydrated: bool, crew: Option<CrewMatch>,
                         note: Option<CrewMatch>)

  const GATE_MAX_SNIPERS := 1

  /** `raw / 1e15 >= 0.02`, exactly. */
  predicate DevBuyTooLarge(raw: int): (large: bool)
    ensures large <==> raw as real / 1000000000000000.0 >= 0.02
  {
    raw * 50 >= F.PUMP_SUPPLY_RAW
  }

  function DeployerHistory(t: Tables, wallet: Option<Wallet>): History
  {
    if wallet.Some? && wallet.value in t.history then t.history[wallet.value] else History(0, 0, 0, 0)
  }

  /** `max((sniper_count(w) for w in wallets), default=0)`. */
  function PriorMax(t: Tables, wallets: seq<Wallet>): (m: nat)
    ensures forall w :: w in wallets ==> SniperCount(t, w) <= m
    ensures m == 0 || exists w :: w in wallets && SniperCount(t, w) == m
  {
    if wallets == [] then 0
    else
      var n := |wallets| - 1;
      var rest, last := PriorMax(t, wallets[..n]), SniperCount(t, wallets[n]);
      assert wallets == wallets[..n] + [wallets[n]];
      if rest < last then last else rest
  }

  /** `tuple(s for s in snipers if s != deployer)`. */
  function ExDeployer(b: F.Birth): (r: seq<Wallet>)
    ensures forall w :: w in r <==> w in b.snipers && b.deployer != Some(w)
  {
    Without(b.snipers, b.deployer)
  }

  function Without(ws: seq<Wallet>, who: Option<Wallet>): (r: seq<Wallet>)
    ensures forall w :: w in r <==> w in ws && who != Some(w)
  {
    if ws == [] then []
    else
      var n := |ws| - 1;
      assert ws == ws[..n] + [ws[n]];
      Without(ws[..n], who) + if who == Some(ws[n]) then [] else [ws[n]]
  }

  predicate CrewDirty(crew: Option<CrewMatch>)
  {
    crew.Some? && (crew.value.crew.dirty || crew.value.nTiedDirty > 0)
  }

  function HistoryKey(cheap: Cheap, birth: Option<F.Birth>): Option<Wallet>
  {
    if birth.Some? && birth.value.deployer.Some? then birth.value.deployer else cheap.creator
  }

  /** The KNOWN_CREW arms that apply, most specific first. */
  function RecordReasons(history: History, prior: nat, crew: Option<CrewMatch>): seq<Reason>
  {
    (if CrewDirty(crew) then [CrewFingerprint(crew.value.crewId)] else []) +
    (if history.rips > 0 || history.dumps > 0 then [DeployerRecord] else []) +
    (if prior > 0 then [RecidivistSniper(prior)] else [])
  }

  /** The verdict and its reasons, from the looked-up facts. */
  function Decide(cheap: Cheap, birth: Option<F.Birth>, history: History, prior: nat, crew: Option<CrewMatch>,
                  why: Option<string>): Score
  {
    DecideOn(cheap, birth, RecordReasons(history, prior, crew), crew, why)
  }

  function DecideOn(cheap: Cheap, birth: Option<F.Birth>, reasons: seq<Reason>, crew: Option<CrewMatch>,
                    why: Option<string>): Score
  {
    var hydrated := birth.Some?;
    var devBuy := if hydrated then birth.value.devBuyRaw else cheap.devBuyRawEst;
    if hydrated && !birth.value.bornStandard then Score(Unscored, [NonstandardCurve], hydrated, None, None)
    else
      var note := if CrewDirty(crew) then None else crew;
      if reasons != [] then Score(KnownCrew, reasons, hydrated, if CrewDirty(crew) then crew else None, note)
      else if hydrated && birth.value.nSnipers > GATE_MAX_SNIPERS then
        Score(Bundled, [BundledAtBirth(birth.value.nSnipers)], hydrated, None, note)
      else if DevBuyTooLarge(devBuy) then Score(NotClean, [DevBuyShare], hydrated, None, note)
      else if !hydrated then
        Score(Unscored, [Because(if why.Some? && why.value != "" then why.value else "not_hydrated"), CheapGatesPassed],
              hydrated, None, note)
      else if birth.value.isPartial then Score(Unscored, [BirthSlotPartial], hydrated, None, note)
      else if birth.value.quoteCurve then Score(Unscored, [QuoteCurveNotMeasured, FiveGatesPassed], hydrated, None,
                                                note)
      else Score(Clean, [AllGatesPassed], hydrated, None, note)
  }

  // ---------------------------------------------------------------- which verdict, and why

  predicate BadHistory(t: Tables, w: Wallet)
  {
    w in t.history && (t.history[w].rips > 0 || t.history[w].dumps > 0)
  }

  /** A rip or a dump of the dev-buy recipient the chain reports, or else of the creator. */
  ghost predicate DeployerRecorded(t: Tables, cheap: Cheap, birth: Option<F.Birth>)
  {
    if birth.Some? && birth.value.deployer.Some? then BadHistory(t, birth.value.deployer.value)
    else cheap.creator.Some? && BadHistory(t, cheap.creator.value)
  }

  ghost predicate SniperRecorded(t: Tables, birth: Option<F.Birth>)
  {
    birth.Some? && exists w :: w in birth.value.snipers && w in t.sniperCounts && t.sniperCounts[w] > 0
  }

  /** The best crew match has a record itself, or ties with a crew that has one. */
  ghost predicate CrewRecorded(crew: Option<CrewMatch>)
  {
    crew.Some? && (crew.value.crew.dirty || crew.value.nTiedDirty > 0)
  }

  ghost predicate AnyRecord(t: Tables, cheap: Cheap, birth: Option<F.Birth>, crew: Option<CrewMatch>)
  {
    CrewRecorded(crew) || DeployerRecorded(t, cheap, birth) || SniperRecorded(t, birth)
  }

  ghost predicate Standard(birth: Option<F.Birth>)
  {
    birth.Some? ==> birth.value.bornStandard
  }

  ghost predicate Crowded(birth: Option<F.Birth>)
  {
    birth.Some? && birth.value.nSnipers > 1
  }

  /** At least 2% of the supply, by the chain's amount if there is one. */
  ghost predicate LargeDevBuy(cheap: Cheap, birth: Option<F.Birth>)
  {
    (if birth.Some? then birth.value.devBuyRaw else cheap.devBuyRawEst) as real / 1000000000000000.0 >= 0.02
  }

  ghost predicate FullySeen(birth: Option<F.Birth>)
  {
    birth.Some? && !birth.value.isPartial && !birth.value.quoteCurve
  }

  /** The verdict, from the tables, the event, the birth and the crew match alone. */
  ghost predicate VerdictLaw(t: Tables, cheap: Cheap, birth: Option<F.Birth>, crew: Option<CrewMatch>, v: Verdict)
  {
    var record, crowded, large := AnyRecord(t, cheap, birth, crew), Crowded(birth), LargeDevBuy(cheap, birth);
    && (v == KnownCrew <==> Standard(birth) && record)
    && (v == Bundled <==> Standard(birth) && !record && crowded)
    && (v == NotClean <==> Standard(birth) && !record && !crowded && large)
    && (v == Unscored <==> !Standard(birth) || (!record && !crowded && !large && !FullySeen(birth)))
    && (v == Clean <==> Standard(birth) && !record && !crowded && !large && FullySeen(birth))
  }

  /** Which arms of a record are listed: all that apply. */
  ghost predicate RecordLaw(t: Tables, cheap: Cheap, birth: Option<F.Birth>, prior: nat, crew: Option<CrewMatch>,
                            s: Score)
  {
    && (forall id :: CrewFingerprint(id) in s.reasons <==>
        Standard(birth) && CrewRecorded(crew) && id == crew.value.crewId)
    && (DeployerRecord in s.reasons <==> Standard(birth) && DeployerRecorded(t, cheap, birth))
    && (forall n :: RecidivistSniper(n) in s.reasons <==> Standard(birth) && SniperRecorded(t, birth) && n == prior)
  }

  /** Why there was no hydration; none given and an empty text read alike. */
  ghost function Stated(why: Option<string>): string
  {
    if why == None || why == Some("") then "not_hydrated" else why.value
  }

  /** Which gate or gap is listed: the one that kept the launch from CLEAN, or that none did. */
  ghost predicate GateLaw(birth: Option<F.Birth>, why: Option<string>, s: Score)
  {
    && (NonstandardCurve in s.reasons <==> !Standard(birth))
    && (forall n :: BundledAtBirth(n) in s.reasons <==>
        s.verdict == Bundled && birth.Some? && n == birth.value.nSnipers)
    && (DevBuyShare in s.reasons <==> s.verdict == NotClean)
    && (forall w :: Because(w) in s.reasons <==>
        s.verdict == Unscored && birth.None? && w == Stated(why))
    && (CheapGatesPassed in s.reasons <==> s.verdict == Unscored && birth.None?)
    && (BirthSlotPartial in s.reasons <==>
        s.verdict == Unscored && Standard(birth) && birth.Some? && birth.value.isPartial)
    && (QuoteCurveNotMeasured in s.reasons <==>
        s.verdict == Unscored && Standard(birth) && birth.Some? && !birth.value.isPartial)
    && (FiveGatesPassed in s.reasons <==> QuoteCurveNotMeasured in s.reasons)
    && (AllGatesPassed in s.reasons <==> s.verdict == Clean)
  }

  /** A crew match is shown as the crew of a KNOWN_CREW verdict if it has a record, else as a note. */
  ghost predicate CrewLaw(birth: Option<F.Birth>, crew: Option<CrewMatch>, s: Score)
  {
    && (s.hydrated <==> birth.Some?)
    && s.crew == (if Standard(birth) && CrewRecorded(crew) then crew else None)
    && s.note == (if Standard(birth) && !CrewRecorded(crew) then crew else None)
  }

  lemma HistoryMeans(t: Tables, cheap: Cheap, birth: Option<F.Birth>)
    ensures var h := DeployerHistory(t, HistoryKey(cheap, birth));
      h.rips > 0 || h.dumps > 0 <==> DeployerRecorded(t, cheap, birth)
  {
  }

  lemma PriorMeans(t: Tables, birth: Option<F.Birth>, prior: nat)
    requires prior == if birth.Some? then PriorMax(t, birth.value.snipers) else 0
    ensures prior > 0 <==> SniperRecorded(t, birth)
  {
    if birth.Some? && prior > 0 {
      var w :| w in birth.value.snipers && SniperCount(t, w) == prior;
      assert w in t.sniperCounts;
    }
  }

  lemma RecordListed(history: History, prior: nat, crew: Option<CrewMatch>)
    ensures forall id :: CrewFingerprint(id) in RecordReasons(history, prior, crew) <==>
      CrewRecorded(crew) && id == crew.value.crewId
    ensures DeployerRecord in RecordReasons(history, prior, crew) <==> history.rips > 0 || history.dumps > 0
    ensures forall n :: RecidivistSniper(n) in RecordReasons(history, prior, crew) <==> n == prior && prior > 0
    ensures RecordReasons(history, prior, crew) == [] <==>
      !CrewRecorded(crew) && history.rips == 0 && history.dumps == 0 && prior == 0
    ensures forall r :: r in RecordReasons(history, prior, crew) ==>
      r.CrewFingerprint? || r.DeployerRecord? || r.RecidivistSniper?
  {
    var crews := if CrewDirty(crew) then [CrewFingerprint(crew.value.crewId)] else [];
    var deployers := if history.rips > 0 || history.dumps > 0 then [DeployerRecord] else [];
    var snipers := if prior > 0 then [RecidivistSniper(prior)] else [];
    assert RecordReasons(history, prior, crew) == crews + deployers + snipers;
    assert forall r :: r in RecordReasons(history, prior, crew) <==> r in crews || r in deployers || r in snipers;
  }

  lemma VerdictMeans(t: Tables, cheap: Cheap, birth: Option<F.Birth>, history: History, prior: nat,
                     crew: Option<CrewMatch>, why: Option<string>)
    requires history.rips > 0 || history.dumps > 0 <==> DeployerRecorded(t, cheap, birth)
    requires prior > 0 <==> SniperRecorded(t, birth)
    ensures VerdictLaw(t, cheap, birth, crew, Decide(cheap, birth, history, prior, crew, why).verdict)
    ensures CrewLaw(birth, crew, Decide(cheap, birth, history, prior, crew, why))
  {
    RecordListed(history, prior, crew);
  }

  lemma RecordMeans(t: Tables, cheap: Cheap, birth: Option<F.Birth>, arms: seq<Reason>, prior: nat,
                    crew: Option<CrewMatch>, why: Option<string>)
    requires forall id :: CrewFingerprint(id) in arms <==> CrewRecorded(crew) && id == crew.value.crewId
    requires DeployerRecord in arms <==> DeployerRecorded(t, cheap, birth)
    requires forall n :: RecidivistSniper(n) in arms <==> n == prior && SniperRecorded(t, birth)
    ensures RecordLaw(t, cheap, birth, prior, crew, DecideOn(cheap, birth, arms, crew, why))
  {
    var s := DecideOn(cheap, birth, arms, crew, why);
    if s.verdict != KnownCrew {
      FirstAndLast(s.reasons);
    }
  }

  lemma FirstAndLast(reasons: seq<Reason>)
    requires |reasons| == 1 || |reasons| == 2
    ensures forall r :: r in reasons <==> r == reasons[0] || r == reasons[|reasons| - 1]
  {
  }

  lemma GateMeans(cheap: Cheap, birth: Option<F.Birth>, arms: seq<Reason>, crew: Option<CrewMatch>,
                  why: Option<string>)
    requires forall r :: r in arms ==> r.CrewFingerprint? || r.DeployerRecord? || r.RecidivistSniper?
    ensures GateLaw(birth, why, DecideOn(cheap, birth, arms, crew, why))
  {
    var s := DecideOn(cheap, birth, arms, crew, why);
    if s.verdict != KnownCrew {
      FirstAndLast(s.reasons);
      GateOf(birth, why, s, s.reasons[0], s.reasons[|s.reasons| - 1]);
    }
  }

  lemma GateOf(birth: Option<F.Birth>, why: Option<string>, s: Score, first: Reason, last: Reason)
    requires forall r :: r in s.reasons <==> r == first || r == last
    requires !Standard(birth) ==> s.verdict == Unscored && first == last == NonstandardCurve
    requires Standard(birth) ==>
      match s.verdict
      case KnownCrew => false
      case Bundled => birth.Some? && first == last == BundledAtBirth(birth.value.nSnipers)
      case NotClean => first == last == DevBuyShare
      case Clean => first == last == AllGatesPassed
      case Unscored =>
        if birth.None? then
          first == Because(Stated(why)) && last == CheapGatesPassed
        else if birth.value.isPartial then first == last == BirthSlotPartial
        else first == QuoteCurveNotMeasured && last == FiveGatesPassed
    ensures GateLaw(birth, why, s)
  {
  }

  /** The precedence, read as what each verdict and each reason means. */
  lemma DecideMeans(t: Tables, cheap: Cheap, birth: Option<F.Birth>, prior: nat, crew: Option<CrewMatch>,
                    why: Option<string>)
    requires prior == if birth.Some? then PriorMax(t, birth.value.snipers) else 0
    ensures var s := Decide(cheap, birth, DeployerHistory(t, HistoryKey(cheap, birth)), prior, crew, why);
      && VerdictLaw(t, cheap, birth, crew, s.verdict) && RecordLaw(t, cheap, birth, prior, crew, s)
      && GateLaw(birth, why, s) && CrewLaw(birth, crew, s)
  {
    var history := DeployerHistory(t, HistoryKey(cheap, birth));
    HistoryMeans(t, cheap, birth);
    PriorMeans(t, birth, prior);
    VerdictMeans(t, cheap, birth, history, prior, crew, why);
    RecordListed(history, prior, crew);
    RecordMeans(t, cheap, birth, RecordReasons(history, prior, crew), prior, crew, why);
    GateMeans(cheap, birth, RecordReasons(history, prior, crew), crew, why);
  }

  /** Facts that the ledger `t` yields for this launch. */
  ghost predicate Facts(t: Tables, cheap: Cheap, birth: Option<F.Birth>, minOverlap: int, minJaccard: real,
                        history: History, prior: nat, crew: Option<CrewMatch>)
    requires References(t)
  {
    && history == DeployerHistory(t, HistoryKey(cheap, birth))
    && (birth.None? ==> prior == 0 && crew.None?)
    && (birth.Some? ==> prior == PriorMax(t, birth.value.snipers)
                        && IsCrewMatch(t, Distinct(ExDeployer(birth.value)), minOverlap, minJaccard, crew))
  }

  /** `score_launch`; `rows` is the engine's answer to the crew query. */
  method ScoreLaunch(t: Tables, cheap: Cheap, birth: Option<F.Birth>, minOverlap: int, minJaccard: real,
                     rows: seq<Candidate>, why: Option<string>)
    returns (s: Score, ghost prior: nat, ghost crew: Option<CrewMatch>)
    requires References(t)
    requires birth.Some? ==> IsFetch(t, Distinct(ExDeployer(birth.value)), minOverlap, rows)
    ensures Facts(t, cheap, birth, minOverlap, minJaccard, DeployerHistory(t, HistoryKey(cheap, birth)), prior, crew)
    ensures s == Decide(cheap, birth, DeployerHistory(t, HistoryKey(cheap, birth)), prior, crew, why)
    ensures VerdictLaw(t, cheap, birth, crew, s.verdict)
    ensures RecordLaw(t, cheap, birth, prior, crew, s) && GateLaw(birth, why, s)
    ensures CrewLaw(birth, crew, s)
    ensures IsBuilt(t) && birth.Some? && birth.value.bornStandard && crew.Some? ==> s.verdict == KnownCrew
    ensures IsBuilt(t) && birth.Some? && FullyMeasured(birth.value) ==>
      (s.verdict == Clean <==> FiveGates(t, cheap, birth.value))
  {
    var history := DeployerHistory(t, HistoryKey(cheap, birth));
    var p := 0;
    var c: Option<CrewMatch> := None;
    if birth.Some? {
      p := PriorMax(t, birth.value.snipers);
      c := Match(t, ExDeployer(birth.value), minOverlap, minJaccard, rows, 500);
    }
    prior, crew := p, c;
    s := Decide(cheap, birth, history, p, c, why);
    DecideMeans(t, cheap, birth, p, c, why);
    if birth.Some? && IsBuilt(t) {
      BuiltVerdict(t, cheap, birth.value, minOverlap, minJaccard, history, prior, crew, why);
    }
  }

  /** Standard supply, a full slot, a curve in SOL. */
  predicate FullyMeasured(b: F.Birth)
  {
    b.bornStandard && !b.isPartial && !b.quoteCurve
  }

  /** Some panel, sniper list and cutoff build this ledger. */
  ghost predicate IsBuilt(t: Tables)
  {
    exists panel, snipers, cutoff :: t == LB.Build(panel, snipers, cutoff)
  }

  /** The five validated gates, read off the ledger and the birth. */
  predicate FiveGates(t: Tables, cheap: Cheap, b: F.Birth)
  {
    var history := DeployerHistory(t, HistoryKey(cheap, Some(b)));
    && b.nSnipers <= GATE_MAX_SNIPERS && !DevBuyTooLarge(b.devBuyRaw)
    && history.rips == 0 && history.dumps == 0 && PriorMax(t, b.snipers) == 0
  }

  lemma BuiltVerdict(t: Tables, cheap: Cheap, b: F.Birth, minOverlap: int, minJaccard: real,
                     history: History, prior: nat, crew: Option<CrewMatch>, why: Option<string>)
    requires References(t) && IsBuilt(t) && Facts(t, cheap, Some(b), minOverlap, minJaccard, history, prior, crew)
    ensures b.bornStandard && crew.Some? ==> Decide(cheap, Some(b), history, prior, crew, why).verdict == KnownCrew
    ensures b.bornStandard && !b.isPartial && !b.quoteCurve ==>
      (Decide(cheap, Some(b), history, prior, crew, why).verdict == Clean <==> FiveGates(t, cheap, b))
  {
    var panel, snipers, cutoff :| t == LB.Build(panel, snipers, cutoff);
    LB.BuildIsConsistent(panel, snipers, cutoff);
    if b.bornStandard && crew.Some? {
      AnyCrewMatchIsKnownCrew(panel, snipers, cutoff, cheap, b, minOverlap, minJaccard, history, prior, crew.value,
                              why);
    }
    if b.bornStandard && !b.isPartial && !b.quoteCurve {
      CleanIsFiveGates(panel, snipers, cutoff, cheap, b, minOverlap, minJaccard, history, prior, crew, why);
    }
  }

  // ---------------------------------------------------------------- a crew match is a record

  lemma {:induction false} CountedWallet(rows: seq<SetRow>, mint: Mint, wallets: set<Wallet>) returns (r: SetRow)
    requires CountRows(rows, mint, wallets) >= 1
    ensures r in rows && r.0 == mint && r.1 in wallets
  {
    var n := |rows| - 1;
    if rows[n].0 == mint && rows[n].1 in wallets {
      r := rows[n];
    } else {
      r := CountedWallet(rows[..n], mint, wallets);
      assert r in rows;
    }
  }

  /** Over a built ledger any crew match, dirty or clean, makes some sniper a recidivist. */
  lemma CrewMatchImpliesPrior(panel: seq<LB.PanelRow>, snipers: seq<LB.SniperRow>, cutoff: Option<int>, b: F.Birth,
                              minOverlap: int, minJaccard: real, m: CrewMatch)
    requires (LB.BuildIsConsistent(panel, snipers, cutoff);
              IsBestMatch(LB.Build(panel, snipers, cutoff), Distinct(ExDeployer(b)), minOverlap, minJaccard, m))
    ensures PriorMax(LB.Build(panel, snipers, cutoff), b.snipers) >= 1
  {
    var t := LB.Build(panel, snipers, cutoff);
    var rep := Candidate(m.mint, m.overlap, m.setSize, m.crewId);
    assert Tied(t, Distinct(ExDeployer(b)), minOverlap, m.jaccard, rep);
    var r := CountedWallet(t.crewSet, m.mint, Distinct(ExDeployer(b)));
    LB.CrewWalletsAreSnipers(panel, snipers, cutoff, r);
    assert r.1 in b.snipers;
  }

  /** Every hydrated standard-supply launch with any crew match scores KNOWN_CREW. */
  lemma AnyCrewMatchIsKnownCrew(panel: seq<LB.PanelRow>, snipers: seq<LB.SniperRow>, cutoff: Option<int>, cheap: Cheap,
                                b: F.Birth,
                                minOverlap: int, minJaccard: real, history: History, prior: nat, m: CrewMatch,
                                why: Option<string>)
    requires (LB.BuildIsConsistent(panel, snipers, cutoff);
              Facts(LB.Build(panel, snipers, cutoff), cheap, Some(b), minOverlap, minJaccard, history, prior, Some(m)))
    requires b.bornStandard
    ensures Decide(cheap, Some(b), history, prior, Some(m), why).verdict == KnownCrew
    ensures RecidivistSniper(prior) in Decide(cheap, Some(b), history, prior, Some(m), why).reasons
  {
    CrewMatchImpliesPrior(panel, snipers, cutoff, b, minOverlap, minJaccard, m);
    RecordListed(history, prior, Some(m));
  }

  /** Hydrated, standard, full-slot, SOL-curve launches are CLEAN exactly when the five
      validated gates pass; the crew matcher adds nothing to the conjunction. */
  lemma CleanIsFiveGates(panel: seq<LB.PanelRow>, snipers: seq<LB.SniperRow>, cutoff: Option<int>, cheap: Cheap,
                         b: F.Birth,
                         minOverlap: int, minJaccard: real, history: History, prior: nat, crew: Option<CrewMatch>,
                         why: Option<string>)
    requires (LB.BuildIsConsistent(panel, snipers, cutoff);
              Facts(LB.Build(panel, snipers, cutoff), cheap, Some(b), minOverlap, minJaccard, history, prior, crew))
    requires b.bornStandard && !b.isPartial && !b.quoteCurve
    ensures Decide(cheap, Some(b), history, prior, crew, why).verdict == Clean <==>
      && b.nSnipers <= GATE_MAX_SNIPERS && !DevBuyTooLarge(b.devBuyRaw)
      && history.rips == 0 && history.dumps == 0 && prior == 0
  {
    if crew.Some? {
      AnyCrewMatchIsKnownCrew(panel, snipers, cutoff, cheap, b, minOverlap, minJaccard, history, prior, crew.value,
                              why);
      CrewMatchImpliesPrior(panel, snipers, cutoff, b, minOverlap, minJaccard, crew.value);
    }
  }

  // ---------------------------------------------------------------- the hydration policy

  datatype Config = Config(hydrateAll: bool, hydrateMayhem: bool, hydrateNoDevBuy: bool)

  /** `_wants_hydration`: whether to spend, and the reason where a skip needs one. */
  function WantsHydration(cfg: Config, t: Tables, cheap: Cheap): (bool, Option<string>)
  {
    var h := DeployerHistory(t, cheap.creator);
    if !cheap.signature || cheap.mint.None? then (false, Some("event_missing_signature_or_mint"))
    else if cfg.hydrateAll then (true, None)
    else if cheap.isMayhem && !cfg.hydrateMayhem then (false, Some("policy:mayhem_flag_nonstandard_curve"))
    else if h.rips > 0 || h.dumps > 0 then (false, None)
    else if DevBuyTooLarge(cheap.devBuyRawEst) then (false, None)
    else if cheap.devBuyRawEst == 0 && !cfg.hydrateNoDevBuy then (false, Some("policy:no_dev_buy_stratum_disabled"))
    else (true, None)
  }

  /** When the policy spends, and when it does not but still reports an unscored launch. */
  lemma WantsHydrationIff(cfg: Config, t: Tables, cheap: Cheap)
    ensures var (spend, reason) := WantsHydration(cfg, t, cheap);
      var named := cheap.signature && cheap.mint.Some?;
      var mayhem := cheap.isMayhem && !cfg.hydrateMayhem;
      var condemned := DeployerRecorded(t, cheap, None) || LargeDevBuy(cheap, None);
      var noBuy := cheap.devBuyRawEst == 0 && !cfg.hydrateNoDevBuy;
      && (spend <==> named && (cfg.hydrateAll || (!mayhem && !condemned && !noBuy)))
      && (spend ==> reason == None)
      && (!spend && reason == None <==> named && !cfg.hydrateAll && !mayhem && condemned)
      && (reason == Some("event_missing_signature_or_mint") <==> !named)
      && (reason == Some("policy:mayhem_flag_nonstandard_curve") <==> named && !cfg.hydrateAll && mayhem)
      && (reason == Some("policy:no_dev_buy_stratum_disabled") <==>
          named && !cfg.hydrateAll && !mayhem && !condemned && noBuy)
  {
    var missing, mayhem := "event_missing_signature_or_mint", "policy:mayhem_flag_nonstandard_curve";
    var noBuy := "policy:no_dev_buy_stratum_disabled";
    assert missing[0] == 'e' && mayhem[7] == 'm' && noBuy[7] == 'n';
  }

  /** The chain agrees with the event: same dev buy, and the dev-buy recipient is the creator. */
  predicate Agrees(cheap: Cheap, b: F.Birth)
  {
    b.devBuyRaw == cheap.devBuyRawEst && (b.deployer.None? || b.deployer == cheap.creator)
  }

  /** A hydration with this dev-buy recipient and amount passes the gates that the policy looked at:
      the record of the wallet it is keyed by, and the dev buy. */
  predicate LeavesCleanOpen(t: Tables, cheap: Cheap, deployer: Option<Wallet>, devBuyRaw: int)
  {
    var h := DeployerHistory(t, if deployer.Some? then deployer else cheap.creator);
    h.rips == 0 && h.dumps == 0 && !DevBuyTooLarge(devBuyRaw)
  }

  /** What makes a hydrated launch CLEAN, over any ledger. */
  lemma HydrationCleanIff(t: Tables, cheap: Cheap, b: F.Birth, prior: nat, crew: Option<CrewMatch>, why: Option<string>)
    ensures var score := Decide(cheap, Some(b), DeployerHistory(t, HistoryKey(cheap, Some(b))), prior, crew, why);
      score.verdict == Clean <==>
      && LeavesCleanOpen(t, cheap, b.deployer, b.devBuyRaw)
      && FullyMeasured(b) && b.nSnipers <= GATE_MAX_SNIPERS && prior == 0 && !CrewDirty(crew)
  {
  }

  /** Hydrations that report this recipient and amount, whatever else they report, are never CLEAN. */
  ghost predicate NeverClean(t: Tables, cheap: Cheap, deployer: Option<Wallet>, devBuyRaw: int)
  {
    forall b: F.Birth, prior: nat, crew: Option<CrewMatch>, why: Option<string> ::
      b.deployer == deployer && b.devBuyRaw == devBuyRaw ==>
        Decide(cheap, Some(b), DeployerHistory(t, HistoryKey(cheap, Some(b))), prior, crew, why).verdict != Clean
  }

  /** When a silent skip is safe. The skipped launch has a real cheap verdict, and what the chain
      would have reported as recipient and dev buy decides: no hydration could have made it CLEAN
      if and only if those two still fail a gate; a chain that agrees with the event always does. */
  lemma SilentSkipSafeIff(cfg: Config, t: Tables, cheap: Cheap, deployer: Option<Wallet>, devBuyRaw: int,
                          why: Option<string>)
    requires WantsHydration(cfg, t, cheap) == (false, None)
    ensures var cheaply := Decide(cheap, None, DeployerHistory(t, HistoryKey(cheap, None)), 0, None, why);
      cheaply.verdict in {KnownCrew, NotClean}
    ensures NeverClean(t, cheap, deployer, devBuyRaw) <==> !LeavesCleanOpen(t, cheap, deployer, devBuyRaw)
    ensures devBuyRaw == cheap.devBuyRawEst && (deployer.None? || deployer == cheap.creator) ==>
      NeverClean(t, cheap, deployer, devBuyRaw)
  {
    forall b: F.Birth, prior: nat, crew: Option<CrewMatch>, reason: Option<string>
      | b.deployer == deployer && b.devBuyRaw == devBuyRaw
      ensures !LeavesCleanOpen(t, cheap, deployer, devBuyRaw) ==>
        Decide(cheap, Some(b), DeployerHistory(t, HistoryKey(cheap, Some(b))), prior, crew, reason).verdict != Clean
    {
      HydrationCleanIff(t, cheap, b, prior, crew, reason);
    }
    if LeavesCleanOpen(t, cheap, deployer, devBuyRaw) {
      var b := F.Birth(true, F.PUMP_SUPPLY_RAW, Some(0), deployer, devBuyRaw, 0, [], false, false);
      HydrationCleanIff(t, cheap, b, 0, None, None);
      assert !NeverClean(t, cheap, deployer, devBuyRaw);
    }
  }

  /** A launch skipped without a reason loses nothing if the chain agrees with the event. */
  lemma SilentSkipLosesNoClean(cfg: Config, t: Tables, cheap: Cheap, b: F.Birth, prior: nat, crew: Option<CrewMatch>,
                               why: Option<string>)
    requires WantsHydration(cfg, t, cheap) == (false, None)
    ensures var cheaply := Decide(cheap, None, DeployerHistory(t, HistoryKey(cheap, None)), 0, None, why);
      cheaply.verdict in {KnownCrew, NotClean}
    ensures Agrees(cheap, b) ==>
      Decide(cheap, Some(b), DeployerHistory(t, HistoryKey(cheap, Some(b))), prior, crew, why).verdict != Clean
  {
    SilentSkipSafeIff(cfg, t, cheap, b.deployer, b.devBuyRaw, why);
  }

  /** With another dev-buy recipient, one of clean record, the skipped launch could be CLEAN. */
  lemma DisagreeingChainCouldBeClean() returns (t: Tables, cheap: Cheap, b: F.Birth)
    ensures WantsHydration(Config(false, false, true), t, cheap) == (false, None)
    ensures b.devBuyRaw == cheap.devBuyRawEst && b.deployer != cheap.creator
    ensures Decide(cheap, Some(b), DeployerHistory(t, HistoryKey(cheap, Some(b))), 0, None, None).verdict == Clean
  {
    t := Tables(map[1 := History(3, 1, 0, 0)], map[], map[], map[], []);
    cheap := Cheap(Some(0), true, Some(1), 1, false);
    b := F.Birth(true, F.PUMP_SUPPLY_RAW, Some(9), Some(2), 1, 1, [2], false, false);
  }
}
