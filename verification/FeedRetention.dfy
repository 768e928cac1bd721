/** What the feed forgets, and when forgetting changes what it does. */
module FeedRetention {
  import opened Feed

  // ---------------------------------------------------------------- pruning is invisible

  /** The windows read back no further than what is kept. */
  predicate Fits(cfg: ValidConfig)
  {
    cfg.Limit().cooldown <= KEEP_ALERT && cfg.Window() <= KEEP_ALERT && cfg.prevMaxAge <= KEEP_OBSERVATION
  }

  function NeverPruned(events: seq<Poll>): (r: seq<Poll>)
    ensures |r| == |events| && forall i :: 0 <= i < |r| ==> r[i] == events[i].(pruned := false)
  {
    seq(|events|, i requires 0 <= i < |events| => events[i].(pruned := false))
  }

  ghost predicate SameFresh(a: Observations, b: Observations, t: Time)
  {
    forall m :: Fresh(a, m, t) == Fresh(b, m, t)
  }

  /** The same state to any reader that looks back no further than the retention. */
  ghost predicate Alike(a: State, b: State, now: Time)
  {
    a.log == b.log && SameSince(a.rows, b.rows, now - KEEP_ALERT) && SameFresh(a.obs, b.obs, now - KEEP_OBSERVATION)
  }

  lemma FreshLater(a: Observations, b: Observations, t: Time, u: Time)
    requires SameFresh(a, b, t) && t <= u
    ensures SameFresh(a, b, u)
  {
    forall m ensures Fresh(a, m, u) == Fresh(b, m, u) {
      assert Fresh(a, m, t) == Fresh(b, m, t);
    }
  }

  lemma AlikeLater(a: State, b: State, now: Time, later: Time)
    requires Alike(a, b, now) && now <= later
    ensures Alike(a, b, later)
  {
    SameLater(a.rows, b.rows, now - KEEP_ALERT, later - KEEP_ALERT);
    FreshLater(a.obs, b.obs, now - KEEP_OBSERVATION, later - KEEP_OBSERVATION);
  }

  lemma {:induction false} SameCandidates(cfg: ValidConfig, a: State, b: State, top5: set<Mint>, ranked: seq<Scored>,
                                          now: Time)
    requires Fits(cfg) && Alike(a, b, now)
    ensures var th := cfg.Limit();
      Candidates(th, a.obs, a.rows, top5, ranked, now) == Candidates(th, b.obs, b.rows, top5, ranked, now)
    decreases |ranked|
  {
    if ranked != [] {
      var n, th := |ranked| - 1, cfg.Limit();
      SameCandidates(cfg, a, b, top5, ranked[..n], now);
      FreshLater(a.obs, b.obs, now - KEEP_OBSERVATION, now - th.prevMaxAge);
      assert Fresh(a.obs, ranked[n].mint, now - th.prevMaxAge) == Fresh(b.obs, ranked[n].mint, now - th.prevMaxAge);
      SameCooling(a.rows, b.rows, now - KEEP_ALERT, ranked[n].mint, now, th.cooldown);
    }
  }

  lemma SameBatch(cfg: ValidConfig, a: State, b: State, entries: seq<Entry>, now: Time)
    requires Fits(cfg) && Alike(a, b, now)
    ensures Batch(cfg, a, entries, now) == Batch(cfg, b, entries, now)
  {
    SameHeld(a.rows, b.rows, now - KEEP_ALERT, now, cfg.Window());
    SameDetected(cfg, a, b, entries, now);
  }

  lemma SameDetected(cfg: ValidConfig, a: State, b: State, entries: seq<Entry>, now: Time)
    requires Fits(cfg) && Alike(a, b, now)
    ensures Detected(cfg.Limit(), a.obs, a.rows, entries, now) == Detected(cfg.Limit(), b.obs, b.rows, entries, now)
  {
    SameCandidates(cfg, a, b, Top5(Ranked(entries)), Ranked(entries), now);
    SameLater(a.rows, b.rows, now - KEEP_ALERT, now - HOUR);
  }

  lemma {:induction false} UpsertedAlike(a: Observations, b: Observations, entries: seq<Entry>, top5: set<Mint>,
                                         now: Time, t: Time)
    requires SameFresh(a, b, t)
    ensures SameFresh(Upserted(a, entries, top5, now), Upserted(b, entries, top5, now), t)
    decreases |entries|
  {
    if entries != [] {
      var n := |entries| - 1;
      UpsertedAlike(a, b, entries[..n], top5, now, t);
      var c, d := Upserted(a, entries[..n], top5, now), Upserted(b, entries[..n], top5, now);
      forall m ensures Fresh(Upserted(a, entries, top5, now), m, t) == Fresh(Upserted(b, entries, top5, now), m, t) {
        assert Fresh(c, m, t) == Fresh(d, m, t);
      }
    }
  }

  lemma PolledAlike(cfg: ValidConfig, a: State, b: State, e: Poll)
    requires Fits(cfg) && Alike(a, b, e.now)
    ensures Alike(Polled(cfg, a, e), Polled(cfg, b, e.(pruned := false)), e.now)
  {
    if e.raw.Some? {
      var entries := FirstSeen(e.raw.value);
      SameBatch(cfg, a, b, entries, e.now);
      UpsertedAlike(a.obs, b.obs, entries, Top5(Ranked(entries)), e.now, e.now - KEEP_OBSERVATION);
      SameAppend(a.rows, b.rows, Stamp(Recorded(cfg, a, entries, e), e.now), e.now - KEEP_ALERT);
    }
  }

  lemma PruneAlike(a: State, b: State, now: Time)
    requires Alike(a, b, now)
    ensures Alike(Prune(a, now), b, now)
  {
    SinceSince(a.rows, now - KEEP_ALERT, now - KEEP_ALERT);
    var kept, t := Prune(a, now).obs, now - KEEP_OBSERVATION;
    forall m ensures Fresh(kept, m, t) == Fresh(b.obs, m, t) {
      assert Fresh(a.obs, m, t) == Fresh(b.obs, m, t);
    }
  }

  /** The pruned feed makes every decision the feed that forgets nothing makes. */
  lemma {:induction false} PruningChangesNothing(cfg: ValidConfig, events: seq<Poll>, now: Time)
    requires Fits(cfg) && ClockRuns(events) && (events != [] ==> events[|events| - 1].now <= now)
    ensures Alike(Run(cfg, events), Run(cfg, NeverPruned(events)), now)
    decreases |events|
  {
    if events != [] {
      var n, plain := |events| - 1, NeverPruned(events);
      var e := events[n];
      PruningChangesNothing(cfg, events[..n], e.now);
      assert plain[..n] == NeverPruned(events[..n]);
      var a, b := Run(cfg, events[..n]), Run(cfg, plain[..n]);
      PolledAlike(cfg, a, b, e);
      if e.pruned {
        PruneAlike(Polled(cfg, a, e), Polled(cfg, b, plain[n]), e.now);
      }
      AlikeLater(Run(cfg, events), Run(cfg, plain), e.now, now);
    }
  }

  // ---------------------------------------------------------------- when the windows do not fit

  /** A volume no acceleration test refuses against a prior volume of one. */
  function Big(cfg: ValidConfig): real
  {
    var m := if cfg.minV5 >= cfg.accelRatio then cfg.minV5 else cfg.accelRatio;
    if m >= 1.0 then m else 1.0
  }

  /** A clean cycle over a board of one coin. */
  function OneCoin(v5: real, now: Time): Poll
  {
    Poll(now, Some([Some(Entry(1, Some(v5)))]), {}, 1, false)
  }

  /** A failed poll still prunes. */
  function Idle(now: Time): Poll { Poll(now, None, {}, 0, true) }

  lemma OneCoinBoard(v5: real)
    ensures FirstSeen([Some(Entry(1, Some(v5)))]) == [Entry(1, Some(v5))]
    ensures Ranked([Entry(1, Some(v5))]) == [Scored(1, v5)] && Top5([Scored(1, v5)]) == {1}
  {
    var raw := [Some(Entry(1, Some(v5)))];
    assert raw[..0] == [] && FirstSeen(raw[..0]) == [];
    var r := [Scored(1, v5)];
    assert r[0].mint == 1;
  }

  lemma OneCoinUpserted(obs: Observations, v5: real, now: Time)
    ensures Upserted(obs, [Entry(1, Some(v5))], {1}, now) == obs[1 := Obs(Some(v5), now, true)]
  {
    var entries := [Entry(1, Some(v5))];
    assert entries[..0] == [] && Upserted(obs, entries[..0], {1}, now) == obs;
  }

  /** What a one-coin board gives: the coin's alert if it earned one, and the window is open. */
  lemma OneCoinPolled(cfg: ValidConfig, s: State, v5: real, now: Time)
    requires |Since(s.rows, now - HOUR)| < cfg.Limit().maxPerHour
    ensures var a := Earned(cfg.Limit(), s.obs, s.rows, {1}, Scored(1, v5), now);
      Step(cfg, s, OneCoin(v5, now)) == Note(s.(obs := s.obs[1 := Obs(Some(v5), now, true)]),
        if a.None? || Held(s.rows, now, cfg.Window()) then [] else [a.value], now)
  {
    OneCoinBoard(v5);
    OneCoinUpserted(s.obs, v5, now);
    OneCoinBatch(cfg, s, v5, now);
    var b := Batch(cfg, s, [Entry(1, Some(v5))], now);
    assert b != [] ==> b[..0] == [] && WithChart(b[..0], {}, false) == [] && WithChart(b[..0], {}, true) == [];
    assert Arranged(b, {}) == b;
    assert Take(b, 1) == b;
  }

  lemma OneCoinBatch(cfg: ValidConfig, s: State, v5: real, now: Time)
    requires |Since(s.rows, now - HOUR)| < cfg.Limit().maxPerHour
    ensures var a := Earned(cfg.Limit(), s.obs, s.rows, {1}, Scored(1, v5), now);
      Batch(cfg, s, [Entry(1, Some(v5))], now) == if a.None? || Held(s.rows, now, cfg.Window()) then [] else [a.value]
  {
    OneCoinBoard(v5);
    var th, r := cfg.Limit(), [Scored(1, v5)];
    assert r[..0] == [] && Candidates(th, s.obs, s.rows, {1}, r[..0], now) == [];
  }

  /** What a jump from one to `Big` earns. */
  function Jump(cfg: ValidConfig): Alert { Alert(1, Accel, Big(cfg), Some(1.0)) }

  /** A jump over a fresh observation of one, with no alert in the table, goes out. */
  lemma JumpGoesOut(cfg: ValidConfig, s: State, now: Time)
    requires 1 in s.obs && s.obs[1].v5 == Some(1.0) && s.obs[1].seenAt >= now - cfg.prevMaxAge && s.rows == []
    ensures Step(cfg, s, OneCoin(Big(cfg), now)) ==
      State(s.obs[1 := Obs(Some(Big(cfg)), now, true)], [Row(now, Jump(cfg))], s.log + [Montage(now, [Jump(cfg)])])
  {
    CeilPositive(cfg);
    OneCoinPolled(cfg, s, Big(cfg), now);
    JumpEarns(cfg, s.obs, now);
    assert [] + Stamp([Jump(cfg)], now) == [Row(now, Jump(cfg))];
  }

  lemma JumpEarns(cfg: ValidConfig, obs: Observations, now: Time)
    requires 1 in obs && obs[1].v5 == Some(1.0) && obs[1].seenAt >= now - cfg.prevMaxAge
    ensures Earned(cfg.Limit(), obs, [], {1}, Scored(1, Big(cfg)), now) == Some(Jump(cfg))
  {
    assert cfg.accelRatio * 1.0 == cfg.accelRatio;
  }

  /** The first sight of a coin alerts nobody. */
  lemma FirstSightIsQuiet(cfg: ValidConfig, s: State, v5: real, now: Time)
    requires 1 !in s.obs && s.rows == []
    ensures Step(cfg, s, OneCoin(v5, now)) == s.(obs := s.obs[1 := Obs(Some(v5), now, true)])
  {
    CeilPositive(cfg);
    OneCoinPolled(cfg, s, v5, now);
  }

  /** While a recorded alert cools, or its window is open, a one-coin board sends nothing. */
  lemma BlockedIsQuiet(cfg: ValidConfig, s: State, a: Alert, v5: real, now: Time)
    requires s.rows == [Row(0.0, a)] && a.mint == 1 && (now <= cfg.Limit().cooldown || now < cfg.Window())
    ensures var t := Step(cfg, s, OneCoin(v5, now)); t.log == s.log && t.rows == s.rows
  {
    CeilPositive(cfg);
    OneCoinPolled(cfg, s, v5, now);
    assert Row(0.0, a) in s.rows && Row(0.0, a) in OfMint(s.rows, 1);
  }

  lemma IdleForgets(cfg: ValidConfig, s: State, t: Time)
    requires forall m :: m in s.obs ==> s.obs[m].seenAt < t - KEEP_OBSERVATION
    requires forall r :: r in s.rows ==> r.at < t - KEEP_ALERT
    ensures Step(cfg, s, Idle(t)) == State(map[], [], s.log)
  {
    assert Prune(s, t).obs == map[];
    NothingSince(s.rows, t - KEEP_ALERT);
  }

  lemma {:induction false} NothingSince(rows: seq<Row>, t: Time)
    requires forall r :: r in rows ==> r.at < t
    ensures Since(rows, t) == []
    decreases |rows|
  {
    if rows != [] {
      NothingSince(rows[1..], t);
    }
  }

  /** The same polls with and without pruning, side by side. */
  ghost predicate Reached(cfg: ValidConfig, events: seq<Poll>, s: State, u: State, now: Time)
  {
    && ClockRuns(events) && (forall i :: 0 <= i < |events| ==> events[i].now <= now)
    && Run(cfg, events) == s && Run(cfg, NeverPruned(events)) == u
  }

  lemma Extend(cfg: ValidConfig, events: seq<Poll>, s: State, u: State, now: Time, e: Poll)
    requires Reached(cfg, events, s, u, now) && now <= e.now
    ensures Reached(cfg, events + [e], Step(cfg, s, e), Step(cfg, u, e.(pruned := false)), e.now)
  {
    var all := events + [e];
    assert all[..|events|] == events;
    assert NeverPruned(all)[..|events|] == NeverPruned(events);
  }

  /** An alert in the table that stops coin 1 at `now`. */
  ghost predicate Blocks(cfg: ValidConfig, u: State, now: Time)
  {
    u.rows == [Row(0.0, Jump(cfg))] && (now <= cfg.Limit().cooldown || now < cfg.Window())
  }

  lemma FirstSight(cfg: ValidConfig, events: seq<Poll>, s: State, u: State, was: Time, v5: real, now: Time)
    returns (after: seq<Poll>, u': State)
    requires Reached(cfg, events, s, u, was) && was <= now && 1 !in s.obs && s.rows == []
    ensures Reached(cfg, after, s.(obs := s.obs[1 := Obs(Some(v5), now, true)]), u', now)
    ensures u == s ==> u' == s.(obs := s.obs[1 := Obs(Some(v5), now, true)])
    ensures Blocks(cfg, u, now) ==> u'.log == u.log && u'.rows == u.rows
  {
    if Blocks(cfg, u, now) {
      BlockedIsQuiet(cfg, u, Jump(cfg), v5, now);
    }
    Extend(cfg, events, s, u, was, OneCoin(v5, now));
    FirstSightIsQuiet(cfg, s, v5, now);
    after, u' := events + [OneCoin(v5, now)], Step(cfg, u, OneCoin(v5, now));
  }

  lemma SecondSight(cfg: ValidConfig, events: seq<Poll>, s: State, u: State, now: Time)
    returns (after: seq<Poll>, s': State, u': State)
    requires Reached(cfg, events, s, u, now) && s.rows == []
    requires 1 in s.obs && s.obs[1].v5 == Some(1.0) && s.obs[1].seenAt >= now - cfg.prevMaxAge
    ensures Reached(cfg, after, s', u', now)
    ensures s'.rows == [Row(now, Jump(cfg))] && s'.log == s.log + [Montage(now, [Jump(cfg)])]
    ensures s'.obs == s.obs[1 := Obs(Some(Big(cfg)), now, true)]
    ensures u == s ==> u' == s'
    ensures Blocks(cfg, u, now) ==> u'.log == u.log && u'.rows == u.rows
  {
    if Blocks(cfg, u, now) {
      BlockedIsQuiet(cfg, u, Jump(cfg), Big(cfg), now);
    }
    Extend(cfg, events, s, u, now, OneCoin(Big(cfg), now));
    JumpGoesOut(cfg, s, now);
    after, u' := events + [OneCoin(Big(cfg), now)], Step(cfg, u, OneCoin(Big(cfg), now));
    s' := Step(cfg, s, OneCoin(Big(cfg), now));
  }

  lemma Rest(cfg: ValidConfig, events: seq<Poll>, s: State, u: State, was: Time, t: Time) returns (after: seq<Poll>)
    requires Reached(cfg, events, s, u, was) && was <= t
    requires forall m :: m in s.obs ==> s.obs[m].seenAt < t - KEEP_OBSERVATION
    requires forall r :: r in s.rows ==> r.at < t - KEEP_ALERT
    ensures Reached(cfg, after, State(map[], [], s.log), u, t)
  {
    Extend(cfg, events, s, u, was, Idle(t));
    IdleForgets(cfg, s, t);
    assert Step(cfg, u, Idle(t).(pruned := false)) == u;
    after := events + [Idle(t)];
  }

  lemma Start(cfg: ValidConfig)
    ensures Reached(cfg, [], Empty, Empty, 0.0)
  {
    assert NeverPruned([]) == [];
  }

  /** Both runs alert coin 1 at 0. */
  lemma AlertAtZero(cfg: ValidConfig) returns (events: seq<Poll>, s: State)
    requires cfg.prevMaxAge >= 0.0
    ensures Reached(cfg, events, s, s, 0.0)
    ensures s.rows == [Row(0.0, Jump(cfg))] && s.log == [Montage(0.0, [Jump(cfg)])]
    ensures forall m :: m in s.obs ==> s.obs[m].seenAt == 0.0
  {
    Start(cfg);
    var one, u := FirstSight(cfg, [], Empty, Empty, 0.0, 1.0, 0.0);
    var u';
    events, s, u' := SecondSight(cfg, one, u, u, 0.0);
    assert s.log == [Montage(0.0, [Jump(cfg)])];
  }

  /** The same coin is alerted at 0 and, the history gone, again at `t`; with the history kept
      the second alert is stopped if the cooldown or the window reaches that far. */
  lemma HistoryIsForgotten(cfg: ValidConfig, t: Time) returns (events: seq<Poll>)
    requires t > KEEP_ALERT && cfg.prevMaxAge >= 0.0
    ensures ClockRuns(events) && Run(cfg, events).log == [Montage(0.0, [Jump(cfg)]), Montage(t, [Jump(cfg)])]
    ensures t <= cfg.Limit().cooldown || t < cfg.Window() ==> |Run(cfg, NeverPruned(events)).log| == 1
  {
    var first, s := AlertAtZero(cfg);
    var rested := Rest(cfg, first, s, s, 0.0, t);
    events := AlertAgain(cfg, rested, s, t);
  }

  lemma AlertAgain(cfg: ValidConfig, rested: seq<Poll>, u: State, t: Time) returns (events: seq<Poll>)
    requires cfg.prevMaxAge >= 0.0 && Reached(cfg, rested, State(map[], [], [Montage(0.0, [Jump(cfg)])]), u, t)
    requires u.rows == [Row(0.0, Jump(cfg))] && u.log == [Montage(0.0, [Jump(cfg)])]
    ensures ClockRuns(events) && Run(cfg, events).log == [Montage(0.0, [Jump(cfg)]), Montage(t, [Jump(cfg)])]
    ensures t <= cfg.Limit().cooldown || t < cfg.Window() ==> |Run(cfg, NeverPruned(events)).log| == 1
  {
    var log := [Montage(0.0, [Jump(cfg)])];
    var seen, v := FirstSight(cfg, rested, State(map[], [], log), u, t, 1.0, t);
    var s', v';
    events, s', v' := SecondSight(cfg, seen, State(map[1 := Obs(Some(1.0), t, true)], [], log), v, t);
    assert s'.log == [Montage(0.0, [Jump(cfg)]), Montage(t, [Jump(cfg)])];
  }

  // ---------------------------------------------------------------- a detector that cannot fire

  ghost predicate SeenBy(obs: Observations, now: Time)
  {
    forall m :: m in obs ==> obs[m].seenAt <= now
  }

  lemma {:induction false} UpsertedSeenBy(obs: Observations, entries: seq<Entry>, top5: set<Mint>, now: Time)
    requires SeenBy(obs, now)
    ensures SeenBy(Upserted(obs, entries, top5, now), now)
    decreases |entries|
  {
    if entries != [] {
      UpsertedSeenBy(obs, entries[..|entries| - 1], top5, now);
    }
  }

  lemma {:induction false} NothingFresh(th: Thresholds, obs: Observations, rows: seq<Row>, top5: set<Mint>,
                                        ranked: seq<Scored>, now: Time)
    requires th.prevMaxAge < 0.0 && SeenBy(obs, now)
    ensures Candidates(th, obs, rows, top5, ranked, now) == []
    decreases |ranked|
  {
    if ranked != [] {
      NothingFresh(th, obs, rows, top5, ranked[..|ranked| - 1], now);
    }
  }

  lemma SilentStep(cfg: ValidConfig, s: State, e: Poll)
    requires cfg.prevMaxAge < 0.0 && SeenBy(s.obs, e.now) && s.log == []
    ensures Step(cfg, s, e).log == [] && SeenBy(Step(cfg, s, e).obs, e.now)
  {
    if e.raw.Some? {
      var entries := FirstSeen(e.raw.value);
      UpsertedSeenBy(s.obs, entries, Top5(Ranked(entries)), e.now);
      NothingFresh(cfg.Limit(), s.obs, s.rows, Top5(Ranked(entries)), Ranked(entries), e.now);
      assert Recorded(cfg, s, entries, e) == [];
    }
  }

  /** With a negative freshness bound nothing ever goes out. */
  lemma {:induction false} NegativeAgeIsSilent(cfg: ValidConfig, events: seq<Poll>, now: Time)
    requires cfg.prevMaxAge < 0.0 && ClockRuns(events) && (events != [] ==> events[|events| - 1].now <= now)
    ensures Run(cfg, events).log == [] && SeenBy(Run(cfg, events).obs, now)
    decreases |events|
  {
    if events != [] {
      var n := |events| - 1;
      NegativeAgeIsSilent(cfg, events[..n], events[n].now);
      SilentStep(cfg, Run(cfg, events[..n]), events[n]);
    }
  }

  function LastClock(events: seq<Poll>): Time { if events == [] then 0.0 else events[|events| - 1].now }

  // ---------------------------------------------------------------- exact conditions

  /** The cooldown holds over every run exactly when it fits in what is kept (or the detector can
      never fire). */
  lemma CooldownHoldsIff(cfg: ValidConfig)
    ensures cfg.prevMaxAge < 0.0 || cfg.Limit().cooldown <= KEEP_ALERT <==>
      forall events: seq<Poll> :: ClockRuns(events) ==> CooldownKept(Run(cfg, events).log, cfg.Limit().cooldown)
  {
    var cooldown := cfg.Limit().cooldown;
    if cfg.prevMaxAge < 0.0 {
      forall events: seq<Poll> | ClockRuns(events) ensures CooldownKept(Run(cfg, events).log, cooldown) {
        NegativeAgeIsSilent(cfg, events, LastClock(events));
      }
    } else if cooldown <= KEEP_ALERT {
      forall events: seq<Poll> | ClockRuns(events) ensures CooldownKept(Run(cfg, events).log, cooldown) {
        EveryRunKeepsLimits(cfg, events);
      }
    } else {
      var events := HistoryIsForgotten(cfg, cooldown);
      var log := Run(cfg, events).log;
      assert log[0].alerts[0].mint == log[1].alerts[0].mint && log[1].at - log[0].at == cooldown;
      assert !CooldownKept(log, cooldown);
    }
  }

  /** A time past the retention and inside the window. */
  function Between(cfg: ValidConfig): (t: Time)
    requires cfg.Window() > KEEP_ALERT
    ensures KEEP_ALERT < t < cfg.Window()
  {
    (KEEP_ALERT + cfg.Window()) / 2.0
  }

  /** So does the montage window. */
  lemma WindowHoldsIff(cfg: ValidConfig)
    ensures cfg.prevMaxAge < 0.0 || cfg.Window() <= KEEP_ALERT <==>
      forall events: seq<Poll> :: ClockRuns(events) ==> WindowKept(Run(cfg, events).log, cfg.Window())
  {
    if cfg.prevMaxAge < 0.0 {
      forall events: seq<Poll> | ClockRuns(events) ensures WindowKept(Run(cfg, events).log, cfg.Window()) {
        NegativeAgeIsSilent(cfg, events, LastClock(events));
      }
    } else if cfg.Window() <= KEEP_ALERT {
      forall events: seq<Poll> | ClockRuns(events) ensures WindowKept(Run(cfg, events).log, cfg.Window()) {
        EveryRunKeepsLimits(cfg, events);
      }
    } else {
      var t := Between(cfg);
      var events := HistoryIsForgotten(cfg, t);
      var log := Run(cfg, events).log;
      assert log[1].at - log[0].at == t;
      assert !WindowKept(log, cfg.Window());
    }
  }

  /** An observation pruned though the detector would still have used it. */
  lemma ObservationIsForgotten(cfg: ValidConfig) returns (events: seq<Poll>)
    requires cfg.prevMaxAge > KEEP_OBSERVATION
    ensures ClockRuns(events) && Run(cfg, events).log == [] && Run(cfg, NeverPruned(events)).log != []
  {
    var t := cfg.prevMaxAge;
    Start(cfg);
    var one, u := FirstSight(cfg, [], Empty, Empty, 0.0, 1.0, 0.0);
    var rested := Rest(cfg, one, u, u, 0.0, t);
    events := rested + [OneCoin(Big(cfg), t)];
    Extend(cfg, rested, Empty, u, t, OneCoin(Big(cfg), t));
    FirstSightIsQuiet(cfg, Empty, Big(cfg), t);
    JumpGoesOut(cfg, u, t);
  }

  ghost predicate PruningInvisible(cfg: ValidConfig)
  {
    forall events: seq<Poll> :: ClockRuns(events) ==> Run(cfg, events).log == Run(cfg, NeverPruned(events)).log
  }

  /** Pruning changes no decision in any run exactly when every window fits the retention (or
      the detector can never fire). */
  lemma PruningInvisibleIff(cfg: ValidConfig)
    ensures PruningInvisible(cfg) <==> cfg.prevMaxAge < 0.0 || Fits(cfg)
  {
    if cfg.prevMaxAge < 0.0 {
      forall events: seq<Poll> | ClockRuns(events) ensures Run(cfg, events).log == Run(cfg, NeverPruned(events)).log {
        NegativeAgeIsSilent(cfg, events, LastClock(events));
        NegativeAgeIsSilent(cfg, NeverPruned(events), LastClock(events));
      }
    } else if Fits(cfg) {
      forall events: seq<Poll> | ClockRuns(events) ensures Run(cfg, events).log == Run(cfg, NeverPruned(events)).log {
        PruningChangesNothing(cfg, events, LastClock(events));
      }
    } else if cfg.prevMaxAge > KEEP_OBSERVATION {
      var events := ObservationIsForgotten(cfg);
    } else {
      var t := if cfg.Limit().cooldown > KEEP_ALERT then cfg.Limit().cooldown else Between(cfg);
      var events := HistoryIsForgotten(cfg, t);
      assert Run(cfg, events).log != Run(cfg, NeverPruned(events)).log;
    }
  }
}
