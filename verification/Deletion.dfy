/** Removal verdicts: inferred from windows and absences, accrued over passes, withdrawn on
    reappearance. */
module Deletion {
  import opened ArchiveStore

  const MIN_EVENTS := 2
  const MIN_SPREAD_MS := 3_600_000

  // ---------------------------------------------------------------- absence

  predicate SurfaceFor(w: Window, mint: Mint)
  {
    (w.route == Recent && w.scope.None?) || (w.route == ListMint && w.scope == Some(mint))
  }

  /** Strictly inside: a row on a window's edge may live on the neighbouring page. */
  predicate Spans(w: Window, t: nat)
  {
    w.oldest.Some? && w.newest.Some? && w.oldest.value < t < w.newest.value
  }

  /** `f.t_response_ms > (last_sighting_ms or 0)`. */
  ghost predicate NewerThanSightings(db: Db, c: CalloutId, t: nat)
  {
    t > 0 && forall s :: s in db.sightings && s.0 == c && s.1 in db.fetches ==> db.fetches[s.1].t < t
  }

  /** Fetch `f` walked through the moment of callout `c` on a deletion surface, after its last sighting. */
  ghost predicate Walked(db: Db, c: CalloutId, f: FetchId)
  {
    && c in db.callouts && db.callouts[c].tEvent.Some?
    && f in db.windows && f in db.fetches && db.fetches[f].status == 200
    && SurfaceFor(db.windows[f], db.callouts[c].firsts.mint)
    && Spans(db.windows[f], db.callouts[c].tEvent.value)
    && NewerThanSightings(db, c, db.fetches[f].t)
  }

  /** And the tables hold no sighting of it there. */
  ghost predicate AbsentIn(db: Db, c: CalloutId, f: FetchId)
  {
    Walked(db, c, f) && (c, f) !in db.sightings
  }

  ghost function AbsentEvents(db: Db, c: CalloutId): set<FetchId>
  {
    set f | f in db.windows && AbsentIn(db, c, f)
  }

  /** A body's window spans a moment exactly when one of its rows is stamped before it and one
      after it, refused rows included; a row at the moment itself is neither. */
  lemma BodySpansIff(b: Body, t: nat)
    ensures Spans(Window(b.route, b.scope, MinStamp(b.rows), MaxStamp(b.rows)), t) <==>
      && (exists i :: 0 <= i < |b.rows| && b.rows[i].createdAt.Some? && b.rows[i].createdAt.value < t)
      && (exists j :: 0 <= j < |b.rows| && b.rows[j].createdAt.Some? && b.rows[j].createdAt.value > t)
  {
    var oldest, newest := MinStamp(b.rows), MaxStamp(b.rows);
    if oldest.Some? {
      var i :| 0 <= i < |b.rows| && b.rows[i].createdAt == oldest;
    }
    if newest.Some? {
      var j :| 0 <= j < |b.rows| && b.rows[j].createdAt == newest;
    }
  }

  // ---------------------------------------------------------------- the verdict bar

  datatype Event = Event(f: FetchId, route: Route, t: nat)

  /** At least two events, an hour apart somewhere, on more than one surface. */
  ghost predicate RemovedBar(events: set<Event>)
  {
    && |events| >= MIN_EVENTS
    && Spread(events)
    && OnTwoRoutes(events)
  }

  ghost function Classification(events: set<Event>): Verdict
  {
    if RemovedBar(events) then Removed else UnknownAbsent
  }

  ghost predicate NoRepeats(events: seq<Event>)
  {
    forall i, j :: 0 <= i < j < |events| ==> events[i] != events[j]
  }

  ghost function AsSet(events: seq<Event>): set<Event>
  {
    set e | e in events
  }

  lemma {:induction false} AsSetSize(events: seq<Event>)
    requires NoRepeats(events)
    ensures |AsSet(events)| == |events|
  {
    if events == [] {
      assert AsSet(events) == {};
    } else {
      var n := |events| - 1;
      AsSetSize(events[..n]);
      assert events == events[..n] + [events[n]];
      assert AsSet(events) == AsSet(events[..n]) + {events[n]};
      assert events[n] !in AsSet(events[..n]);
    }
  }

  /** Positions of an earliest and a latest event. */
  method Extremes(events: seq<Event>) returns (lo: nat, hi: nat)
    requires events != []
    ensures lo < |events| && hi < |events|
    ensures forall i :: 0 <= i < |events| ==> events[lo].t <= events[i].t <= events[hi].t
  {
    lo, hi := 0, 0;
    for n := 1 to |events|
      invariant hi < |events| && lo < |events|
      invariant forall i :: 0 <= i < n ==> events[lo].t <= events[i].t <= events[hi].t
    {
      if events[hi].t < events[n].t { hi := n; }
      if events[n].t < events[lo].t { lo := n; }
    }
  }

  method Surfaces(events: seq<Event>) returns (surfaces: set<Route>)
    ensures forall i :: 0 <= i < |events| ==> events[i].route in surfaces
    ensures forall r :: r in surfaces ==> exists i :: 0 <= i < |events| && events[i].route == r
  {
    surfaces := {};
    for n := 0 to |events|
      invariant forall i :: 0 <= i < n ==> events[i].route in surfaces
      invariant forall r :: r in surfaces ==> exists i :: 0 <= i < n && events[i].route == r
    {
      surfaces := surfaces + {events[n].route};
    }
  }

  ghost predicate Spread(events: set<Event>)
  {
    exists a, b :: a in events && b in events && a.t - b.t >= MIN_SPREAD_MS
  }

  lemma SpreadIsExtremes(events: seq<Event>, lo: nat, hi: nat)
    requires lo < |events| && hi < |events|
    requires forall i :: 0 <= i < |events| ==> events[lo].t <= events[i].t <= events[hi].t
    ensures Spread(AsSet(events)) <==> events[hi].t - events[lo].t >= MIN_SPREAD_MS
  {
    assert events[hi] in AsSet(events) && events[lo] in AsSet(events);
  }

  /** `classify`: count, spread between the extremes, and distinct surfaces. */
  method Classify(events: seq<Event>) returns (v: Verdict)
    requires NoRepeats(events)
    ensures v == Classification(AsSet(events))
  {
    AsSetSize(events);
    if |events| < MIN_EVENTS {
      return UnknownAbsent;
    }
    var lo, hi := Extremes(events);
    var surfaces := Surfaces(events);
    SpreadIsExtremes(events, lo, hi);
    TwoSurfaces(events, surfaces);
    if events[hi].t - events[lo].t >= MIN_SPREAD_MS && |surfaces| >= 2 {
      return Removed;
    }
    v := UnknownAbsent;
  }

  lemma TwoElements(s: set<Route>) returns (a: Route, b: Route)
    requires |s| >= 2
    ensures a in s && b in s && a != b
  {
    a :| a in s;
    var rest := s - {a};
    assert |rest| >= 1;
    b :| b in rest;
  }

  lemma AtLeastTwo(s: set<Route>, a: Route, b: Route)
    requires a in s && b in s && a != b
    ensures |s| >= 2
  {
    assert s == {a, b} + (s - {a, b});
    assert |{a, b}| == 2;
  }

  ghost predicate OnTwoRoutes(events: set<Event>)
  {
    exists a, b :: a in events && b in events && a.route != b.route
  }

  lemma TwoSurfaces(events: seq<Event>, surfaces: set<Route>)
    requires forall i :: 0 <= i < |events| ==> events[i].route in surfaces
    requires forall r :: r in surfaces ==> exists i :: 0 <= i < |events| && events[i].route == r
    ensures |surfaces| >= 2 <==> OnTwoRoutes(AsSet(events))
  {
    if |surfaces| >= 2 {
      var r, q := TwoElements(surfaces);
      var i :| 0 <= i < |events| && events[i].route == r;
      var j :| 0 <= j < |events| && events[j].route == q;
      assert events[i] in AsSet(events) && events[j] in AsSet(events);
    }
    if OnTwoRoutes(AsSet(events)) {
      var a, b :| a in AsSet(events) && b in AsSet(events) && a.route != b.route;
      AtLeastTwo(surfaces, a.route, b.route);
    }
  }

  /** More evidence never lowers the verdict. */
  lemma BarIsMonotone(a: set<Event>, b: set<Event>)
    requires RemovedBar(a) && a <= b
    ensures RemovedBar(b)
  {
    assert b == a + (b - a);
  }

  // ---------------------------------------------------------------- one pass

  ghost function EventsOf(db: Db, c: CalloutId): set<Event>
  {
    set f | f in AbsentEvents(db, c) :: Event(f, db.windows[f].route, db.fetches[f].t)
  }

  ghost function VerdictOf(db: Db, c: CalloutId): Verdict
  {
    Classification(EventsOf(db, c))
  }

  /** Young enough for a window to span it, or already holding a verdict. */
  predicate Evaluated(db: Db, now: nat, horizon: nat, c: CalloutId)
  {
    && c in db.callouts && db.callouts[c].tEvent.Some?
    && (db.callouts[c].tEvent.value + horizon >= now || c in db.verdicts)
  }

  /** What a pass leaves for callout `c`. */
  ghost predicate Judged(before: Db, after: Db, now: nat, c: CalloutId)
  {
    && (c in after.verdicts <==> AbsentEvents(before, c) != {})
    && (c in after.verdicts ==>
        after.verdicts[c].verdict == VerdictOf(before, c) && after.verdicts[c].evidence == AbsentEvents(before, c))
    && (c in after.verdicts ==> after.verdicts[c].at == if Standing(before, c) then before.verdicts[c].at else now)
  }

  /** The row already says what the pass finds; it keeps its date. */
  ghost predicate Standing(db: Db, c: CalloutId)
  {
    c in db.verdicts && db.verdicts[c].verdict == VerdictOf(db, c) && db.verdicts[c].evidence == AbsentEvents(db, c)
  }

  ghost predicate Untouched(before: Db, after: Db, c: CalloutId)
  {
    (c in after.verdicts <==> c in before.verdicts) && (c in after.verdicts ==> after.verdicts[c] == before.verdicts[c])
  }

  /** A pass rejudges exactly the evaluated callouts and touches no other table. */
  ghost predicate IsPass(before: Db, after: Db, now: nat, horizon: nat)
  {
    && after == before.(verdicts := after.verdicts)
    && forall c: CalloutId :: PassOn(before, after, now, horizon, c)
  }

  ghost predicate PassOn(before: Db, after: Db, now: nat, horizon: nat, c: CalloutId)
  {
    if Evaluated(before, now, horizon, c) then Judged(before, after, now, c) else Untouched(before, after, c)
  }

  /** The rows of `absent_events` for one callout, in response order, as the engine returns them. */
  ghost predicate IsEventRows(db: Db, c: CalloutId, rows: seq<Event>)
  {
    NoRepeats(rows) && AsSet(rows) == EventsOf(db, c)
  }

  function FetchSet(rows: seq<Event>): set<FetchId>
  {
    set e | e in rows :: e.f
  }

  lemma FetchSetIsAbsent(db: Db, c: CalloutId, rows: seq<Event>)
    requires IsEventRows(db, c, rows)
    ensures FetchSet(rows) == AbsentEvents(db, c)
    ensures rows == [] <==> AbsentEvents(db, c) == {}
  {
    forall f
      ensures f in FetchSet(rows) <==> f in AbsentEvents(db, c)
    {
      if f in FetchSet(rows) {
        var e :| e in rows && e.f == f;
        assert e in AsSet(rows);
      }
      if f in AbsentEvents(db, c) {
        var e := Event(f, db.windows[f].route, db.fetches[f].t);
        assert e in EventsOf(db, c);
        assert e in AsSet(rows);
        assert e in rows;
      }
    }
    if rows != [] {
      assert rows[0].f in FetchSet(rows);
    }
    if rows == [] {
      assert FetchSet(rows) == {};
    }
  }

  /** `confirm` are the mints to probe on their own list. */
  datatype Summary = Summary(evaluated: nat, removed: nat, unknownAbsent: nat, cleared: nat, confirm: set<Mint>)

  /** What one callout adds to the summary: a verdict removed or unknown, a verdict cleared, or
      nothing; an unknown seen only from the firehose asks for a probe of its mint. */
  ghost function Tallied(db: Db, c: CalloutId, s: Summary): Summary
  {
    var next := s.(evaluated := s.evaluated + 1);
    if AbsentEvents(db, c) == {} then (if c in db.verdicts then next.(cleared := s.cleared + 1) else next)
    else if VerdictOf(db, c) == Removed then next.(removed := s.removed + 1)
    else
      var probe := c in db.callouts && OnlyRecent(EventsOf(db, c));
      next.(unknownAbsent := s.unknownAbsent + 1,
            confirm := if probe then s.confirm + {db.callouts[c].firsts.mint} else s.confirm)
  }

  ghost predicate OnlyRecent(events: set<Event>)
  {
    forall e :: e in events ==> e.route == Recent
  }

  ghost function SummaryOf(db: Db, candidates: seq<CalloutId>): Summary
  {
    if candidates == [] then Summary(0, 0, 0, 0, {})
    else Tallied(db, candidates[|candidates| - 1], SummaryOf(db, candidates[..|candidates| - 1]))
  }

  predicate NoTwice(cs: seq<CalloutId>)
  {
    forall i, j :: 0 <= i < j < |cs| ==> cs[i] != cs[j]
  }

  ghost predicate Gives(db: Db, c: CalloutId, v: Verdict)
  {
    AbsentEvents(db, c) != {} && VerdictOf(db, c) == v
  }

  ghost predicate Clears(db: Db, c: CalloutId)
  {
    AbsentEvents(db, c) == {} && c in db.verdicts
  }

  ghost predicate AsksProbe(db: Db, c: CalloutId, mint: Mint)
  {
    && Gives(db, c, UnknownAbsent) && c in db.callouts && db.callouts[c].firsts.mint == mint
    && forall e :: e in EventsOf(db, c) ==> e.route == Recent
  }

  ghost function Giving(db: Db, cs: seq<CalloutId>, v: Verdict): set<CalloutId>
  {
    set c | c in cs && Gives(db, c, v)
  }

  ghost function Clearing(db: Db, cs: seq<CalloutId>): set<CalloutId>
  {
    set c | c in cs && Clears(db, c)
  }

  /** One more candidate, in the set or not. */
  lemma OneMore<T>(less: set<T>, all: set<T>, x: T, hit: bool)
    requires x !in less && forall y :: y in all <==> (y in less || (hit && y == x))
    ensures |all| == |less| + if hit then 1 else 0
  {
    if hit {
      assert all == less + {x};
    } else {
      assert all == less;
    }
  }

  lemma GivingGrows(db: Db, cs: seq<CalloutId>, c: CalloutId, v: Verdict)
    requires c !in cs
    ensures |Giving(db, cs + [c], v)| == |Giving(db, cs, v)| + if Gives(db, c, v) then 1 else 0
  {
    assert forall d :: d in cs + [c] <==> d in cs || d == c;
    OneMore(Giving(db, cs, v), Giving(db, cs + [c], v), c, Gives(db, c, v));
  }

  lemma ClearingGrows(db: Db, cs: seq<CalloutId>, c: CalloutId)
    requires c !in cs
    ensures |Clearing(db, cs + [c])| == |Clearing(db, cs)| + if Clears(db, c) then 1 else 0
  {
    assert forall d :: d in cs + [c] <==> d in cs || d == c;
    OneMore(Clearing(db, cs), Clearing(db, cs + [c]), c, Clears(db, c));
  }

  /** The summary counts the callouts judged removed, unknown and cleared, and lists the mints of
      the unknown ones seen absent from the firehose only. */
  lemma {:induction false} SummaryCounts(db: Db, cs: seq<CalloutId>)
    requires NoTwice(cs)
    ensures var s := SummaryOf(db, cs);
      && s.evaluated == |cs| && s.cleared == |Clearing(db, cs)|
      && s.removed == |Giving(db, cs, Removed)| && s.unknownAbsent == |Giving(db, cs, UnknownAbsent)|
      && forall mint :: mint in s.confirm <==> exists c :: c in cs && AsksProbe(db, c, mint)
  {
    if cs == [] {
      assert Giving(db, cs, Removed) == {} && Giving(db, cs, UnknownAbsent) == {} && Clearing(db, cs) == {};
    } else {
      var n := |cs| - 1;
      SummaryCounts(db, cs[..n]);
      assert cs == cs[..n] + [cs[n]];
      GivingGrows(db, cs[..n], cs[n], Removed);
      GivingGrows(db, cs[..n], cs[n], UnknownAbsent);
      ClearingGrows(db, cs[..n], cs[n]);
      var before, after := SummaryOf(db, cs[..n]), SummaryOf(db, cs);
      forall mint
        ensures mint in after.confirm <==> exists c :: c in cs && AsksProbe(db, c, mint)
      {
        ProbeGrows(db, cs[n], before, mint);
        assert forall c :: c in cs <==> c in cs[..n] || c == cs[n];
      }
    }
  }

  lemma ProbeGrows(db: Db, c: CalloutId, s: Summary, mint: Mint)
    ensures mint in Tallied(db, c, s).confirm <==> mint in s.confirm || AsksProbe(db, c, mint)
  {
  }

  /** Whether the firehose is the only surface of these events. */
  method FirehoseOnly(events: seq<Event>) returns (r: bool)
    ensures r <==> OnlyRecent(AsSet(events))
  {
    r := true;
    for n := 0 to |events|
      invariant r <==> forall i :: 0 <= i < n ==> events[i].route == Recent
    {
      r := r && events[n].route == Recent;
    }
    if !r {
      var i :| 0 <= i < |events| && events[i].route != Recent;
      assert events[i] in AsSet(events);
    }
  }

  /** One callout of a pass: clear its row, or bring it up to date, and count it. */
  method Rejudge(store: Store, ghost start: Db, now: nat, c: CalloutId, events: seq<Event>, s: Summary)
    returns (r: Summary)
    requires store.db == start.(verdicts := store.db.verdicts) && Untouched(start, store.db, c)
    requires c in start.callouts && IsEventRows(start, c, events)
    modifies store`db
    ensures store.db == start.(verdicts := store.db.verdicts)
    ensures Judged(start, store.db, now, c) && r == Tallied(start, c, s)
    ensures forall d :: d != c ==> Untouched(old(store.db), store.db, d)
  {
    FetchSetIsAbsent(start, c, events);
    r := s.(evaluated := s.evaluated + 1);
    if events == [] {
      if c in store.db.verdicts {
        store.db := store.db.(verdicts := store.db.verdicts - {c});
        r := r.(cleared := r.cleared + 1);
      }
    } else {
      var verdict := Classify(events);
      var evidence := FetchSet(events);
      var prior := store.db.verdicts;
      if c !in prior || prior[c].verdict != verdict || prior[c].evidence != evidence {
        store.db := store.db.(verdicts := store.db.verdicts[c := VerdictRow(verdict, evidence, now)]);
      }
      if verdict == Removed {
        r := r.(removed := r.removed + 1);
      } else {
        r := r.(unknownAbsent := r.unknownAbsent + 1);
        var recentOnly := FirehoseOnly(events);
        if recentOnly {
          r := r.(confirm := r.confirm + {store.db.callouts[c].firsts.mint});
        }
      }
    }
  }

  /** `run_pass`: candidates in engine order, one query each, then clear or upsert. */
  method RunPass(store: Store, now: nat, horizon: nat, candidates: seq<CalloutId>, query: CalloutId -> seq<Event>)
    returns (summary: Summary)
    requires forall c :: c in candidates <==> Evaluated(store.db, now, horizon, c)
    requires NoTwice(candidates)
    requires forall c :: Evaluated(store.db, now, horizon, c) ==> IsEventRows(store.db, c, query(c))
    modifies store`db
    ensures IsPass(old(store.db), store.db, now, horizon)
    ensures summary == SummaryOf(old(store.db), candidates)
  {
    ghost var start := store.db;
    summary := Summary(0, 0, 0, 0, {});
    for n := 0 to |candidates|
      invariant store.db == start.(verdicts := store.db.verdicts)
      invariant summary == SummaryOf(start, candidates[..n])
      invariant forall c: CalloutId ::
        if c in candidates[..n] then Judged(start, store.db, now, c) else Untouched(start, store.db, c)
    {
      var c := candidates[n];
      assert c in candidates;
      assert candidates[..n + 1] == candidates[..n] + [c] && candidates[..n + 1][..n] == candidates[..n];
      assert Untouched(start, store.db, c) by {
        assert c !in candidates[..n];
      }
      ghost var before := store.db;
      summary := Rejudge(store, start, now, c, query(c), summary);
      forall d: CalloutId
        ensures if d in candidates[..n + 1] then Judged(start, store.db, now, d) else Untouched(start, store.db, d)
      {
        if d != c {
          assert if d in candidates[..n] then Judged(start, before, now, d) else Untouched(start, before, d);
          assert Untouched(before, store.db, d);
        }
      }
    }
    assert candidates[..|candidates|] == candidates;
    forall c: CalloutId
      ensures PassOn(start, store.db, now, horizon, c)
    {
      assert c in candidates <==> Evaluated(start, now, horizon, c);
    }
  }

  // ---------------------------------------------------------------- runs

  /** Growth without reappearance: tables only gain rows, and `c` is not sighted again. */
  ghost predicate GrowsWithout(before: Db, after: Db, c: CalloutId)
  {
    && (forall f :: f in before.fetches ==> f in after.fetches && after.fetches[f] == before.fetches[f])
    && (forall f :: f in before.windows ==> f in after.windows && after.windows[f] == before.windows[f])
    && (forall s :: s in after.sightings && s.0 == c ==> s in before.sightings)
    && (forall s :: s in before.sightings ==> s.1 in before.fetches)
    && c in before.callouts && c in after.callouts
    && before.callouts[c].tEvent.Some? && after.callouts[c].tEvent == before.callouts[c].tEvent
    && after.callouts[c].firsts == before.callouts[c].firsts
  }

  lemma EvidenceOnlyGrows(before: Db, after: Db, c: CalloutId)
    requires GrowsWithout(before, after, c)
    ensures AbsentEvents(before, c) <= AbsentEvents(after, c)
    ensures EventsOf(before, c) <= EventsOf(after, c)
  {
    forall f | f in AbsentEvents(before, c)
      ensures f in AbsentEvents(after, c)
    {
      assert NewerThanSightings(after, c, after.fetches[f].t) by {
        forall s | s in after.sightings && s.0 == c && s.1 in after.fetches
          ensures after.fetches[s.1].t < after.fetches[f].t
        {
          assert s in before.sightings;
        }
      }
      assert AbsentIn(after, c, f);
    }
    forall e | e in EventsOf(before, c)
      ensures e in EventsOf(after, c)
    {
      var f :| f in AbsentEvents(before, c) && e == Event(f, before.windows[f].route, before.fetches[f].t);
      assert e == Event(f, after.windows[f].route, after.fetches[f].t);
    }
  }

  /** One step of the service: retain a response, derive from it, or run a pass. */
  datatype Op =
    | Retain(f: FetchId, fetch: Fetch)
    | DeriveBody(f: FetchId, route: Route, scope: Option<Mint>, rows: seq<FeedRow>)
    | Pass(now: nat, horizon: nat)

  /** Fetch ids are never reused, and a fetch is derived once, after it was retained. */
  ghost predicate Next(before: Db, op: Op, after: Db)
  {
    match op
    case Retain(f, fetch) => f !in before.fetches && after == before.(fetches := before.fetches[f := fetch])
    case DeriveBody(f, route, scope, rows) =>
      f in before.fetches && f !in before.windows && after == Derive(before, f, route, scope, rows)
    case Pass(now, horizon) => IsPass(before, after, now, horizon)
  }

  ghost predicate IsRun(states: seq<Db>, ops: seq<Op>)
  {
    && |states| == |ops| + 1
    && forall i :: 0 <= i < |ops| ==> Next(states[i], ops[i], states[i + 1])
  }

  /** What every reachable database satisfies. */
  ghost predicate Sound(db: Db)
  {
    && CountsAreRows(db)
    && (forall s :: s in db.sightings ==> s.1 in db.fetches)
    && (forall f :: f in db.windows ==> f in db.fetches)
    && (forall c :: c in db.verdicts ==> VerdictSound(db, c))
  }

  /** A fetch with a sighting of the callout is never evidence against it. */
  ghost predicate VerdictSound(db: Db, c: CalloutId)
    requires c in db.verdicts
  {
    && c in db.callouts && db.callouts[c].tEvent.Some?
    && forall f :: f in db.verdicts[c].evidence ==> f in db.windows && (c, f) !in db.sightings
  }

  lemma {:induction false} RowsStayInFetch(db: Db, rows: seq<FeedRow>, f: FetchId)
    ensures forall s :: s in RowsStep(db, rows, f).sightings ==> s in db.sightings || s.1 == f
    ensures RowsStep(db, rows, f).fetches == db.fetches && RowsStep(db, rows, f).windows == db.windows
    ensures RowsStep(db, rows, f).verdicts == db.verdicts
  {
    if rows != [] {
      RowsStayInFetch(db, rows[..|rows| - 1], f);
    }
  }

  lemma StepKeepsSound(before: Db, op: Op, after: Db)
    requires Sound(before) && Next(before, op, after)
    ensures Sound(after)
  {
    match op {
      case Retain(f, fetch) =>
        FetchKeepsCounts(before, after);
        forall c | c in after.verdicts ensures VerdictSound(after, c) {
          assert VerdictSound(before, c);
        }
      case DeriveBody(f, route, scope, rows) =>
        RowsStayInFetch(before, rows, f);
        RowsKeep(before, rows, f);
        WindowKeepsCounts(before, f, route, scope, rows);
        forall c | c in after.verdicts ensures VerdictSound(after, c) {
          assert VerdictSound(before, c);
        }
      case Pass(now, horizon) =>
        FetchKeepsCounts(before, after);
        forall c | c in after.verdicts ensures VerdictSound(after, c) {
          PassKeepsVerdictSound(before, after, now, horizon, c);
        }
    }
  }

  lemma PassKeepsVerdictSound(before: Db, after: Db, now: nat, horizon: nat, c: CalloutId)
    requires Sound(before) && IsPass(before, after, now, horizon) && c in after.verdicts
    ensures VerdictSound(after, c)
  {
    assert PassOn(before, after, now, horizon, c);
    assert c in before.verdicts ==> VerdictSound(before, c);
  }

  /** Every reachable database is sound: counters are rows, and no evidence is a fetch with a
      sighting of the callout. */
  lemma {:induction false} RunsAreSound(states: seq<Db>, ops: seq<Op>, n: nat)
    requires IsRun(states, ops) && states[0] == EmptyDb && n < |states|
    ensures Sound(states[n])
  {
    if n == 0 {
      assert forall c: CalloutId :: SightedIn(EmptyDb, c) == {};
    } else {
      RunsAreSound(states, ops, n - 1);
      StepKeepsSound(states[n - 1], ops[n - 1], states[n]);
    }
  }

  // ---------------------------------------------------------------- served but quarantined

  /** The body serves the callout: some row names it. */
  predicate Names(rows: seq<FeedRow>, c: CalloutId)
  {
    exists k :: 0 <= k < |rows| && rows[k].named == Some(c)
  }

  /** Some row naming the callout is accepted. */
  predicate Accepts(rows: seq<FeedRow>, c: CalloutId)
  {
    exists k :: 0 <= k < |rows| && rows[k].named == Some(c) && rows[k].Quarantined().None?
  }

  /** The body serves the callout, and every row naming it is quarantined. */
  predicate OnlyQuarantined(rows: seq<FeedRow>, c: CalloutId)
  {
    Names(rows, c) && forall k :: 0 <= k < |rows| && rows[k].named == Some(c) ==> rows[k].Quarantined().Some?
  }

  lemma {:induction false} SightingsOfBody(db: Db, rows: seq<FeedRow>, f: FetchId, c: CalloutId, g: FetchId)
    ensures (c, g) in RowsStep(db, rows, f).sightings <==> (c, g) in db.sightings || (g == f && Accepts(rows, c))
  {
    if rows != [] {
      var n := |rows| - 1;
      SightingsOfBody(db, rows[..n], f, c, g);
      assert Accepts(rows, c) <==>
        Accepts(rows[..n], c) || (rows[n].named == Some(c) && rows[n].Quarantined().None?) by {
        assert forall k :: 0 <= k < n ==> rows[..n][k] == rows[k];
      }
    }
  }

  /** Before the body is derived: the fetch it comes from would walk through the callout's moment,
      on a deletion surface and after its last sighting. */
  ghost predicate WouldWalk(db: Db, f: FetchId, route: Route, scope: Option<Mint>, rows: seq<FeedRow>, c: CalloutId)
  {
    var w := Window(route, scope, MinStamp(rows), MaxStamp(rows));
    && c in db.callouts && db.callouts[c].tEvent.Some?
    && f in db.fetches && db.fetches[f].status == 200
    && SurfaceFor(w, db.callouts[c].firsts.mint) && Spans(w, db.callouts[c].tEvent.value)
    && NewerThanSightings(db, c, db.fetches[f].t)
  }

  /** A body that serves a known callout, from a fetch that walked through its moment after its last
      sighting, is evidence against it if and only if every row naming it is quarantined: a refused
      row still widens the window, and leaves no sighting. */
  lemma ServedIsEvidenceIff(db: Db, f: FetchId, route: Route, scope: Option<Mint>, rows: seq<FeedRow>, c: CalloutId)
    requires CountsAreRows(db) && (c, f) !in db.sightings
    requires Names(rows, c) && WouldWalk(db, f, route, scope, rows, c)
    ensures AbsentIn(Derive(db, f, route, scope, rows), c, f) <==> OnlyQuarantined(rows, c)
  {
    var after := Derive(db, f, route, scope, rows);
    RowsStayInFetch(db, rows, f);
    SightingsOfBody(db, rows, f, c, f);
    if !Accepts(rows, c) {
      forall s | s in RowsStep(db, rows, f).sightings && s.0 == c
        ensures s in db.sightings
      {
        SightingsOfBody(db, rows, f, c, s.1);
        assert s == (c, s.1);
      }
      UnsightedUnchanged(db, rows, f, c);
      assert NewerThanSightings(after, c, after.fetches[f].t);
      assert AbsentIn(after, c, f);
    }
  }

  /** Step `i` derives a body that serves `c`. */
  ghost predicate ServesAt(ops: seq<Op>, i: nat, c: CalloutId)
  {
    i < |ops| && ops[i].DeriveBody? && Names(ops[i].rows, c)
  }

  ghost predicate AcceptsAt(ops: seq<Op>, i: nat, c: CalloutId, f: FetchId)
  {
    i < |ops| && ops[i].DeriveBody? && ops[i].f == f && Accepts(ops[i].rows, c)
  }

  /** In every run the sightings are exactly the accepted rows of the bodies derived so far. */
  lemma {:induction false} SightingsInRun(states: seq<Db>, ops: seq<Op>, n: nat, c: CalloutId, f: FetchId)
    requires IsRun(states, ops) && states[0] == EmptyDb && n < |states|
    ensures (c, f) in states[n].sightings <==> exists i: nat :: i < n && AcceptsAt(ops, i, c, f)
  {
    if n > 0 {
      SightingsInRun(states, ops, n - 1, c, f);
      assert Next(states[n - 1], ops[n - 1], states[n - 1 + 1]);
      if ops[n - 1].DeriveBody? {
        SightingsOfBody(states[n - 1], ops[n - 1].rows, ops[n - 1].f, c, f);
        assert (c, f) in states[n].sightings <==> (c, f) in states[n - 1].sightings || AcceptsAt(ops, n - 1, c, f);
      }
    }
  }

  /** A derived fetch has its window from then on. */
  lemma {:induction false} DerivedHasWindow(states: seq<Db>, ops: seq<Op>, i: nat, n: nat)
    requires IsRun(states, ops) && i < n < |states| && ops[i].DeriveBody?
    ensures ops[i].f in states[n].windows
    decreases n
  {
    assert Next(states[n - 1], ops[n - 1], states[n - 1 + 1]);
    if ops[n - 1].DeriveBody? {
      RowsStayInFetch(states[n - 1], ops[n - 1].rows, ops[n - 1].f);
    }
    if i + 1 < n {
      DerivedHasWindow(states, ops, i, n - 1);
    }
  }

  lemma DerivedOnce(states: seq<Db>, ops: seq<Op>, i: nat, j: nat)
    requires IsRun(states, ops) && i < |ops| && j < |ops| && ops[i].DeriveBody? && ops[j].DeriveBody?
    requires ops[i].f == ops[j].f
    ensures i == j
  {
    FreshAtDerive(states, ops, i);
    FreshAtDerive(states, ops, j);
    if i < j {
      DerivedHasWindow(states, ops, i, j);
    } else if j < i {
      DerivedHasWindow(states, ops, j, i);
    }
  }

  lemma FreshAtDerive(states: seq<Db>, ops: seq<Op>, j: nat)
    requires IsRun(states, ops) && j < |ops| && ops[j].DeriveBody?
    ensures ops[j].f !in states[j].windows
  {
    assert Next(states[j], ops[j], states[j + 1]);
  }

  /** Over any run: a fetch that served the callout is evidence against it if and only if it walked
      through its moment and every row of it that named the callout was quarantined. */
  lemma RunEvidenceIff(states: seq<Db>, ops: seq<Op>, n: nat, i: nat, c: CalloutId)
    requires IsRun(states, ops) && states[0] == EmptyDb && i < n < |states| && ServesAt(ops, i, c)
    ensures AbsentIn(states[n], c, ops[i].f) <==> Walked(states[n], c, ops[i].f) && OnlyQuarantined(ops[i].rows, c)
  {
    SightingsInRun(states, ops, n, c, ops[i].f);
    if (c, ops[i].f) in states[n].sightings {
      var j: nat :| j < n && AcceptsAt(ops, j, c, ops[i].f);
      DerivedOnce(states, ops, i, j);
    } else {
      assert !AcceptsAt(ops, i, c, ops[i].f);
    }
  }

  ghost predicate ServedEvidence(states: seq<Db>, ops: seq<Op>, n: nat, i: nat, c: CalloutId)
  {
    i < n < |states| && ServesAt(ops, i, c) && AbsentIn(states[n], c, ops[i].f)
  }

  ghost predicate QuarantinedWalk(states: seq<Db>, ops: seq<Op>, n: nat, i: nat, c: CalloutId)
  {
    i < n < |states| && ServesAt(ops, i, c) && OnlyQuarantined(ops[i].rows, c) && Walked(states[n], c, ops[i].f)
  }

  ghost predicate NoQuarantine(ops: seq<Op>)
  {
    forall i: nat, c: CalloutId :: ServesAt(ops, i, c) ==> !OnlyQuarantined(ops[i].rows, c)
  }

  /** A run in which no serving fetch is ever evidence, by its exact condition: no fetch whose rows
      naming the callout were all quarantined ever walks through its moment. Where no body refuses
      all its rows of a callout, that always holds. */
  lemma NoServedEvidenceIff(states: seq<Db>, ops: seq<Op>)
    requires IsRun(states, ops) && states[0] == EmptyDb
    ensures (forall n: nat, i: nat, c: CalloutId :: !ServedEvidence(states, ops, n, i, c))
      <==> (forall n: nat, i: nat, c: CalloutId :: !QuarantinedWalk(states, ops, n, i, c))
    ensures NoQuarantine(ops) ==> forall n: nat, i: nat, c: CalloutId :: !ServedEvidence(states, ops, n, i, c)
  {
    forall n: nat, i: nat, c: CalloutId
      ensures ServedEvidence(states, ops, n, i, c) <==> QuarantinedWalk(states, ops, n, i, c)
    {
      if i < n < |states| && ServesAt(ops, i, c) {
        RunEvidenceIff(states, ops, n, i, c);
      }
    }
  }

  /** Whatever stands in a verdict as evidence, its body accepted no row of the callout. */
  lemma VerdictEvidence(states: seq<Db>, ops: seq<Op>, n: nat, i: nat, c: CalloutId)
    requires IsRun(states, ops) && states[0] == EmptyDb && i < n < |states| && ServesAt(ops, i, c)
    requires c in states[n].verdicts && ops[i].f in states[n].verdicts[c].evidence
    ensures OnlyQuarantined(ops[i].rows, c)
  {
    RunsAreSound(states, ops, n);
    assert VerdictSound(states[n], c);
    SightingsInRun(states, ops, n, c, ops[i].f);
    assert !AcceptsAt(ops, i, c, ops[i].f);
  }

  /** A run in which the feed serves callout 7 in the middle of a page, with a malformed address, and
      the page counts as evidence that the callout is gone. */
  lemma QuarantinedRowIsEvidence() returns (states: seq<Db>, ops: seq<Op>)
    ensures IsRun(states, ops) && states[0] == EmptyDb && |states| == 5
    ensures ServesAt(ops, 3, 7) && ServedEvidence(states, ops, 4, 3, 7)
  {
    var good := FeedRow(Some(5), Some(7), Fields(1, 2, None, None, None, Lasts(None, None, None, None)));
    var bad := FeedRow(Some(5), Some(7), Malformed(1));
    var page := [FeedRow(Some(1), None, Malformed(1)), bad, FeedRow(Some(9), None, Malformed(1))];
    var s1 := EmptyDb.(fetches := map[0 := Fetch(100, 200)]);
    var s2 := Derive(s1, 0, Recent, None, [good]);
    FirstSight(s1, good);
    var s3 := s2.(fetches := s2.fetches[1 := Fetch(200, 200)]);
    var s4 := Derive(s3, 1, Recent, None, page);
    var first, second := DeriveBody(0, Recent, None, [good]), DeriveBody(1, Recent, None, page);
    states, ops := RunOfFour(Retain(0, Fetch(100, 200)), first, Retain(1, Fetch(200, 200)), second, s1, s2, s3, s4);
    RunsAreSound(states, ops, 3);
    assert page[1].named == Some(7);
    PageIsEvidence(s3, page);
  }

  lemma RunOfFour(a: Op, b: Op, c: Op, d: Op, s1: Db, s2: Db, s3: Db, s4: Db) returns (states: seq<Db>, ops: seq<Op>)
    requires Next(EmptyDb, a, s1) && Next(s1, b, s2) && Next(s2, c, s3) && Next(s3, d, s4)
    ensures IsRun(states, ops) && states == [EmptyDb, s1, s2, s3, s4] && ops == [a, b, c, d]
  {
    states, ops := [EmptyDb, s1, s2, s3, s4], [a, b, c, d];
  }

  lemma PageIsEvidence(db: Db, page: seq<FeedRow>)
    requires CountsAreRows(db) && db.sightings == {(7, 0)} && 7 in db.callouts && db.callouts[7].tEvent == Some(5)
    requires db.fetches == map[0 := Fetch(100, 200), 1 := Fetch(200, 200)]
    requires |page| == 3 && page[0].createdAt == Some(1) && page[1].createdAt == Some(5) && page[2].createdAt == Some(9)
    requires page[1].named == Some(7) && forall k :: 0 <= k < |page| ==> page[k].Quarantined().Some?
    ensures AbsentIn(Derive(db, 1, Recent, None, page), 7, 1)
  {
    assert page == [page[0], page[1], page[2]];
    PageStamps(page[0], page[1], page[2]);
    assert NewerThanSightings(db, 7, 200);
    ServedIsEvidenceIff(db, 1, Recent, None, page, 7);
  }

  lemma PageStamps(low: FeedRow, mid: FeedRow, high: FeedRow)
    requires low.createdAt == Some(1) && mid.createdAt == Some(5) && high.createdAt == Some(9)
    ensures MinStamp([low, mid, high]) == Some(1) && MaxStamp([low, mid, high]) == Some(9)
  {
    var page := [low, mid, high];
    assert page[0].createdAt == Some(1) && page[2].createdAt == Some(9);
  }

  lemma FirstSight(db: Db, row: FeedRow)
    requires db.callouts == map[] && db.sightings == {} && row.Accepted().Some?
    ensures var after := Derive(db, 0, Recent, None, [row]);
      && after.sightings == {(row.named.value, 0)} && row.named.value in after.callouts
      && after.callouts[row.named.value].tEvent == row.createdAt
      && after.fetches == db.fetches && after.verdicts == db.verdicts
      && after.windows.Keys == db.windows.Keys + {0}
  {
    var rows := [row];
    assert rows[..0] == [] && RowsStep(db, rows[..0], 0) == db;
  }

  /** Nothing in this step sighted `c` anew. */
  ghost predicate NotSighted(before: Db, after: Db, c: CalloutId)
  {
    forall s :: s in after.sightings && s.0 == c ==> s in before.sightings
  }

  lemma {:induction false} UnsightedUnchanged(db: Db, rows: seq<FeedRow>, f: FetchId, c: CalloutId)
    requires CountsAreRows(db) && c in db.callouts
    requires forall s :: s in RowsStep(db, rows, f).sightings && s.0 == c ==> s in db.sightings
    ensures c in RowsStep(db, rows, f).callouts && RowsStep(db, rows, f).callouts[c] == db.callouts[c]
  {
    if rows != [] {
      var n := |rows| - 1;
      RowsKeep(db, rows[..n], f);
      var before := RowsStep(db, rows[..n], f);
      RowKeeps(before, rows[n], f);
      UnsightedUnchanged(db, rows[..n], f, c);
      assert rows[n].Accepted().Some? && rows[n].Accepted().value.id == c ==> (c, f) in RowsStep(db, rows, f).sightings;
    }
  }

  /** A removed verdict backed by enough evidence in the tables. */
  ghost predicate HoldsRemoved(db: Db, c: CalloutId)
  {
    && c in db.verdicts && db.verdicts[c].verdict == Removed && c in db.callouts && db.callouts[c].tEvent.Some?
    && RemovedBar(EventsOf(db, c))
  }

  lemma StepKeepsRemoved(before: Db, op: Op, after: Db, c: CalloutId)
    requires Sound(before) && Next(before, op, after) && HoldsRemoved(before, c) && NotSighted(before, after, c)
    ensures HoldsRemoved(after, c)
  {
    match op {
      case Retain(f, fetch) =>
        EvidenceOnlyGrows(before, after, c);
        BarIsMonotone(EventsOf(before, c), EventsOf(after, c));
      case DeriveBody(f, route, scope, rows) =>
        RowsStayInFetch(before, rows, f);
        UnsightedUnchanged(before, rows, f, c);
        EvidenceOnlyGrows(before, after, c);
        BarIsMonotone(EventsOf(before, c), EventsOf(after, c));
      case Pass(now, horizon) =>
        assert PassOn(before, after, now, horizon, c);
        assert Judged(before, after, now, c);
        SameEvents(before, after, c);
        assert EventsOf(before, c) != {};
        var e :| e in EventsOf(before, c);
        assert e.f in AbsentEvents(before, c);
    }
  }

  lemma SameEvents(before: Db, after: Db, c: CalloutId)
    requires after == before.(verdicts := after.verdicts)
    ensures EventsOf(after, c) == EventsOf(before, c) && AbsentEvents(after, c) == AbsentEvents(before, c)
  {
    assert forall f :: AbsentIn(after, c, f) <==> AbsentIn(before, c, f);
  }

  /** Over any run, a removed verdict weakens or clears only if the callout was sighted again. */
  lemma {:induction false} RemovedRetreatsOnlyOnSighting(states: seq<Db>, ops: seq<Op>, n: nat, k: nat, c: CalloutId)
    requires IsRun(states, ops) && states[0] == EmptyDb && n <= k < |states|
    requires HoldsRemoved(states[n], c)
    requires forall i :: n <= i < k ==> NotSighted(states[i], states[i + 1], c)
    ensures HoldsRemoved(states[k], c)
    decreases k
  {
    if n < k {
      RemovedRetreatsOnlyOnSighting(states, ops, n, k - 1, c);
      RunsAreSound(states, ops, k - 1);
      assert NotSighted(states[k - 1], states[k - 1 + 1], c);
      StepKeepsRemoved(states[k - 1], ops[k - 1], states[k], c);
    }
  }

  /** A pass that emits `removed` has the evidence for it in the tables. */
  lemma PassBacksRemoved(before: Db, after: Db, now: nat, horizon: nat, c: CalloutId)
    requires IsPass(before, after, now, horizon) && Evaluated(before, now, horizon, c)
    requires c in after.verdicts && after.verdicts[c].verdict == Removed
    ensures HoldsRemoved(after, c)
  {
    assert PassOn(before, after, now, horizon, c);
    SameEvents(before, after, c);
  }
}
