/** The movers feed: a detector over the last poll, montages on a window, and caps and
    cooldowns read back from a history that is pruned after every cycle. */
module Feed {

  type Mint = nat
  type Time = real

  datatype Option<T> = None | Some(value: T)

  const HOUR: Time := 3_600.0
  const KEEP_OBSERVATION: Time := 86_400.0
  const KEEP_ALERT: Time := 14.0 * 86_400.0

  /** One board row; `v5` is the claimed five-minute volume. */
  datatype Entry = Entry(mint: Mint, v5: Option<real>)
  datatype Scored = Scored(mint: Mint, v5: real)
  datatype Obs = Obs(v5: Option<real>, seenAt: Time, inTop5: bool)
  datatype Reason = Accel | Top5Entry
  datatype Alert = Alert(mint: Mint, reason: Reason, v5: real, prevV5: Option<real>)
  datatype Row = Row(at: Time, alert: Alert)

  datatype Thresholds = Thresholds(
    minV5: real, accelRatio: real, top5MinV5: real, cooldown: Time, maxPerHour: int, prevMaxAge: Time)

  datatype Config = Config(
    minV5: real, accelRatio: real, top5MinV5: real, cooldownHours: real, montageMax: nat,
    windowMinutes: real, prevMaxAge: Time)
  {
    /** What `Config.load` accepts. */
    predicate Valid() { cooldownHours >= 2.0 && 1 <= montageMax <= 6 && windowMinutes >= 1.0 }

    function Window(): Time { windowMinutes * 60.0 }

    /** The hourly valve is derived: full montages at the window rate, and one more. */
    function Limit(): Thresholds
      requires Valid()
    {
      Thresholds(minV5, accelRatio, top5MinV5, cooldownHours * 3600.0,
                 montageMax * (Ceil(60.0 / windowMinutes) + 1), prevMaxAge)
    }
  }

  function Ceil(x: real): int { 0 - (0.0 - x).Floor }

  type ValidConfig = c: Config | c.Valid() witness Config(250.0, 1.6, 400.0, 2.0, 6, 12.0, 360.0)

  // ---------------------------------------------------------------- the board

  /** A malformed row is `None`; a mint counts once, where it is first seen. */
  function FirstSeen(raw: seq<Option<Entry>>): seq<Entry>
  {
    if raw == [] then []
    else
      var before, row := FirstSeen(raw[..|raw| - 1]), raw[|raw| - 1];
      if row.None? || row.value.mint in Mints(before) then before else before + [row.value]
  }

  function Mints(entries: seq<Entry>): set<Mint>
  {
    set e | e in entries :: e.mint
  }

  ghost predicate Distinct(entries: seq<Entry>)
  {
    forall i, j :: 0 <= i < j < |entries| ==> entries[i].mint != entries[j].mint
  }

  lemma {:induction false} FirstSeenOnce(raw: seq<Option<Entry>>)
    ensures Distinct(FirstSeen(raw))
    ensures forall r :: r in raw && r.Some? ==> r.value.mint in Mints(FirstSeen(raw))
    ensures forall e :: e in FirstSeen(raw) ==> Some(e) in raw
  {
    if raw != [] {
      var n := |raw| - 1;
      FirstSeenOnce(raw[..n]);
      assert raw == raw[..n] + [raw[n]];
      var before := FirstSeen(raw[..n]);
      assert forall e :: e in before ==> e.mint in Mints(before);
    }
  }

  method ParseMovers(raw: seq<Option<Entry>>) returns (entries: seq<Entry>)
    ensures entries == FirstSeen(raw)
  {
    entries := [];
    var seen: set<Mint> := {};
    for n := 0 to |raw|
      invariant entries == FirstSeen(raw[..n]) && seen == Mints(entries)
    {
      assert raw[..n + 1][..n] == raw[..n];
      if raw[n].Some? && raw[n].value.mint !in seen {
        seen := seen + {raw[n].value.mint};
        entries := entries + [raw[n].value];
      }
    }
    assert raw[..|raw|] == raw;
  }

  // ---------------------------------------------------------------- ranking

  function Insert(e: Scored, r: seq<Scored>): seq<Scored>
  {
    if r == [] || r[0].v5 <= e.v5 then [e] + r else [r[0]] + Insert(e, r[1..])
  }

  /** Rows with a volume, largest first, ties in board order. */
  function Ranked(entries: seq<Entry>): seq<Scored>
  {
    if entries == [] then []
    else if entries[0].v5.None? then Ranked(entries[1..])
    else Insert(Scored(entries[0].mint, entries[0].v5.value), Ranked(entries[1..]))
  }

  ghost predicate Descending(r: seq<Scored>)
  {
    forall i, j :: 0 <= i < j < |r| ==> r[i].v5 >= r[j].v5
  }

  ghost predicate DistinctScored(r: seq<Scored>)
  {
    forall i, j :: 0 <= i < j < |r| ==> r[i].mint != r[j].mint
  }

  /** The rows of one volume, in order. */
  ghost function Level(r: seq<Scored>, v: real): seq<Scored>
  {
    if r == [] then [] else If(r[0], v) + Level(r[1..], v)
  }

  ghost function BoardLevel(entries: seq<Entry>, v: real): seq<Scored>
  {
    if entries == [] then []
    else (if entries[0].v5 == Some(v) then [Scored(entries[0].mint, v)] else []) + BoardLevel(entries[1..], v)
  }

  lemma {:induction false} InsertMembers(e: Scored, r: seq<Scored>)
    ensures forall x :: x in Insert(e, r) <==> x == e || x in r
    decreases |r|
  {
    if !(r == [] || r[0].v5 <= e.v5) {
      InsertMembers(e, r[1..]);
      assert r == [r[0]] + r[1..];
    }
  }

  lemma ConsSorted(x: Scored, t: seq<Scored>)
    ensures Descending(t) && (forall y :: y in t ==> y.v5 <= x.v5) ==> Descending([x] + t)
    ensures DistinctScored(t) && (forall y :: y in t ==> y.mint != x.mint) ==> DistinctScored([x] + t)
  {
    assert forall i :: 0 <= i < |t| ==> t[i] in t;
  }

  lemma {:induction false} InsertSorted(e: Scored, r: seq<Scored>)
    requires Descending(r)
    ensures Descending(Insert(e, r))
    decreases |r|
  {
    if r == [] || r[0].v5 <= e.v5 {
      ConsSorted(e, r);
    } else {
      InsertSorted(e, r[1..]);
      InsertMembers(e, r[1..]);
      assert forall y :: y in r[1..] ==> y.v5 <= r[0].v5;
      ConsSorted(r[0], Insert(e, r[1..]));
    }
  }

  lemma {:induction false} InsertDistinct(e: Scored, r: seq<Scored>)
    requires DistinctScored(r) && forall x :: x in r ==> x.mint != e.mint
    ensures DistinctScored(Insert(e, r))
    decreases |r|
  {
    if r == [] || r[0].v5 <= e.v5 {
      ConsSorted(e, r);
    } else {
      InsertDistinct(e, r[1..]);
      InsertMembers(e, r[1..]);
      assert forall y :: y in r[1..] ==> y.mint != r[0].mint;
      ConsSorted(r[0], Insert(e, r[1..]));
    }
  }

  ghost function If(x: Scored, v: real): seq<Scored> { if x.v5 == v then [x] else [] }

  lemma {:induction false} LevelCons(x: Scored, r: seq<Scored>, v: real)
    ensures Level([x] + r, v) == If(x, v) + Level(r, v)
  {
    assert ([x] + r)[1..] == r;
  }

  lemma Exchange(a: seq<Scored>, b: seq<Scored>, rest: seq<Scored>)
    requires a == [] || b == []
    ensures a + (b + rest) == b + (a + rest)
  {
    assert [] + rest == rest && [] + (a + rest) == a + rest && [] + (b + rest) == b + rest;
  }

  lemma {:induction false} InsertLevel(e: Scored, r: seq<Scored>, v: real)
    requires Descending(r)
    ensures Level(Insert(e, r), v) == If(e, v) + Level(r, v)
    decreases |r|
  {
    if r == [] || r[0].v5 <= e.v5 {
      LevelCons(e, r, v);
    } else {
      InsertLevel(e, r[1..], v);
      LevelCons(r[0], Insert(e, r[1..]), v);
      assert r == [r[0]] + r[1..];
      LevelCons(r[0], r[1..], v);
      Exchange(If(r[0], v), If(e, v), Level(r[1..], v));
    }
  }

  /** The ranking is the stable descending sort of the rows with a volume: sorted, and the rows
      of each volume are exactly the board's, in board order. */
  lemma {:induction false} RankedIsStableSort(entries: seq<Entry>, v: real)
    ensures Descending(Ranked(entries)) && Level(Ranked(entries), v) == BoardLevel(entries, v)
    ensures forall x :: x in Ranked(entries) <==> Entry(x.mint, Some(x.v5)) in entries
    ensures Distinct(entries) ==> DistinctScored(Ranked(entries))
    decreases |entries|
  {
    if entries != [] {
      RankedIsStableSort(entries[1..], v);
      MembersOfCons(entries);
      if entries[0].v5.Some? {
        var e, r := Scored(entries[0].mint, entries[0].v5.value), Ranked(entries[1..]);
        InsertSorted(e, r);
        InsertMembers(e, r);
        InsertLevel(e, r, v);
        if Distinct(entries) {
          InsertDistinct(e, r);
        }
      }
    }
  }

  lemma MembersOfCons(entries: seq<Entry>)
    requires entries != []
    ensures forall e :: e in entries <==> e == entries[0] || e in entries[1..]
    ensures Distinct(entries) ==> Distinct(entries[1..]) && forall e :: e in entries[1..] ==> e.mint != entries[0].mint
  {
    assert entries == [entries[0]] + entries[1..];
  }

  /** `top5` is a set of mints: the first five of the ranking. */
  function Top5(ranked: seq<Scored>): set<Mint>
  {
    set i | 0 <= i < |ranked| && i < 5 :: ranked[i].mint
  }

  // ---------------------------------------------------------------- reading the history

  /** `SELECT MAX(alerted_at)`. */
  function Latest(rows: seq<Row>): (r: Option<Time>)
    ensures r.None? <==> rows == []
    ensures r.Some? ==> exists row :: row in rows && row.at == r.value
    ensures r.Some? ==> forall row :: row in rows ==> row.at <= r.value
  {
    if rows == [] then None
    else
      var rest := Latest(rows[1..]);
      assert rows == [rows[0]] + rows[1..];
      if rest.Some? && rest.value >= rows[0].at then rest else Some(rows[0].at)
  }

  function OfMint(rows: seq<Row>, mint: Mint): (r: seq<Row>)
    ensures forall row :: row in r <==> row in rows && row.alert.mint == mint
  {
    if rows == [] then []
    else
      assert rows == [rows[0]] + rows[1..];
      (if rows[0].alert.mint == mint then [rows[0]] else []) + OfMint(rows[1..], mint)
  }

  /** The rows at or after `t`. */
  function Since(rows: seq<Row>, t: Time): (r: seq<Row>)
    ensures |r| <= |rows|
    ensures forall row :: row in r <==> row in rows && row.at >= t
  {
    if rows == [] then []
    else
      assert rows == [rows[0]] + rows[1..];
      (if rows[0].at >= t then [rows[0]] else []) + Since(rows[1..], t)
  }

  predicate Cooling(rows: seq<Row>, mint: Mint, now: Time, cooldown: Time)
  {
    var last := Latest(OfMint(rows, mint));
    last.Some? && last.value >= now - cooldown
  }

  predicate Held(rows: seq<Row>, now: Time, window: Time)
  {
    var last := Latest(rows);
    last.Some? && now - last.value < window
  }

  lemma {:induction false} SinceConcat(a: seq<Row>, b: seq<Row>, t: Time)
    ensures Since(a + b, t) == Since(a, t) + Since(b, t)
    decreases |a|
  {
    if a == [] {
      assert a + b == b;
    } else {
      assert (a + b)[0] == a[0] && (a + b)[1..] == a[1..] + b;
      SinceConcat(a[1..], b, t);
    }
  }

  lemma {:induction false} SinceSince(a: seq<Row>, t: Time, u: Time)
    requires t <= u
    ensures Since(Since(a, t), u) == Since(a, u)
    decreases |a|
  {
    if a != [] {
      SinceSince(a[1..], t, u);
      SinceConcat(if a[0].at >= t then [a[0]] else [], Since(a[1..], t), u);
    }
  }

  // ---------------------------------------------------------------- detecting

  type Observations = map<Mint, Obs>

  /** A prior observation too old to prove anything counts as none. */
  function Fresh(obs: Observations, mint: Mint, since: Time): Option<Obs>
  {
    if mint in obs && obs[mint].seenAt >= since then Some(obs[mint]) else None
  }

  predicate Accelerates(th: Thresholds, before: Option<real>, v5: real)
  {
    before.Some? && before.value > 0.0 && v5 >= th.minV5 && v5 >= th.accelRatio * before.value
  }

  function Why(th: Thresholds, prev: Option<Obs>, top5: set<Mint>, e: Scored): Option<Reason>
  {
    if prev.None? then None
    else if Accelerates(th, prev.value.v5, e.v5) then Some(Accel)
    else if e.mint in top5 && !prev.value.inTop5 && e.v5 >= th.top5MinV5 then Some(Top5Entry)
    else None
  }

  /** The alert a ranked row earns, cooldown included. */
  function Earned(th: Thresholds, obs: Observations, rows: seq<Row>, top5: set<Mint>, e: Scored,
                  now: Time): Option<Alert>
  {
    var prev := Fresh(obs, e.mint, now - th.prevMaxAge);
    var why := Why(th, prev, top5, e);
    if why.None? || Cooling(rows, e.mint, now, th.cooldown) then None
    else Some(Alert(e.mint, why.value, e.v5, prev.value.v5))
  }

  function Candidates(th: Thresholds, obs: Observations, rows: seq<Row>, top5: set<Mint>, ranked: seq<Scored>,
                      now: Time): seq<Alert>
  {
    if ranked == [] then []
    else
      var n := |ranked| - 1;
      var before := Candidates(th, obs, rows, top5, ranked[..n], now);
      var a := Earned(th, obs, rows, top5, ranked[n], now);
      if a.Some? then before + [a.value] else before
  }

  function Upserted(obs: Observations, entries: seq<Entry>, top5: set<Mint>, now: Time): Observations
  {
    if entries == [] then obs
    else
      var n := |entries| - 1;
      Upserted(obs, entries[..n], top5, now)[entries[n].mint := Obs(entries[n].v5, now, entries[n].mint in top5)]
  }

  function Take<T>(s: seq<T>, n: int): (r: seq<T>)
    ensures |r| <= |s| && r == s[..|r|] && (|r| == n || (|r| == |s| && |s| <= n) || (r == [] && n < 0))
  {
    if n <= 0 then [] else if n >= |s| then s else s[..n]
  }

  /** Everything clearing the bar on this poll, before the hourly valve. */
  function Qualifiers(th: Thresholds, obs: Observations, rows: seq<Row>, entries: seq<Entry>, now: Time): seq<Alert>
  {
    Candidates(th, obs, rows, Top5(Ranked(entries)), Ranked(entries), now)
  }

  /** What `detect` returns: drop-lowest down to the room left in the trailing hour. */
  function Detected(th: Thresholds, obs: Observations, rows: seq<Row>, entries: seq<Entry>, now: Time): seq<Alert>
  {
    Take(Qualifiers(th, obs, rows, entries, now), th.maxPerHour - |Since(rows, now - HOUR)|)
  }

  // ---------------------------------------------------------------- one cycle

  /** One cycle as the outside decides it: `raw` is `None` when the budget is spent or the poll
      fails; `charted` are the coins whose candles came back; `landed` is how many alert rows
      are written before an error, all of them if large; `pruned` whether pruning succeeds. */
  datatype Poll = Poll(now: Time, raw: Option<seq<Option<Entry>>>, charted: set<Mint>, landed: nat, pruned: bool)

  datatype Montage = Montage(at: Time, alerts: seq<Alert>)

  /** The two tables, and every montage ever recorded. */
  datatype State = State(obs: Observations, rows: seq<Row>, log: seq<Montage>)

  const Empty := State(map[], [], [])

  /** The coins of the montage this poll sends; none inside the window. */
  function Batch(cfg: ValidConfig, s: State, entries: seq<Entry>, now: Time): seq<Alert>
  {
    if Held(s.rows, now, cfg.Window()) then []
    else Take(Detected(cfg.Limit(), s.obs, s.rows, entries, now), cfg.montageMax)
  }

  function WithChart(alerts: seq<Alert>, charted: set<Mint>, wanted: bool): (r: seq<Alert>)
    ensures forall a :: a in r <==> a in alerts && (a.mint in charted) == wanted
  {
    if alerts == [] then []
    else
      var n := |alerts| - 1;
      assert alerts == alerts[..n] + [alerts[n]];
      WithChart(alerts[..n], charted, wanted) + if (alerts[n].mint in charted) == wanted then [alerts[n]] else []
  }

  /** Charted coins first. */
  function Arranged(alerts: seq<Alert>, charted: set<Mint>): seq<Alert>
  {
    WithChart(alerts, charted, true) + WithChart(alerts, charted, false)
  }

  function Stamp(alerts: seq<Alert>, now: Time): (r: seq<Row>)
    ensures |r| == |alerts| && forall i :: 0 <= i < |r| ==> r[i] == Row(now, alerts[i])
  {
    seq(|alerts|, i requires 0 <= i < |alerts| => Row(now, alerts[i]))
  }

  function Prune(s: State, now: Time): State
  {
    s.(obs := map m | m in s.obs && s.obs[m].seenAt >= now - KEEP_OBSERVATION :: s.obs[m],
       rows := Since(s.rows, now - KEEP_ALERT))
  }

  function Recorded(cfg: ValidConfig, s: State, entries: seq<Entry>, e: Poll): seq<Alert>
  {
    Take(Arranged(Batch(cfg, s, entries, e.now), e.charted), e.landed)
  }

  function Note(s: State, alerts: seq<Alert>, now: Time): State
  {
    s.(rows := s.rows + Stamp(alerts, now), log := if alerts == [] then s.log else s.log + [Montage(now, alerts)])
  }

  function Polled(cfg: ValidConfig, s: State, e: Poll): State
  {
    if e.raw.None? then s
    else
      var entries := FirstSeen(e.raw.value);
      Note(s.(obs := Upserted(s.obs, entries, Top5(Ranked(entries)), e.now)), Recorded(cfg, s, entries, e), e.now)
  }

  function Step(cfg: ValidConfig, s: State, e: Poll): State
  {
    var t := Polled(cfg, s, e);
    if e.pruned then Prune(t, e.now) else t
  }

  function Run(cfg: ValidConfig, events: seq<Poll>): State
  {
    if events == [] then Empty else Step(cfg, Run(cfg, events[..|events| - 1]), events[|events| - 1])
  }

  ghost predicate ClockRuns(events: seq<Poll>)
  {
    forall i, j :: 0 <= i < j < |events| ==> events[i].now <= events[j].now
  }

  // ---------------------------------------------------------------- what is forgotten

  /** Two histories nobody reading back to `t` can tell apart. */
  ghost predicate SameSince(a: seq<Row>, b: seq<Row>, t: Time)
  {
    Since(a, t) == Since(b, t)
  }

  lemma SameLater(a: seq<Row>, b: seq<Row>, t: Time, u: Time)
    requires SameSince(a, b, t) && t <= u
    ensures SameSince(a, b, u)
  {
    SinceSince(a, t, u);
    SinceSince(b, t, u);
  }

  lemma SameCooling(a: seq<Row>, b: seq<Row>, t: Time, mint: Mint, now: Time, cooldown: Time)
    requires SameSince(a, b, t) && t <= now - cooldown
    ensures Cooling(a, mint, now, cooldown) == Cooling(b, mint, now, cooldown)
  {
    SeenInBoth(a, b, t);
    assert Cooling(a, mint, now, cooldown) <==> exists r :: r in OfMint(a, mint) && r.at >= now - cooldown;
    assert Cooling(b, mint, now, cooldown) <==> exists r :: r in OfMint(b, mint) && r.at >= now - cooldown;
  }

  lemma SameHeld(a: seq<Row>, b: seq<Row>, t: Time, now: Time, window: Time)
    requires SameSince(a, b, t) && t <= now - window
    ensures Held(a, now, window) == Held(b, now, window)
  {
    SeenInBoth(a, b, t);
    assert Held(a, now, window) <==> exists r :: r in a && r.at > now - window;
    assert Held(b, now, window) <==> exists r :: r in b && r.at > now - window;
  }

  lemma SeenInBoth(a: seq<Row>, b: seq<Row>, t: Time)
    requires SameSince(a, b, t)
    ensures forall r :: (r in a && r.at >= t) <==> (r in b && r.at >= t)
  {
    assert forall r :: r in Since(a, t) <==> r in Since(b, t);
  }

  lemma SameAppend(a: seq<Row>, b: seq<Row>, more: seq<Row>, t: Time)
    requires SameSince(a, b, t)
    ensures SameSince(a + more, b + more, t)
  {
    SinceConcat(a, more, t);
    SinceConcat(b, more, t);
  }

  // ---------------------------------------------------------------- the log and the table

  function Rows(log: seq<Montage>): seq<Row>
  {
    if log == [] then [] else Rows(log[..|log| - 1]) + Stamp(log[|log| - 1].alerts, log[|log| - 1].at)
  }

  lemma {:induction false} RowsMembers(log: seq<Montage>, k: nat, i: nat)
    requires k < |log| && i < |log[k].alerts|
    ensures Row(log[k].at, log[k].alerts[i]) in Rows(log)
  {
    var n := |log| - 1;
    if k == n {
      assert Stamp(log[n].alerts, log[n].at)[i] == Row(log[k].at, log[k].alerts[i]);
    } else {
      RowsMembers(log[..n], k, i);
    }
  }

  /** At `now`, the table holds every logged row young enough to be kept, and nothing is from
      the future. */
  ghost predicate Tracks(s: State, now: Time)
  {
    && (forall k :: 0 <= k < |s.log| ==> s.log[k].at <= now)
    && SameSince(s.rows, Rows(s.log), now - KEEP_ALERT)
  }

  lemma TracksLater(s: State, now: Time, later: Time)
    requires Tracks(s, now) && now <= later
    ensures Tracks(s, later)
  {
    SameLater(s.rows, Rows(s.log), now - KEEP_ALERT, later - KEEP_ALERT);
  }

  lemma NoteTracks(s: State, alerts: seq<Alert>, now: Time)
    requires Tracks(s, now)
    ensures Tracks(Note(s, alerts, now), now)
  {
    if alerts == [] {
      assert s.rows + Stamp(alerts, now) == s.rows;
    } else {
      SameAppend(s.rows, Rows(s.log), Stamp(alerts, now), now - KEEP_ALERT);
      RowsSnoc(s.log, Montage(now, alerts));
    }
  }

  lemma {:induction false} RowsSnoc(log: seq<Montage>, m: Montage)
    ensures Rows(log + [m]) == Rows(log) + Stamp(m.alerts, m.at)
  {
    assert (log + [m])[..|log|] == log;
  }

  lemma StepTracks(cfg: ValidConfig, s: State, e: Poll)
    requires Tracks(s, e.now)
    ensures Tracks(Step(cfg, s, e), e.now)
  {
    var obs, alerts := PolledIsNote(cfg, s, e);
    NoteTracks(s.(obs := obs), alerts, e.now);
    PruneTracks(Polled(cfg, s, e), e.now);
  }

  lemma PruneTracks(s: State, now: Time)
    requires Tracks(s, now)
    ensures Tracks(Prune(s, now), now)
  {
    SinceSince(s.rows, now - KEEP_ALERT, now - KEEP_ALERT);
  }

  /** A poll replaces observations and notes what it records; a failed one notes nothing. */
  lemma PolledIsNote(cfg: ValidConfig, s: State, e: Poll) returns (obs: Observations, alerts: seq<Alert>)
    ensures Polled(cfg, s, e) == Note(s.(obs := obs), alerts, e.now)
    ensures alerts == if e.raw.None? then [] else Recorded(cfg, s, FirstSeen(e.raw.value), e)
  {
    if e.raw.None? {
      obs, alerts := s.obs, [];
      assert s.rows + Stamp(alerts, e.now) == s.rows;
    } else {
      var entries := FirstSeen(e.raw.value);
      obs, alerts := Upserted(s.obs, entries, Top5(Ranked(entries)), e.now), Recorded(cfg, s, entries, e);
    }
  }

  lemma {:induction false} RunTracks(cfg: ValidConfig, events: seq<Poll>, now: Time)
    requires ClockRuns(events) && (events != [] ==> events[|events| - 1].now <= now)
    ensures Tracks(Run(cfg, events), now)
  {
    if events != [] {
      var n := |events| - 1;
      RunTracks(cfg, events[..n], events[n].now);
      StepTracks(cfg, Run(cfg, events[..n]), events[n]);
      TracksLater(Run(cfg, events), events[n].now, now);
    }
  }

  // ---------------------------------------------------------------- what a batch is

  ghost predicate DistinctAlerts(alerts: seq<Alert>)
  {
    forall i, j :: 0 <= i < j < |alerts| ==> alerts[i].mint != alerts[j].mint
  }

  lemma {:induction false} CandidatesAre(th: Thresholds, obs: Observations, rows: seq<Row>, top5: set<Mint>,
                                         ranked: seq<Scored>, now: Time)
    requires DistinctScored(ranked)
    ensures var c := Candidates(th, obs, rows, top5, ranked, now);
      && DistinctAlerts(c)
      && forall a :: a in c ==> Scored(a.mint, a.v5) in ranked && !Cooling(rows, a.mint, now, th.cooldown)
  {
    if ranked != [] {
      var n := |ranked| - 1;
      CandidatesAre(th, obs, rows, top5, ranked[..n], now);
      assert ranked == ranked[..n] + [ranked[n]];
      var before := Candidates(th, obs, rows, top5, ranked[..n], now);
      assert forall a :: a in before ==> a.mint != ranked[n].mint;
      var a := Earned(th, obs, rows, top5, ranked[n], now);
      if a.Some? {
        DistinctSnoc(before, a.value);
      }
    }
  }

  lemma {:induction false} WithChartDistinct(alerts: seq<Alert>, charted: set<Mint>, wanted: bool)
    requires DistinctAlerts(alerts)
    ensures DistinctAlerts(WithChart(alerts, charted, wanted))
    ensures |WithChart(alerts, charted, true)| + |WithChart(alerts, charted, false)| == |alerts|
  {
    if alerts != [] {
      var n := |alerts| - 1;
      WithChartDistinct(alerts[..n], charted, wanted);
      assert forall a :: a in alerts[..n] ==> a.mint != alerts[n].mint;
      DistinctSnoc(WithChart(alerts[..n], charted, wanted), alerts[n]);
    }
  }

  lemma DistinctSnoc(alerts: seq<Alert>, a: Alert)
    requires DistinctAlerts(alerts) && forall b :: b in alerts ==> b.mint != a.mint
    ensures DistinctAlerts(alerts + [a]) && DistinctAlerts(alerts + [])
  {
    assert forall i :: 0 <= i < |alerts| ==> alerts[i] in alerts;
    assert alerts + [] == alerts;
  }

  /** Arranging loses and repeats nothing. */
  lemma ArrangedIsPermutation(alerts: seq<Alert>, charted: set<Mint>)
    requires DistinctAlerts(alerts)
    ensures var r := Arranged(alerts, charted);
      |r| == |alerts| && DistinctAlerts(r) && forall a :: a in r <==> a in alerts
  {
    WithChartDistinct(alerts, charted, true);
    WithChartDistinct(alerts, charted, false);
    var w, o := WithChart(alerts, charted, true), WithChart(alerts, charted, false);
    assert forall i :: 0 <= i < |w| ==> w[i] in w && w[i].mint in charted;
    assert forall i :: 0 <= i < |o| ==> o[i] in o && o[i].mint !in charted;
  }

  lemma QualifiersAre(th: Thresholds, obs: Observations, rows: seq<Row>, raw: seq<Option<Entry>>, now: Time)
    ensures var q := Qualifiers(th, obs, rows, FirstSeen(raw), now);
      DistinctAlerts(q) && forall a :: a in q ==> !Cooling(rows, a.mint, now, th.cooldown)
  {
    var entries := FirstSeen(raw);
    FirstSeenOnce(raw);
    RankedIsStableSort(entries, 0.0);
    CandidatesAre(th, obs, rows, Top5(Ranked(entries)), Ranked(entries), now);
  }

  lemma TakeIs(alerts: seq<Alert>, n: int)
    requires DistinctAlerts(alerts)
    ensures DistinctAlerts(Take(alerts, n)) && |Take(alerts, n)| <= |alerts| && (n >= 0 ==> |Take(alerts, n)| <= n)
    ensures Take(alerts, n) != [] ==> |Take(alerts, n)| <= n
    ensures forall a :: a in Take(alerts, n) ==> a in alerts
  {
  }

  lemma BatchIsSafe(cfg: ValidConfig, s: State, raw: seq<Option<Entry>>, now: Time)
    ensures var b := Batch(cfg, s, FirstSeen(raw), now);
      && DistinctAlerts(b) && |b| <= cfg.montageMax
      && (b != [] ==> !Held(s.rows, now, cfg.Window()))
      && (b != [] ==> |Since(s.rows, now - HOUR)| + |b| <= cfg.Limit().maxPerHour)
      && forall a :: a in b ==> !Cooling(s.rows, a.mint, now, cfg.Limit().cooldown)
  {
    var th := cfg.Limit();
    QualifiersAre(th, s.obs, s.rows, raw, now);
    TakeIs(Qualifiers(th, s.obs, s.rows, FirstSeen(raw), now), th.maxPerHour - |Since(s.rows, now - HOUR)|);
    TakeIs(Detected(th, s.obs, s.rows, FirstSeen(raw), now), cfg.montageMax);
  }

  /** What one poll may record: few enough coins, each once, none cooling, inside the hour's
      room, and only outside the window. */
  ghost predicate Safe(cfg: ValidConfig, rows: seq<Row>, r: seq<Alert>, now: Time)
  {
    && DistinctAlerts(r) && |r| <= cfg.montageMax
    && !Held(rows, now, cfg.Window())
    && |Since(rows, now - HOUR)| + |r| <= cfg.Limit().maxPerHour
    && forall a :: a in r ==> !Cooling(rows, a.mint, now, cfg.Limit().cooldown)
  }

  lemma RecordedIsSafe(cfg: ValidConfig, s: State, raw: seq<Option<Entry>>, e: Poll)
    ensures var r := Recorded(cfg, s, FirstSeen(raw), e); r != [] ==> Safe(cfg, s.rows, r, e.now)
  {
    BatchIsSafe(cfg, s, raw, e.now);
    var b := Batch(cfg, s, FirstSeen(raw), e.now);
    ArrangedIsPermutation(b, e.charted);
    TakeIs(Arranged(b, e.charted), e.landed);
  }

  // ---------------------------------------------------------------- safety over every run

  ghost predicate CooldownKept(log: seq<Montage>, cooldown: Time)
  {
    forall k, l, i, j | 0 <= k < l < |log| && 0 <= i < |log[k].alerts| && 0 <= j < |log[l].alerts| ::
      log[k].alerts[i].mint == log[l].alerts[j].mint ==> log[l].at - log[k].at > cooldown
  }

  ghost predicate WindowKept(log: seq<Montage>, window: Time)
  {
    forall k, l :: 0 <= k < l < |log| ==> log[l].at - log[k].at >= window
  }

  ghost predicate Sized(log: seq<Montage>, most: nat)
  {
    forall k :: 0 <= k < |log| ==> 0 < |log[k].alerts| <= most && DistinctAlerts(log[k].alerts)
  }

  /** Alerts in the closed interval. */
  ghost function CountIn(rows: seq<Row>, lo: Time, hi: Time): nat
  {
    if rows == [] then 0 else (if lo <= rows[0].at <= hi then 1 else 0) + CountIn(rows[1..], lo, hi)
  }

  ghost predicate HourCapped(rows: seq<Row>, cap: int)
  {
    forall t: Time :: InHour(rows, t) <= cap
  }

  /** Alerts in the hour ending at `t`. */
  ghost function InHour(rows: seq<Row>, t: Time): nat { CountIn(rows, t - HOUR, t) }

  lemma {:induction false} CountConcat(a: seq<Row>, b: seq<Row>, lo: Time, hi: Time)
    ensures CountIn(a + b, lo, hi) == CountIn(a, lo, hi) + CountIn(b, lo, hi)
    decreases |a|
  {
    if a == [] {
      assert a + b == b;
    } else {
      assert (a + b)[0] == a[0] && (a + b)[1..] == a[1..] + b;
      CountConcat(a[1..], b, lo, hi);
    }
  }

  lemma {:induction false} CountBySince(a: seq<Row>, lo: Time, hi: Time, from: Time)
    requires from <= lo
    ensures CountIn(a, lo, hi) <= |Since(a, from)|
    decreases |a|
  {
    if a != [] {
      CountBySince(a[1..], lo, hi, from);
    }
  }

  lemma {:induction false} CountLate(a: seq<Row>, lo: Time, hi: Time)
    requires forall i :: 0 <= i < |a| ==> a[i].at > hi
    ensures CountIn(a, lo, hi) == 0
    decreases |a|
  {
    if a != [] {
      CountLate(a[1..], lo, hi);
    }
  }

  /** Adding a batch that fits the room keeps every trailing hour under the cap, not only the
      one ending now. */
  lemma {:induction false} HourStep(rows: seq<Row>, alerts: seq<Alert>, now: Time, cap: int)
    requires HourCapped(rows, cap) && |Since(rows, now - HOUR)| + |alerts| <= cap
    ensures HourCapped(rows + Stamp(alerts, now), cap)
  {
    var more := Stamp(alerts, now);
    forall t: Time
      ensures InHour(rows + more, t) <= cap
    {
      assert InHour(rows, t) <= cap;
      CountConcat(rows, more, t - HOUR, t);
      if t < now {
        CountLate(more, t - HOUR, t);
      } else {
        CountBySince(rows, t - HOUR, t, now - HOUR);
        CountBySince(more, t - HOUR, t, now - HOUR);
      }
    }
  }

  function Min(a: Time, b: Time): Time { if a <= b then a else b }

  /** All the limits at once; the gap between montages survives pruning up to the retention. */
  ghost predicate Limits(cfg: ValidConfig, log: seq<Montage>)
  {
    && Sized(log, cfg.montageMax)
    && HourCapped(Rows(log), cfg.Limit().maxPerHour)
    && WindowKept(log, Min(cfg.Window(), KEEP_ALERT))
    && (cfg.Limit().cooldown <= KEEP_ALERT ==> CooldownKept(log, cfg.Limit().cooldown))
  }

  lemma WindowStep(cfg: ValidConfig, s: State, now: Time, k: nat)
    requires Tracks(s, now) && !Held(s.rows, now, cfg.Window()) && Sized(s.log, cfg.montageMax) && k < |s.log|
    ensures now - s.log[k].at >= Min(cfg.Window(), KEEP_ALERT)
  {
    RowsMembers(s.log, k, 0);
    SeenInBoth(s.rows, Rows(s.log), now - KEEP_ALERT);
  }

  lemma CooldownStep(s: State, now: Time, cooldown: Time, a: Alert, k: nat, i: nat)
    requires Tracks(s, now) && !Cooling(s.rows, a.mint, now, cooldown) && cooldown <= KEEP_ALERT
    requires k < |s.log| && i < |s.log[k].alerts| && s.log[k].alerts[i].mint == a.mint
    ensures now - s.log[k].at > cooldown
  {
    RowsMembers(s.log, k, i);
    SeenInBoth(s.rows, Rows(s.log), now - KEEP_ALERT);
    var row := Row(s.log[k].at, s.log[k].alerts[i]);
    assert row in s.rows ==> row in OfMint(s.rows, a.mint);
  }

  lemma StepKeepsLimits(cfg: ValidConfig, s: State, e: Poll)
    requires Tracks(s, e.now) && Limits(cfg, s.log)
    ensures Limits(cfg, Step(cfg, s, e).log)
  {
    var obs, r := PolledIsNote(cfg, s, e);
    if r != [] {
      RecordedIsSafe(cfg, s, e.raw.value, e);
      NoteKeepsLimits(cfg, s, r, e.now);
    }
  }

  lemma NoteKeepsLimits(cfg: ValidConfig, s: State, r: seq<Alert>, now: Time)
    requires Tracks(s, now) && Limits(cfg, s.log)
    requires r != [] && Safe(cfg, s.rows, r, now)
    ensures Limits(cfg, s.log + [Montage(now, r)])
  {
    var log := s.log + [Montage(now, r)];
    var cooldown := cfg.Limit().cooldown;
    RowsSnoc(s.log, Montage(now, r));
    SameLater(s.rows, Rows(s.log), now - KEEP_ALERT, now - HOUR);
    HourStep(Rows(s.log), r, now, cfg.Limit().maxPerHour);
    forall k | 0 <= k < |s.log|
      ensures now - s.log[k].at >= Min(cfg.Window(), KEEP_ALERT)
    {
      WindowStep(cfg, s, now, k);
    }
    if cooldown <= KEEP_ALERT {
      NoteKeepsCooldown(s, r, now, cooldown);
    }
  }

  lemma NoteKeepsCooldown(s: State, r: seq<Alert>, now: Time, cooldown: Time)
    requires Tracks(s, now) && cooldown <= KEEP_ALERT && CooldownKept(s.log, cooldown)
    requires forall a :: a in r ==> !Cooling(s.rows, a.mint, now, cooldown)
    ensures CooldownKept(s.log + [Montage(now, r)], cooldown)
  {
    forall k, i, j
      | 0 <= k < |s.log| && 0 <= i < |s.log[k].alerts| && 0 <= j < |r| && s.log[k].alerts[i].mint == r[j].mint
      ensures now - s.log[k].at > cooldown
    {
      CooldownStep(s, now, cooldown, r[j], k, i);
    }
  }

  /** In every run whose clock does not go back: montages hold one to `montageMax` distinct
      coins, every trailing hour is within the cap, montages are at least the window apart, and
      alerts for one coin are more than the cooldown apart, both as far as the retention goes. */
  lemma {:induction false} EveryRunKeepsLimits(cfg: ValidConfig, events: seq<Poll>)
    requires ClockRuns(events)
    ensures Limits(cfg, Run(cfg, events).log)
  {
    if events == [] {
      assert cfg.montageMax * (Ceil(60.0 / cfg.windowMinutes) + 1) >= 0 by { CeilPositive(cfg); }
    } else {
      var n := |events| - 1;
      EveryRunKeepsLimits(cfg, events[..n]);
      RunTracks(cfg, events[..n], events[n].now);
      StepKeepsLimits(cfg, Run(cfg, events[..n]), events[n]);
    }
  }

  lemma CeilPositive(cfg: ValidConfig)
    ensures Ceil(60.0 / cfg.windowMinutes) as real >= 60.0 / cfg.windowMinutes > 0.0
    ensures cfg.montageMax * (Ceil(60.0 / cfg.windowMinutes) + 1) > cfg.montageMax
  {
    var c := Ceil(60.0 / cfg.windowMinutes);
    assert c >= 1;
    assert cfg.montageMax * (c + 1) == cfg.montageMax * c + cfg.montageMax;
    assert cfg.montageMax * c > 0;
  }

  // ---------------------------------------------------------------- the valve never binds

  ghost function MontagesSince(log: seq<Montage>, t: Time): nat
  {
    if log == [] then 0 else MontagesSince(log[..|log| - 1], t) + if log[|log| - 1].at >= t then 1 else 0
  }

  lemma {:induction false} NoneSince(log: seq<Montage>, t: Time)
    requires forall k :: 0 <= k < |log| ==> log[k].at < t
    ensures MontagesSince(log, t) == 0
  {
    if log != [] {
      NoneSince(log[..|log| - 1], t);
    }
  }

  /** Montages a gap apart, the last one a gap before `top`: that many gaps fit from `t` on. */
  lemma {:induction false} GapsFit(log: seq<Montage>, t: Time, top: Time, gap: Time)
    requires gap > 0.0 && WindowKept(log, gap) && t <= top
    requires log != [] ==> top - log[|log| - 1].at >= gap
    ensures MontagesSince(log, t) as real * gap <= top - t
  {
    if log == [] || log[|log| - 1].at < t {
      NoneSince(log, t);
      assert 0.0 * gap == 0.0;
    } else {
      var n := |log| - 1;
      var last, less := log[n].at, log[..n];
      assert less != [] ==> last - less[n - 1].at >= gap;
      GapsFit(less, t, last, gap);
      OneMoreGap(MontagesSince(less, t), MontagesSince(log, t), gap, last - t, top - t);
    }
  }

  lemma OneMoreGap(p: nat, q: nat, gap: real, short: real, long: real)
    requires q == p + 1 && p as real * gap <= short && short + gap <= long
    ensures q as real * gap <= long
  {
    assert (p + 1) as real * gap == p as real * gap + gap;
  }

  lemma {:induction false} RowsByMontages(log: seq<Montage>, t: Time, most: nat)
    requires Sized(log, most)
    ensures |Since(Rows(log), t)| <= most * MontagesSince(log, t)
  {
    if log != [] {
      var n := |log| - 1;
      RowsByMontages(log[..n], t, most);
      var less, added := Rows(log[..n]), Stamp(log[n].alerts, log[n].at);
      SinceConcat(less, added, t);
      SinceStamp(log[n].alerts, log[n].at, t);
      Tally(|Since(less, t)|, |Since(added, t)|, most, MontagesSince(log[..n], t), MontagesSince(log, t));
    }
  }

  lemma Tally(rows: nat, added: nat, most: nat, p: nat, q: nat)
    requires rows <= most * p && p <= q <= p + 1 && added <= if q == p then 0 else most
    ensures rows + added <= most * q
  {
    assert most * (p + 1) == most * p + most;
  }

  lemma SinceStamp(alerts: seq<Alert>, at: Time, t: Time)
    ensures |Since(Stamp(alerts, at), t)| <= if at >= t then |alerts| else 0
  {
    var s := Since(Stamp(alerts, at), t);
    assert s != [] ==> s[0] in s;
  }

  /** In a gap of the window, at most `60 / windowMinutes` montages fit in an hour. */
  lemma FewMontages(cfg: ValidConfig, p: nat)
    requires p as real * Min(cfg.Window(), KEEP_ALERT) <= HOUR
    ensures p <= Ceil(60.0 / cfg.windowMinutes)
  {
    CeilPositive(cfg);
    var w := cfg.windowMinutes;
    if cfg.Window() <= KEEP_ALERT {
      assert p as real * (w * 60.0) == (p as real * w) * 60.0;
      assert p as real * w <= 60.0;
      DivideBy(p as real, w, 60.0);
    } else {
      assert p == 0;
    }
  }

  lemma DivideBy(p: real, w: real, total: real)
    requires w > 0.0 && p * w <= total
    ensures p <= total / w
  {
    var q := total / w;
    assert q * w == total;
    assert p > q ==> p * w > q * w;
  }

  /** The derived hourly valve never drops a coin from a montage: in every run, whenever the
      window is open, what goes out is the top `montageMax` of all qualifiers. */
  lemma ValveNeverBinds(cfg: ValidConfig, events: seq<Poll>, entries: seq<Entry>, now: Time)
    requires ClockRuns(events) && (events != [] ==> events[|events| - 1].now <= now)
    ensures var s := Run(cfg, events);
      !Held(s.rows, now, cfg.Window()) ==>
        Batch(cfg, s, entries, now) == Take(Qualifiers(cfg.Limit(), s.obs, s.rows, entries, now), cfg.montageMax)
  {
    var s := Run(cfg, events);
    if !Held(s.rows, now, cfg.Window()) {
      RunTracks(cfg, events, now);
      EveryRunKeepsLimits(cfg, events);
      RoomForOneMore(cfg, s, now);
      var q := Qualifiers(cfg.Limit(), s.obs, s.rows, entries, now);
      TakeTake(q, cfg.Limit().maxPerHour - |Since(s.rows, now - HOUR)|, cfg.montageMax);
    }
  }

  lemma TakeTake<T>(s: seq<T>, n: int, m: nat)
    requires n >= m
    ensures Take(Take(s, n), m) == Take(s, m)
  {
  }

  lemma FewRecent(cfg: ValidConfig, s: State, now: Time)
    requires Tracks(s, now) && Limits(cfg, s.log) && !Held(s.rows, now, cfg.Window())
    ensures MontagesSince(s.log, now - HOUR) <= Ceil(60.0 / cfg.windowMinutes)
  {
    if s.log != [] {
      WindowStep(cfg, s, now, |s.log| - 1);
    }
    GapsFit(s.log, now - HOUR, now, Min(cfg.Window(), KEEP_ALERT));
    FewMontages(cfg, MontagesSince(s.log, now - HOUR));
  }

  lemma RoomForOneMore(cfg: ValidConfig, s: State, now: Time)
    requires Tracks(s, now) && Limits(cfg, s.log) && !Held(s.rows, now, cfg.Window())
    ensures cfg.Limit().maxPerHour - |Since(s.rows, now - HOUR)| >= cfg.montageMax
  {
    SameLater(s.rows, Rows(s.log), now - KEEP_ALERT, now - HOUR);
    FewRecent(cfg, s, now);
    RowsByMontages(s.log, now - HOUR, cfg.montageMax);
    Room(cfg.montageMax, Ceil(60.0 / cfg.windowMinutes), MontagesSince(s.log, now - HOUR), |Since(s.rows, now - HOUR)|);
  }

  lemma Room(most: nat, c: int, p: nat, count: nat)
    requires p <= c && count <= most * p
    ensures most * (c + 1) - count >= most
  {
    assert most * (c + 1) == most * p + most + most * (c - p);
  }

  // ---------------------------------------------------------------- the objects

  /** The feed's sqlite tables. */
  class FeedState {
    var observations: Observations
    var alerts: seq<Row>

    constructor ()
      ensures observations == map[] && alerts == []
    {
      observations, alerts := map[], [];
    }

    method RecordObservations(entries: seq<Entry>, top5: set<Mint>, now: Time)
      modifies this`observations
      ensures observations == Upserted(old(observations), entries, top5, now)
    {
      for n := 0 to |entries|
        invariant observations == Upserted(old(observations), entries[..n], top5, now)
      {
        assert entries[..n + 1][..n] == entries[..n];
        observations := observations[entries[n].mint := Obs(entries[n].v5, now, entries[n].mint in top5)];
      }
      assert entries[..|entries|] == entries;
    }

    method RecordAlert(alert: Alert, now: Time)
      modifies this`alerts
      ensures alerts == old(alerts) + [Row(now, alert)]
    {
      alerts := alerts + [Row(now, alert)];
    }

    method RecordAlerts(written: seq<Alert>, now: Time)
      modifies this`alerts
      ensures alerts == old(alerts) + Stamp(written, now)
    {
      for n := 0 to |written|
        invariant alerts == old(alerts) + Stamp(written[..n], now)
      {
        RecordAlert(written[n], now);
        assert Stamp(written[..n + 1], now) == Stamp(written[..n], now) + [Row(now, written[n])];
      }
      assert written[..|written|] == written;
    }

    method PruneTables(now: Time)
      modifies this
      ensures observations == Prune(State(old(observations), old(alerts), []), now).obs
      ensures alerts == Since(old(alerts), now - KEEP_ALERT)
    {
      observations := map m | m in observations && observations[m].seenAt >= now - KEEP_OBSERVATION :: observations[m];
      alerts := Since(alerts, now - KEEP_ALERT);
    }
  }

  /** `detect`: compare every ranked row with the last poll, then make this poll the baseline. */
  method Detect(state: FeedState, entries: seq<Entry>, now: Time, th: Thresholds) returns (alerts: seq<Alert>)
    modifies state`observations
    ensures alerts == Detected(th, old(state.observations), state.alerts, entries, now)
    ensures state.observations == Upserted(old(state.observations), entries, Top5(Ranked(entries)), now)
  {
    var ranked := Ranked(entries);
    var top5 := Top5(ranked);
    var candidates: seq<Alert> := [];
    for n := 0 to |ranked|
      invariant state.observations == old(state.observations)
      invariant candidates == Candidates(th, state.observations, state.alerts, top5, ranked[..n], now)
    {
      assert ranked[..n + 1][..n] == ranked[..n];
      var e := ranked[n];
      var prev := Fresh(state.observations, e.mint, now - th.prevMaxAge);
      var why := Why(th, prev, top5, e);
      if why.None? {
        continue;
      }
      var last := Latest(OfMint(state.alerts, e.mint));
      if last.Some? && last.value >= now - th.cooldown {
        continue;
      }
      candidates := candidates + [Alert(e.mint, why.value, e.v5, prev.value.v5)];
    }
    assert ranked[..|ranked|] == ranked;
    state.RecordObservations(entries, top5, now);
    alerts := Take(candidates, th.maxPerHour - |Since(state.alerts, now - HOUR)|);
  }

  method Arrange(batch: seq<Alert>, charted: set<Mint>) returns (ordered: seq<Alert>)
    ensures ordered == Arranged(batch, charted)
  {
    var withChart: seq<Alert>, withoutChart: seq<Alert> := [], [];
    for n := 0 to |batch|
      invariant withChart == WithChart(batch[..n], charted, true)
      invariant withoutChart == WithChart(batch[..n], charted, false)
    {
      assert batch[..n + 1][..n] == batch[..n];
      if batch[n].mint in charted {
        withChart := withChart + [batch[n]];
      } else {
        withoutChart := withoutChart + [batch[n]];
      }
    }
    assert batch[..|batch|] == batch;
    ordered := withChart + withoutChart;
  }

  class FeedService {
    const cfg: ValidConfig
    const state: FeedState
    ghost var log: seq<Montage>

    constructor (cfg: ValidConfig)
      ensures this.cfg == cfg && fresh(state) && View() == Empty
    {
      this.cfg := cfg;
      state := new FeedState();
      log := [];
    }

    ghost function View(): State
      reads this, state
    {
      State(state.observations, state.alerts, log)
    }

    /** `_emit_montage`: charted coins first, every coin stamped with the same moment. */
    method EmitMontage(batch: seq<Alert>, e: Poll)
      modifies this, state`alerts
      ensures View() == Note(old(View()), Take(Arranged(batch, e.charted), e.landed), e.now)
    {
      var ordered := Arrange(batch, e.charted);
      var written := Take(ordered, e.landed);
      state.RecordAlerts(written, e.now);
      log := if written == [] then log else log + [Montage(e.now, written)];
    }

    /** `cycle`. */
    method Cycle(e: Poll)
      modifies this, state
      ensures View() == Step(cfg, old(View()), e)
    {
      if e.raw.Some? {
        var entries := ParseMovers(e.raw.value);
        var candidates := Detect(state, entries, e.now, cfg.Limit());
        var batch: seq<Alert> := [];
        if candidates != [] {
          var last := Latest(state.alerts);
          if !(last.Some? && e.now - last.value < cfg.Window()) {
            batch := Take(candidates, cfg.montageMax);
          }
        }
        assert batch == Batch(cfg, old(View()), entries, e.now);
        EmitMontage(batch, e);
      }
      assert View() == Polled(cfg, old(View()), e);
      if e.pruned {
        state.PruneTables(e.now);
      }
    }
  }
}
