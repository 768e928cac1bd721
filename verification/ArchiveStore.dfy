/** The callout archive's derived tables and the one path from a fetched body into them. */
module ArchiveStore {

  datatype Option<T> = None | Some(value: T)

  type FetchId = nat
  type CalloutId = nat
  type Wallet = nat
  type Mint = nat

  datatype Route = Recent | ListMint | Top | Candles

  datatype Fetch = Fetch(t: nat, status: int)

  datatype Window = Window(route: Route, scope: Option<Mint>, oldest: Option<nat>, newest: Option<nat>)

  /** Set once, at the first sighting. */
  datatype Firsts = Firsts(wallet: Wallet, mint: Mint, thesis: Option<string>, price: Option<real>,
                           marketCap: Option<real>, fetch: FetchId)

  /** The most recent non-null observation of each. */
  datatype Lasts = Lasts(multiple: Option<real>, peak: Option<nat>, username: Option<string>, xUsername: Option<string>)

  datatype Callout = Callout(firsts: Firsts, tEvent: Option<nat>, lastSeen: FetchId, nSightings: nat, lasts: Lasts)

  datatype Verdict = Removed | UnknownAbsent

  datatype VerdictRow = VerdictRow(verdict: Verdict, evidence: set<FetchId>, at: nat)

  type Sighting = (CalloutId, FetchId)

  datatype Db = Db(
    fetches: map<FetchId, Fetch>,
    windows: map<FetchId, Window>,
    sightings: set<Sighting>,
    callouts: map<CalloutId, Callout>,
    verdicts: map<CalloutId, VerdictRow>)

  const EmptyDb := Db(map[], map[], {}, map[], map[])

  datatype Parsed = Parsed(id: CalloutId, wallet: Wallet, mint: Mint, thesis: Option<string>, price: Option<real>,
                           marketCap: Option<real>, lasts: Lasts)

  type Reason = nat

  const CALLOUT_ID_MISSING: Reason := 0

  /** The rest of a row: its addresses hold, or the parser says which one does not. */
  datatype Rest =
    | Fields(wallet: Wallet, mint: Mint, thesis: Option<string>, price: Option<real>, marketCap: Option<real>,
             lasts: Lasts)
    | Malformed(reason: Reason)

  /** A row of a body as served: its own clock if it has one, the callout it names if it names one,
      and the rest of it. */
  datatype FeedRow = FeedRow(createdAt: Option<nat>, named: Option<CalloutId>, rest: Rest)
  {
    /** `parse_native_callout`; `None` is a quarantined row, whatever it names. */
    function Accepted(): Option<Parsed>
    {
      if named.None? || rest.Malformed? then None
      else Some(Parsed(named.value, rest.wallet, rest.mint, rest.thesis, rest.price, rest.marketCap, rest.lasts))
    }

    function Quarantined(): Option<Reason>
    {
      if named.None? then Some(CALLOUT_ID_MISSING) else if rest.Malformed? then Some(rest.reason) else None
    }
  }

  // ---------------------------------------------------------------- upserts

  function Coalesce<T>(a: Option<T>, b: Option<T>): Option<T>
  {
    if a.Some? then a else b
  }

  function Merge(fresh': Lasts, old': Lasts): Lasts
  {
    Lasts(Coalesce(fresh'.multiple, old'.multiple), Coalesce(fresh'.peak, old'.peak),
          Coalesce(fresh'.username, old'.username), Coalesce(fresh'.xUsername, old'.xUsername))
  }

  /** `upsert_callout`: insert with one sighting, or count one more. */
  function Upsert(callouts: map<CalloutId, Callout>, p: Parsed, tEvent: Option<nat>,
                  f: FetchId): map<CalloutId, Callout>
  {
    if p.id !in callouts then
      callouts[p.id := Callout(Firsts(p.wallet, p.mint, p.thesis, p.price, p.marketCap, f), tEvent, f, 1, p.lasts)]
    else
      var c := callouts[p.id];
      callouts[p.id := c.(lastSeen := f, nSightings := c.nSightings + 1, tEvent := Coalesce(c.tEvent, tEvent),
                          lasts := Merge(p.lasts, c.lasts))]
  }

  /** One row: `INSERT OR IGNORE` the sighting, and upsert only when it was new. */
  function RowStep(db: Db, row: FeedRow, f: FetchId): Db
  {
    if row.Accepted().None? || (row.Accepted().value.id, f) in db.sightings then db
    else
      var p := row.Accepted().value;
      db.(sightings := db.sightings + {(p.id, f)}, callouts := Upsert(db.callouts, p, row.createdAt, f))
  }

  function RowsStep(db: Db, rows: seq<FeedRow>, f: FetchId): Db
  {
    if rows == [] then db else RowStep(RowsStep(db, rows[..|rows| - 1], f), rows[|rows| - 1], f)
  }

  /** The row sights a callout the tables did not hold. */
  predicate IsNewIn(db: Db, row: FeedRow, f: FetchId)
  {
    && row.Accepted().Some? && row.Accepted().value.id !in db.callouts
    && (row.Accepted().value.id, f) !in db.sightings
  }

  /** Which callouts the rows report as new, in order. */
  function NewIn(db: Db, rows: seq<FeedRow>, f: FetchId): seq<CalloutId>
  {
    if rows == [] then []
    else
      var n := |rows| - 1;
      var before := RowsStep(db, rows[..n], f);
      NewIn(db, rows[..n], f) + if IsNewIn(before, rows[n], f) then [rows[n].Accepted().value.id] else []
  }

  function Earlier(known: Option<nat>, t: Option<nat>): Option<nat>
  {
    if t.None? then known else if known.None? || t.value < known.value then t else known
  }

  function Later(known: Option<nat>, t: Option<nat>): Option<nat>
  {
    if t.None? then known else if known.None? || known.value < t.value then t else known
  }

  function MinStamp(rows: seq<FeedRow>): (m: Option<nat>)
    ensures m.None? <==> forall i :: 0 <= i < |rows| ==> rows[i].createdAt.None?
    ensures m.Some? ==> forall i :: 0 <= i < |rows| && rows[i].createdAt.Some? ==> m.value <= rows[i].createdAt.value
    ensures m.Some? ==> exists i :: 0 <= i < |rows| && rows[i].createdAt == m
  {
    if rows == [] then None
    else
      var n := |rows| - 1;
      Earlier(MinStamp(rows[..n]), rows[n].createdAt)
  }

  function MaxStamp(rows: seq<FeedRow>): (m: Option<nat>)
    ensures m.None? <==> forall i :: 0 <= i < |rows| ==> rows[i].createdAt.None?
    ensures m.Some? ==> forall i :: 0 <= i < |rows| && rows[i].createdAt.Some? ==> rows[i].createdAt.value <= m.value
    ensures m.Some? ==> exists i :: 0 <= i < |rows| && rows[i].createdAt == m
  {
    if rows == [] then None
    else
      var n := |rows| - 1;
      Later(MaxStamp(rows[..n]), rows[n].createdAt)
  }

  /** How many rows were refused for one reason. */
  function Refused(rows: seq<FeedRow>, reason: Reason): nat
  {
    if rows == [] then 0
    else Refused(rows[..|rows| - 1], reason) + if rows[|rows| - 1].Quarantined() == Some(reason) then 1 else 0
  }

  function Tick(m: map<Reason, nat>, reason: Reason): map<Reason, nat>
  {
    m[reason := CountAt(m, reason) + 1]
  }

  /** The map counts the refusals, reason by reason. */
  ghost predicate IsTally(m: map<Reason, nat>, rows: seq<FeedRow>)
  {
    forall reason :: CountAt(m, reason) == Refused(rows, reason)
  }

  lemma {:induction false} TallyRow(m: map<Reason, nat>, rows: seq<FeedRow>, n: nat)
    requires n < |rows| && IsTally(m, rows[..n])
    ensures var why := rows[n].Quarantined();
      IsTally(if why.Some? then Tick(m, why.value) else m, rows[..n + 1])
  {
    assert rows[..n + 1][..n] == rows[..n];
    var why, upto := rows[n].Quarantined(), rows[..n + 1];
    var next := if why.Some? then Tick(m, why.value) else m;
    forall reason
      ensures CountAt(next, reason) == Refused(upto, reason)
    {
      assert CountAt(m, reason) == Refused(rows[..n], reason);
    }
  }

  function CountAt(m: map<Reason, nat>, reason: Reason): nat
  {
    if reason in m then m[reason] else 0
  }

  /** A whole body: sightings and upserts first, the window last. */
  function Derive(db: Db, f: FetchId, route: Route, scope: Option<Mint>, rows: seq<FeedRow>): Db
  {
    var after := RowsStep(db, rows, f);
    after.(windows := after.windows[f := Window(route, scope, MinStamp(rows), MaxStamp(rows))])
  }

  // ---------------------------------------------------------------- what every body keeps

  /** The fetches that sighted `c`. */
  ghost function SightedIn(db: Db, c: CalloutId): set<FetchId>
  {
    set s | s in db.sightings && s.0 == c :: s.1
  }

  ghost predicate Counted(db: Db, c: CalloutId)
  {
    && (c in db.callouts <==> SightedIn(db, c) != {})
    && (c in db.callouts ==> db.callouts[c].nSightings == |SightedIn(db, c)|)
  }

  /** `n_sightings` is the number of sighting rows, for every callout. */
  ghost predicate CountsAreRows(db: Db)
  {
    forall c: CalloutId :: Counted(db, c)
  }

  ghost predicate NeverNulled<T>(before: Option<T>, after: Option<T>)
  {
    before.Some? ==> after.Some?
  }

  /** First-seen fields and a known event time stay; no last-value becomes null. */
  ghost predicate Kept(before: Callout, after: Callout)
  {
    && after.firsts == before.firsts
    && (before.tEvent.Some? ==> after.tEvent == before.tEvent)
    && before.nSightings <= after.nSightings
    && NeverNulled(before.lasts.multiple, after.lasts.multiple) && NeverNulled(before.lasts.peak, after.lasts.peak)
    && NeverNulled(before.lasts.username, after.lasts.username)
    && NeverNulled(before.lasts.xUsername, after.lasts.xUsername)
  }

  ghost predicate AllKept(before: Db, after: Db)
  {
    && before.sightings <= after.sightings
    && forall c :: c in before.callouts ==> c in after.callouts && Kept(before.callouts[c], after.callouts[c])
  }

  lemma RowKeeps(db: Db, row: FeedRow, f: FetchId)
    requires CountsAreRows(db)
    ensures CountsAreRows(RowStep(db, row, f)) && AllKept(db, RowStep(db, row, f))
  {
    var after := RowStep(db, row, f);
    if row.Accepted().Some? && (row.Accepted().value.id, f) !in db.sightings {
      var id := row.Accepted().value.id;
      forall c: CalloutId
        ensures Counted(after, c)
      {
        assert Counted(db, c);
        SightingAdds(db, after, id, f, c);
      }
    }
  }

  lemma SightingAdds(db: Db, after: Db, id: CalloutId, f: FetchId, c: CalloutId)
    requires after.sightings == db.sightings + {(id, f)} && (id, f) !in db.sightings
    ensures |SightedIn(after, c)| == |SightedIn(db, c)| + if c == id then 1 else 0
  {
    if c == id {
      assert SightedIn(after, c) == SightedIn(db, c) + {f};
      assert f !in SightedIn(db, c);
    } else {
      assert SightedIn(after, c) == SightedIn(db, c);
    }
  }

  lemma {:induction false} RowsKeep(db: Db, rows: seq<FeedRow>, f: FetchId)
    requires CountsAreRows(db)
    ensures CountsAreRows(RowsStep(db, rows, f)) && AllKept(db, RowsStep(db, rows, f))
  {
    if rows != [] {
      RowsKeep(db, rows[..|rows| - 1], f);
      RowKeeps(RowsStep(db, rows[..|rows| - 1], f), rows[|rows| - 1], f);
    }
  }

  /** A callout is reported new exactly when it enters the table, and at most once. */
  lemma {:induction false} NewOnce(db: Db, rows: seq<FeedRow>, f: FetchId)
    requires CountsAreRows(db)
    ensures forall c :: c in NewIn(db, rows, f) <==> c in RowsStep(db, rows, f).callouts && c !in db.callouts
    ensures forall i, j :: 0 <= i < j < |NewIn(db, rows, f)| ==> NewIn(db, rows, f)[i] != NewIn(db, rows, f)[j]
  {
    if rows != [] {
      var n := |rows| - 1;
      NewOnce(db, rows[..n], f);
      RowsKeep(db, rows[..n], f);
      var before := RowsStep(db, rows[..n], f);
      if rows[n].Accepted().Some? {
        var id := rows[n].Accepted().value.id;
        assert Counted(before, id);
        if (id, f) in before.sightings {
          assert f in SightedIn(before, id);
        }
      }
    }
  }

  // ---------------------------------------------------------------- runs of bodies

  datatype Body = Body(f: FetchId, route: Route, scope: Option<Mint>, rows: seq<FeedRow>)

  function DeriveAll(bodies: seq<Body>): Db
  {
    if bodies == [] then EmptyDb
    else
      var b := bodies[|bodies| - 1];
      Derive(DeriveAll(bodies[..|bodies| - 1]), b.f, b.route, b.scope, b.rows)
  }

  function Reports(bodies: seq<Body>): seq<CalloutId>
  {
    if bodies == [] then []
    else
      var n := |bodies| - 1;
      Reports(bodies[..n]) + NewIn(DeriveAll(bodies[..n]), bodies[n].rows, bodies[n].f)
  }

  /** Over any sequence of bodies, duplicates included: the counters are the sighting rows, and
      the reports of "new" list every callout once. */
  lemma {:induction false} RunOfBodies(bodies: seq<Body>)
    ensures CountsAreRows(DeriveAll(bodies))
    ensures forall c :: c in Reports(bodies) <==> c in DeriveAll(bodies).callouts
    ensures forall i, j :: 0 <= i < j < |Reports(bodies)| ==> Reports(bodies)[i] != Reports(bodies)[j]
  {
    if bodies == [] {
      assert forall c: CalloutId :: SightedIn(EmptyDb, c) == {};
    } else {
      var n := |bodies| - 1;
      var before, b := DeriveAll(bodies[..n]), bodies[n];
      RunOfBodies(bodies[..n]);
      RowsKeep(before, b.rows, b.f);
      NewOnce(before, b.rows, b.f);
      var mid := RowsStep(before, b.rows, b.f);
      forall c: CalloutId
        ensures Counted(DeriveAll(bodies), c)
      {
        assert Counted(mid, c);
        assert SightedIn(DeriveAll(bodies), c) == SightedIn(mid, c);
      }
      var fresh' := NewIn(before, b.rows, b.f);
      forall i, j | 0 <= i < |Reports(bodies[..n])| && 0 <= j < |fresh'|
        ensures Reports(bodies[..n])[i] != fresh'[j]
      {
        assert Reports(bodies[..n])[i] in Reports(bodies[..n]);
        assert fresh'[j] in fresh';
      }
    }
  }

  /** Later bodies keep what earlier ones recorded. */
  lemma {:induction false} LaterBodiesKeep(bodies: seq<Body>, k: nat)
    requires k <= |bodies|
    ensures AllKept(DeriveAll(bodies[..k]), DeriveAll(bodies))
    decreases |bodies|
  {
    if k == |bodies| {
      assert bodies[..k] == bodies;
    } else {
      var n := |bodies| - 1;
      assert bodies[..n][..k] == bodies[..k];
      LaterBodiesKeep(bodies[..n], k);
      BodyKeeps(bodies, n);
      KeptTransitive(DeriveAll(bodies[..k]), DeriveAll(bodies[..n]), DeriveAll(bodies));
    }
  }

  lemma {:induction false} BodyKeeps(bodies: seq<Body>, n: nat)
    requires |bodies| == n + 1
    ensures AllKept(DeriveAll(bodies[..n]), DeriveAll(bodies))
  {
    RunOfBodies(bodies[..n]);
    RowsKeep(DeriveAll(bodies[..n]), bodies[n].rows, bodies[n].f);
  }

  // ---------------------------------------------------------------- what the tables say of a callout

  /** One row as served, with the fetch that served it. */
  datatype Served = Served(f: FetchId, row: FeedRow)

  function ServedRows(rows: seq<FeedRow>, f: FetchId): (log: seq<Served>)
    ensures |log| == |rows| && forall i :: 0 <= i < |rows| ==> log[i] == Served(f, rows[i])
  {
    seq(|rows|, i requires 0 <= i < |rows| => Served(f, rows[i]))
  }

  /** Everything served, in the order it is derived. */
  function Log(bodies: seq<Body>): seq<Served>
  {
    if bodies == [] then []
    else
      var b := bodies[|bodies| - 1];
      Log(bodies[..|bodies| - 1]) + ServedRows(b.rows, b.f)
  }

  /** Entry `n` is a well-formed row of callout `c`. */
  predicate Shows(log: seq<Served>, c: CalloutId, n: nat)
  {
    n < |log| && log[n].row.named == Some(c) && log[n].row.rest.Fields?
  }

  /** Entry `n` is a sighting of `c`: the first well-formed row of it in its fetch. */
  predicate Sights(log: seq<Served>, c: CalloutId, n: nat)
  {
    Shows(log, c, n) && forall m: nat :: m < n && Shows(log, c, m) ==> log[m].f != log[n].f
  }

  /** `v` is what the earliest sighting that has a value shows, and null iff none has one. */
  ghost predicate IsFirst<T>(log: seq<Served>, c: CalloutId, get: Served -> Option<T>, v: Option<T>)
  {
    && (v.None? ==> forall n: nat :: Sights(log, c, n) ==> get(log[n]).None?)
    && (v.Some? ==> exists n: nat :: FirstAt(log, c, get, v, n))
  }

  ghost predicate FirstAt<T>(log: seq<Served>, c: CalloutId, get: Served -> Option<T>, v: Option<T>, n: nat)
  {
    Sights(log, c, n) && get(log[n]) == v && forall m: nat :: m < n && Sights(log, c, m) ==> get(log[m]).None?
  }

  /** `v` is what the latest sighting that has a value shows, and null iff none has one. */
  ghost predicate IsLatest<T>(log: seq<Served>, c: CalloutId, get: Served -> Option<T>, v: Option<T>)
  {
    && (v.None? ==> forall n: nat :: Sights(log, c, n) ==> get(log[n]).None?)
    && (v.Some? ==> exists n: nat :: LatestAt(log, c, get, v, n))
  }

  ghost predicate LatestAt<T>(log: seq<Served>, c: CalloutId, get: Served -> Option<T>, v: Option<T>, n: nat)
  {
    Sights(log, c, n) && get(log[n]) == v && forall m: nat :: n < m && Sights(log, c, m) ==> get(log[m]).None?
  }

  function FirstsOf(s: Served): Option<Firsts>
  {
    match s.row.rest
    case Fields(wallet, mint, thesis, price, marketCap, _) => Some(Firsts(wallet, mint, thesis, price, marketCap, s.f))
    case Malformed(_) => None
  }

  function FetchOf(s: Served): Option<FetchId> { Some(s.f) }

  function StampOf(s: Served): Option<nat> { s.row.createdAt }

  function MultipleOf(s: Served): Option<real> { if s.row.rest.Fields? then s.row.rest.lasts.multiple else None }

  function PeakOf(s: Served): Option<nat> { if s.row.rest.Fields? then s.row.rest.lasts.peak else None }

  function UsernameOf(s: Served): Option<string> { if s.row.rest.Fields? then s.row.rest.lasts.username else None }

  function XUsernameOf(s: Served): Option<string> { if s.row.rest.Fields? then s.row.rest.lasts.xUsername else None }

  ghost function SightsOf(log: seq<Served>, c: CalloutId): set<nat>
  {
    set n: nat | n < |log| && Sights(log, c, n)
  }

  /** The row of the table, field by field, as facts about the callout's sightings. */
  ghost predicate TellsOf(log: seq<Served>, c: CalloutId, row: Callout)
  {
    && IsFirst(log, c, FirstsOf, Some(row.firsts)) && IsFirst(log, c, StampOf, row.tEvent)
    && IsLatest(log, c, FetchOf, Some(row.lastSeen)) && row.nSightings == |SightsOf(log, c)|
    && LastsTellOf(log, c, row.lasts)
  }

  ghost predicate LastsTellOf(log: seq<Served>, c: CalloutId, lasts: Lasts)
  {
    && IsLatest(log, c, MultipleOf, lasts.multiple) && IsLatest(log, c, PeakOf, lasts.peak)
    && IsLatest(log, c, UsernameOf, lasts.username) && IsLatest(log, c, XUsernameOf, lasts.xUsername)
  }

  ghost predicate Sighted(log: seq<Served>, c: CalloutId)
  {
    exists n: nat :: Sights(log, c, n)
  }

  ghost predicate SightingLogged(db: Db, log: seq<Served>, c: CalloutId, f: FetchId)
  {
    (c, f) in db.sightings <==> exists n: nat :: Shows(log, c, n) && log[n].f == f
  }

  ghost predicate CalloutLogged(db: Db, log: seq<Served>, c: CalloutId)
  {
    && (forall f :: SightingLogged(db, log, c, f))
    && (c in db.callouts <==> Sighted(log, c))
    && (c in db.callouts ==> TellsOf(log, c, db.callouts[c]))
  }

  lemma SightsGrow(log: seq<Served>, e: Served, c: CalloutId, n: nat)
    requires n < |log|
    ensures Sights(log + [e], c, n) == Sights(log, c, n)
  {
    assert forall m: nat :: m <= n ==> Shows(log + [e], c, m) == Shows(log, c, m) && (log + [e])[m] == log[m];
  }

  lemma FirstGrows<T>(log: seq<Served>, e: Served, c: CalloutId, get: Served -> Option<T>, v: Option<T>, w: Option<T>)
    requires IsFirst(log, c, get, v)
    requires w == if v.None? && Sights(log + [e], c, |log|) then get(e) else v
    ensures IsFirst(log + [e], c, get, w)
  {
    var all := log + [e];
    forall n: nat | n < |log|
      ensures Sights(all, c, n) == Sights(log, c, n) && all[n] == log[n]
    {
      SightsGrow(log, e, c, n);
    }
    if v.Some? {
      var n: nat :| FirstAt(log, c, get, v, n);
      assert FirstAt(all, c, get, w, n);
    } else if w.Some? {
      assert FirstAt(all, c, get, w, |log|);
    }
  }

  lemma LatestGrows<T>(log: seq<Served>, e: Served, c: CalloutId, get: Served -> Option<T>, v: Option<T>, w: Option<T>)
    requires IsLatest(log, c, get, v)
    requires w == if Sights(log + [e], c, |log|) && get(e).Some? then get(e) else v
    ensures IsLatest(log + [e], c, get, w)
  {
    var all := log + [e];
    forall n: nat | n < |log|
      ensures Sights(all, c, n) == Sights(log, c, n) && all[n] == log[n]
    {
      SightsGrow(log, e, c, n);
    }
    if Sights(all, c, |log|) && get(e).Some? {
      assert LatestAt(all, c, get, w, |log|);
    } else if v.Some? {
      var n: nat :| LatestAt(log, c, get, v, n);
      assert LatestAt(all, c, get, w, n);
    }
  }

  lemma SightsOfGrow(log: seq<Served>, e: Served, c: CalloutId)
    ensures |SightsOf(log + [e], c)| == |SightsOf(log, c)| + if Sights(log + [e], c, |log|) then 1 else 0
  {
    var all := log + [e];
    forall n: nat | n < |log|
      ensures Sights(all, c, n) == Sights(log, c, n)
    {
      SightsGrow(log, e, c, n);
    }
    if Sights(all, c, |log|) {
      assert SightsOf(all, c) == SightsOf(log, c) + {|log|};
    } else {
      assert SightsOf(all, c) == SightsOf(log, c);
    }
  }

  /** Everything `upsert_callout` does to a known callout. */
  lemma TellsOfGrows(log: seq<Served>, e: Served, c: CalloutId, row: Callout, after: Callout)
    requires TellsOf(log, c, row)
    requires if Sights(log + [e], c, |log|) then
        after == row.(lastSeen := e.f, nSightings := row.nSightings + 1,
                      tEvent := Coalesce(row.tEvent, e.row.createdAt),
                      lasts := Merge(e.row.rest.lasts, row.lasts))
      else after == row
    ensures TellsOf(log + [e], c, after)
  {
    FirstGrows(log, e, c, FirstsOf, Some(row.firsts), Some(after.firsts));
    FirstGrows(log, e, c, StampOf, row.tEvent, after.tEvent);
    LatestGrows(log, e, c, FetchOf, Some(row.lastSeen), Some(after.lastSeen));
    LatestGrows(log, e, c, MultipleOf, row.lasts.multiple, after.lasts.multiple);
    LatestGrows(log, e, c, PeakOf, row.lasts.peak, after.lasts.peak);
    LatestGrows(log, e, c, UsernameOf, row.lasts.username, after.lasts.username);
    LatestGrows(log, e, c, XUsernameOf, row.lasts.xUsername, after.lasts.xUsername);
    SightsOfGrow(log, e, c);
  }

  /** The first sighting of a callout. */
  lemma TellsOfFirst(log: seq<Served>, e: Served, c: CalloutId, after: Callout)
    requires Sights(log + [e], c, |log|) && !Sighted(log, c)
    requires after.firsts == FirstsOf(e).value && after.tEvent == e.row.createdAt && after.lastSeen == e.f
    requires after.nSightings == 1 && after.lasts == e.row.rest.lasts
    ensures TellsOf(log + [e], c, after)
  {
    assert forall n: nat :: !Sights(log, c, n);
    FirstGrows(log, e, c, FirstsOf, None, Some(after.firsts));
    FirstGrows(log, e, c, StampOf, None, after.tEvent);
    LatestGrows(log, e, c, FetchOf, None, Some(after.lastSeen));
    LatestGrows(log, e, c, MultipleOf, None, after.lasts.multiple);
    LatestGrows(log, e, c, PeakOf, None, after.lasts.peak);
    LatestGrows(log, e, c, UsernameOf, None, after.lasts.username);
    LatestGrows(log, e, c, XUsernameOf, None, after.lasts.xUsername);
    SightsOfGrow(log, e, c);
    assert SightsOf(log, c) == {};
  }

  lemma SightingGrows(db: Db, log: seq<Served>, row: FeedRow, f: FetchId, c: CalloutId, g: FetchId)
    requires SightingLogged(db, log, c, g)
    ensures SightingLogged(RowStep(db, row, f), log + [Served(f, row)], c, g)
  {
    var e := Served(f, row);
    var all := log + [e];
    if n: nat :| Shows(log, c, n) && log[n].f == g {
      assert Shows(all, c, n) && all[n].f == g;
    }
    if n: nat :| Shows(all, c, n) && all[n].f == g {
      if n < |log| {
        assert Shows(log, c, n);
      }
    }
    if (c, g) in RowStep(db, row, f).sightings && (c, g) !in db.sightings {
      assert Shows(all, c, |log|) && all[|log|].f == g;
    }
  }

  /** The row just served is a sighting exactly when the table holds none of its callout and fetch. */
  lemma LastSights(db: Db, log: seq<Served>, row: FeedRow, f: FetchId, c: CalloutId)
    requires SightingLogged(db, log, c, f)
    ensures Sights(log + [Served(f, row)], c, |log|) <==>
      row.named == Some(c) && row.rest.Fields? && (c, f) !in db.sightings
  {
    var all := log + [Served(f, row)];
    assert forall m: nat :: m < |log| ==> Shows(all, c, m) == Shows(log, c, m) && all[m] == log[m];
  }

  lemma SightedGrows(log: seq<Served>, e: Served, c: CalloutId)
    ensures Sighted(log + [e], c) <==> Sighted(log, c) || Sights(log + [e], c, |log|)
  {
    if n: nat :| Sights(log, c, n) {
      SightsGrow(log, e, c, n);
    }
    if n: nat :| Sights(log + [e], c, n) && n != |log| {
      SightsGrow(log, e, c, n);
    }
  }

  lemma RowLogged(db: Db, log: seq<Served>, row: FeedRow, f: FetchId, c: CalloutId)
    requires CalloutLogged(db, log, c)
    ensures CalloutLogged(RowStep(db, row, f), log + [Served(f, row)], c)
  {
    var e, after := Served(f, row), RowStep(db, row, f);
    forall g
      ensures SightingLogged(after, log + [e], c, g)
    {
      assert SightingLogged(db, log, c, g);
      SightingGrows(db, log, row, f, c, g);
    }
    assert SightingLogged(db, log, c, f);
    LastSights(db, log, row, f, c);
    SightedGrows(log, e, c);
    if c in db.callouts {
      TellsOfGrows(log, e, c, db.callouts[c], after.callouts[c]);
    } else if c in after.callouts {
      TellsOfFirst(log, e, c, after.callouts[c]);
    }
  }

  lemma {:induction false} RowsLogged(db: Db, log: seq<Served>, rows: seq<FeedRow>, f: FetchId, c: CalloutId)
    requires CalloutLogged(db, log, c)
    ensures CalloutLogged(RowsStep(db, rows, f), log + ServedRows(rows, f), c)
  {
    if rows == [] {
      assert log + ServedRows(rows, f) == log;
    } else {
      var n := |rows| - 1;
      RowsLogged(db, log, rows[..n], f, c);
      RowLogged(RowsStep(db, rows[..n], f), log + ServedRows(rows[..n], f), rows[n], f, c);
      assert log + ServedRows(rows[..n], f) + [Served(f, rows[n])] == log + ServedRows(rows, f);
    }
  }

  lemma SameTables(db: Db, after: Db, log: seq<Served>, c: CalloutId)
    requires CalloutLogged(db, log, c) && after.sightings == db.sightings && after.callouts == db.callouts
    ensures CalloutLogged(after, log, c)
  {
    forall f
      ensures SightingLogged(after, log, c, f)
    {
      assert SightingLogged(db, log, c, f);
    }
  }

  lemma NothingLogged(c: CalloutId)
    ensures CalloutLogged(EmptyDb, [], c)
  {
    assert forall n: nat :: !Shows([], c, n) && !Sights([], c, n);
  }

  lemma {:induction false} RunLogged(bodies: seq<Body>, c: CalloutId)
    ensures CalloutLogged(DeriveAll(bodies), Log(bodies), c)
  {
    if bodies == [] {
      NothingLogged(c);
    } else {
      var n := |bodies| - 1;
      var b := bodies[n];
      RunLogged(bodies[..n], c);
      RowsLogged(DeriveAll(bodies[..n]), Log(bodies[..n]), b.rows, b.f, c);
      SameTables(RowsStep(DeriveAll(bodies[..n]), b.rows, b.f), DeriveAll(bodies), Log(bodies), c);
    }
  }

  /** Over any bodies the tables hold a callout exactly when some row sighted it, and every field
      of its row is read off its sightings: the firsts off the first, the event time off the first
      that has one, the last fetch off the latest, each last value off the latest that has one. */
  lemma TablesTellSightings(bodies: seq<Body>, c: CalloutId)
    ensures c in DeriveAll(bodies).callouts <==> Sighted(Log(bodies), c)
    ensures c in DeriveAll(bodies).callouts ==> TellsOf(Log(bodies), c, DeriveAll(bodies).callouts[c])
  {
    RunLogged(bodies, c);
  }

  lemma {:induction false} RowsLeaveWindows(db: Db, rows: seq<FeedRow>, f: FetchId)
    ensures RowsStep(db, rows, f).windows == db.windows
  {
    if rows != [] {
      RowsLeaveWindows(db, rows[..|rows| - 1], f);
    }
  }

  ghost predicate LastBody(bodies: seq<Body>, f: FetchId, n: nat)
  {
    n < |bodies| && bodies[n].f == f && forall m: nat :: n < m < |bodies| ==> bodies[m].f != f
  }

  ghost predicate Windowed(db: Db, b: Body)
  {
    b.f in db.windows && db.windows[b.f] == Window(b.route, b.scope, MinStamp(b.rows), MaxStamp(b.rows))
  }

  lemma LastBodyGrows(bodies: seq<Body>, f: FetchId, n: nat)
    requires bodies != []
    ensures LastBody(bodies, f, n) <==>
      if bodies[|bodies| - 1].f == f then n == |bodies| - 1 else LastBody(bodies[..|bodies| - 1], f, n)
  {
  }

  /** A fetch has a window exactly when a body of it was derived, empty bodies included, and the
      window spans the stamps of the last such body, refused rows included. */
  lemma {:induction false} WindowSpansLastBody(bodies: seq<Body>, f: FetchId)
    ensures f in DeriveAll(bodies).windows <==> exists n: nat :: LastBody(bodies, f, n)
    ensures forall n: nat :: LastBody(bodies, f, n) ==> Windowed(DeriveAll(bodies), bodies[n])
  {
    if bodies != [] {
      var last := |bodies| - 1;
      WindowSpansLastBody(bodies[..last], f);
      RowsLeaveWindows(DeriveAll(bodies[..last]), bodies[last].rows, bodies[last].f);
      forall n: nat
        ensures LastBody(bodies, f, n) <==> if bodies[last].f == f then n == last else LastBody(bodies[..last], f, n)
        ensures LastBody(bodies, f, n) ==> Windowed(DeriveAll(bodies), bodies[n])
      {
        LastBodyGrows(bodies, f, n);
        if n < last {
          assert LastBody(bodies[..last], f, n) ==> Windowed(DeriveAll(bodies[..last]), bodies[..last][n]);
        }
      }
    }
  }

  // ---------------------------------------------------------------- the object

  datatype PageAnswer<Token> = PageFailed | PageOk(t: nat, rows: seq<FeedRow>, next: Option<Token>)

  class Store {
    var db: Db
    var nextFetch: FetchId

    constructor ()
      ensures db == EmptyDb && nextFetch == 0
    {
      db, nextFetch := EmptyDb, 0;
    }

    /** One accepted row: its sighting, and the upsert if the sighting is the body's first of it. */
    method TakeRow(row: FeedRow, f: FetchId) returns (sighted: bool, isNew: bool)
      requires CountsAreRows(db)
      modifies this`db
      ensures db == RowStep(old(db), row, f)
      ensures |db.sightings| == |old(db).sightings| + if sighted then 1 else 0
      ensures isNew <==> IsNewIn(old(db), row, f)
    {
      sighted, isNew := false, false;
      if row.Accepted().Some? && (row.Accepted().value.id, f) !in db.sightings {
        var p := row.Accepted().value;
        assert Counted(db, p.id);
        db := db.(sightings := db.sightings + {(p.id, f)}, callouts := Upsert(db.callouts, p, row.createdAt, f));
        sighted, isNew := true, db.callouts[p.id].nSightings == 1;
      }
    }

    /** `derive_callout_rows`: the only path from a body to derived rows. */
    method DeriveRows(f: FetchId, route: Route, scope: Option<Mint>, rows: seq<FeedRow>)
      returns (fresh': seq<CalloutId>, oldest: Option<nat>, newest: Option<nat>, sightings: nat,
               quarantined: map<Reason, nat>)
      requires CountsAreRows(db)
      modifies this`db
      ensures db == Derive(old(db), f, route, scope, rows)
      ensures |db.sightings| == |old(db).sightings| + sightings
      ensures IsTally(quarantined, rows)
      ensures fresh' == NewIn(old(db), rows, f)
      ensures oldest == MinStamp(rows) && newest == MaxStamp(rows)
    {
      ghost var start := db;
      fresh', oldest, newest := [], None, None;
      sightings, quarantined := 0, map[];
      for n := 0 to |rows|
        invariant |db.sightings| == |start.sightings| + sightings && IsTally(quarantined, rows[..n])
        invariant db == RowsStep(start, rows[..n], f) && CountsAreRows(db)
        invariant fresh' == NewIn(start, rows[..n], f)
        invariant oldest == MinStamp(rows[..n]) && newest == MaxStamp(rows[..n])
      {
        assert rows[..n + 1][..n] == rows[..n] && rows[..n + 1][n] == rows[n];
        var row := rows[n];
        oldest, newest := Earlier(oldest, row.createdAt), Later(newest, row.createdAt);
        TallyRow(quarantined, rows, n);
        if row.Quarantined().Some? {
          quarantined := Tick(quarantined, row.Quarantined().value);
        }
        RowKeeps(db, row, f);
        var sighted, isNew := TakeRow(row, f);
        sightings := sightings + if sighted then 1 else 0;
        if isNew {
          fresh' := fresh' + [row.named.value];
        }
      }
      assert rows[..|rows|] == rows;
      db := db.(windows := db.windows[f := Window(route, scope, oldest, newest)]);
    }

    /** Retain one page's bytes as a fetch and derive from it. */
    method RetainPage(t: nat, rows: seq<FeedRow>) returns (oldest: Option<nat>)
      requires CountsAreRows(db)
      modifies this
      ensures nextFetch == old(nextFetch) + 1
      ensures db == Derive(old(db).(fetches := old(db).fetches[old(nextFetch) := Fetch(t, 200)]), old(nextFetch),
                           Recent, None, rows)
      ensures CountsAreRows(db) && AllKept(old(db), db)
      ensures oldest == MinStamp(rows)
    {
      var f := nextFetch;
      nextFetch := nextFetch + 1;
      ghost var before := db;
      db := db.(fetches := db.fetches[f := Fetch(t, 200)]);
      ghost var mid := db;
      FetchKeepsCounts(before, mid);
      WindowKeepsCounts(mid, f, Recent, None, rows);
      var fresh', newest;
      var sightings, quarantined;
      fresh', oldest, newest, sightings, quarantined := DeriveRows(f, Recent, None, rows);
    }

    /** What a walk needs to know of a retained page. */
    method KeepPage(t: nat, rows: seq<FeedRow>) returns (oldest: Option<nat>)
      requires CountsAreRows(db)
      modifies this
      ensures CountsAreRows(db) && AllKept(old(db), db) && oldest == MinStamp(rows)
    {
      oldest := RetainPage(t, rows);
    }

    /** `walk_firehose`: page back until the feed is older than `since`, is exhausted, fails,
        repeats a cursor or runs out of pages. Of the three fields of the summary exactly one is
        set; a walk that failed or was truncated had no page past `since`. */
    method WalkFirehose<Token(==)>(answer: nat -> PageAnswer<Token>, since: nat, limit: nat, maxPages: nat)
      returns (reachedSince: bool, truncated: Option<Why>, failed: Option<nat>, pages: nat)
      requires CountsAreRows(db)
      modifies this
      ensures pages <= maxPages && CountsAreRows(db) && AllKept(old(db), db)
      ensures !(reachedSince && truncated.Some?) && !(reachedSince && failed.Some?)
      ensures !(truncated.Some? && failed.Some?)
      ensures reachedSince || truncated.Some? || failed.Some?
      ensures failed.Some? ==> failed.value == pages < maxPages && answer(pages).PageFailed?
      ensures reachedSince ==> pages > 0 && (PastSince(answer(pages - 1), since) || Exhausted(answer(pages - 1), limit))
      ensures reachedSince ==> forall n :: 0 <= n < pages - 1 ==> answer(n).PageOk? && !PastSince(answer(n), since)
      ensures !reachedSince ==> forall n :: 0 <= n < pages ==> answer(n).PageOk? && !PastSince(answer(n), since)
      ensures truncated == Some(MaxPages) ==> pages == maxPages
      ensures truncated == Some(FullPageNoToken) ==>
        pages > 0 && answer(pages - 1).next.None? && |answer(pages - 1).rows| >= limit
      ensures truncated == Some(CursorLoop) ==>
        exists n :: 0 <= n < pages - 1 && answer(n).next == answer(pages - 1).next
    {
      reachedSince, truncated, failed, pages := false, None, None, 0;
      var seen: set<Token> := {};
      while pages < maxPages
        invariant pages <= maxPages && CountsAreRows(db) && AllKept(old(db), db)
        invariant !reachedSince && truncated.None? && failed.None?
        invariant forall n :: 0 <= n < pages ==> answer(n).PageOk? && !PastSince(answer(n), since)
        invariant forall token :: token in seen ==> exists n :: 0 <= n < pages && answer(n).next == Some(token)
        decreases maxPages - pages
      {
        var a := answer(pages);
        if a.PageFailed? {
          failed := Some(pages);
          return;
        }
        ghost var before := db;
        var oldest := KeepPage(a.t, a.rows);
        KeptTransitive(old(db), before, db);
        pages := pages + 1;
        if oldest.Some? && oldest.value < since {
          reachedSince := true;
          return;
        }
        if a.next.None? {
          if |a.rows| >= limit {
            truncated := Some(FullPageNoToken);
          } else {
            reachedSince := true;
          }
          return;
        }
        if a.next.value in seen {
          truncated := Some(CursorLoop);
          return;
        }
        seen := seen + {a.next.value};
        assert answer(pages - 1).next == Some(a.next.value);
      }
      truncated := Some(MaxPages);
    }
  }

  datatype Why = MaxPages | FullPageNoToken | CursorLoop

  predicate PastSince<Token>(a: PageAnswer<Token>, since: nat)
  {
    a.PageOk? && MinStamp(a.rows).Some? && MinStamp(a.rows).value < since
  }

  predicate Exhausted<Token>(a: PageAnswer<Token>, limit: nat)
  {
    a.PageOk? && a.next.None? && |a.rows| < limit
  }

  lemma KeptTransitive(a: Db, b: Db, c: Db)
    requires AllKept(a, b) && AllKept(b, c)
    ensures AllKept(a, c)
  {
  }

  lemma FetchKeepsCounts(before: Db, after: Db)
    requires CountsAreRows(before) && after.sightings == before.sightings && after.callouts == before.callouts
    ensures CountsAreRows(after)
  {
    forall c: CalloutId
      ensures Counted(after, c)
    {
      assert Counted(before, c);
      assert SightedIn(after, c) == SightedIn(before, c);
    }
  }

  lemma WindowKeepsCounts(db: Db, f: FetchId, route: Route, scope: Option<Mint>, rows: seq<FeedRow>)
    requires CountsAreRows(db)
    ensures CountsAreRows(Derive(db, f, route, scope, rows)) && AllKept(db, Derive(db, f, route, scope, rows))
  {
    RowsKeep(db, rows, f);
    var mid, after := RowsStep(db, rows, f), Derive(db, f, route, scope, rows);
    forall c: CalloutId
      ensures Counted(after, c)
    {
      assert Counted(mid, c);
      assert SightedIn(after, c) == SightedIn(mid, c);
    }
  }
}
