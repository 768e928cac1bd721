/** What the gate lets in: the update cursor and the per-user sliding window. */
module GateIntake {

  datatype Option<T> = None | Some(value: T)

  // ---------------------------------------------------------------- the cursor

  /** An update whose id is missing, not an integer or negative is `None`. */
  type Update = Option<nat>

  /** Cursor, and the ids handled so far. */
  datatype Intake = Intake(cursor: Option<nat>, handled: seq<nat>)

  predicate Ahead(cursor: Option<nat>, id: nat)
  {
    cursor.None? || id > cursor.value
  }

  function Process(s: Intake, u: Update): Intake
  {
    if u.None? || !Ahead(s.cursor, u.value) then s else Intake(Some(u.value), s.handled + [u.value])
  }

  function Deliver(updates: seq<Update>): Intake
  {
    if updates == [] then Intake(None, []) else Process(Deliver(updates[..|updates| - 1]), updates[|updates| - 1])
  }

  /** The id beats every valid id delivered before it. */
  ghost predicate Record(updates: seq<Update>, k: nat)
  {
    k < |updates| && updates[k].Some? && forall i :: 0 <= i < k && updates[i].Some? ==>
      updates[i].value < updates[k].value
  }

  ghost predicate Ascending(s: seq<nat>)
  {
    forall i, j :: 0 <= i < j < |s| ==> s[i] < s[j]
  }

  /** The cursor is the largest valid id ever delivered. */
  lemma {:induction false} CursorIsMaximum(updates: seq<Update>)
    ensures forall i :: 0 <= i < |updates| && updates[i].Some? ==> !Ahead(Deliver(updates).cursor, updates[i].value)
    ensures Deliver(updates).cursor.Some? ==> Deliver(updates).cursor in updates
    decreases |updates|
  {
    if updates != [] {
      var n := |updates| - 1;
      CursorIsMaximum(updates[..n]);
      assert forall i :: 0 <= i < n ==> updates[..n][i] == updates[i];
    }
  }

  /** Ids are handled in increasing order, so none is handled twice. */
  lemma {:induction false} HandledOnce(updates: seq<Update>)
    ensures Ascending(Deliver(updates).handled)
    ensures forall i :: 0 <= i < |Deliver(updates).handled| ==>
      !Ahead(Deliver(updates).cursor, Deliver(updates).handled[i])
    decreases |updates|
  {
    if updates != [] {
      HandledOnce(updates[..|updates| - 1]);
    }
  }

  /** An id is handled exactly when it beats every valid id delivered before it. */
  lemma {:induction false} HandledIffRecord(updates: seq<Update>, k: nat)
    requires k < |updates|
    ensures Record(updates, k) <==>
      updates[k].Some? && Deliver(updates[..k + 1]).handled == Deliver(updates[..k]).handled + [updates[k].value]
    ensures !Record(updates, k) ==> Deliver(updates[..k + 1]) == Deliver(updates[..k])
  {
    var before := updates[..k];
    CursorIsMaximum(before);
    assert updates[..k + 1][..k] == before;
    assert forall i :: 0 <= i < k ==> before[i] == updates[i];
    var cursor := Deliver(before).cursor;
    if cursor.Some? {
      var i :| 0 <= i < |before| && before[i] == cursor;
      assert updates[i] == cursor;
    }
  }

  /** A redelivered or overtaken update is never handled (again). */
  lemma RedeliveryIsIgnored(updates: seq<Update>, i: nat)
    requires i < |updates|
    ensures Deliver(updates + [updates[i]]) == Deliver(updates)
  {
    CursorIsMaximum(updates);
    assert (updates + [updates[i]])[..|updates|] == updates;
  }

  class Gateway {
    var cursor: Option<nat>
    ghost var handled: seq<nat>

    constructor ()
      ensures View() == Deliver([])
    {
      cursor, handled := None, [];
    }

    ghost function View(): Intake
      reads this
    {
      Intake(cursor, handled)
    }

    /** `advance_cursor`: never backwards. */
    method AdvanceCursor(id: nat)
      modifies this`cursor
      ensures cursor == if Ahead(old(cursor), id) then Some(id) else old(cursor)
    {
      if cursor.Some? && id <= cursor.value {
        return;
      }
      cursor := Some(id);
    }

    /** `process_update`: whatever the handler does, the cursor moves past the update. */
    method ProcessUpdate(u: Update)
      modifies this
      ensures View() == Process(old(View()), u)
    {
      if u.None? || (cursor.Some? && u.value <= cursor.value) {
        return;
      }
      handled := handled + [u.value];
      AdvanceCursor(u.value);
    }
  }

  // ---------------------------------------------------------------- the sliding window

  const RATE_WINDOW := 60.0

  type Uid = nat

  datatype Call = Call(uid: Uid, now: real)

  /** The deques, and every admitted call. */
  datatype Limiter = Limiter(hits: map<Uid, seq<real>>, admitted: seq<Call>)

  /** Pop from the left while expired. */
  function Expire(hits: seq<real>, now: real): seq<real>
  {
    if hits != [] && now - hits[0] >= RATE_WINDOW then Expire(hits[1..], now) else hits
  }

  /** The entries still inside the window, wherever they stand. */
  ghost function Recent(s: seq<real>, now: real): seq<real>
  {
    if s == [] then [] else (if now - s[0] < RATE_WINDOW then [s[0]] else []) + Recent(s[1..], now)
  }

  function HitsOf(l: Limiter, uid: Uid): seq<real>
  {
    if uid in l.hits then l.hits[uid] else []
  }

  function Admit(l: Limiter, c: Call, perMinute: int): Limiter
  {
    var kept := Expire(HitsOf(l, c.uid), c.now);
    if |kept| >= perMinute then l.(hits := l.hits[c.uid := kept])
    else Limiter(l.hits[c.uid := kept + [c.now]], l.admitted + [c])
  }

  function Run(calls: seq<Call>, perMinute: int): Limiter
  {
    if calls == [] then Limiter(map[], [])
    else Admit(Run(calls[..|calls| - 1], perMinute), calls[|calls| - 1], perMinute)
  }

  ghost function Times(calls: seq<Call>, uid: Uid): seq<real>
  {
    if calls == [] then []
    else Times(calls[..|calls| - 1], uid) + if calls[|calls| - 1].uid == uid then [calls[|calls| - 1].now] else []
  }

  lemma TimesSnoc(calls: seq<Call>, c: Call, uid: Uid)
    ensures Times(calls + [c], uid) == if c.uid == uid then Times(calls, uid) + [c.now] else Times(calls, uid)
  {
    assert (calls + [c])[..|calls|] == calls;
  }

  ghost predicate Rising(s: seq<real>)
  {
    forall i, j :: 0 <= i < j < |s| ==> s[i] <= s[j]
  }

  ghost predicate ClockRuns(calls: seq<Call>)
  {
    forall i, j :: 0 <= i < j < |calls| ==> calls[i].now <= calls[j].now
  }

  lemma {:induction false} AllRecent(s: seq<real>, now: real)
    requires forall i :: 0 <= i < |s| ==> now - s[i] < RATE_WINDOW
    ensures Recent(s, now) == s
    decreases |s|
  {
    if s != [] {
      AllRecent(s[1..], now);
    }
  }

  /** On a rising deque popping from the left removes exactly the expired. */
  lemma {:induction false} ExpireIsRecent(s: seq<real>, now: real)
    requires Rising(s)
    ensures Expire(s, now) == Recent(s, now) && Rising(Expire(s, now))
    ensures forall x :: x in Expire(s, now) ==> x in s
    decreases |s|
  {
    if s != [] && now - s[0] >= RATE_WINDOW {
      ExpireIsRecent(s[1..], now);
    } else {
      AllRecent(s, now);
    }
  }

  lemma {:induction false} RecentConcat(a: seq<real>, b: seq<real>, now: real)
    ensures Recent(a + b, now) == Recent(a, now) + Recent(b, now)
    decreases |a|
  {
    if a == [] {
      assert a + b == b;
    } else {
      assert (a + b)[0] == a[0] && (a + b)[1..] == a[1..] + b;
      RecentConcat(a[1..], b, now);
    }
  }

  lemma {:induction false} RecentRecent(s: seq<real>, now: real, later: real)
    requires now <= later
    ensures Recent(Recent(s, now), later) == Recent(s, later)
    decreases |s|
  {
    if s != [] {
      RecentRecent(s[1..], now, later);
      RecentConcat(if now - s[0] < RATE_WINDOW then [s[0]] else [], Recent(s[1..], now), later);
    }
  }

  /** The deque remembers all of the user's admissions the window can still see. */
  ghost predicate Remembers(l: Limiter, uid: Uid, now: real)
  {
    && Rising(HitsOf(l, uid)) && (forall x :: x in HitsOf(l, uid) ==> x <= now)
    && Recent(HitsOf(l, uid), now) == Recent(Times(l.admitted, uid), now)
  }

  lemma RemembersLater(l: Limiter, uid: Uid, now: real, later: real)
    requires Remembers(l, uid, now) && now <= later
    ensures Remembers(l, uid, later)
  {
    RecentRecent(HitsOf(l, uid), now, later);
    RecentRecent(Times(l.admitted, uid), now, later);
  }

  lemma RisingSnoc(s: seq<real>, x: real)
    requires Rising(s) && forall y :: y in s ==> y <= x
    ensures Rising(s + [x])
  {
    assert forall i :: 0 <= i < |s| ==> s[i] in s;
  }

  lemma {:induction false} RecentSnoc(a: seq<real>, b: seq<real>, now: real)
    requires Recent(a, now) == Recent(b, now)
    ensures Recent(a + [now], now) == Recent(b + [now], now)
  {
    RecentConcat(a, [now], now);
    RecentConcat(b, [now], now);
  }

  lemma {:induction false} DequeRemembers(hits: seq<real>, kept: seq<real>, times: seq<real>, now: real)
    requires Rising(hits) && (forall x :: x in hits ==> x <= now) && Recent(hits, now) == Recent(times, now)
    requires kept == Expire(hits, now)
    ensures Rising(kept) && Rising(kept + [now]) && forall x :: x in kept ==> x <= now
    ensures Recent(kept, now) == Recent(times, now) && Recent(kept + [now], now) == Recent(times + [now], now)
  {
    ExpireIsRecent(hits, now);
    RisingSnoc(kept, now);
    RecentRecent(hits, now, now);
    RecentSnoc(kept, times, now);
  }

  lemma AdmitRemembers(l: Limiter, c: Call, perMinute: int, uid: Uid)
    requires Remembers(l, uid, c.now)
    ensures Remembers(Admit(l, c, perMinute), uid, c.now)
  {
    TimesSnoc(l.admitted, c, uid);
    if c.uid == uid {
      DequeRemembers(HitsOf(l, uid), Expire(HitsOf(l, uid), c.now), Times(l.admitted, uid), c.now);
    }
  }

  lemma {:induction false} RunRemembers(calls: seq<Call>, perMinute: int, uid: Uid, now: real)
    requires ClockRuns(calls) && (calls != [] ==> calls[|calls| - 1].now <= now)
    ensures Remembers(Run(calls, perMinute), uid, now)
    decreases |calls|
  {
    if calls != [] {
      var n := |calls| - 1;
      RunRemembers(calls[..n], perMinute, uid, calls[n].now);
      AdmitRemembers(Run(calls[..n], perMinute), calls[n], perMinute, uid);
      RemembersLater(Run(calls, perMinute), uid, calls[n].now, now);
    }
  }

  /** In every run a call is admitted exactly when fewer than `perMinute` of the user's own
      admissions lie in the minute before it; nobody else's calls matter. */
  lemma AdmittedIff(calls: seq<Call>, perMinute: int, c: Call)
    requires ClockRuns(calls + [c])
    ensures var was, now := Run(calls, perMinute).admitted, Run(calls + [c], perMinute).admitted;
      now == if |Recent(Times(was, c.uid), c.now)| < perMinute then was + [c] else was
  {
    var all := calls + [c];
    assert all[..|calls|] == calls && all[|calls|] == c;
    assert forall i :: 0 <= i < |calls| ==> all[i] == calls[i];
    RunRemembers(calls, perMinute, c.uid, c.now);
    ExpireIsRecent(HitsOf(Run(calls, perMinute), c.uid), c.now);
  }

  /** Admissions in the minute ending at `t`. */
  ghost function InMinute(s: seq<real>, t: real): nat
  {
    if s == [] then 0 else (if t - RATE_WINDOW < s[0] <= t then 1 else 0) + InMinute(s[1..], t)
  }

  lemma {:induction false} InMinuteConcat(a: seq<real>, b: seq<real>, t: real)
    ensures InMinute(a + b, t) == InMinute(a, t) + InMinute(b, t)
    decreases |a|
  {
    if a == [] {
      assert a + b == b;
    } else {
      assert (a + b)[0] == a[0] && (a + b)[1..] == a[1..] + b;
      InMinuteConcat(a[1..], b, t);
    }
  }

  lemma {:induction false} InMinuteByRecent(s: seq<real>, t: real, now: real)
    requires now <= t
    ensures InMinute(s, t) <= |Recent(s, now)|
    decreases |s|
  {
    if s != [] {
      InMinuteByRecent(s[1..], t, now);
    }
  }

  /** No minute, wherever it ends, holds more than `perMinute` admissions of one user. */
  lemma {:induction false} EveryMinuteIsLimited(calls: seq<Call>, perMinute: nat, uid: Uid, t: real)
    requires ClockRuns(calls)
    ensures InMinute(Times(Run(calls, perMinute).admitted, uid), t) <= perMinute
    decreases |calls|
  {
    if calls != [] {
      var n := |calls| - 1;
      var c, was := calls[n], Run(calls[..n], perMinute).admitted;
      EveryMinuteIsLimited(calls[..n], perMinute, uid, t);
      assert calls[..n] + [c] == calls;
      AdmittedIff(calls[..n], perMinute, c);
      TimesSnoc(was, c, uid);
      if c.uid == uid && |Recent(Times(was, uid), c.now)| < perMinute {
        OneMoreInMinute(Times(was, uid), c.now, t, perMinute);
      }
    }
  }

  lemma {:induction false} OneMoreInMinute(s: seq<real>, now: real, t: real, perMinute: nat)
    requires InMinute(s, t) <= perMinute && |Recent(s, now)| < perMinute
    ensures InMinute(s + [now], t) <= perMinute
  {
    InMinuteConcat(s, [now], t);
    if now <= t {
      InMinuteByRecent(s, t, now);
    }
  }

  class ScreenLookup {
    var hits: map<Uid, seq<real>>
    ghost var admitted: seq<Call>

    constructor ()
      ensures View() == Limiter(map[], [])
    {
      hits, admitted := map[], [];
    }

    ghost function View(): Limiter
      reads this
    {
      Limiter(hits, admitted)
    }

    /** `_admit`. */
    method AdmitCall(c: Call, perMinute: int) returns (ok: bool)
      modifies this
      ensures View() == Admit(old(View()), c, perMinute)
      ensures admitted == if ok then old(admitted) + [c] else old(admitted)
    {
      var mine := if c.uid in hits then hits[c.uid] else [];
      while mine != [] && c.now - mine[0] >= RATE_WINDOW
        invariant Expire(mine, c.now) == Expire(HitsOf(old(View()), c.uid), c.now)
      {
        mine := mine[1..];
      }
      if |mine| >= perMinute {
        hits := hits[c.uid := mine];
        return false;
      }
      hits := hits[c.uid := mine + [c.now]];
      admitted := admitted + [c];
      ok := true;
    }
  }
}
