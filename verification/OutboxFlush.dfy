/** What one flush does to each row of the outbox, told of the row alone. */
module OutboxFlush {
  import opened Outbox

  // ---------------------------------------------------------------- how long a row waits

  /** The wait doubles from two seconds with every failure and stays at 256. */
  lemma DelayDoubles(attempts: nat)
    requires attempts >= 1
    ensures Delay(1) == 2
    ensures attempts < 8 ==> Delay(attempts + 1) == 2 * Delay(attempts)
    ensures attempts >= 8 ==> Delay(attempts) == 256
  {
    PowersOfTwo();
  }

  lemma PowersOfTwo()
    ensures Pow2(1) == 2 && Pow2(2) == 4 && Pow2(3) == 8 && Pow2(4) == 16
    ensures Pow2(5) == 32 && Pow2(6) == 64 && Pow2(7) == 128 && Pow2(8) == 256
  {
    assert Pow2(2) == 2 * Pow2(1) && Pow2(4) == 2 * Pow2(3) && Pow2(6) == 2 * Pow2(5) && Pow2(8) == 2 * Pow2(7);
  }

  /** A row after a transient failure: one attempt more, and due again a while after the failure. */
  ghost function Deferred(r: Row, clock: real): Row
  {
    Row(r.id, r.key, r.kind, r.attempts + 1, clock + Delay(r.attempts + 1) as real)
  }

  // ---------------------------------------------------------------- which rows a batch reads

  ghost function DueBelow(rows: seq<Row>, now: real, id: nat): set<Row>
  {
    set s | s in rows && s.nextAttemptAt <= now && s.id < id
  }

  /** The row is due, and fewer than twenty due rows have smaller ids. */
  ghost predicate InBatch(rows: seq<Row>, now: real, r: Row)
  {
    r in rows && r.nextAttemptAt <= now && |DueBelow(rows, now, r.id)| < 20
  }

  ghost function Members(rows: seq<Row>): set<Row>
  {
    set s | s in rows
  }

  lemma MembersSnoc(rows: seq<Row>, x: Row)
    requires x !in rows
    ensures |Members(rows + [x])| == |Members(rows)| + 1
  {
    assert Members(rows + [x]) == Members(rows) + {x};
  }

  lemma {:induction false} OrderedSize(rows: seq<Row>)
    requires Ordered(rows)
    ensures |Members(rows)| == |rows|
    decreases |rows|
  {
    if rows == [] {
      assert Members(rows) == {};
    } else {
      var n := |rows| - 1;
      OrderedSize(rows[..n]);
      assert rows == rows[..n] + [rows[n]];
      MembersSnoc(rows[..n], rows[n]);
    }
  }

  /** Position `t` of the due rows has `t` due rows below it. */
  lemma DueAt(rows: seq<Row>, now: real, t: nat)
    requires Ordered(rows) && t < |Due(rows, now)|
    ensures var r := Due(rows, now)[t];
      DueBelow(rows, now, r.id) == Members(Due(rows, now)[..t]) && |DueBelow(rows, now, r.id)| == t
  {
    var due := Due(rows, now);
    DueMembers(rows, now);
    OrderedSize(due[..t]);
    forall s
      ensures s in due[..t] <==> s in rows && s.nextAttemptAt <= now && s.id < due[t].id
    {
      if s in rows && s.nextAttemptAt <= now && s.id < due[t].id {
        var i :| 0 <= i < |due| && due[i] == s;
        assert i < t && due[..t][i] == s;
      }
      if s in due[..t] {
        var i :| 0 <= i < t && due[i] == s;
        assert s in due;
      }
    }
  }

  lemma PendingIff(rows: seq<Row>, now: real, r: Row)
    requires Ordered(rows)
    ensures r in Pending(rows, now) <==> InBatch(rows, now, r)
  {
    var due := Due(rows, now);
    DueMembers(rows, now);
    if r in due {
      var t :| 0 <= t < |due| && due[t] == r;
      DueAt(rows, now, t);
      if t < 20 {
        assert Pending(rows, now)[t] == r;
      }
    }
  }

  // ---------------------------------------------------------------- what a flush does to a row

  /** The flush gets to the row: it is in the batch and no due row below it fails transiently. */
  ghost predicate GotTo(rows: seq<Row>, now: real, answer: nat -> Answer, r: Row)
  {
    InBatch(rows, now, r) && forall s :: s in DueBelow(rows, now, r.id) ==> answer(s.id) != Transient
  }

  lemma GotToIff(rows: seq<Row>, now: real, answer: nat -> Answer, t: nat)
    requires Ordered(rows) && t < |Pending(rows, now)|
    ensures GotTo(rows, now, answer, Pending(rows, now)[t]) <==> t <= Stop(Pending(rows, now), answer, 0)
  {
    var items, due := Pending(rows, now), Due(rows, now);
    var n := Stop(items, answer, 0);
    assert items[t] == due[t] && items[t] in items;
    PendingIff(rows, now, items[t]);
    DueAt(rows, now, t);
    if t <= n {
      forall s | s in DueBelow(rows, now, items[t].id)
        ensures answer(s.id) != Transient
      {
        var i :| 0 <= i < |due[..t]| && due[..t][i] == s;
        assert items[i] == s;
      }
    } else {
      assert items[n] == due[..t][n] && items[n] in DueBelow(rows, now, items[t].id);
    }
  }

  lemma {:induction false} HandledPlaces(b: Box, items: seq<Row>, answer: nat -> Answer, k: nat, id: nat)
    requires k <= |items|
    ensures id in Handled(b, items, answer, k).delivered <==>
      id in b.delivered || (AmongFirst(items, k, id) && answer(id) == Delivered)
    ensures id in Handled(b, items, answer, k).dropped <==>
      id in b.dropped || (AmongFirst(items, k, id) && answer(id) != Delivered)
    decreases k
  {
    if k > 0 {
      HandledPlaces(b, items, answer, k - 1, id);
      AmongFirstStep(items, k, id);
    }
  }

  lemma {:induction false} BackOffMembers(rows: seq<Row>, id: nat, attempts: nat, clock: real, s: Row)
    ensures s in BackOff(rows, id, attempts, clock) <==>
      if s.id != id then s in rows
      else s.attempts == attempts && s.nextAttemptAt == clock + Delay(attempts) as real &&
           exists r :: r in rows && r.id == id && r.key == s.key && r.kind == s.kind
    decreases |rows|
  {
    if rows != [] {
      var n := |rows| - 1;
      BackOffMembers(rows[..n], id, attempts, clock, s);
      assert rows == rows[..n] + [rows[n]];
    }
  }

  /** The rows the flush gets to without a transient failure are those it handles. */
  lemma HandledIff(b: Box, now: real, answer: nat -> Answer, r: Row)
    requires Ordered(b.rows) && r in b.rows
    ensures var items := Pending(b.rows, now);
      var n := Stop(items, answer, 0);
      && (AmongFirst(items, n, r.id) <==> GotTo(b.rows, now, answer, r) && answer(r.id) != Transient)
      && (n < |items| && items[n] == r <==> GotTo(b.rows, now, answer, r) && answer(r.id) == Transient)
  {
    var items := Pending(b.rows, now);
    var n := Stop(items, answer, 0);
    PendingOrdered(b.rows, now);
    PendingIff(b.rows, now, r);
    if r in items {
      var t :| 0 <= t < |items| && items[t] == r;
      GotToIff(b.rows, now, answer, t);
    }
    if AmongFirst(items, n, r.id) {
      var t :| 0 <= t < n && items[t].id == r.id;
      SameId(b.rows, items[t], r);
    }
  }

  lemma SameId(rows: seq<Row>, r: Row, s: Row)
    requires Ordered(rows) && r in rows && s in rows && r.id == s.id
    ensures r == s
  {
  }

  ghost predicate FlushedTo(before: seq<Row>, got: set<Row>, answer: nat -> Answer, clock: real, s: Row)
  {
    || (s in before && s !in got)
    || exists r :: r in before && r in got && answer(r.id) == Transient && s == Deferred(r, clock)
  }

  ghost function GotRows(rows: seq<Row>, now: real, answer: nat -> Answer): set<Row>
  {
    set r | r in rows && GotTo(rows, now, answer, r)
  }

  lemma NoneDeferred(before: seq<Row>, after: seq<Row>, got: set<Row>, answer: nat -> Answer, clock: real, s: Row)
    requires forall r :: r in got ==> answer(r.id) != Transient
    requires forall r :: r in after <==> r in before && !(r in got && answer(r.id) != Transient)
    ensures s in after <==> FlushedTo(before, got, answer, clock, s)
  {
  }

  lemma OneDeferred(before: seq<Row>, kept: seq<Row>, after: seq<Row>, got: set<Row>, answer: nat -> Answer,
                    clock: real, x: Row, s: Row)
    requires forall r :: r in kept <==> r in before && !(r in got && answer(r.id) != Transient)
    requires forall r :: r in before ==> (r == x <==> r in got && answer(r.id) == Transient)
    requires x in before && (s in after <==> (s in kept && s != x) || s == Deferred(x, clock))
    ensures s in after <==> FlushedTo(before, got, answer, clock, s)
  {
  }

  /** What is left once the handled rows are gone, and the row that then backs off. */
  lemma KeptRows(b: Box, now: real, answer: nat -> Answer, got: set<Row>)
    requires Ordered(b.rows) && got == GotRows(b.rows, now, answer)
    ensures var items := Pending(b.rows, now);
      var n := Stop(items, answer, 0);
      var kept := Handled(b, items, answer, n).rows;
      && Ordered(kept)
      && (forall r :: r in kept <==> r in b.rows && !(r in got && answer(r.id) != Transient))
      && (n == |items| ==> forall r :: r in got ==> answer(r.id) != Transient)
      && (n < |items| ==>
          items[n] in b.rows && forall r :: r in b.rows ==> (r == items[n] <==> r in got && answer(r.id) == Transient))
  {
    var items := Pending(b.rows, now);
    var n := Stop(items, answer, 0);
    PendingOrdered(b.rows, now);
    HandledRows(b, items, answer, n);
    forall r | r in b.rows
      ensures AmongFirst(items, n, r.id) <==> r in got && answer(r.id) != Transient
      ensures n < |items| && items[n] == r <==> r in got && answer(r.id) == Transient
    {
      HandledIff(b, now, answer, r);
    }
  }

  lemma {:induction false} RowsAfter(kept: seq<Row>, before: seq<Row>, items: seq<Row>, n: nat, got: set<Row>,
                                     answer: nat -> Answer, clock: real, s: Row)
    requires n <= |items| && Ordered(kept)
    requires forall r :: r in kept <==> r in before && !(r in got && answer(r.id) != Transient)
    requires n == |items| ==> forall r :: r in got ==> answer(r.id) != Transient
    requires n < |items| ==>
      items[n] in before && forall r :: r in before ==> (r == items[n] <==> r in got && answer(r.id) == Transient)
    ensures s in (if n == |items| then kept else BackOff(kept, items[n].id, items[n].attempts + 1, clock)) <==>
      FlushedTo(before, got, answer, clock, s)
  {
    if n < |items| {
      DeferOne(kept, items[n], clock, s);
      OneDeferred(before, kept, BackOff(kept, items[n].id, items[n].attempts + 1, clock), got, answer, clock, items[n],
                  s);
    } else {
      NoneDeferred(before, kept, got, answer, clock, s);
    }
  }

  /** After a flush a queued row is unchanged unless the flush got to it; then it is gone, or, if
      its delivery failed transiently, deferred. Nothing else is in the table. */
  lemma {:induction false} FlushRows(b: Box, now: real, answer: nat -> Answer, clock: real, got: set<Row>, s: Row)
    requires Ordered(b.rows) && got == GotRows(b.rows, now, answer)
    ensures s in Flush(b, now, answer, clock).rows <==> FlushedTo(b.rows, got, answer, clock, s)
  {
    KeptRows(b, now, answer, got);
    var items := Pending(b.rows, now);
    var n := Stop(items, answer, 0);
    var kept := Handled(b, items, answer, n).rows;
    RowsAfter(kept, b.rows, items, n, got, answer, clock, s);
    FlushIs(b, now, answer, clock, items, n, kept);
  }

  lemma {:induction false} FlushIs(b: Box, now: real, answer: nat -> Answer, clock: real, items: seq<Row>, n: nat,
                                   kept: seq<Row>)
    requires items == Pending(b.rows, now) && n == Stop(items, answer, 0) && kept == Handled(b, items, answer, n).rows
    ensures Flush(b, now, answer, clock).rows ==
      if n == |items| then kept else BackOff(kept, items[n].id, items[n].attempts + 1, clock)
  {
  }

  /** Backing off one row of a table replaces it. */
  lemma DeferOne(rows: seq<Row>, x: Row, clock: real, s: Row)
    requires Ordered(rows) && x in rows
    ensures s in BackOff(rows, x.id, x.attempts + 1, clock) <==> (s in rows && s != x) || s == Deferred(x, clock)
  {
    BackOffMembers(rows, x.id, x.attempts + 1, clock, s);
    forall r | r in rows && r.id == x.id
      ensures r == x
    {
      SameId(rows, r, x);
    }
  }

  /** What left the table at a flush, and where it went. */
  lemma FlushPlaces(b: Box, now: real, answer: nat -> Answer, clock: real, r: Row)
    requires Ordered(b.rows) && r in b.rows
    ensures var after, reached := Flush(b, now, answer, clock), GotTo(b.rows, now, answer, r);
      && (r.id in after.delivered <==> r.id in b.delivered || (reached && answer(r.id) == Delivered))
      && (r.id in after.dropped <==>
          r.id in b.dropped || (reached && (answer(r.id) == PhotoUnreadable || answer(r.id) == Rejected)))
      && after.reported == b.reported && after.nextId == b.nextId
  {
    var items := Pending(b.rows, now);
    var n := Stop(items, answer, 0);
    HandledIff(b, now, answer, r);
    HandledPlaces(b, items, answer, n, r.id);
    HandledKeeps(b, items, answer, n);
  }

  lemma {:induction false} HandledKeeps(b: Box, items: seq<Row>, answer: nat -> Answer, k: nat)
    requires k <= |items|
    ensures var c := Handled(b, items, answer, k); c.reported == b.reported && c.nextId == b.nextId
    decreases k
  {
    if k > 0 {
      HandledKeeps(b, items, answer, k - 1);
    }
  }
}
