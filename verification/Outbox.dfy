/** The gate's durable outbox: deduplicated inserts, ordered flushes with backoff, drops. */
module Outbox {

  type Key = nat

  datatype Method = SendMessage | SendPhoto | BanChatMember | UnbanChatMember

  datatype Row = Row(id: nat, key: Key, kind: Method, attempts: nat, nextAttemptAt: real)

  /** What one delivery attempt came back with. `Transient` is a transport failure or a
      server-side error; the two drops are an unreadable photo and a definitive rejection. */
  datatype Answer = Delivered | PhotoUnreadable | Rejected | Transient

  const LIMIT: nat := 20

  /** The tables plus the history of what left them. `reported` holds drops already drained. */
  datatype Box = Box(rows: seq<Row>, nextId: nat, delivered: seq<nat>, dropped: seq<nat>, reported: seq<nat>)

  const Empty: Box := Box([], 0, [], [], [])

  ghost predicate Ordered(rows: seq<Row>)
  {
    forall i, j :: 0 <= i < j < |rows| ==> rows[i].id < rows[j].id
  }

  // ---------------------------------------------------------------- operations on rows

  predicate Queued(rows: seq<Row>, key: Key)
  {
    exists i :: 0 <= i < |rows| && rows[i].key == key
  }

  /** `INSERT OR IGNORE`: the unique key refuses only against rows still queued. */
  function Enqueue(b: Box, key: Key, kind: Method): Box
  {
    if Queued(b.rows, key) then b
    else b.(rows := b.rows + [Row(b.nextId, key, kind, 0, 0.0)], nextId := b.nextId + 1)
  }

  function Due(rows: seq<Row>, now: real): seq<Row>
  {
    if rows == [] then []
    else
      var n := |rows| - 1;
      Due(rows[..n], now) + if rows[n].nextAttemptAt <= now then [rows[n]] else []
  }

  /** `WHERE next_attempt_at <= ? ORDER BY id LIMIT 20`. */
  function Pending(rows: seq<Row>, now: real): seq<Row>
  {
    var due := Due(rows, now);
    if |due| <= LIMIT then due else due[..LIMIT]
  }

  /** `DELETE FROM outbox WHERE id = ?`. */
  function Remove(rows: seq<Row>, id: nat): seq<Row>
  {
    if rows == [] then []
    else
      var n := |rows| - 1;
      Remove(rows[..n], id) + if rows[n].id == id then [] else [rows[n]]
  }

  function Pow2(n: nat): nat { if n == 0 then 1 else 2 * Pow2(n - 1) }

  /** `min(300, 2 ** min(attempts, 8))` seconds. */
  function Delay(attempts: nat): nat
  {
    var d := Pow2(if attempts < 8 then attempts else 8);
    if d < 300 then d else 300
  }

  function BackOff(rows: seq<Row>, id: nat, attempts: nat, clock: real): (r: seq<Row>)
    ensures |r| == |rows|
    ensures forall i :: 0 <= i < |rows| ==> r[i].id == rows[i].id && r[i].key == rows[i].key
  {
    if rows == [] then []
    else
      var n := |rows| - 1;
      BackOff(rows[..n], id, attempts, clock) +
      [if rows[n].id != id then rows[n]
       else rows[n].(attempts := attempts, nextAttemptAt := clock + Delay(attempts) as real)]
  }

  // ---------------------------------------------------------------- the flush

  /** The items handled so far leave the table, delivered or dropped. */
  function Handled(b: Box, items: seq<Row>, answer: nat -> Answer, k: nat): Box
    requires k <= |items|
  {
    if k == 0 then b
    else
      var c, id := Handled(b, items, answer, k - 1), items[k - 1].id;
      if answer(id) == Delivered then c.(rows := Remove(c.rows, id), delivered := c.delivered + [id])
      else c.(rows := Remove(c.rows, id), dropped := c.dropped + [id])
  }

  /** How many items are handled before the first transient failure. */
  function Stop(items: seq<Row>, answer: nat -> Answer, k: nat): (n: nat)
    requires k <= |items|
    ensures k <= n <= |items|
    ensures forall t :: k <= t < n ==> answer(items[t].id) != Transient
    ensures n < |items| ==> answer(items[n].id) == Transient
    decreases |items| - k
  {
    if k == |items| || answer(items[k].id) == Transient then k else Stop(items, answer, k + 1)
  }

  /** One flush: every item up to the first transient failure is handled, that one backs off. */
  function Flush(b: Box, now: real, answer: nat -> Answer, clock: real): Box
  {
    var items := Pending(b.rows, now);
    var n := Stop(items, answer, 0);
    var c := Handled(b, items, answer, n);
    if n == |items| then c
    else c.(rows := BackOff(c.rows, items[n].id, items[n].attempts + 1, clock))
  }

  /** `drain_dropped`. */
  function Drain(b: Box): Box
  {
    b.(dropped := [], reported := b.reported + b.dropped)
  }

  // ---------------------------------------------------------------- order of sending

  lemma {:induction false} DueMembers(rows: seq<Row>, now: real)
    requires Ordered(rows)
    ensures Ordered(Due(rows, now))
    ensures forall r :: r in Due(rows, now) <==> r in rows && r.nextAttemptAt <= now
  {
    if rows != [] {
      var n := |rows| - 1;
      assert rows == rows[..n] + [rows[n]];
      DueMembers(rows[..n], now);
      forall i | 0 <= i < |Due(rows[..n], now)|
        ensures Due(rows[..n], now)[i].id < rows[n].id
      {
        assert Due(rows[..n], now)[i] in rows[..n];
      }
    }
  }

  lemma {:induction false} RemoveMembers(rows: seq<Row>, id: nat)
    requires Ordered(rows)
    ensures Ordered(Remove(rows, id))
    ensures forall r :: r in Remove(rows, id) <==> r in rows && r.id != id
  {
    if rows != [] {
      var n := |rows| - 1;
      assert rows == rows[..n] + [rows[n]];
      RemoveMembers(rows[..n], id);
      forall i | 0 <= i < |Remove(rows[..n], id)|
        ensures Remove(rows[..n], id)[i].id < rows[n].id
      {
        assert Remove(rows[..n], id)[i] in rows[..n];
      }
    }
  }

  /** `id` is one of the first `k` items. */
  ghost predicate AmongFirst(items: seq<Row>, k: nat, id: nat)
    requires k <= |items|
  {
    exists t :: 0 <= t < k && items[t].id == id
  }

  lemma AmongFirstStep(items: seq<Row>, k: nat, id: nat)
    requires 0 < k <= |items|
    ensures AmongFirst(items, k, id) <==> AmongFirst(items, k - 1, id) || items[k - 1].id == id
  {
  }

  lemma {:induction false} HandledRows(b: Box, items: seq<Row>, answer: nat -> Answer, k: nat)
    requires k <= |items| && Ordered(b.rows)
    ensures Ordered(Handled(b, items, answer, k).rows)
    ensures forall r :: r in Handled(b, items, answer, k).rows <==> r in b.rows && !AmongFirst(items, k, r.id)
  {
    if k > 0 {
      HandledRows(b, items, answer, k - 1);
      RemoveMembers(Handled(b, items, answer, k - 1).rows, items[k - 1].id);
      forall r: Row ensures AmongFirst(items, k, r.id) <==> AmongFirst(items, k - 1, r.id) || items[k - 1].id == r.id {
        AmongFirstStep(items, k, r.id);
      }
    }
  }

  /** A batch is sent in increasing id order. */
  lemma PendingOrdered(rows: seq<Row>, now: real)
    requires Ordered(rows)
    ensures Ordered(Pending(rows, now)) && |Pending(rows, now)| <= LIMIT
    ensures forall r :: r in Pending(rows, now) ==> r in rows && r.nextAttemptAt <= now
  {
    DueMembers(rows, now);
  }

  /** When item `t` of a flush is sent, a smaller id is overtaken, that is still in the table,
      exactly when it was inside its backoff window as of the moment the batch was read. */
  lemma SmallerIdsAreBackingOff(b: Box, now: real, answer: nat -> Answer, t: nat, r: Row)
    requires Ordered(b.rows) && t < |Pending(b.rows, now)| && r in b.rows && r.id < Pending(b.rows, now)[t].id
    ensures r in Handled(b, Pending(b.rows, now), answer, t).rows <==> r.nextAttemptAt > now
  {
    var items := Pending(b.rows, now);
    HandledRows(b, items, answer, t);
    PendingOrdered(b.rows, now);
    if r.nextAttemptAt <= now {
      DueRowsComeFirst(b.rows, now, t, r);
    } else if AmongFirst(items, t, r.id) {
      var i :| 0 <= i < t && items[i].id == r.id;
      assert items[i] in items && items[i] in b.rows;
      SameIdSameRow(b.rows, items[i], r);
    }
  }

  lemma SameIdSameRow(rows: seq<Row>, a: Row, b: Row)
    requires Ordered(rows) && a in rows && b in rows && a.id == b.id
    ensures a == b
  {
    var i :| 0 <= i < |rows| && rows[i] == a;
    var j :| 0 <= j < |rows| && rows[j] == b;
    assert i < j || j < i || i == j;
  }

  lemma DueRowsComeFirst(rows: seq<Row>, now: real, t: nat, r: Row)
    requires Ordered(rows) && t < |Pending(rows, now)| && r in rows && r.nextAttemptAt <= now
    requires r.id < Pending(rows, now)[t].id
    ensures AmongFirst(Pending(rows, now), t, r.id)
  {
    DueMembers(rows, now);
    var due := Due(rows, now);
    var i :| 0 <= i < |due| && due[i] == r;
    assert i < t && Pending(rows, now)[i] == r;
  }

  /** The batch-wide order does not reach across flushes: a smaller id can be overtaken while
      it waits out its backoff. */
  lemma BackingOffIsOvertaken() returns (b: Box, answer: nat -> Answer)
    ensures Ordered(b.rows) && |b.rows| == 2
    ensures Flush(b, 1.0, answer, 1.0).delivered == [b.rows[1].id] && Flush(b, 1.0, answer, 1.0).rows == [b.rows[0]]
  {
    var waiting, fresh' := Row(0, 7, SendMessage, 1, 2.0), Row(1, 8, SendMessage, 0, 0.0);
    b := Box([waiting, fresh'], 2, [], [], []);
    answer := id => Delivered;
    OnlySecondDue(waiting, fresh', 1.0);
    RemoveSecond(waiting, fresh');
    var items := [fresh'];
    assert Pending(b.rows, 1.0) == items;
    assert Stop(items, answer, 0) == 1;
    assert Handled(b, items, answer, 1).rows == [waiting];
  }

  lemma OnlySecondDue(a: Row, b: Row, now: real)
    requires a.nextAttemptAt > now >= b.nextAttemptAt
    ensures Due([a, b], now) == [b]
  {
    assert [a, b][..1] == [a] && [a][..0] == [];
    assert Due([a], now) == [];
  }

  lemma RemoveSecond(a: Row, b: Row)
    requires a.id != b.id
    ensures Remove([a, b], b.id) == [a]
  {
    assert [a, b][..1] == [a] && [a][..0] == [];
    assert Remove([a], b.id) == [a];
  }

  // ---------------------------------------------------------------- conservation

  datatype Op = Put(key: Key, kind: Method) | Send(now: real, answer: nat -> Answer, clock: real) | Report

  function Apply(b: Box, op: Op): Box
  {
    match op
    case Put(key, kind) => Enqueue(b, key, kind)
    case Send(now, answer, clock) => Flush(b, now, answer, clock)
    case Report => Drain(b)
  }

  function Run(ops: seq<Op>): Box
  {
    if ops == [] then Empty else Apply(Run(ops[..|ops| - 1]), ops[|ops| - 1])
  }

  function Times(s: seq<nat>, id: nat): nat
  {
    if s == [] then 0 else Times(s[..|s| - 1], id) + if s[|s| - 1] == id then 1 else 0
  }

  function TimesQueued(rows: seq<Row>, id: nat): nat
  {
    if rows == [] then 0 else TimesQueued(rows[..|rows| - 1], id) + if rows[|rows| - 1].id == id then 1 else 0
  }

  /** In how many places the item is: queued, delivered, dropped, dropped and reported. */
  function Places(b: Box, id: nat): nat
  {
    TimesQueued(b.rows, id) + Times(b.delivered, id) + Times(b.dropped, id) + Times(b.reported, id)
  }

  /** Ids below `nextId` are in exactly one place, others nowhere; queued keys are distinct. */
  ghost predicate Conserved(b: Box)
  {
    && Ordered(b.rows)
    && (forall id: nat :: Placed(b, id))
    && KeysDistinct(b.rows)
  }

  ghost predicate Placed(b: Box, id: nat)
  {
    Places(b, id) == if id < b.nextId then 1 else 0
  }

  ghost predicate KeysDistinct(rows: seq<Row>)
  {
    forall i, j :: 0 <= i < j < |rows| ==> rows[i].key != rows[j].key
  }

  lemma {:induction false} QueuedOnce(rows: seq<Row>, id: nat)
    requires Ordered(rows)
    ensures TimesQueued(rows, id) == if exists i :: 0 <= i < |rows| && rows[i].id == id then 1 else 0
  {
    if rows != [] {
      QueuedOnce(rows[..|rows| - 1], id);
      var n := |rows| - 1;
      if exists i :: 0 <= i < n && rows[i].id == id {
        var i :| 0 <= i < n && rows[i].id == id;
        assert rows[..n][i].id == id;
      }
    }
  }

  lemma {:induction false} RemoveTimes(rows: seq<Row>, id: nat, other: nat)
    ensures TimesQueued(Remove(rows, id), other) == if other == id then 0 else TimesQueued(rows, other)
  {
    if rows != [] {
      var n := |rows| - 1;
      RemoveTimes(rows[..n], id, other);
      if rows[n].id == id {
        assert Remove(rows[..n], id) + [] == Remove(rows[..n], id);
      } else {
        var r := Remove(rows[..n], id) + [rows[n]];
        assert r[..|r| - 1] == Remove(rows[..n], id);
      }
    }
  }

  lemma TimesAppend(s: seq<nat>, x: nat, id: nat)
    ensures Times(s + [x], id) == Times(s, id) + if x == id then 1 else 0
  {
    assert (s + [x])[..|s|] == s;
  }

  lemma {:induction false} TimesConcat(a: seq<nat>, b: seq<nat>, id: nat)
    ensures Times(a + b, id) == Times(a, id) + Times(b, id)
  {
    if b == [] {
      assert a + b == a;
    } else {
      assert (a + b)[..|a + b| - 1] == a + b[..|b| - 1];
      TimesConcat(a, b[..|b| - 1], id);
    }
  }

  lemma {:induction false} BackOffTimes(rows: seq<Row>, who: nat, attempts: nat, clock: real, id: nat)
    ensures TimesQueued(BackOff(rows, who, attempts, clock), id) == TimesQueued(rows, id)
  {
    if rows != [] {
      var n := |rows| - 1;
      BackOffTimes(rows[..n], who, attempts, clock, id);
      var r := BackOff(rows, who, attempts, clock);
      assert r[..n] == BackOff(rows[..n], who, attempts, clock);
    }
  }

  lemma MovePlaces(c: Box, x: Row, delivered: bool, id: nat)
    requires Ordered(c.rows) && x in c.rows
    ensures Places(if delivered then c.(rows := Remove(c.rows, x.id), delivered := c.delivered + [x.id])
                   else c.(rows := Remove(c.rows, x.id), dropped := c.dropped + [x.id]), id) == Places(c, id)
  {
    RemoveTimes(c.rows, x.id, id);
    QueuedOnce(c.rows, x.id);
    TimesAppend(c.delivered, x.id, id);
    TimesAppend(c.dropped, x.id, id);
  }

  lemma StillQueued(b: Box, items: seq<Row>, answer: nat -> Answer, k: nat)
    requires k < |items| && Ordered(b.rows) && Ordered(items) && forall r :: r in items ==> r in b.rows
    ensures Ordered(Handled(b, items, answer, k).rows) && items[k] in Handled(b, items, answer, k).rows
  {
    HandledRows(b, items, answer, k);
    assert items[k] in items;
  }

  /** Handling moves an item from the table to exactly one list. */
  lemma {:induction false} HandledPlaces(b: Box, items: seq<Row>, answer: nat -> Answer, k: nat, id: nat)
    requires k <= |items| && Ordered(b.rows) && Ordered(items) && forall r :: r in items ==> r in b.rows
    ensures Places(Handled(b, items, answer, k), id) == Places(b, id)
    ensures Handled(b, items, answer, k).nextId == b.nextId
  {
    if k > 0 {
      HandledPlaces(b, items, answer, k - 1, id);
      StillQueued(b, items, answer, k - 1);
      MovePlaces(Handled(b, items, answer, k - 1), items[k - 1], answer(items[k - 1].id) == Delivered, id);
    }
  }

  lemma {:induction false} HandledKeys(b: Box, items: seq<Row>, answer: nat -> Answer, k: nat)
    requires k <= |items| && Ordered(b.rows) && KeysDistinct(b.rows)
    ensures KeysDistinct(Handled(b, items, answer, k).rows)
  {
    HandledRows(b, items, answer, k);
    KeysStayDistinct(b.rows, Handled(b, items, answer, k).rows);
  }

  lemma KeysStayDistinct(all: seq<Row>, rows: seq<Row>)
    requires KeysDistinct(all) && Ordered(rows) && forall r :: r in rows ==> r in all
    ensures KeysDistinct(rows)
  {
    forall i, j | 0 <= i < j < |rows|
      ensures rows[i].key != rows[j].key
    {
      assert rows[i] in all && rows[j] in all;
      var p :| 0 <= p < |all| && all[p] == rows[i];
      var q :| 0 <= q < |all| && all[q] == rows[j];
      assert p < q || q < p;
    }
  }

  lemma FlushConserves(b: Box, now: real, answer: nat -> Answer, clock: real)
    requires Conserved(b)
    ensures Conserved(Flush(b, now, answer, clock))
  {
    var items := Pending(b.rows, now);
    var n := Stop(items, answer, 0);
    var c := Handled(b, items, answer, n);
    PendingOrdered(b.rows, now);
    HandledRows(b, items, answer, n);
    HandledKeys(b, items, answer, n);
    forall id: nat
      ensures Placed(Flush(b, now, answer, clock), id)
    {
      assert Placed(b, id);
      HandledPlaces(b, items, answer, n, id);
      if n < |items| {
        BackOffTimes(c.rows, items[n].id, items[n].attempts + 1, clock, id);
      }
    }
  }

  lemma EnqueueConserves(b: Box, key: Key, kind: Method)
    requires Conserved(b)
    ensures Conserved(Enqueue(b, key, kind))
  {
    if !Queued(b.rows, key) {
      var r := Row(b.nextId, key, kind, 0, 0.0);
      assert (b.rows + [r])[..|b.rows|] == b.rows;
      forall i | 0 <= i < |b.rows|
        ensures b.rows[i].id < b.nextId
      {
        QueuedOnce(b.rows, b.rows[i].id);
        assert Placed(b, b.rows[i].id);
      }
      forall id: nat
        ensures Placed(Enqueue(b, key, kind), id)
      {
        assert Placed(b, id);
      }
    }
  }

  lemma DrainConserves(b: Box)
    requires Conserved(b)
    ensures Conserved(Drain(b))
  {
    forall id: nat
      ensures Placed(Drain(b), id)
    {
      assert Placed(b, id);
      TimesConcat(b.reported, b.dropped, id);
    }
  }

  /** In every run, every item ever enqueued is exactly one of queued, delivered, or dropped
      with a record. */
  lemma {:induction false} EveryItemAccountedFor(ops: seq<Op>)
    ensures Conserved(Run(ops))
  {
    if ops != [] {
      var b, op := Run(ops[..|ops| - 1]), ops[|ops| - 1];
      EveryItemAccountedFor(ops[..|ops| - 1]);
      match op {
        case Put(key, kind) => EnqueueConserves(b, key, kind);
        case Send(now, answer, clock) => FlushConserves(b, now, answer, clock);
        case Report => DrainConserves(b);
      }
    } else {
      assert forall id: nat :: Placed(Empty, id);
    }
  }

  /** Deduplication ends with delivery: the same key is accepted again once its row is gone. */
  lemma DedupLastsUntilDelivery(b: Box, key: Key, kind: Method)
    ensures Enqueue(b, key, kind) != b <==> !Queued(b.rows, key)
    ensures forall i :: 0 <= i < |b.rows| && b.rows[i].key == key && Conserved(b) ==>
      !Queued(Remove(b.rows, b.rows[i].id), key)
  {
    forall i | 0 <= i < |b.rows| && b.rows[i].key == key && Conserved(b)
      ensures !Queued(Remove(b.rows, b.rows[i].id), key)
    {
      RemovedKeyIsFree(b.rows, i);
    }
  }

  lemma RemovedKeyIsFree(rows: seq<Row>, i: nat)
    requires Ordered(rows) && KeysDistinct(rows) && i < |rows|
    ensures !Queued(Remove(rows, rows[i].id), rows[i].key)
  {
    var rest := Remove(rows, rows[i].id);
    RemoveMembers(rows, rows[i].id);
    forall p | 0 <= p < |rest|
      ensures rest[p].key != rows[i].key
    {
      assert rest[p] in rows;
      var q :| 0 <= q < |rows| && rows[q] == rest[p];
      assert q < i || i < q;
    }
  }

  // ---------------------------------------------------------------- the object

  class Gate {
    var rows: seq<Row>
    var nextId: nat
    var dropped: seq<nat>
    ghost var delivered: seq<nat>
    ghost var reported: seq<nat>

    ghost function Contents(): Box
      reads this
    {
      Box(rows, nextId, delivered, dropped, reported)
    }

    constructor ()
      ensures Contents() == Empty
    {
      rows, nextId, dropped, delivered, reported := [], 0, [], [], [];
    }

    method Put(key: Key, kind: Method)
      modifies this
      ensures Contents() == Enqueue(old(Contents()), key, kind)
    {
      if !Queued(rows, key) {
        rows := rows + [Row(nextId, key, kind, 0, 0.0)];
        nextId := nextId + 1;
      }
    }

    /** `flush_outbox`: items in order; a drop or a delivery deletes the row and goes on, a
        transient failure backs the row off and stops. */
    method FlushOutbox(now: real, answer: nat -> Answer, clock: real)
      modifies this
      ensures Contents() == Flush(old(Contents()), now, answer, clock)
    {
      var items := Pending(rows, now);
      ghost var start := Contents();
      for k := 0 to |items|
        invariant k <= Stop(items, answer, 0)
        invariant Contents() == Handled(start, items, answer, k)
      {
        var item := items[k];
        match answer(item.id) {
          case Delivered =>
            rows := Remove(rows, item.id);
            delivered := delivered + [item.id];
          case Transient =>
            assert Stop(items, answer, 0) == k;
            rows := BackOff(rows, item.id, item.attempts + 1, clock);
            return;
          case _ =>
            rows := Remove(rows, item.id);
            dropped := dropped + [item.id];
        }
      }
    }

    method DrainDropped() returns (drops: seq<nat>)
      modifies this
      ensures drops == old(dropped) && Contents() == Drain(old(Contents()))
    {
      drops := dropped;
      reported := reported + dropped;
      dropped := [];
    }
  }
}
