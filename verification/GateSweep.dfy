/** Members of the token gate and the daily re-verify sweep that moves them between ok,
    grace and ejected. Every change of a member row is one event of a trace. */
module GateSweep {

  datatype Option<T> = None | Some(value: T)

  datatype Status = Ok | Grace | Ejected

  type Uid = nat
  type Wallet = nat

  datatype Member = Member(wallet: Wallet, status: Status, graceUntil: Option<real>, checkedAt: real, balance: int)

  type Members = map<Uid, Member>

  /** What can change a member row: a successful balance reading of a sweep, with the clock,
      the threshold, the grace period and the group binding of that moment, or a verification. */
  datatype Event =
    | Reading(uid: Uid, balance: int, needed: int, now: real, grace: real, bound: bool)
    | Verified(uid: Uid, wallet: Wallet, balance: int, now: real)

  predicate Below(e: Event)
  {
    e.Reading? && e.balance < e.needed
  }

  // ---------------------------------------------------------------- one event

  /** `_apply` on the freshly read member. */
  function Apply(m: Member, e: Event): Member
    requires e.Reading?
  {
    if e.balance >= e.needed then (if m.status == Grace then m.(status := Ok, graceUntil := None) else m)
    else match m.status
      case Ok => m.(status := Grace, graceUntil := Some(e.now + e.grace))
      case Ejected => m
      case Grace =>
        if m.graceUntil.Some? && e.now < m.graceUntil.value then m
        else if !e.bound then m
        else m.(status := Ejected, graceUntil := None)
  }

  predicate TakenByOther(members: Members, uid: Uid, wallet: Wallet)
  {
    exists other :: other in members && other != uid && members[other].wallet == wallet
  }

  function Step(members: Members, e: Event): Members
  {
    match e
    case Reading(uid, balance, _, now, _, _) =>
      if uid !in members || members[uid].status == Ejected then members
      else members[uid := Apply(members[uid].(checkedAt := now, balance := balance), e)]
    case Verified(uid, wallet, balance, now) =>
      if TakenByOther(members, uid, wallet) then members
      else members[uid := Member(wallet, Ok, None, now, balance)]
  }

  function Replay(trace: seq<Event>): Members
  {
    if trace == [] then map[] else Step(Replay(trace[..|trace| - 1]), trace[|trace| - 1])
  }

  // ---------------------------------------------------------------- every run keeps

  ghost predicate GraceIffClock(members: Members)
  {
    forall uid :: uid in members ==> (members[uid].status == Grace <==> members[uid].graceUntil.Some?)
  }

  /** tg user <-> wallet is one-to-one both ways. */
  ghost predicate OneToOne(members: Members)
  {
    forall u, v :: u in members && v in members && u != v ==> members[u].wallet != members[v].wallet
  }

  lemma {:induction false} RunKeepsShape(trace: seq<Event>)
    ensures GraceIffClock(Replay(trace))
    ensures OneToOne(Replay(trace))
  {
    if trace != [] {
      RunKeepsShape(trace[..|trace| - 1]);
    }
  }

  /** Event `j` restarts the member's record: a reading at or above the threshold, or a
      verification that the one-to-one rule did not refuse. */
  ghost predicate ResetAt(trace: seq<Event>, uid: Uid, j: nat)
    requires j < |trace|
  {
    && trace[j].uid == uid && !Below(trace[j])
    && (trace[j].Verified? ==> !TakenByOther(Replay(trace[..j]), uid, trace[j].wallet))
  }

  /** Event `k` set this grace deadline, and nothing has reset the member since. */
  ghost predicate GraceSetAt(trace: seq<Event>, uid: Uid, until: real, k: nat)
  {
    && k < |trace| && Below(trace[k]) && trace[k].uid == uid && until == trace[k].now + trace[k].grace
    && forall j :: k < j < |trace| ==> !ResetAt(trace, uid, j)
  }

  lemma GraceStillSet(trace: seq<Event>, uid: Uid, until: real, k: nat)
    requires |trace| > 0 && GraceSetAt(trace[..|trace| - 1], uid, until, k)
    requires !ResetAt(trace, uid, |trace| - 1)
    ensures GraceSetAt(trace, uid, until, k)
  {
    var n := |trace| - 1;
    forall j | k < j < |trace|
      ensures !ResetAt(trace, uid, j)
    {
      if j < n {
        assert !ResetAt(trace[..n], uid, j);
        assert trace[..n][..j] == trace[..j];
      }
    }
  }

  /** A member in grace is there because of a successful below-threshold reading that set its
      deadline and that nothing has reset since. */
  lemma {:induction false} GraceHasCause(trace: seq<Event>, uid: Uid) returns (k: nat)
    requires uid in Replay(trace) && Replay(trace)[uid].status == Grace
    ensures Replay(trace)[uid].graceUntil.Some?
    ensures GraceSetAt(trace, uid, Replay(trace)[uid].graceUntil.value, k)
  {
    RunKeepsShape(trace);
    var n := |trace| - 1;
    var before := Replay(trace[..n]);
    if uid in before && before[uid].status == Grace {
      k := GraceHasCause(trace[..n], uid);
      GraceStillSet(trace, uid, before[uid].graceUntil.value, k);
    } else {
      k := n;
    }
  }

  /** Why a member may be ejected at event `n`: that event is a successful below-threshold
      reading at or after a deadline set by an earlier one, nothing having reset it between. */
  ghost predicate EjectionJustified(trace: seq<Event>, uid: Uid, n: nat, k: nat)
    requires n < |trace|
  {
    && Below(trace[n]) && trace[n].uid == uid && trace[n].bound
    && k < n && Below(trace[k]) && trace[k].uid == uid
    && trace[n].now >= trace[k].now + trace[k].grace
    && forall j :: k < j < n ==> !ResetAt(trace, uid, j)
  }

  ghost predicate EjectedAt(trace: seq<Event>, uid: Uid, n: nat)
    requires n < |trace|
  {
    && uid in Replay(trace[..n + 1]) && Replay(trace[..n + 1])[uid].status == Ejected
    && (uid !in Replay(trace[..n]) || Replay(trace[..n])[uid].status != Ejected)
  }

  /** In every run, whenever a member becomes ejected, the ejection is justified. */
  lemma EveryEjectionJustified(trace: seq<Event>, uid: Uid, n: nat) returns (k: nat)
    requires n < |trace| && EjectedAt(trace, uid, n)
    ensures EjectionJustified(trace, uid, n, k)
  {
    assert trace[..n + 1][..n] == trace[..n];
    assert uid in Replay(trace[..n]) && Replay(trace[..n])[uid].status == Grace;
    k := GraceHasCause(trace[..n], uid);
    forall j | k < j < n
      ensures !ResetAt(trace, uid, j)
    {
      assert !ResetAt(trace[..n], uid, j);
      assert trace[..n][..j] == trace[..j];
    }
  }

  predicate Moved(trace: seq<Event>, n: nat, was: Status, now: Status)
    requires n < |trace|
  {
    var uid := trace[n].uid;
    && uid in Replay(trace[..n]) && Replay(trace[..n])[uid].status == was
    && uid in Replay(trace[..n + 1]) && Replay(trace[..n + 1])[uid].status == now
  }

  // ---------------------------------------------------------------- exactly when

  /** An ok member is warned exactly by a reading below the threshold, and its clock then runs
      for the grace period from that reading. */
  lemma WarnedIff(trace: seq<Event>, n: nat)
    requires n < |trace|
    ensures Moved(trace, n, Ok, Grace) <==> Below(trace[n]) && HasStatus(trace[..n], trace[n].uid, Ok)
    ensures Moved(trace, n, Ok, Grace) ==>
      InGraceUntil(trace[..n + 1], trace[n].uid, trace[n].now + trace[n].grace)
  {
    assert trace[..n + 1][..n] == trace[..n];
  }

  /** A member in grace is ok again exactly by a reading at or above the threshold or by an
      accepted verification, and an ejected one exactly by an accepted verification. */
  lemma RestoredIff(trace: seq<Event>, n: nat)
    requires n < |trace|
    ensures Moved(trace, n, Grace, Ok) <==>
      HasStatus(trace[..n], trace[n].uid, Grace) && ResetAt(trace, trace[n].uid, n)
    ensures Moved(trace, n, Ejected, Ok) <==>
      HasStatus(trace[..n], trace[n].uid, Ejected) && VerifiedAt(trace, trace[n].uid, n)
  {
    assert trace[..n + 1][..n] == trace[..n];
  }

  /** What a reading leaves of an active member's row. */
  ghost predicate RowAfter(was: Member, row: Member, e: Event)
    requires e.Reading?
  {
    && row.wallet == was.wallet && row.balance == e.balance && row.checkedAt == e.now
    && (!Below(e) ==> row.status == Ok && row.graceUntil == None)
    && (Below(e) && was.status == Ok ==> row.status == Grace && row.graceUntil == Some(e.now + e.grace))
    && (Below(e) && was.status == Grace ==> was.graceUntil.Some?)
    && (Below(e) && was.status == Grace && e.bound && e.now >= was.graceUntil.value ==>
        row.status == Ejected && row.graceUntil == None)
    && (Below(e) && was.status == Grace && !(e.bound && e.now >= was.graceUntil.value) ==>
        row.status == Grace && row.graceUntil == was.graceUntil)
  }

  /** In every run a reading of an active member rewrites that row alone; a reading of anybody
      else changes nothing. */
  lemma ReadingRewritesRow(trace: seq<Event>, n: nat)
    requires n < |trace| && trace[n].Reading?
    ensures var uid, before, after := trace[n].uid, Replay(trace[..n]), Replay(trace[..n + 1]);
      if Active(before, uid) then
        uid in after && after == before[uid := after[uid]] && RowAfter(before[uid], after[uid], trace[n])
      else after == before
  {
    assert trace[..n + 1][..n] == trace[..n];
    RunKeepsShape(trace[..n]);
  }

  ghost predicate HasStatus(trace: seq<Event>, uid: Uid, status: Status)
  {
    uid in Replay(trace) && Replay(trace)[uid].status == status
  }

  ghost predicate InGraceUntil(trace: seq<Event>, uid: Uid, until: real)
  {
    HasStatus(trace, uid, Grace) && Replay(trace)[uid].graceUntil == Some(until)
  }

  /** Event `k` warned the member, and it has been neither reset nor ejected since. */
  ghost predicate GraceFrom(trace: seq<Event>, uid: Uid, k: nat)
  {
    && k < |trace| && trace[k].uid == uid && Below(trace[k]) && HasStatus(trace[..k], uid, Ok)
    && forall j :: k < j < |trace| ==> !ResetAt(trace, uid, j) && !EjectedAt(trace, uid, j)
  }

  ghost predicate GraceEndsAt(trace: seq<Event>, uid: Uid, k: nat, until: real)
  {
    GraceFrom(trace, uid, k) && until == trace[k].now + trace[k].grace
  }

  /** In every run a member is in grace until `until` exactly when a warning set that deadline
      and nothing has reset or ejected the member since. */
  lemma {:induction false} GraceIff(trace: seq<Event>, uid: Uid, until: real)
    ensures InGraceUntil(trace, uid, until) <==> exists k: nat :: GraceEndsAt(trace, uid, k, until)
  {
    if trace != [] {
      var n := |trace| - 1;
      GraceIff(trace[..n], uid, until);
      WarnedIff(trace, n);
      assert trace[..n + 1] == trace;
      if InGraceUntil(trace, uid, until) {
        if InGraceUntil(trace[..n], uid, until) {
          var k: nat :| GraceEndsAt(trace[..n], uid, k, until);
          GraceLasts(trace, uid, k);
          assert GraceEndsAt(trace, uid, k, until);
        } else {
          assert GraceEndsAt(trace, uid, n, until);
        }
      }
      if k: nat :| GraceEndsAt(trace, uid, k, until) {
        if k < n {
          GraceLasted(trace, uid, k);
          assert GraceEndsAt(trace[..n], uid, k, until);
          assert !ResetAt(trace, uid, n) && !EjectedAt(trace, uid, n);
        }
      }
    }
  }

  lemma SamePast(trace: seq<Event>, uid: Uid, n: nat, j: nat)
    requires j < n <= |trace|
    ensures ResetAt(trace[..n], uid, j) == ResetAt(trace, uid, j)
    ensures EjectedAt(trace[..n], uid, j) == EjectedAt(trace, uid, j)
  {
    assert trace[..n][..j] == trace[..j] && trace[..n][..j + 1] == trace[..j + 1];
  }

  lemma GraceLasts(trace: seq<Event>, uid: Uid, k: nat)
    requires |trace| > 0 && GraceFrom(trace[..|trace| - 1], uid, k)
    requires HasStatus(trace, uid, Grace) && HasStatus(trace[..|trace| - 1], uid, Grace)
    ensures GraceFrom(trace, uid, k)
  {
    var n := |trace| - 1;
    assert trace[..n][..k] == trace[..k] && trace[..n + 1] == trace;
    forall j | k < j < |trace|
      ensures !ResetAt(trace, uid, j) && !EjectedAt(trace, uid, j)
    {
      if j < n {
        SamePast(trace, uid, n, j);
      }
    }
  }

  lemma GraceLasted(trace: seq<Event>, uid: Uid, k: nat)
    requires |trace| > 0 && GraceFrom(trace, uid, k) && k < |trace| - 1
    ensures GraceFrom(trace[..|trace| - 1], uid, k)
  {
    var n := |trace| - 1;
    assert trace[..n][..k] == trace[..k];
    forall j | k < j < n
      ensures !ResetAt(trace[..n], uid, j) && !EjectedAt(trace[..n], uid, j)
    {
      SamePast(trace, uid, n, j);
    }
  }

  /** In every run a member becomes ejected at event `n` exactly when that event is a reading
      below the threshold with a group bound, at or after the deadline that some earlier warning
      set and that nothing has reset since. */
  lemma EjectedIff(trace: seq<Event>, uid: Uid, n: nat)
    requires n < |trace|
    ensures EjectedAt(trace, uid, n) <==>
      && Below(trace[n]) && trace[n].uid == uid && trace[n].bound
      && exists k: nat, until :: GraceEndsAt(trace[..n], uid, k, until) && trace[n].now >= until
  {
    var past := trace[..n];
    assert trace[..n + 1][..n] == past;
    RunKeepsShape(past);
    if HasStatus(past, uid, Grace) {
      GraceIff(past, uid, Replay(past)[uid].graceUntil.value);
    }
    if k: nat, until :| GraceEndsAt(past, uid, k, until) && trace[n].now >= until {
      GraceIff(past, uid, until);
    }
  }

  /** Event `j` is a verification of this member that the one-to-one rule did not refuse. */
  ghost predicate VerifiedAt(trace: seq<Event>, uid: Uid, j: nat)
    requires j < |trace|
  {
    trace[j].Verified? && trace[j].uid == uid && !TakenByOther(Replay(trace[..j]), uid, trace[j].wallet)
  }

  /** Over any stretch of a run an ejected member's row is untouched exactly as long as the member
      does not verify again; a verification makes it ok at once. */
  lemma {:induction false} EjectedUntilVerified(trace: seq<Event>, uid: Uid, n: nat, k: nat)
    requires n <= k <= |trace| && uid in Replay(trace[..n]) && Replay(trace[..n])[uid].status == Ejected
    ensures (forall j :: n <= j < k ==> !VerifiedAt(trace, uid, j)) ==>
      uid in Replay(trace[..k]) && Replay(trace[..k])[uid] == Replay(trace[..n])[uid]
    ensures k > n && VerifiedAt(trace, uid, k - 1) ==> uid in Replay(trace[..k]) && Replay(trace[..k])[uid].status == Ok
    decreases k
  {
    if n < k {
      EjectedUntilVerified(trace, uid, n, k - 1);
      assert trace[..k][..k - 1] == trace[..k - 1] && trace[..k][k - 1] == trace[k - 1];
      if !VerifiedAt(trace, uid, k - 1) {
        assert uid in Replay(trace[..k - 1]) ==> uid in Replay(trace[..k]);
      }
    }
  }

  /** A member who is not ok stays so while nothing resets the record. */
  lemma {:induction false} NotOkUntilReset(trace: seq<Event>, uid: Uid, n: nat, k: nat)
    requires n <= k <= |trace| && uid in Replay(trace[..n]) && Replay(trace[..n])[uid].status != Ok
    requires forall j :: n <= j < k ==> !ResetAt(trace, uid, j)
    ensures uid in Replay(trace[..k]) && Replay(trace[..k])[uid].status != Ok
    decreases k
  {
    if n < k {
      NotOkUntilReset(trace, uid, n, k - 1);
      assert trace[..k][..k - 1] == trace[..k - 1] && trace[..k][k - 1] == trace[k - 1];
      assert !ResetAt(trace, uid, k - 1);
    }
  }

  /** Nobody is warned twice, on one day or several, unless a reading at or above the threshold or
      a verification stands between the two warnings: re-running a day after a crash repeats no
      warning by itself. */
  lemma WarnedTwiceNeedsReset(trace: seq<Event>, uid: Uid, n: nat, k: nat) returns (j: nat)
    requires n < k < |trace| && trace[n].uid == uid == trace[k].uid
    requires Moved(trace, n, Ok, Grace) && Moved(trace, k, Ok, Grace)
    ensures n < j < k && ResetAt(trace, uid, j)
  {
    if forall i :: n + 1 <= i < k ==> !ResetAt(trace, uid, i) {
      NotOkUntilReset(trace, uid, n + 1, k);
      assert false;
    }
    var i :| n + 1 <= i < k && ResetAt(trace, uid, i);
    j := i;
  }

  // ---------------------------------------------------------------- the sweeper

  datatype Config = Config(sweepHour: int, batchSize: nat, spread: real, grace: real)

  datatype Plan = Plan(day: int, pending: seq<Uid>, nextBatchAt: real, checked: nat, warned: nat, ejected: nat,
                       restored: nat)

  datatype Outcome = Idle | Waiting | Advanced | Finished | Skipped

  /** `_batch_gap`: the spread over the number of batches, at least one. */
  function BatchGap(config: Config, count: nat): real
    requires config.batchSize >= 1
  {
    var batches := (count + config.batchSize - 1) / config.batchSize;
    config.spread / (if batches < 1 then 1 else batches) as real
  }

  /** The gap spreads the plan over as many batches as its members need, and at least one. */
  lemma BatchGapSpreads(config: Config, count: nat) returns (batches: nat)
    requires config.batchSize >= 1
    ensures batches >= 1 && batches * config.batchSize >= count
    ensures batches > 1 ==> (batches - 1) * config.batchSize < count
    ensures BatchGap(config, count) * batches as real == config.spread
  {
    batches := (count + config.batchSize - 1) / config.batchSize;
    if batches < 1 {
      batches := 1;
    }
  }

  function UtcDay(now: real): int { (now / 86400.0).Floor }

  function UtcHour(now: real): int { (now / 3600.0).Floor % 24 }

  /** The day and the hour in which a moment lies. */
  lemma ClockReads(now: real)
    ensures 0 <= UtcHour(now) < 24
    ensures var start := UtcDay(now) as real * 86400.0 + UtcHour(now) as real * 3600.0; start <= now < start + 3600.0
  {
    var hours := (now / 3600.0).Floor;
    assert hours as real <= now / 3600.0 < hours as real + 1.0;
    var day := hours / 24;
    assert day as real <= now / 86400.0 < day as real + 1.0;
    assert UtcDay(now) == day;
  }

  /** Transitions of one kind among events `lo..hi` of a trace. */
  function Moves(trace: seq<Event>, lo: nat, hi: nat, was: Status, now: Status): nat
    requires lo <= hi <= |trace|
    decreases hi
  {
    if lo == hi then 0
    else Moves(trace, lo, hi - 1, was, now) + if Moved(trace, hi - 1, was, now) then 1 else 0
  }

  lemma {:induction false} MovesPrefix(trace: seq<Event>, e: Event, lo: nat, hi: nat, was: Status, now: Status)
    requires lo <= hi <= |trace|
    ensures Moves(trace + [e], lo, hi, was, now) == Moves(trace, lo, hi, was, now)
    decreases hi
  {
    if lo < hi {
      MovesPrefix(trace, e, lo, hi - 1, was, now);
      assert (trace + [e])[..hi - 1] == trace[..hi - 1] && (trace + [e])[..hi] == trace[..hi];
    }
  }

  /** The provider's side of one batch: whether the threshold lookup worked, each balance after
      its one retry, each member's threshold and the clock at each application. */
  datatype Provider = Provider(thresholdOk: bool, balance: Uid -> Option<int>, needed: Uid -> int, clock: nat -> real)

  class Sweeper {
    const config: Config
    var members: Members
    var group: Option<int>
    var sweepDay: Option<int>
    var plan: Option<Plan>
    ghost var trace: seq<Event>
    ghost var planStart: nat
    ghost var queue: seq<Uid>
    ghost var ended: seq<Sweep>

    /** The rows are what the events made them, an open plan's counters count its moves,
        every warning or ejection was made by some plan, and an open plan's pending members are
        those of its queue it has not read. */
    ghost predicate Valid()
      reads this
    {
      RowsValid() && (plan.Some? ==> Progress(queue, plan.value.pending, trace, planStart))
    }

    ghost predicate RowsValid()
      reads this
    {
      && members == Replay(trace) && config.batchSize >= 1
      && (plan.Some? ==> CountersMatch(plan.value, trace, planStart))
      && LogOk(ended, trace, plan.Some?, planStart)
    }

    constructor (config: Config)
      requires config.batchSize >= 1
      ensures Valid() && this.config == config && trace == [] && plan.None?
    {
      this.config := config;
      members, group, sweepDay, plan := map[], None, None, None;
      trace, planStart, queue, ended := [], 0, [], [];
    }

    /** The verify path: the caller's `member_by_wallet` check and the UNIQUE backstop both
        refuse a wallet that another user holds. */
    method RecordVerification(uid: Uid, wallet: Wallet, balance: int, now: real) returns (bound: bool)
      requires Valid()
      modifies this
      ensures Valid() && group == old(group) && sweepDay == old(sweepDay) && plan.None? == old(plan.None?)
      ensures bound <==> !TakenByOther(old(members), uid, wallet)
      ensures bound ==> members == old(members)[uid := Member(wallet, Ok, None, now, balance)]
      ensures !bound ==> members == old(members)
      ensures trace == old(trace) + [Verified(uid, wallet, balance, now)]
    {
      var e := Verified(uid, wallet, balance, now);
      bound := !TakenByOther(members, uid, wallet);
      if bound {
        members := members[uid := Member(wallet, Ok, None, now, balance)];
      }
      LogGrows(ended, trace, e, plan.Some?, planStart);
      Record(e);
      if plan.Some? {
        VerificationMovesNothing(trace[..|trace| - 1], e);
        ProgressVerified(queue, plan.value.pending, trace[..|trace| - 1], planStart, e);
      }
    }

    /** A process restart forgets the plan; rows and markers are on disk, so the same day may
        be swept again. */
    method Restart()
      requires Valid()
      modifies this`plan, this`ended
      ensures Valid() && plan.None?
      ensures ended == if old(plan).None? then old(ended) else old(ended) + [Sweep(old(plan).value, planStart, |trace|)]
    {
      if plan.Some? {
        Close();
      }
    }

    /** The open plan ends here, however it ends. */
    method Close()
      requires RowsValid() && plan.Some?
      modifies this`plan, this`ended
      ensures Valid() && plan.None? && ended == old(ended) + [Sweep(old(plan).value, planStart, |trace|)]
    {
      LogCloses(ended, trace, plan.value, planStart);
      ended := ended + [Sweep(plan.value, planStart, |trace|)];
      plan := None;
    }

    method BindGroup(chat: int)
      requires Valid()
      modifies this`group
      ensures Valid() && group == Some(chat)
    {
      group := Some(chat);
    }

    /** `record_balance` and `_apply` for one member of the batch. */
    method ApplyReading(uid: Uid, balance: int, needed: int, now: real)
      requires RowsValid() && plan.Some? && uid in members && members[uid].status != Ejected
      modifies this`members, this`plan, this`trace
      ensures RowsValid() && plan.Some? && plan.value.pending == old(plan.value.pending)
      ensures plan.value.day == old(plan.value.day)
      ensures plan.value.restored ==
        old(plan.value.restored) + if balance >= needed && old(members[uid].status) == Grace then 1 else 0
      ensures plan.value.checked == old(plan.value.checked) + 1
      ensures members == Step(old(members), Reading(uid, balance, needed, now, config.grace, group.Some?))
      ensures trace == old(trace) + [Reading(uid, balance, needed, now, config.grace, group.Some?)]
    {
      var e := Reading(uid, balance, needed, now, config.grace, group.Some?);
      ghost var before, open := trace, plan.value;
      var m := members[uid].(checkedAt := now, balance := balance);
      var p := plan.value.(checked := plan.value.checked + 1);
      if balance >= needed {
        if m.status == Grace {
          m, p := m.(status := Ok, graceUntil := None), p.(restored := p.restored + 1);
        }
      } else if m.status == Ok {
        m, p := m.(status := Grace, graceUntil := Some(now + config.grace)), p.(warned := p.warned + 1);
      } else if !(m.graceUntil.Some? && now < m.graceUntil.value) && group.Some? {
        m, p := m.(status := Ejected, graceUntil := None), p.(ejected := p.ejected + 1);
      }
      members := members[uid := m];
      plan := Some(p);
      ReadingLogged(ended, trace, open, p, planStart, e);
      Record(e);
    }

    /** `_skip`: the day is marked, the plan dropped, no member row touched; the operator is told
        that nobody was warned or ejected, which is so exactly when no plan of the day counted
        a warning or an ejection. */
    method Skip()
      requires RowsValid() && plan.Some?
      modifies this`plan, this`sweepDay, this`ended
      ensures Valid() && plan.None? && sweepDay == Some(old(plan.value.day))
      ensures ended == old(ended) + [Sweep(old(plan).value, planStart, |trace|)]
      ensures DayQuiet(ended, old(plan.value.day), trace) <==> CountersQuiet(ended, old(plan.value.day))
    {
      sweepDay := Some(plan.value.day);
      SkipAlertTruth(ended, plan.value, planStart, trace);
      Close();
    }

    method Finish()
      requires RowsValid() && plan.Some?
      modifies this`plan, this`sweepDay, this`ended
      ensures Valid() && plan.None? && sweepDay == Some(old(plan.value.day))
    {
      sweepDay := Some(plan.value.day);
      Close();
    }

    /** The lookups of one batch, in order, up to the first that fails. */
    method Readings(batch: seq<Uid>, p: Provider) returns (ok: bool)
      requires RowsValid() && plan.Some?
      modifies this`members, this`plan, this`trace
      ensures RowsValid() && plan.Some? && plan.value.pending == old(plan.value.pending)
      ensures plan.value.day == old(plan.value.day)
      ensures plan.value.checked ==
        old(plan.value.checked) + |Batch(old(members), batch, p, 0, config.grace, group.Some?).0|
      ensures trace == old(trace) + Batch(old(members), batch, p, 0, config.grace, group.Some?).0
      ensures ok == Batch(old(members), batch, p, 0, config.grace, group.Some?).1
    {
      ghost var done: seq<Event> := [];
      ghost var whole := Batch(members, batch, p, 0, config.grace, group.Some?);
      assert [] + whole.0 == whole.0;
      for k := 0 to |batch|
        invariant RowsValid() && plan.Some? && plan.value.pending == old(plan.value.pending)
        invariant plan.value.day == old(plan.value.day)
        invariant trace == old(trace) + done && plan.value.checked == old(plan.value.checked) + |done|
        invariant whole.0 == done + Batch(members, batch, p, k, config.grace, group.Some?).0
        invariant whole.1 == Batch(members, batch, p, k, config.grace, group.Some?).1
      {
        var uid := batch[k];
        if uid in members && members[uid].status != Ejected {
          var balance := p.balance(uid);
          if balance.None? {
            assert done + [] == done;
            return false;
          }
          ghost var e := Reading(uid, balance.value, p.needed(uid), p.clock(k), config.grace, group.Some?);
          ghost var next := Batch(Step(members, e), batch, p, k + 1, config.grace, group.Some?);
          assert done + ([e] + next.0) == (done + [e]) + next.0;
          ApplyReading(uid, balance.value, p.needed(uid), p.clock(k));
          done := done + [e];
        }
      }
      assert done + [] == done;
      ok := true;
    }

    /** Cut the next batch off the pending members and look it up. */
    method TakeBatch(p: Provider) returns (ok: bool)
      requires RowsValid() && plan.Some?
      modifies this`members, this`plan, this`trace
      ensures RowsValid() && plan.Some? && plan.value.day == old(plan.value.day)
      ensures var batch := Cut(old(plan.value.pending), config.batchSize);
        && plan.value.pending == old(plan.value.pending)[|batch|..]
        && plan.value.checked == old(plan.value.checked) +
             |Batch(old(members), batch, p, 0, config.grace, group.Some?).0|
        && trace == old(trace) + Batch(old(members), batch, p, 0, config.grace, group.Some?).0
        && ok == Batch(old(members), batch, p, 0, config.grace, group.Some?).1
    {
      var batch := Cut(plan.value.pending, config.batchSize);
      plan := Some(plan.value.(pending := plan.value.pending[|batch|..]));
      ok := Readings(batch, p);
    }

    /** `_run_batch`. Only successful lookups become events; the first failed one ends the day
        and changes no row. */
    method RunBatch(now: real, p: Provider) returns (o: Outcome)
      requires Valid() && plan.Some?
      modifies this`members, this`plan, this`trace, this`sweepDay, this`ended
      ensures Valid() && o in {Advanced, Finished, Skipped}
      ensures !p.thresholdOk ==> o == Skipped && trace == old(trace)
      ensures p.thresholdOk ==>
        var (es, ok) := Batch(old(members), Cut(old(plan.value.pending), config.batchSize), p, 0, config.grace,
                              group.Some?);
        trace == old(trace) + es && (o == Skipped <==> !ok)
      ensures o in {Finished, Skipped} ==> plan.None? && sweepDay == Some(old(plan.value.day))
      ensures o == Advanced ==> plan.Some? && plan.value.day == old(plan.value.day) && sweepDay == old(sweepDay)
      ensures o == Advanced ==> |old(plan.value.pending)| > config.batchSize
      ensures o == Advanced ==> plan.value.pending == old(plan.value.pending)[config.batchSize..]
      ensures o == Advanced ==> plan.value.checked == old(plan.value.checked) + config.batchSize
      ensures o == Advanced ==>
        plan.value.nextBatchAt == now + BatchGap(config, plan.value.checked + |plan.value.pending|)
      ensures o == Finished ==> |old(plan.value.pending)| <= config.batchSize
      ensures OnceEach(queue, trace, planStart)
      ensures o == Finished ==> forall u :: u in queue ==> ReadSince(trace, planStart, u)
    {
      if !p.thresholdOk {
        Skip();
        return Skipped;
      }
      BatchProgress(queue, plan.value.pending, trace, planStart, config, p, group.Some?);
      var ok := TakeBatch(p);
      if !ok {
        Skip();
        return Skipped;
      }
      o := Advance(now);
    }

    /** After a batch: wait out the gap while members are pending, else finish the day. */
    method Advance(now: real) returns (o: Outcome)
      requires Valid() && plan.Some?
      modifies this`plan, this`sweepDay, this`ended
      ensures Valid() && o == if old(plan.value.pending) == [] then Finished else Advanced
      ensures o == Finished ==> plan.None? && sweepDay == Some(old(plan.value.day))
      ensures o == Finished ==> forall u :: u in queue ==> ReadSince(trace, planStart, u)
      ensures o == Advanced ==> plan.Some? && sweepDay == old(sweepDay)
      ensures o == Advanced ==>
        var open := old(plan).value;
        plan.value == open.(nextBatchAt := now + BatchGap(config, open.checked + |open.pending|))
    {
      var rest := |plan.value.pending|;
      if rest > 0 {
        plan := Some(plan.value.(nextBatchAt := now + BatchGap(config, plan.value.checked + rest)));
        o := Advanced;
      } else {
        Finish();
        o := Finished;
      }
    }

    /** `tick`: start the day's plan when due, or advance the open one when its gap has passed. */
    method Tick(now: real, p: Provider) returns (o: Outcome)
      requires Valid()
      modifies this
      ensures Valid() && group == old(group)
      ensures old(trace) <= trace
      ensures forall i :: |old(trace)| <= i < |trace| ==> FromProvider(p, config.grace, group.Some?, trace[i])
      ensures old(plan).None? && (old(sweepDay) == Some(UtcDay(now)) || UtcHour(now) < config.sweepHour) ==>
        o == Idle && trace == old(trace) && plan.None? && sweepDay == old(sweepDay)
      ensures o == Idle <==> old(plan).None? && (old(sweepDay) == Some(UtcDay(now)) || UtcHour(now) < config.sweepHour)
      ensures old(plan).Some? ==> queue == old(queue) && planStart == old(planStart)
      ensures old(plan).None? && o != Idle ==> Ascending(queue) && planStart == |old(trace)|
      ensures old(plan).None? && o != Idle ==> forall u :: u in queue <==> Active(old(members), u)
      ensures o in {Advanced, Finished, Skipped} && p.thresholdOk ==>
        var pending := if old(plan).Some? then old(plan).value.pending else queue;
        trace == old(trace) + Batch(old(members), Cut(pending, config.batchSize), p, 0, config.grace, group.Some?).0
      ensures o != Idle ==> OnceEach(queue, trace, planStart)
      ensures o == Finished ==> forall u :: u in queue ==> ReadSince(trace, planStart, u)
      ensures o in {Idle, Waiting} ==> members == old(members) && sweepDay == old(sweepDay) && trace == old(trace)
      ensures old(plan).Some? ==>
        (o == Waiting <==> now < old(plan).value.nextBatchAt) && (o == Waiting ==> plan == old(plan))
      ensures o == Waiting ==> plan.Some? && now < plan.value.nextBatchAt
      ensures o in {Finished, Skipped} ==>
        plan.None? && sweepDay == Some(if old(plan).Some? then old(plan).value.day else UtcDay(now))
    {
      if plan.None? {
        if sweepDay == Some(UtcDay(now)) || UtcHour(now) < config.sweepHour {
          return Idle;
        }
        var active := ActiveUids();
        LogOpens(ended, trace, planStart);
        planStart, queue := |trace|, active;
        plan := Some(Plan(UtcDay(now), active, 0.0, 0, 0, 0, 0));
        ProgressOpens(active, trace);
        if active == [] {
          Finish();
          assert trace == old(trace) + [];
          return Finished;
        }
      }
      if now < plan.value.nextBatchAt {
        return Waiting;
      }
      BatchFromProvider(members, Cut(plan.value.pending, config.batchSize), p, 0, config.grace, group.Some?);
      o := RunBatch(now, p);
    }

    /** `[m.tg_user_id for m in members() if m.status != "ejected"]`, ascending. */
    method ActiveUids() returns (uids: seq<Uid>)
      ensures Ascending(uids) && forall u :: u in uids <==> Active(members, u)
    {
      uids := [];
      var left := set u | u in members && members[u].status != Ejected;
      ghost var all := left;
      while |left| > 0
        invariant left <= all
        invariant forall s, t :: 0 <= s < t < |uids| ==> uids[s] < uids[t]
        invariant forall u :: u in uids <==> u in all && u !in left
        invariant forall u, v :: u in uids && v in left ==> u < v
        decreases left
      {
        var least := Least(left);
        assert forall s :: 0 <= s < |uids| ==> uids[s] in uids;
        uids := uids + [least];
        left := left - {least};
      }
    }

    /** Append one event that the rows already show. */
    ghost method Record(e: Event)
      requires members == Step(Replay(trace), e)
      modifies this`trace
      ensures trace == old(trace) + [e] && members == Replay(trace)
      ensures trace[..|trace| - 1] == old(trace)
    {
      trace := trace + [e];
      assert trace[..|trace| - 1] == old(trace);
    }
  }

  // ---------------------------------------------------------------- a plan reads its queue

  predicate Active(members: Members, uid: Uid)
  {
    uid in members && members[uid].status != Ejected
  }

  predicate Ascending(uids: seq<Uid>)
  {
    forall s, t :: 0 <= s < t < |uids| ==> uids[s] < uids[t]
  }

  ghost predicate ReadAt(trace: seq<Event>, start: nat, uid: Uid, n: nat)
  {
    start <= n < |trace| && trace[n].Reading? && trace[n].uid == uid
  }

  ghost predicate ReadSince(trace: seq<Event>, start: nat, uid: Uid)
  {
    exists n: nat :: ReadAt(trace, start, uid, n)
  }

  /** The plan has read members of its queue only, each at most once. */
  ghost predicate OnceEach(queue: seq<Uid>, trace: seq<Event>, start: nat)
  {
    && (forall u, n: nat :: ReadAt(trace, start, u, n) ==> u in queue)
    && forall u, n: nat, m: nat :: ReadAt(trace, start, u, n) && ReadAt(trace, start, u, m) ==> n == m
  }

  /** Of the queue, exactly the pending members have not been read; they are still active. */
  ghost predicate Progress(queue: seq<Uid>, pending: seq<Uid>, trace: seq<Event>, start: nat)
  {
    && start <= |trace| && OnceEach(queue, trace, start)
    && (forall s, t :: 0 <= s < t < |pending| ==> pending[s] != pending[t])
    && (forall u :: u in pending ==> u in queue && Active(Replay(trace), u))
    && forall u :: u in queue ==> (u in pending <==> !ReadSince(trace, start, u))
  }

  lemma StepLeavesOthers(trace: seq<Event>, e: Event, uid: Uid)
    requires Active(Replay(trace), uid) && (e.uid == uid ==> e.Verified?)
    ensures Active(Replay(trace + [e]), uid)
  {
    assert (trace + [e])[..|trace + [e]| - 1] == trace;
  }

  lemma ReadAtGrows(trace: seq<Event>, e: Event, start: nat, uid: Uid, n: nat)
    requires start <= |trace|
    ensures ReadAt(trace + [e], start, uid, n) <==>
      ReadAt(trace, start, uid, n) || (n == |trace| && e.Reading? && e.uid == uid)
  {
  }

  lemma ReadSinceGrows(trace: seq<Event>, e: Event, start: nat, uid: Uid)
    requires start <= |trace|
    ensures ReadSince(trace + [e], start, uid) <==> ReadSince(trace, start, uid) || (e.Reading? && e.uid == uid)
  {
    forall n: nat
      ensures ReadAt(trace + [e], start, uid, n) <==>
        ReadAt(trace, start, uid, n) || (n == |trace| && e.Reading? && e.uid == uid)
    {
      ReadAtGrows(trace, e, start, uid, n);
    }
    if e.Reading? && e.uid == uid {
      assert ReadAt(trace + [e], start, uid, |trace|);
    }
    if n: nat :| ReadAt(trace, start, uid, n) {
      assert ReadAt(trace + [e], start, uid, n);
    }
  }

  lemma OnceEachGrows(queue: seq<Uid>, trace: seq<Event>, e: Event, start: nat)
    requires start <= |trace| && OnceEach(queue, trace, start)
    requires e.Reading? ==> e.uid in queue && !ReadSince(trace, start, e.uid)
    ensures OnceEach(queue, trace + [e], start)
  {
    forall u, n: nat
      ensures ReadAt(trace + [e], start, u, n) <==>
        ReadAt(trace, start, u, n) || (n == |trace| && e.Reading? && e.uid == u)
    {
      ReadAtGrows(trace, e, start, u, n);
    }
  }

  lemma ProgressVerified(queue: seq<Uid>, pending: seq<Uid>, trace: seq<Event>, start: nat, e: Event)
    requires Progress(queue, pending, trace, start) && e.Verified?
    ensures Progress(queue, pending, trace + [e], start)
  {
    OnceEachGrows(queue, trace, e, start);
    forall u
      ensures ReadSince(trace + [e], start, u) == ReadSince(trace, start, u)
    {
      ReadSinceGrows(trace, e, start, u);
    }
    forall u | u in pending
      ensures Active(Replay(trace + [e]), u)
    {
      StepLeavesOthers(trace, e, u);
    }
  }

  lemma ProgressOne(queue: seq<Uid>, pending: seq<Uid>, trace: seq<Event>, start: nat, e: Event)
    requires Progress(queue, pending, trace, start) && pending != [] && e.Reading? && e.uid == pending[0]
    ensures Progress(queue, pending[1..], trace + [e], start)
  {
    var rest := pending[1..];
    assert pending == [pending[0]] + rest;
    assert e.uid in pending;
    OnceEachGrows(queue, trace, e, start);
    forall u | u in queue
      ensures u in rest <==> !ReadSince(trace + [e], start, u)
    {
      ReadSinceGrows(trace, e, start, u);
    }
    forall u | u in rest
      ensures u in queue && Active(Replay(trace + [e]), u)
    {
      assert u in pending;
      StepLeavesOthers(trace, e, u);
    }
  }

  lemma {:induction false} ProgressRead(queue: seq<Uid>, pending: seq<Uid>, trace: seq<Event>, start: nat,
                                        es: seq<Event>)
    requires Progress(queue, pending, trace, start) && |es| <= |pending|
    requires forall i :: 0 <= i < |es| ==> es[i].Reading? && es[i].uid == pending[i]
    ensures Progress(queue, pending[|es|..], trace + es, start)
    decreases |es|
  {
    if es == [] {
      assert trace + es == trace && pending[|es|..] == pending;
    } else {
      ProgressOne(queue, pending, trace, start, es[0]);
      ProgressRead(queue, pending[1..], trace + [es[0]], start, es[1..]);
      assert trace + [es[0]] + es[1..] == trace + es;
      assert pending[1..][|es| - 1..] == pending[|es|..];
    }
  }

  lemma ProgressOpens(queue: seq<Uid>, trace: seq<Event>)
    requires Ascending(queue) && forall u :: u in queue <==> Active(Replay(trace), u)
    ensures Progress(queue, queue, trace, |trace|)
  {
  }

  /** A sweep event carries a balance the provider really returned. */
  ghost predicate FromProvider(p: Provider, grace: real, bound: bool, e: Event)
  {
    && e.Reading? && p.balance(e.uid) == Some(e.balance) && e.needed == p.needed(e.uid)
    && e.grace == grace && e.bound == bound
  }

  method Least(s: set<Uid>) returns (m: Uid)
    requires |s| > 0
    ensures m in s && forall u :: u in s ==> m <= u
  {
    m :| m in s;
    var left := s - {m};
    while |left| > 0
      invariant left <= s && m in s && forall u :: u in s && u !in left ==> m <= u
      decreases left
    {
      var u :| u in left;
      if u < m {
        m := u;
      }
      left := left - {u};
    }
  }

  lemma ReadingMoves(trace: seq<Event>, e: Event, start: nat)
    requires start <= |trace|
    ensures Moves(trace + [e], start, |trace| + 1, Ok, Grace) ==
      Moves(trace, start, |trace|, Ok, Grace) + if MovesNow(Replay(trace), e, Ok, Grace) then 1 else 0
    ensures Moves(trace + [e], start, |trace| + 1, Grace, Ejected) ==
      Moves(trace, start, |trace|, Grace, Ejected) + if MovesNow(Replay(trace), e, Grace, Ejected) then 1 else 0
  {
    assert (trace + [e])[..|trace|] == trace && (trace + [e])[..|trace| + 1] == trace + [e];
    assert (trace + [e])[..|trace + [e]| - 1] == trace;
    MovesPrefix(trace, e, start, |trace|, Ok, Grace);
    MovesPrefix(trace, e, start, |trace|, Grace, Ejected);
  }

  predicate MovesNow(members: Members, e: Event, was: Status, now: Status)
  {
    && e.uid in members && members[e.uid].status == was
    && e.uid in Step(members, e) && Step(members, e)[e.uid].status == now
  }

  // ---------------------------------------------------------------- a day's plans

  /** A plan that has ended, with the events `start..end` of its time. */
  datatype Sweep = Sweep(plan: Plan, start: nat, end: nat)

  /** Event `n` warned or ejected somebody. */
  ghost predicate Hit(trace: seq<Event>, n: nat)
    requires n < |trace|
  {
    Moved(trace, n, Ok, Grace) || Moved(trace, n, Grace, Ejected)
  }

  ghost predicate SweepOk(trace: seq<Event>, s: Sweep)
  {
    && s.start <= s.end <= |trace|
    && s.plan.warned == Moves(trace, s.start, s.end, Ok, Grace)
    && s.plan.ejected == Moves(trace, s.start, s.end, Grace, Ejected)
  }

  ghost predicate Within(ended: seq<Sweep>, k: nat, n: nat)
  {
    k < |ended| && ended[k].start <= n < ended[k].end
  }

  /** Event `n` lies in the time of some plan. */
  ghost predicate Swept(ended: seq<Sweep>, open: bool, start: nat, n: nat)
  {
    (exists k: nat :: Within(ended, k, n)) || (open && start <= n)
  }

  /** The log of ended plans: their counters are their moves, and no hit is outside all plans. */
  ghost predicate LogOk(ended: seq<Sweep>, trace: seq<Event>, open: bool, start: nat)
  {
    && (forall k :: 0 <= k < |ended| ==> SweepOk(trace, ended[k]))
    && (forall n: nat :: n < |trace| && Hit(trace, n) ==> Swept(ended, open, start, n))
  }

  lemma HitStays(trace: seq<Event>, e: Event, n: nat)
    requires n < |trace|
    ensures Hit(trace + [e], n) == Hit(trace, n)
  {
    assert (trace + [e])[..n] == trace[..n] && (trace + [e])[..n + 1] == trace[..n + 1];
  }

  lemma VerificationHitsNobody(trace: seq<Event>, e: Event)
    requires e.Verified?
    ensures !Hit(trace + [e], |trace|)
  {
    assert (trace + [e])[..|trace|] == trace && (trace + [e])[..|trace| + 1] == trace + [e];
    assert (trace + [e])[..|trace + [e]| - 1] == trace;
  }

  lemma LogGrows(ended: seq<Sweep>, trace: seq<Event>, e: Event, open: bool, start: nat)
    requires LogOk(ended, trace, open, start) && (e.Verified? || (open && start <= |trace|))
    ensures LogOk(ended, trace + [e], open, start)
  {
    forall k | 0 <= k < |ended|
      ensures SweepOk(trace + [e], ended[k])
    {
      assert SweepOk(trace, ended[k]);
      MovesPrefix(trace, e, ended[k].start, ended[k].end, Ok, Grace);
      MovesPrefix(trace, e, ended[k].start, ended[k].end, Grace, Ejected);
    }
    forall n: nat | n < |trace + [e]| && Hit(trace + [e], n)
      ensures Swept(ended, open, start, n)
    {
      if n < |trace| {
        HitStays(trace, e, n);
      } else if e.Verified? {
        VerificationHitsNobody(trace, e);
      }
    }
  }

  /** A reading is logged by counting the move it makes. */
  lemma ReadingLogged(ended: seq<Sweep>, trace: seq<Event>, p: Plan, after: Plan, start: nat, e: Event)
    requires LogOk(ended, trace, true, start) && CountersMatch(p, trace, start) && e.Reading?
    requires after.warned == p.warned + if MovesNow(Replay(trace), e, Ok, Grace) then 1 else 0
    requires after.ejected == p.ejected + if MovesNow(Replay(trace), e, Grace, Ejected) then 1 else 0
    ensures LogOk(ended, trace + [e], true, start) && CountersMatch(after, trace + [e], start)
  {
    LogGrows(ended, trace, e, true, start);
    ReadingMoves(trace, e, start);
  }

  lemma LogCloses(ended: seq<Sweep>, trace: seq<Event>, p: Plan, start: nat)
    requires LogOk(ended, trace, true, start) && CountersMatch(p, trace, start)
    ensures LogOk(ended + [Sweep(p, start, |trace|)], trace, false, start)
  {
    var all := ended + [Sweep(p, start, |trace|)];
    forall n: nat | n < |trace| && Hit(trace, n)
      ensures Swept(all, false, start, n)
    {
      assert Swept(ended, true, start, n);
      if k: nat :| Within(ended, k, n) {
        assert Within(all, k, n);
      } else {
        assert Within(all, |ended|, n);
      }
    }
  }

  lemma LogOpens(ended: seq<Sweep>, trace: seq<Event>, start: nat)
    requires LogOk(ended, trace, false, start)
    ensures LogOk(ended, trace, true, |trace|)
  {
    forall n: nat | n < |trace| && Hit(trace, n)
      ensures Swept(ended, true, |trace|, n)
    {
      assert Swept(ended, false, start, n);
    }
  }

  /** No plan of the day warned or ejected anybody: what the skip alert says. */
  ghost predicate DayQuiet(ended: seq<Sweep>, day: int, trace: seq<Event>)
  {
    forall k: nat, n: nat :: Within(ended, k, n) && ended[k].plan.day == day && n < |trace| ==> !Hit(trace, n)
  }

  /** Every plan opened for the day counted no warning and no ejection. */
  ghost predicate CountersQuiet(ended: seq<Sweep>, day: int)
  {
    forall k :: 0 <= k < |ended| && ended[k].plan.day == day ==> ended[k].plan.warned == 0 && ended[k].plan.ejected == 0
  }

  /** The plan now open is the first of its day: no restart dropped an earlier one. */
  ghost predicate FirstOfDay(ended: seq<Sweep>, day: int)
  {
    forall k :: 0 <= k < |ended| ==> ended[k].plan.day != day
  }

  lemma SweepQuiet(trace: seq<Event>, s: Sweep)
    requires SweepOk(trace, s)
    ensures s.plan.warned == 0 && s.plan.ejected == 0 <==> forall n: nat :: s.start <= n < s.end ==> !Hit(trace, n)
  {
    MovesZero(trace, s.start, s.end, Ok, Grace);
    MovesZero(trace, s.start, s.end, Grace, Ejected);
    if forall n: nat :: s.start <= n < s.end ==> !Hit(trace, n) {
      forall n | s.start <= n < s.end
        ensures !Moved(trace, n, Ok, Grace) && !Moved(trace, n, Grace, Ejected)
      {
        assert !Hit(trace, n);
      }
    }
  }

  lemma DayQuietIff(ended: seq<Sweep>, day: int, trace: seq<Event>)
    requires forall k :: 0 <= k < |ended| ==> SweepOk(trace, ended[k])
    ensures DayQuiet(ended, day, trace) <==> CountersQuiet(ended, day)
  {
    forall k | 0 <= k < |ended|
      ensures ended[k].plan.warned == 0 && ended[k].plan.ejected == 0 <==>
        forall n: nat :: ended[k].start <= n < ended[k].end ==> !Hit(trace, n)
    {
      SweepQuiet(trace, ended[k]);
    }
    if DayQuiet(ended, day, trace) {
      forall k: nat, n: nat | k < |ended| && ended[k].plan.day == day && ended[k].start <= n < ended[k].end
        ensures !Hit(trace, n)
      {
        assert Within(ended, k, n);
      }
    }
  }

  /** The skip alert says of the day that nobody was warned or ejected. That is true exactly when
      every plan opened for the day, the open one and any a restart dropped, counted neither;
      for a plan that is the first of its day, exactly when its own two counters are zero. */
  lemma SkipAlertTruth(ended: seq<Sweep>, p: Plan, start: nat, trace: seq<Event>)
    requires LogOk(ended, trace, true, start) && CountersMatch(p, trace, start)
    ensures var all := ended + [Sweep(p, start, |trace|)];
      && (DayQuiet(all, p.day, trace) <==> CountersQuiet(all, p.day))
      && (CountersQuiet(all, p.day) <==> p.warned == 0 && p.ejected == 0 && CountersQuiet(ended, p.day))
    ensures FirstOfDay(ended, p.day) ==>
      (DayQuiet(ended + [Sweep(p, start, |trace|)], p.day, trace) <==> p.warned == 0 && p.ejected == 0)
  {
    var all := ended + [Sweep(p, start, |trace|)];
    DayQuietIff(all, p.day, trace);
    if CountersQuiet(all, p.day) {
      assert all[|ended|].plan == p;
      assert forall k :: 0 <= k < |ended| ==> all[k] == ended[k];
    }
  }

  /** A restart after a warning: the reopened plan's counters are zero, and the alert is false. */
  lemma RestartHidesWarning() returns (ended: seq<Sweep>, p: Plan, trace: seq<Event>)
    ensures LogOk(ended, trace, true, |trace|) && CountersMatch(p, trace, |trace|)
    ensures p.warned == 0 && p.ejected == 0 && !FirstOfDay(ended, p.day)
    ensures !DayQuiet(ended + [Sweep(p, |trace|, |trace|)], p.day, trace)
  {
    var first, second := Verified(1, 11, 100, 0.0), Verified(2, 22, 100, 0.0);
    var low := Reading(1, 5, 100, 1.0, 172800.0, true);
    var two := [first] + [second];
    trace := two + [low];
    var dropped := Sweep(Plan(0, [2], 0.0, 1, 1, 0, 0), 2, 3);
    ended, p := [dropped], Plan(0, [1, 2], 0.0, 0, 0, 0, 0);
    LowReadingWarns(first, second, low);
    assert Moves(two, 2, 2, Ok, Grace) == 0 && Moves(two, 2, 2, Grace, Ejected) == 0;
    ReadingMoves(two, low, 2);
    VerificationHitsNobody([], first);
    VerificationHitsNobody([first], second);
    assert [] + [first] == [first];
    HitStays([first], second, 0);
    HitStays(two, low, 0);
    HitStays(two, low, 1);
    assert Within(ended, 0, 2);
    assert Within(ended + [Sweep(p, 3, 3)], 0, 2);
    assert trace[..2] == two && trace[..3] == trace;
    assert Hit(trace, 2);
  }

  /** One day, two restarts and a recovery between them: member 1 is warned twice. */
  lemma RecoveredIsWarnedAgain() returns (trace: seq<Event>, ended: seq<Sweep>, p: Plan)
    ensures |trace| == 4
    ensures forall n :: 1 <= n < 4 ==> trace[n].Reading? && trace[n].uid == 1 && UtcDay(trace[n].now) == 0
    ensures Moved(trace, 1, Ok, Grace) && Moved(trace, 3, Ok, Grace) && ResetAt(trace, 1, 2)
    ensures LogOk(ended, trace, true, 3) && CountersMatch(p, trace, 3)
    ensures |ended| == 2 && ended[0].plan.day == ended[1].plan.day == p.day == 0
  {
    var first, low := Verified(1, 11, 100, 0.0), Reading(1, 5, 100, 1.0, 172800.0, true);
    var high, again := Reading(1, 100, 100, 2.0, 172800.0, true), Reading(1, 5, 100, 3.0, 172800.0, true);
    trace := [first, low, high, again];
    ended := [Sweep(Plan(0, [], 0.0, 1, 1, 0, 0), 1, 2), Sweep(Plan(0, [], 0.0, 1, 0, 0, 1), 2, 3)];
    p := Plan(0, [], 0.0, 1, 1, 0, 0);
    ReplayOfFour(first, low, high, again);
    assert !Hit(trace, 0) && !Hit(trace, 2);
    assert Within(ended, 0, 1) && Within(ended, 1, 2);
    assert Moves(trace, 1, 1, Ok, Grace) == Moves(trace, 1, 1, Grace, Ejected) == 0;
    assert Moves(trace, 2, 2, Ok, Grace) == Moves(trace, 2, 2, Grace, Ejected) == 0;
    assert Moves(trace, 3, 3, Ok, Grace) == Moves(trace, 3, 3, Grace, Ejected) == 0;
  }

  lemma ReplayOfFour(first: Event, low: Event, high: Event, again: Event)
    requires first == Verified(1, 11, 100, 0.0) && low == Reading(1, 5, 100, 1.0, 172800.0, true)
    requires high == Reading(1, 100, 100, 2.0, 172800.0, true) && again == Reading(1, 5, 100, 3.0, 172800.0, true)
    ensures var trace := [first, low, high, again];
      && Replay(trace[..0]) == map[] && Replay(trace[..1]) == map[1 := Member(11, Ok, None, 0.0, 100)]
      && Replay(trace[..2]) == map[1 := Member(11, Grace, Some(172801.0), 1.0, 5)]
      && Replay(trace[..3]) == map[1 := Member(11, Ok, None, 2.0, 100)]
      && Replay(trace[..4]) == map[1 := Member(11, Grace, Some(172803.0), 3.0, 5)]
  {
    var trace := [first, low, high, again];
    assert trace[..1][..0] == [] && trace[..1][0] == first && trace[..2][..1] == trace[..1] && trace[..2][1] == low;
    assert trace[..3][..2] == trace[..2] && trace[..3][2] == high;
    assert trace[..4][..3] == trace[..3] && trace[..4][3] == again;
  }

  lemma LowReadingWarns(first: Event, second: Event, low: Event)
    requires first == Verified(1, 11, 100, 0.0) && second == Verified(2, 22, 100, 0.0)
    requires low == Reading(1, 5, 100, 1.0, 172800.0, true)
    ensures var m := Replay([first] + [second]); MovesNow(m, low, Ok, Grace) && !MovesNow(m, low, Grace, Ejected)
    ensures var trace := [first] + [second] + [low]; Moved(trace, 2, Ok, Grace)
  {
    var two := [first] + [second];
    var trace := two + [low];
    assert two[..1] == [first] && [first][..0] == [];
    assert Replay([first]) == map[1 := Member(11, Ok, None, 0.0, 100)];
    assert Replay(two) == map[1 := Member(11, Ok, None, 0.0, 100), 2 := Member(22, Ok, None, 0.0, 100)];
    assert trace[..2] == two && trace[..3] == trace;
  }

  lemma {:induction false} MovesZero(trace: seq<Event>, lo: nat, hi: nat, was: Status, now: Status)
    requires lo <= hi <= |trace|
    ensures Moves(trace, lo, hi, was, now) == 0 <==> forall n :: lo <= n < hi ==> !Moved(trace, n, was, now)
    decreases hi
  {
    if lo < hi {
      MovesZero(trace, lo, hi - 1, was, now);
    }
  }

  function Cut(pending: seq<Uid>, size: nat): (batch: seq<Uid>)
    ensures |batch| <= |pending| && batch == pending[..|batch|]
    ensures |batch| == if size < |pending| then size else |pending|
  {
    if size < |pending| then pending[..size] else pending
  }

  /** The events one batch produces from position `k` on, and whether every lookup worked:
      members that are gone or ejected are passed over, a failed lookup ends the batch. */
  function Batch(members: Members, batch: seq<Uid>, p: Provider, k: nat, grace: real, bound: bool): (seq<Event>, bool)
    requires k <= |batch|
    decreases |batch| - k
  {
    if k == |batch| then ([], true)
    else
      var uid := batch[k];
      if uid !in members || members[uid].status == Ejected then Batch(members, batch, p, k + 1, grace, bound)
      else match p.balance(uid)
        case None => ([], false)
        case Some(balance) =>
          var e := Reading(uid, balance, p.needed(uid), p.clock(k), grace, bound);
          var (es, ok) := Batch(Step(members, e), batch, p, k + 1, grace, bound);
          ([e] + es, ok)
  }

  function ReadingOf(uid: Uid, p: Provider, k: nat, grace: real, bound: bool): Event
    requires p.balance(uid).Some?
  {
    Reading(uid, p.balance(uid).value, p.needed(uid), p.clock(k), grace, bound)
  }

  /** The events read the batch in order from position `k` on. */
  ghost predicate InOrder(es: seq<Event>, batch: seq<Uid>, p: Provider, k: nat, grace: real, bound: bool)
  {
    && k + |es| <= |batch|
    && forall i :: 0 <= i < |es| ==> ReadsMember(es[i], batch[k + i], p, k + i, grace, bound)
  }

  predicate ReadsMember(e: Event, uid: Uid, p: Provider, k: nat, grace: real, bound: bool)
  {
    p.balance(uid).Some? && e == ReadingOf(uid, p, k, grace, bound)
  }

  /** Of distinct active members every one is read, in order, up to the first whose lookup fails. */
  lemma {:induction false} BatchInOrder(members: Members, batch: seq<Uid>, p: Provider, k: nat, grace: real,
                                        bound: bool)
    requires k <= |batch| && forall s, t :: k <= s < t < |batch| ==> batch[s] != batch[t]
    requires forall s :: k <= s < |batch| ==> Active(members, batch[s])
    ensures var (es, ok) := Batch(members, batch, p, k, grace, bound);
      && InOrder(es, batch, p, k, grace, bound) && (ok <==> k + |es| == |batch|)
      && (!ok ==> p.balance(batch[k + |es|]).None?)
    decreases |batch| - k
  {
    if k < |batch| && p.balance(batch[k]).Some? {
      var e := ReadingOf(batch[k], p, k, grace, bound);
      var after := Step(members, e);
      forall s | k + 1 <= s < |batch|
        ensures Active(after, batch[s])
      {
        assert batch[s] != batch[k] && Active(members, batch[s]);
      }
      BatchInOrder(after, batch, p, k + 1, grace, bound);
      var (es, ok) := Batch(after, batch, p, k + 1, grace, bound);
      assert Batch(members, batch, p, k, grace, bound) == ([e] + es, ok);
      forall i | 0 <= i < |[e] + es|
        ensures ReadsMember(([e] + es)[i], batch[k + i], p, k + i, grace, bound)
      {
        if i > 0 {
          var j := i - 1;
          assert ReadsMember(es[j], batch[k + 1 + j], p, k + 1 + j, grace, bound);
        }
      }
    }
  }

  /** One batch of a plan reads its members in order, all of them unless a lookup fails. */
  lemma BatchProgress(queue: seq<Uid>, pending: seq<Uid>, trace: seq<Event>, start: nat, config: Config, p: Provider,
                      bound: bool)
    requires Progress(queue, pending, trace, start)
    ensures var batch := Cut(pending, config.batchSize);
      var (es, ok) := Batch(Replay(trace), batch, p, 0, config.grace, bound);
      && OnceEach(queue, trace + es, start)
      && (ok ==> |es| == |batch| && Progress(queue, pending[|batch|..], trace + es, start))
  {
    var batch := Cut(pending, config.batchSize);
    assert forall s :: 0 <= s < |batch| ==> batch[s] in pending;
    BatchInOrder(Replay(trace), batch, p, 0, config.grace, bound);
    var es := Batch(Replay(trace), batch, p, 0, config.grace, bound).0;
    assert forall i :: 0 <= i < |es| ==> ReadsMember(es[i], batch[0 + i], p, 0 + i, config.grace, bound);
    ProgressRead(queue, pending, trace, start, es);
  }

  lemma {:induction false} BatchFromProvider(members: Members, batch: seq<Uid>, p: Provider, k: nat, grace: real,
                                             bound: bool)
    requires k <= |batch|
    ensures forall e :: e in Batch(members, batch, p, k, grace, bound).0 ==> FromProvider(p, grace, bound, e)
    decreases |batch| - k
  {
    if k < |batch| {
      var uid := batch[k];
      if uid !in members || members[uid].status == Ejected {
        BatchFromProvider(members, batch, p, k + 1, grace, bound);
      } else if p.balance(uid).Some? {
        var e := Reading(uid, p.balance(uid).value, p.needed(uid), p.clock(k), grace, bound);
        BatchFromProvider(Step(members, e), batch, p, k + 1, grace, bound);
      }
    }
  }

  /** A batch that warned someone and then failed: the day is reported as skipped although a
      member did move from ok to grace. */
  lemma SkippedDayCanWarn(p: Provider)
    requires p.balance(1) == Some(5) && p.needed(1) == 100 && p.balance(2) == None
    ensures var members := map[1 := Member(11, Ok, None, 0.0, 100), 2 := Member(22, Ok, None, 0.0, 100)];
      var (es, ok) := Batch(members, [1, 2], p, 0, 172800.0, true);
      !ok && |es| == 1 && MovesNow(members, es[0], Ok, Grace)
  {
    var members := map[1 := Member(11, Ok, None, 0.0, 100), 2 := Member(22, Ok, None, 0.0, 100)];
    var e := Reading(1, 5, 100, p.clock(0), 172800.0, true);
    var after := Step(members, e);
    assert 2 in after && after[2].status == Ok;
    assert Batch(after, [1, 2], p, 1, 172800.0, true) == ([], false);
  }

  ghost predicate CountersMatch(p: Plan, trace: seq<Event>, start: nat)
  {
    && start <= |trace|
    && p.warned == Moves(trace, start, |trace|, Ok, Grace)
    && p.ejected == Moves(trace, start, |trace|, Grace, Ejected)
  }

  lemma VerificationMovesNothing(trace: seq<Event>, e: Event)
    requires e.Verified?
    ensures forall lo :: 0 <= lo <= |trace| ==>
      Moves(trace + [e], lo, |trace| + 1, Ok, Grace) == Moves(trace, lo, |trace|, Ok, Grace)
    ensures forall lo :: 0 <= lo <= |trace| ==>
      Moves(trace + [e], lo, |trace| + 1, Grace, Ejected) == Moves(trace, lo, |trace|, Grace, Ejected)
  {
    assert (trace + [e])[..|trace|] == trace && (trace + [e])[..|trace| + 1] == trace + [e];
    assert (trace + [e])[..|trace + [e]| - 1] == trace;
    forall lo | 0 <= lo <= |trace|
      ensures Moves(trace + [e], lo, |trace| + 1, Ok, Grace) == Moves(trace, lo, |trace|, Ok, Grace)
      ensures Moves(trace + [e], lo, |trace| + 1, Grace, Ejected) == Moves(trace, lo, |trace|, Grace, Ejected)
    {
      MovesPrefix(trace, e, lo, |trace|, Ok, Grace);
      MovesPrefix(trace, e, lo, |trace|, Grace, Ejected);
    }
  }
}
