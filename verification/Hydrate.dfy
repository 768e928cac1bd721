/** The request budget and the birth-slot signature walk. */
module Hydrate {
  import opened Ledger

  type Day = int

  // ---------------------------------------------------------------- the daily budget

  class DailyBudget {
    const ceiling: int
    var day: Day
    var spent: int

    ghost predicate Valid()
      reads this
    {
      0 <= spent
    }

    constructor (ceiling: int, day: Day, spent: int, today: Day)
      requires 0 <= spent
      ensures Valid() && this.ceiling == ceiling && this.day == today
      ensures this.spent == if day == today then spent else 0
    {
      this.ceiling := ceiling;
      this.day := today;
      this.spent := if day == today then spent else 0;
    }

    method Roll(today: Day)
      modifies this
      ensures (day, spent) == Rolled(old(day), old(spent), today)
    {
      if day != today {
        day, spent := today, 0;
      }
    }

    /** One attempt of `_rpc`: `guard` then `spend`, with no await in between; the UTC day may
        turn between the two calls. */
    method Attempt(atGuard: Day, atSpend: Day) returns (sent: bool)
      requires Valid()
      modifies this
      ensures Valid()
      ensures (day, spent, sent) == Attempted(ceiling, old(day), old(spent), atGuard, atSpend)
      ensures sent ==> 1 <= spent <= ceiling
      ensures var used := if old(day) == atGuard then old(spent) else 0;
        && (sent <==> used < ceiling)
        && (!sent ==> day == atGuard && spent == used)
        && (sent ==> day == atSpend && spent == if atSpend == atGuard then used + 1 else 1)
    {
      Roll(atGuard);
      if spent >= ceiling {
        return false;
      }
      Roll(atSpend);
      spent := spent + 1;
      sent := true;
    }
  }

  function Rolled(day: Day, spent: int, today: Day): (Day, int)
  {
    if day != today then (today, 0) else (day, spent)
  }

  function Attempted(ceiling: int, day: Day, spent: int, atGuard: Day, atSpend: Day): (Day, int, bool)
  {
    var (d, s) := Rolled(day, spent, atGuard);
    if s >= ceiling then (d, s, false)
    else
      var (d', s') := Rolled(d, s, atSpend);
      (d', s' + 1, true)
  }

  /** The budget after a run of attempts by any workers, and the days requests were sent on. */
  function Run(ceiling: int, day: Day, spent: int, attempts: seq<(Day, Day)>): (Day, int, seq<Day>)
  {
    if attempts == [] then (day, spent, [])
    else
      var n := |attempts| - 1;
      var (d, s, sent) := Run(ceiling, day, spent, attempts[..n]);
      var (d', s', ok) := Attempted(ceiling, d, s, attempts[n].0, attempts[n].1);
      (d', s', if ok then sent + [d'] else sent)
  }

  function SentOn(sent: seq<Day>, d: Day): nat
  {
    if sent == [] then 0 else SentOn(sent[..|sent| - 1], d) + if sent[|sent| - 1] == d then 1 else 0
  }

  /** Clocks do not go back, neither within an attempt nor between attempts. */
  ghost predicate Forward(day: Day, attempts: seq<(Day, Day)>)
  {
    && (forall i :: 0 <= i < |attempts| ==> day <= attempts[i].0 <= attempts[i].1)
    && (forall i, j :: 0 <= i < j < |attempts| ==> attempts[i].1 <= attempts[j].0)
  }

  /** Requests on day `k`, including those already counted when the run began. */
  function UsedOn(sent: seq<Day>, start: Day, before: nat, k: Day): nat
  {
    SentOn(sent, k) + if k == start then before else 0
  }

  /** What a day may use: the ceiling, or what it had already used when the ceiling was lowered. */
  function Allowance(ceiling: nat, start: Day, before: nat, k: Day): nat
  {
    if k == start && before > ceiling then before else ceiling
  }

  /** The counter is the day's use, later days are unused, and no day exceeds its allowance. */
  ghost predicate BudgetInv(ceiling: nat, start: Day, before: nat, d: Day, s: int, sent: seq<Day>)
  {
    && start <= d && s == UsedOn(sent, start, before, d) && s <= Allowance(ceiling, start, before, d)
    && (forall k :: k > d ==> UsedOn(sent, start, before, k) == 0)
    && (forall k :: UsedOn(sent, start, before, k) <= Allowance(ceiling, start, before, k))
  }

  lemma AttemptKeepsInv(ceiling: nat, start: Day, before: nat, d: Day, s: int, sent: seq<Day>, g: Day, p: Day)
    requires BudgetInv(ceiling, start, before, d, s, sent) && d <= g <= p
    ensures var (d', s', ok) := Attempted(ceiling, d, s, g, p);
      d' <= p && BudgetInv(ceiling, start, before, d', s', if ok then sent + [d'] else sent)
  {
    var (d', s', ok) := Attempted(ceiling, d, s, g, p);
    assert UsedOn(sent, start, before, g) == Rolled(d, s, g).1;
    if ok {
      assert (sent + [d'])[..|sent|] == sent;
      assert forall k ::
        UsedOn(sent + [d'], start, before, k) == UsedOn(sent, start, before, k) + if k == d' then 1 else 0;
    }
  }

  lemma {:induction false} RunKeepsInv(ceiling: nat, day: Day, spent: nat, attempts: seq<(Day, Day)>)
    requires Forward(day, attempts)
    ensures var (d, s, sent) := Run(ceiling, day, spent, attempts);
      BudgetInv(ceiling, day, spent, d, s, sent) && d <= if attempts == [] then day else attempts[|attempts| - 1].1
  {
    if attempts != [] {
      var n := |attempts| - 1;
      RunKeepsInv(ceiling, day, spent, attempts[..n]);
      var (d, s, sent) := Run(ceiling, day, spent, attempts[..n]);
      assert n > 0 ==> attempts[n - 1].1 <= attempts[n].0;
      AttemptKeepsInv(ceiling, day, spent, d, s, sent, attempts[n].0, attempts[n].1);
    }
  }

  /** In any interleaving of workers and day rolls, no UTC day ever sees more requests than the
      ceiling, counting those made before the run unless they were already above it; a counter
      loaded at or above the ceiling sends nothing that day. */
  lemma CeilingHolds(ceiling: nat, day: Day, spent: nat, attempts: seq<(Day, Day)>, d: Day)
    requires Forward(day, attempts)
    ensures var (today, counter, sent) := Run(ceiling, day, spent, attempts);
      && 0 <= counter <= Allowance(ceiling, day, spent, today)
      && UsedOn(sent, day, spent, d) <= Allowance(ceiling, day, spent, d)
      && SentOn(sent, d) <= ceiling && (spent >= ceiling ==> SentOn(sent, day) == 0)
  {
    RunKeepsInv(ceiling, day, spent, attempts);
  }

  /** In any interleaving an attempt is sent exactly when the requests already made on the day of
      its guard are fewer than the ceiling. */
  lemma SentIff(ceiling: nat, day: Day, spent: nat, attempts: seq<(Day, Day)>)
    requires attempts != [] && Forward(day, attempts)
    ensures var n := |attempts| - 1;
      var before, after := Run(ceiling, day, spent, attempts[..n]).2, Run(ceiling, day, spent, attempts).2;
      if UsedOn(before, day, spent, attempts[n].0) < ceiling then after == before + [attempts[n].1]
      else after == before
  {
    var n := |attempts| - 1;
    RunKeepsInv(ceiling, day, spent, attempts[..n]);
    var (d, s, sent) := Run(ceiling, day, spent, attempts[..n]);
    assert n > 0 ==> attempts[n - 1].1 <= attempts[n].0;
    assert UsedOn(sent, day, spent, attempts[n].0) == Rolled(d, s, attempts[n].0).1;
  }

  // ---------------------------------------------------------------- the signature walk

  type Sig = nat

  datatype Entry = Entry(sig: Sig, slot: int, err: bool)

  const PAGE: nat := 1000

  /** Newest first, no signature twice. */
  ghost predicate NewestFirst(sigs: seq<Entry>)
  {
    && (forall i, j :: 0 <= i < j < |sigs| ==> sigs[j].slot <= sigs[i].slot)
    && (forall i, j :: 0 <= i < j < |sigs| ==> sigs[i].sig != sigs[j].sig)
  }

  function IndexOf(sigs: seq<Entry>, sig: Sig): (i: nat)
    ensures i <= |sigs| && (i < |sigs| ==> sigs[i].sig == sig) && forall k :: 0 <= k < i ==> sigs[k].sig != sig
  {
    if sigs == [] then 0 else if sigs[0].sig == sig then 0 else 1 + IndexOf(sigs[1..], sig)
  }

  /** `getSignaturesForAddress(limit=1000, before=...)`. */
  function Page(sigs: seq<Entry>, before: Option<Sig>): seq<Entry>
  {
    var lo := if before.None? then 0 else IndexOf(sigs, before.value) + 1;
    if lo >= |sigs| then []
    else if lo + PAGE <= |sigs| then sigs[lo..lo + PAGE] else sigs[lo..]
  }

  predicate Wanted(e: Entry, slot: int, create: Sig)
  {
    e.slot == slot && !e.err && e.sig != create
  }

  function Extras(sigs: seq<Entry>, slot: int, create: Sig): seq<Sig>
  {
    if sigs == [] then []
    else
      var n := |sigs| - 1;
      Extras(sigs[..n], slot, create) + if Wanted(sigs[n], slot, create) then [sigs[n].sig] else []
  }

  lemma {:induction false} ExtrasBelow(sigs: seq<Entry>, n: nat, slot: int, create: Sig)
    requires n <= |sigs| && forall i :: n <= i < |sigs| ==> sigs[i].slot < slot
    ensures Extras(sigs, slot, create) == Extras(sigs[..n], slot, create)
    decreases |sigs| - n
  {
    if n < |sigs| {
      ExtrasBelow(sigs, n + 1, slot, create);
      assert sigs[..n + 1][..n] == sigs[..n];
    } else {
      assert sigs[..n] == sigs;
    }
  }

  lemma {:induction false} ExtrasMembers(sigs: seq<Entry>, slot: int, create: Sig, sig: Sig)
    ensures sig in Extras(sigs, slot, create) <==> exists e :: e in sigs && Wanted(e, slot, create) && e.sig == sig
  {
    if sigs != [] {
      var n := |sigs| - 1;
      ExtrasMembers(sigs[..n], slot, create, sig);
      assert sigs == sigs[..n] + [sigs[n]];
    }
  }

  /** Process one page: stop at the first entry below the birth slot. */
  method ScanPage(ghost sigs: seq<Entry>, ghost lo: nat, page: seq<Entry>, slot: int, create: Sig, extra: seq<Sig>)
    returns (found: seq<Sig>, below: bool)
    requires lo + |page| <= |sigs| && page == sigs[lo..lo + |page|]
    requires extra == Extras(sigs[..lo], slot, create)
    ensures !below ==> found == Extras(sigs[..lo + |page|], slot, create)
    ensures !below ==> forall k :: lo <= k < lo + |page| ==> sigs[k].slot >= slot
    ensures below ==> exists k ::
      lo <= k < lo + |page| && sigs[k].slot < slot && found == Extras(sigs[..k], slot, create)
  {
    found := extra;
    for t := 0 to |page|
      invariant found == Extras(sigs[..lo + t], slot, create)
      invariant forall k :: lo <= k < lo + t ==> sigs[k].slot >= slot
    {
      assert page[t] == sigs[lo + t];
      if page[t].slot < slot {
        assert sigs[lo + t].slot < slot && found == Extras(sigs[..lo + t], slot, create);
        return found, true;
      }
      assert sigs[..lo + t + 1][..lo + t] == sigs[..lo + t];
      if Wanted(page[t], slot, create) {
        found := found + [page[t].sig];
      }
    }
    below := false;
  }

  datatype Result<T> = Ok(value: T) | HydrationFailed

  /** The pages that may be read end, or get below the birth slot. */
  ghost predicate GetsPast(sigs: seq<Entry>, slot: int, maxPages: nat)
  {
    |sigs| < maxPages * PAGE || exists k :: 0 <= k < maxPages * PAGE && sigs[k].slot < slot
  }

  /** The page walk of `birth_slot`: the same-slot signatures found, and whether the walk got
      past the birth slot. `fails` says on which pages the request gave up. */
  method WalkSignatures(sigs: seq<Entry>, slot: int, create: Sig, maxPages: nat, fails: nat -> bool)
    returns (r: Result<(seq<Sig>, bool)>)
    requires NewestFirst(sigs)
    ensures r.HydrationFailed? ==> exists n: nat :: n < maxPages && fails(n)
    ensures r.Ok? && r.value.1 ==> r.value.0 == Extras(sigs, slot, create)
    ensures r.Ok? && !r.value.1 ==>
      |sigs| >= maxPages * PAGE && r.value.0 == Extras(sigs[..maxPages * PAGE], slot, create)
    ensures r.Ok? ==> (r.value.1 <==> GetsPast(sigs, slot, maxPages))
  {
    var extra: seq<Sig> := [];
    var before: Option<Sig> := None;
    ghost var lo := 0;
    assert sigs[..0] == [];
    for n := 0 to maxPages
      invariant lo == n * PAGE && CursorAt(sigs, before, lo)
      invariant extra == Extras(sigs[..lo], slot, create)
      invariant forall k :: 0 <= k < lo ==> sigs[k].slot >= slot
    {
      if fails(n) {
        return HydrationFailed;
      }
      var done;
      extra, before, done := WalkPage(sigs, before, lo, slot, create, extra);
      if done {
        PageWithin(n, maxPages);
        return Ok((extra, true));
      }
      lo := lo + PAGE;
    }
    r := Ok((extra, false));
  }

  /** One page of the walk: it ends below the birth slot or on a short page, or moves on. */
  method WalkPage(sigs: seq<Entry>, before: Option<Sig>, ghost lo: nat, slot: int, create: Sig, extra: seq<Sig>)
    returns (found: seq<Sig>, next: Option<Sig>, done: bool)
    requires NewestFirst(sigs) && CursorAt(sigs, before, lo) && extra == Extras(sigs[..lo], slot, create)
    ensures done ==> found == Extras(sigs, slot, create)
    ensures done ==> |sigs| < lo + PAGE || exists k :: lo <= k < lo + PAGE && sigs[k].slot < slot
    ensures !done ==> |sigs| >= lo + PAGE && forall k :: lo <= k < lo + PAGE ==> sigs[k].slot >= slot
    ensures !done ==> CursorAt(sigs, next, lo + PAGE) && found == Extras(sigs[..lo + PAGE], slot, create)
  {
    var page := Page(sigs, before);
    PageAtCursor(sigs, before, lo);
    var below;
    found, below := ScanPage(sigs, lo, page, slot, create, extra);
    if below {
      WalkedPast(sigs, lo, slot, create, found);
      return found, before, true;
    }
    if |page| < PAGE {
      assert sigs[..lo + |page|] == sigs;
      return found, before, true;
    }
    next, done := Some(page[|page| - 1].sig), false;
  }

  lemma PageWithin(n: nat, maxPages: nat)
    requires n < maxPages
    ensures n * PAGE + PAGE <= maxPages * PAGE
  {
  }

  /** The cursor names the last entry already seen. */
  ghost predicate CursorAt(sigs: seq<Entry>, before: Option<Sig>, lo: nat)
  {
    lo <= |sigs| && if lo == 0 then before.None? else before == Some(sigs[lo - 1].sig)
  }

  lemma PageAtCursor(sigs: seq<Entry>, before: Option<Sig>, lo: nat)
    requires NewestFirst(sigs) && CursorAt(sigs, before, lo)
    ensures var page := Page(sigs, before);
      && lo + |page| <= |sigs| && page == sigs[lo..lo + |page|] && |page| <= PAGE
      && (|page| < PAGE ==> lo + |page| == |sigs|)
  {
    if lo > 0 {
      assert IndexOf(sigs, before.value) == lo - 1;
    }
  }

  lemma WalkedPast(sigs: seq<Entry>, lo: nat, slot: int, create: Sig, extra: seq<Sig>)
    requires NewestFirst(sigs)
    requires exists k :: lo <= k < |sigs| && sigs[k].slot < slot && extra == Extras(sigs[..k], slot, create)
    ensures extra == Extras(sigs, slot, create)
  {
    var k :| lo <= k < |sigs| && sigs[k].slot < slot && extra == Extras(sigs[..k], slot, create);
    ExtrasBelow(sigs, k, slot, create);
  }

  /** The transactions that were found, in the order of their signatures. */
  function Present<T>(sigs: seq<Sig>, tx: Sig -> Option<T>): seq<T>
  {
    if sigs == [] then []
    else
      var n := |sigs| - 1;
      Present(sigs[..n], tx) + match tx(sigs[n]) case Some(t) => [t] case None => []
  }

  /** A successful signature of the birth slot other than the create. */
  ghost predicate SameSlot(sigs: seq<Entry>, slot: int, create: Sig, i: int)
  {
    0 <= i < |sigs| && sigs[i].slot == slot && !sigs[i].err && sigs[i].sig != create
  }

  ghost function SameSlots(sigs: seq<Entry>, slot: int, create: Sig): set<int>
  {
    set i | 0 <= i < |sigs| && SameSlot(sigs, slot, create, i)
  }

  lemma {:induction false} ExtrasCount(sigs: seq<Entry>, slot: int, create: Sig)
    ensures |Extras(sigs, slot, create)| == |SameSlots(sigs, slot, create)|
  {
    var all := SameSlots(sigs, slot, create);
    if sigs == [] {
      assert all == {};
    } else {
      var n := |sigs| - 1;
      ExtrasCount(sigs[..n], slot, create);
      var less := SameSlots(sigs[..n], slot, create);
      forall i
        ensures SameSlot(sigs, slot, create, i) <==>
          SameSlot(sigs[..n], slot, create, i) || (SameSlot(sigs, slot, create, n) && i == n)
      {
      }
      if SameSlot(sigs, slot, create, n) {
        assert all == less + {n};
      } else {
        assert all == less;
      }
    }
  }

  datatype BirthSlot<T> = BirthSlot(txs: seq<T>, isPartial: bool)

  /** `birth_slot` after the create transaction: walk, fetch at most `maxTxs`, flag the rest. */
  method FetchBirthSlot<T>(sigs: seq<Entry>, slot: int, create: Sig, maxPages: nat, maxTxs: nat,
                           fails: nat -> bool, txFails: Sig -> bool, tx: Sig -> Option<T>)
    returns (r: Result<BirthSlot<T>>)
    requires NewestFirst(sigs)
    ensures r.HydrationFailed? ==>
      (exists n: nat :: n < maxPages && fails(n)) || exists i :: SameSlot(sigs, slot, create, i) && txFails(sigs[i].sig)
    ensures r.Ok? ==>
      (r.value.isPartial <==> !GetsPast(sigs, slot, maxPages) || |SameSlots(sigs, slot, create)| > maxTxs)
    ensures r.Ok? ==>
      exists k: nat :: k <= |sigs| && var extra := Extras(sigs[..k], slot, create);
        r.value.txs == Present(if |extra| <= maxTxs then extra else extra[..maxTxs], tx)
    ensures r.Ok? && !r.value.isPartial ==> forall i :: SameSlot(sigs, slot, create, i) ==> !txFails(sigs[i].sig)
    ensures r.Ok? && !r.value.isPartial ==>
      forall i :: SameSlot(sigs, slot, create, i) && tx(sigs[i].sig).Some? ==> tx(sigs[i].sig).value in r.value.txs
    ensures r.Ok? ==>
      forall x :: x in r.value.txs ==> exists i :: SameSlot(sigs, slot, create, i) && tx(sigs[i].sig) == Some(x)
  {
    var walk := WalkSignatures(sigs, slot, create, maxPages, fails);
    if walk.HydrationFailed? {
      return HydrationFailed;
    }
    var (extra, reached) := walk.value;
    ghost var k: nat := if reached then |sigs| else maxPages * PAGE;
    assert sigs[..|sigs|] == sigs;
    var take := if |extra| <= maxTxs then extra else extra[..maxTxs];
    var failed, txs := FetchAll(take, txFails, tx);
    if failed.Some? {
      var i := TakenFrom(sigs, k, slot, create, extra, failed.value);
      return HydrationFailed;
    }
    r := Ok(BirthSlot(txs, !reached || |extra| > maxTxs));
    PartialIff(sigs, k, slot, create, reached, extra, maxTxs);
    if !r.value.isPartial {
      WholeSlotFetched(sigs, slot, create, take, txFails, tx);
    }
    OnlySlotFetched(sigs, k, slot, create, extra, take, tx);
  }

  /** One `getTransaction` per signature, up to the first that fails. */
  method FetchAll<T>(take: seq<Sig>, txFails: Sig -> bool, tx: Sig -> Option<T>)
    returns (failed: Option<Sig>, txs: seq<T>)
    ensures failed.Some? ==> failed.value in take && txFails(failed.value)
    ensures failed.None? ==> txs == Present(take, tx) && forall sig :: sig in take ==> !txFails(sig)
  {
    txs := [];
    for n := 0 to |take|
      invariant forall t :: 0 <= t < n ==> !txFails(take[t])
      invariant txs == Present(take[..n], tx)
    {
      assert take[..n + 1][..n] == take[..n];
      if txFails(take[n]) {
        return Some(take[n]), txs;
      }
      var t := tx(take[n]);
      if t.Some? {
        txs := txs + [t.value];
      }
    }
    assert take[..|take|] == take;
    failed := None;
  }

  lemma WholeSlotFetched<T>(sigs: seq<Entry>, slot: int, create: Sig, take: seq<Sig>, txFails: Sig -> bool,
                            tx: Sig -> Option<T>)
    requires take == Extras(sigs, slot, create) && forall sig :: sig in take ==> !txFails(sig)
    ensures forall i :: SameSlot(sigs, slot, create, i) ==> !txFails(sigs[i].sig)
    ensures forall i :: SameSlot(sigs, slot, create, i) && tx(sigs[i].sig).Some? ==>
      tx(sigs[i].sig).value in Present(take, tx)
  {
    forall i | SameSlot(sigs, slot, create, i)
      ensures !txFails(sigs[i].sig)
      ensures tx(sigs[i].sig).Some? ==> tx(sigs[i].sig).value in Present(take, tx)
    {
      ExtrasMembers(sigs, slot, create, sigs[i].sig);
      if tx(sigs[i].sig).Some? {
        PresentHas(take, tx, sigs[i].sig);
      }
    }
  }

  lemma OnlySlotFetched<T>(sigs: seq<Entry>, k: nat, slot: int, create: Sig, extra: seq<Sig>, take: seq<Sig>,
                           tx: Sig -> Option<T>)
    requires k <= |sigs| && extra == Extras(sigs[..k], slot, create) && take <= extra
    ensures forall x :: x in Present(take, tx) ==>
      exists i :: SameSlot(sigs, slot, create, i) && tx(sigs[i].sig) == Some(x)
  {
    forall x | x in Present(take, tx)
      ensures exists i :: SameSlot(sigs, slot, create, i) && tx(sigs[i].sig) == Some(x)
    {
      var sig := PresentFrom(take, tx, x);
      assert sig in extra;
      var i := TakenFrom(sigs, k, slot, create, extra, sig);
    }
  }

  lemma {:induction false} PresentHas<T>(sigs: seq<Sig>, tx: Sig -> Option<T>, sig: Sig)
    requires sig in sigs && tx(sig).Some?
    ensures tx(sig).value in Present(sigs, tx)
    decreases |sigs|
  {
    var n := |sigs| - 1;
    assert sigs == sigs[..n] + [sigs[n]];
    if sig in sigs[..n] {
      PresentHas(sigs[..n], tx, sig);
    }
  }

  lemma {:induction false} PresentFrom<T>(sigs: seq<Sig>, tx: Sig -> Option<T>, x: T) returns (sig: Sig)
    requires x in Present(sigs, tx)
    ensures sig in sigs && tx(sig) == Some(x)
    decreases |sigs|
  {
    var n := |sigs| - 1;
    assert sigs == sigs[..n] + [sigs[n]];
    if x in Present(sigs[..n], tx) {
      sig := PresentFrom(sigs[..n], tx, x);
    } else {
      sig := sigs[n];
    }
  }

  lemma TakenFrom(sigs: seq<Entry>, k: nat, slot: int, create: Sig, extra: seq<Sig>, sig: Sig) returns (i: int)
    requires k <= |sigs| && extra == Extras(sigs[..k], slot, create) && sig in extra
    ensures SameSlot(sigs, slot, create, i) && sigs[i].sig == sig
  {
    ExtrasMembers(sigs[..k], slot, create, sig);
    var e :| e in sigs[..k] && Wanted(e, slot, create) && e.sig == sig;
    i :| 0 <= i < k && sigs[..k][i] == e;
  }

  /** The flag is set exactly when the walk fell short or the slot holds more than the cap. */
  lemma PartialIff(sigs: seq<Entry>, k: nat, slot: int, create: Sig, reached: bool, extra: seq<Sig>, maxTxs: nat)
    requires k <= |sigs| && extra == Extras(sigs[..k], slot, create) && (reached ==> k == |sigs|)
    ensures !reached || |extra| > maxTxs <==> !reached || |SameSlots(sigs, slot, create)| > maxTxs
  {
    ExtrasCount(sigs, slot, create);
    if reached {
      assert sigs[..k] == sigs;
    }
  }
}
