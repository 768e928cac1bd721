/** Which coins go out and in which order, read off the boards, the observations and the history
    without the detector's own steps. */
module FeedSelection {
  import opened Feed

  // ---------------------------------------------------------------- the board

  /** Row `i` is a well-formed row of a mint that no earlier well-formed row has. */
  ghost predicate FirstOfMint(raw: seq<Option<Entry>>, i: int)
  {
    && 0 <= i < |raw| && raw[i].Some?
    && forall j :: 0 <= j < i && raw[j].Some? ==> raw[j].value.mint != raw[i].value.mint
  }

  ghost predicate ComesFrom(raw: seq<Option<Entry>>, e: Entry, i: int)
  {
    FirstOfMint(raw, i) && raw[i].value == e
  }

  ghost predicate Before(raw: seq<Option<Entry>>, d: Entry, e: Entry)
  {
    exists i, j :: 0 <= i < j < |raw| && ComesFrom(raw, d, i) && ComesFrom(raw, e, j)
  }

  lemma FirstOfMintGrows(raw: seq<Option<Entry>>, i: int)
    requires raw != [] && i < |raw| - 1
    ensures FirstOfMint(raw, i) <==> FirstOfMint(raw[..|raw| - 1], i)
  {
    var less := raw[..|raw| - 1];
    assert forall j :: 0 <= j < |less| ==> less[j] == raw[j];
  }

  /** The board keeps exactly the first row of each mint, in the order served. */
  lemma {:induction false} BoardKeepsFirsts(raw: seq<Option<Entry>>)
    ensures forall e :: e in FirstSeen(raw) <==> exists i :: ComesFrom(raw, e, i)
    ensures forall s, t :: 0 <= s < t < |FirstSeen(raw)| ==> Before(raw, FirstSeen(raw)[s], FirstSeen(raw)[t])
  {
    if raw != [] {
      var n, less, board := |raw| - 1, raw[..|raw| - 1], FirstSeen(raw);
      BoardKeepsFirsts(less);
      FirstSeenOnce(less);
      assert less == raw[..n];
      forall i | i < n
        ensures FirstOfMint(raw, i) <==> FirstOfMint(less, i)
      {
        FirstOfMintGrows(raw, i);
      }
      LastRowFirst(raw);
      forall e
        ensures e in board <==> exists i :: ComesFrom(raw, e, i)
      {
        if i :| ComesFrom(less, e, i) {
          assert ComesFrom(raw, e, i);
        }
        if FirstOfMint(raw, n) && raw[n].value == e {
          assert ComesFrom(raw, e, n);
        }
        if i :| ComesFrom(raw, e, i) {
          if i < n {
            assert ComesFrom(less, e, i);
          }
        }
      }
      forall s, t | 0 <= s < t < |board|
        ensures Before(raw, board[s], board[t])
      {
        if t < |FirstSeen(less)| {
          var i, j :| 0 <= i < j < |less| && ComesFrom(less, board[s], i) && ComesFrom(less, board[t], j);
          assert ComesFrom(raw, board[s], i) && ComesFrom(raw, board[t], j);
        } else {
          assert board[s] in FirstSeen(less);
          var i :| ComesFrom(less, board[s], i);
          assert ComesFrom(raw, board[s], i) && ComesFrom(raw, board[t], n);
        }
      }
    }
  }

  /** The last row is kept exactly when no earlier one has its mint. */
  lemma LastRowFirst(raw: seq<Option<Entry>>)
    requires raw != []
    ensures var n := |raw| - 1;
      FirstSeen(raw) == if FirstOfMint(raw, n) then FirstSeen(raw[..n]) + [raw[n].value] else FirstSeen(raw[..n])
  {
    var n, less := |raw| - 1, raw[..|raw| - 1];
    FirstSeenOnce(less);
    if raw[n].Some? && raw[n].value.mint in Mints(FirstSeen(less)) {
      var e :| e in FirstSeen(less) && e.mint == raw[n].value.mint;
      assert Some(e) in less;
      var j :| 0 <= j < n && less[j] == Some(e);
      assert raw[j] == Some(e);
    } else if raw[n].Some? {
      forall j | 0 <= j < n && raw[j].Some?
        ensures raw[j].value.mint != raw[n].value.mint
      {
        assert less[j] == raw[j] && raw[j] in less;
      }
    }
  }

  // ---------------------------------------------------------------- the top five

  /** How many rows outrank a row of volume `v` that has `before` rows before it: those of larger
      volume, and of equal volume the earlier ones. */
  ghost function Outranking(entries: seq<Entry>, v: real, before: nat): nat
  {
    if entries == [] then 0
    else
      (if entries[0].v5.Some? && (entries[0].v5.value > v || (entries[0].v5.value == v && before > 0)) then 1 else 0) +
      Outranking(entries[1..], v, if before > 0 then before - 1 else 0)
  }

  /** Row `i` has a volume, and fewer than five rows outrank it. */
  ghost predicate AmongFive(entries: seq<Entry>, i: nat)
  {
    i < |entries| && entries[i].v5.Some? && Outranking(entries, entries[i].v5.value, i) < 5
  }

  ghost predicate InTopFive(entries: seq<Entry>, mint: Mint)
  {
    exists i: nat :: AmongFive(entries, i) && entries[i].mint == mint
  }

  /** How many ranked rows have more volume than `v`. */
  ghost function Over(r: seq<Scored>, v: real): (n: nat)
    ensures n <= |r|
  {
    if r == [] then 0 else (if r[0].v5 > v then 1 else 0) + Over(r[1..], v)
  }

  lemma {:induction false} NoneOver(r: seq<Scored>, v: real)
    requires forall i :: 0 <= i < |r| ==> r[i].v5 <= v
    ensures Over(r, v) == 0
    decreases |r|
  {
    if r != [] {
      NoneOver(r[1..], v);
    }
  }

  /** In a descending ranking those with more volume come first. */
  lemma {:induction false} OverIsPrefix(r: seq<Scored>, v: real, p: nat)
    requires Descending(r) && p < |r|
    ensures p < Over(r, v) <==> r[p].v5 > v
    decreases |r|
  {
    if r[0].v5 > v {
      if p > 0 {
        OverIsPrefix(r[1..], v, p - 1);
      }
    } else {
      NoneOver(r[1..], v);
    }
  }

  lemma {:induction false} InsertAt(e: Scored, r: seq<Scored>)
    requires Descending(r)
    ensures Insert(e, r) == r[..Over(r, e.v5)] + [e] + r[Over(r, e.v5)..]
    decreases |r|
  {
    if r == [] || r[0].v5 <= e.v5 {
      NoneOver(r, e.v5);
      assert r[..0] + [e] + r[0..] == [e] + r;
    } else {
      InsertAt(e, r[1..]);
      var k := Over(r[1..], e.v5);
      assert r[..k + 1] == [r[0]] + r[1..][..k] && r[k + 1..] == r[1..][k..];
    }
  }

  lemma {:induction false} OverInsert(e: Scored, r: seq<Scored>, v: real)
    ensures Over(Insert(e, r), v) == Over(r, v) + if e.v5 > v then 1 else 0
    decreases |r|
  {
    if r == [] || r[0].v5 <= e.v5 {
      assert ([e] + r)[1..] == r;
    } else {
      OverInsert(e, r[1..], v);
      assert ([r[0]] + Insert(e, r[1..]))[1..] == Insert(e, r[1..]);
    }
  }

  lemma {:induction false} OverRanked(entries: seq<Entry>, v: real)
    ensures Over(Ranked(entries), v) == Outranking(entries, v, 0)
    decreases |entries|
  {
    if entries != [] {
      OverRanked(entries[1..], v);
      if entries[0].v5.Some? {
        OverInsert(Scored(entries[0].mint, entries[0].v5.value), Ranked(entries[1..]), v);
      }
    }
  }

  /** Inserting moves down what the new row outranks. */
  lemma InsertMoves(e: Scored, r: seq<Scored>, p: nat)
    requires Descending(r) && p < |r|
    ensures var k, q, all := Over(r, e.v5), if r[p].v5 > e.v5 then p else p + 1, Insert(e, r);
      k <= |r| && |all| == |r| + 1 && all[k] == e && all[q] == r[p]
  {
    InsertAt(e, r);
    OverIsPrefix(r, e.v5, p);
  }

  ghost predicate HasPlace(entries: seq<Entry>, mint: Mint, v: real, before: nat)
  {
    var ranked, place := Ranked(entries), Outranking(entries, v, before);
    place < |ranked| && ranked[place] == Scored(mint, v)
  }

  lemma FirstHasPlace(entries: seq<Entry>)
    requires entries != [] && entries[0].v5.Some?
    ensures HasPlace(entries, entries[0].mint, entries[0].v5.value, 0)
  {
    var e := Scored(entries[0].mint, entries[0].v5.value);
    RankedIsStableSort(entries[1..], 0.0);
    InsertAt(e, Ranked(entries[1..]));
    OverRanked(entries[1..], e.v5);
  }

  lemma LaterHasPlace(entries: seq<Entry>, mint: Mint, v: real, before: nat)
    requires entries != [] && before > 0 && HasPlace(entries[1..], mint, v, before - 1)
    ensures HasPlace(entries, mint, v, before)
  {
    if entries[0].v5.Some? {
      RankedIsStableSort(entries[1..], 0.0);
      InsertMoves(Scored(entries[0].mint, entries[0].v5.value), Ranked(entries[1..]),
                  Outranking(entries[1..], v, before - 1));
    }
  }

  /** A row's place in the ranking is the number of rows that outrank it. */
  lemma {:induction false} PlaceOfRow(entries: seq<Entry>, i: nat)
    requires i < |entries| && entries[i].v5.Some?
    ensures HasPlace(entries, entries[i].mint, entries[i].v5.value, i)
    decreases |entries|
  {
    if i == 0 {
      FirstHasPlace(entries);
    } else {
      PlaceOfRow(entries[1..], i - 1);
      LaterHasPlace(entries, entries[i].mint, entries[i].v5.value, i);
    }
  }

  /** Every place of the ranking is that of some row. */
  lemma {:induction false} RowOfPlace(entries: seq<Entry>, p: nat) returns (i: nat)
    requires p < |Ranked(entries)|
    ensures i < |entries| && entries[i].v5.Some? && Outranking(entries, entries[i].v5.value, i) == p
    decreases |entries|
  {
    var rest := entries[1..];
    if entries[0].v5.None? {
      i := RowOfPlace(rest, p);
      i := i + 1;
    } else {
      var e := Scored(entries[0].mint, entries[0].v5.value);
      RankedIsStableSort(rest, 0.0);
      InsertAt(e, Ranked(rest));
      OverRanked(rest, e.v5);
      var k := Over(Ranked(rest), e.v5);
      if p == k {
        i := 0;
      } else {
        var p' := if p < k then p else p - 1;
        i := RowOfPlace(rest, p');
        PlaceOfRow(rest, i);
        OverIsPrefix(Ranked(rest), e.v5, p');
        i := i + 1;
      }
    }
  }

  lemma TopFiveIff(entries: seq<Entry>, mint: Mint)
    ensures mint in Top5(Ranked(entries)) <==> InTopFive(entries, mint)
  {
    var ranked := Ranked(entries);
    if mint in Top5(ranked) {
      var p :| 0 <= p < |ranked| && p < 5 && ranked[p].mint == mint;
      var i := RowOfPlace(entries, p);
      PlaceOfRow(entries, i);
      assert AmongFive(entries, i);
    }
    if i: nat :| AmongFive(entries, i) && entries[i].mint == mint {
      PlaceOfRow(entries, i);
      var p := Outranking(entries, entries[i].v5.value, i);
      assert ranked[p].mint == mint;
    }
  }

  // ---------------------------------------------------------------- who qualifies

  /** The previous volume was positive, and the new one is large enough by itself and against it. */
  ghost predicate SpeedsUp(th: Thresholds, before: Option<real>, v5: real)
  {
    before.Some? && before.value > 0.0 && v5 >= th.minV5 && v5 >= th.accelRatio * before.value
  }

  ghost predicate AlertedSince(rows: seq<Row>, mint: Mint, t: Time)
  {
    exists i :: 0 <= i < |rows| && rows[i].alert.mint == mint && rows[i].at >= t
  }

  /** What an alert says, when it may go out: the board lists the coin at that volume, it was seen
      recently enough and not alerted within the cooldown, and either it speeds up or, failing
      that, it has just come into the top five with volume enough. */
  ghost predicate Qualifies(th: Thresholds, obs: Observations, rows: seq<Row>, entries: seq<Entry>, now: Time, a: Alert)
  {
    && Entry(a.mint, Some(a.v5)) in entries
    && a.mint in obs && obs[a.mint].seenAt >= now - th.prevMaxAge && a.prevV5 == obs[a.mint].v5
    && !AlertedSince(rows, a.mint, now - th.cooldown)
    && if SpeedsUp(th, obs[a.mint].v5, a.v5) then a.reason == Accel
       else a.reason == Top5Entry && InTopFive(entries, a.mint) && !obs[a.mint].inTop5 && a.v5 >= th.top5MinV5
  }

  lemma CoolingIff(rows: seq<Row>, mint: Mint, now: Time, cooldown: Time)
    ensures Cooling(rows, mint, now, cooldown) <==> AlertedSince(rows, mint, now - cooldown)
  {
    var of := OfMint(rows, mint);
    if Cooling(rows, mint, now, cooldown) {
      var row :| row in of && row.at == Latest(of).value;
      assert row in rows;
    }
    if i :| 0 <= i < |rows| && rows[i].alert.mint == mint && rows[i].at >= now - cooldown {
      assert rows[i] in of;
    }
  }

  ghost predicate Earns(th: Thresholds, obs: Observations, rows: seq<Row>, top5: set<Mint>, ranked: seq<Scored>,
                        now: Time, a: Alert, p: nat)
  {
    p < |ranked| && Earned(th, obs, rows, top5, ranked[p], now) == Some(a)
  }

  lemma {:induction false} CandidatesEarn(th: Thresholds, obs: Observations, rows: seq<Row>, top5: set<Mint>,
                                          ranked: seq<Scored>, now: Time, a: Alert)
    ensures a in Candidates(th, obs, rows, top5, ranked, now) <==>
      exists p: nat :: Earns(th, obs, rows, top5, ranked, now, a, p)
    decreases |ranked|
  {
    if ranked != [] {
      var n, less := |ranked| - 1, ranked[..|ranked| - 1];
      CandidatesEarn(th, obs, rows, top5, less, now, a);
      if p: nat :| Earns(th, obs, rows, top5, less, now, a, p) {
        assert Earns(th, obs, rows, top5, ranked, now, a, p);
      }
      if Earned(th, obs, rows, top5, ranked[n], now) == Some(a) {
        assert Earns(th, obs, rows, top5, ranked, now, a, n);
      }
      if p: nat :| Earns(th, obs, rows, top5, ranked, now, a, p) {
        if p < n {
          assert Earns(th, obs, rows, top5, less, now, a, p);
        }
      }
    }
  }

  ghost predicate RankedBefore(ranked: seq<Scored>, a: Alert, b: Alert)
  {
    exists p, q :: 0 <= p < q < |ranked| && ranked[p] == Scored(a.mint, a.v5) && ranked[q] == Scored(b.mint, b.v5)
  }

  ghost predicate InRankOrder(ranked: seq<Scored>, alerts: seq<Alert>)
  {
    forall i, j :: 0 <= i < j < |alerts| ==> RankedBefore(ranked, alerts[i], alerts[j])
  }

  lemma RankedBeforeGrows(less: seq<Scored>, x: Scored, a: Alert, b: Alert)
    ensures RankedBefore(less, a, b) ==> RankedBefore(less + [x], a, b)
    ensures x == Scored(b.mint, b.v5) && Scored(a.mint, a.v5) in less ==> RankedBefore(less + [x], a, b)
  {
    var all := less + [x];
    assert forall p :: 0 <= p < |less| ==> all[p] == less[p];
    assert all[|less|] == x;
  }

  lemma {:induction false} CandidatesOrdered(th: Thresholds, obs: Observations, rows: seq<Row>, top5: set<Mint>,
                                             ranked: seq<Scored>, now: Time)
    ensures InRankOrder(ranked, Candidates(th, obs, rows, top5, ranked, now))
    decreases |ranked|
  {
    if ranked != [] {
      var n, less := |ranked| - 1, ranked[..|ranked| - 1];
      CandidatesOrdered(th, obs, rows, top5, less, now);
      var c, before := Candidates(th, obs, rows, top5, ranked, now), Candidates(th, obs, rows, top5, less, now);
      assert ranked == less + [ranked[n]];
      forall i, j | 0 <= i < j < |c|
        ensures RankedBefore(ranked, c[i], c[j])
      {
        assert c[i] == before[i] && before[i] in before;
        CandidatesEarn(th, obs, rows, top5, less, now, c[i]);
        RankedBeforeGrows(less, ranked[n], c[i], c[j]);
        if j < |before| {
          assert RankedBefore(less, before[i], before[j]);
        } else {
          var p: nat :| Earns(th, obs, rows, top5, less, now, c[i], p);
          assert less[p] == Scored(c[i].mint, c[i].v5);
        }
      }
    }
  }

  lemma WhyIff(th: Thresholds, o: Obs, top5: set<Mint>, e: Scored, reason: Reason)
    ensures Why(th, Some(o), top5, e) == Some(reason) <==>
      if SpeedsUp(th, o.v5, e.v5) then reason == Accel
      else reason == Top5Entry && e.mint in top5 && !o.inTop5 && e.v5 >= th.top5MinV5
  {
  }

  lemma EarnedIff(th: Thresholds, obs: Observations, rows: seq<Row>, entries: seq<Entry>, e: Scored, now: Time,
                  a: Alert)
    requires Entry(e.mint, Some(e.v5)) in entries
    ensures Earned(th, obs, rows, Top5(Ranked(entries)), e, now) == Some(a) <==>
      e == Scored(a.mint, a.v5) && Qualifies(th, obs, rows, entries, now, a)
  {
    CoolingIff(rows, e.mint, now, th.cooldown);
    TopFiveIff(entries, e.mint);
    if e.mint in obs {
      WhyIff(th, obs[e.mint], Top5(Ranked(entries)), e, a.reason);
    }
  }

  /** The detector proposes exactly the alerts that qualify. */
  lemma QualifiersIff(th: Thresholds, obs: Observations, rows: seq<Row>, entries: seq<Entry>, now: Time, a: Alert)
    ensures a in Qualifiers(th, obs, rows, entries, now) <==> Qualifies(th, obs, rows, entries, now, a)
  {
    var ranked, top5, e := Ranked(entries), Top5(Ranked(entries)), Scored(a.mint, a.v5);
    RankedIsStableSort(entries, 0.0);
    CandidatesEarn(th, obs, rows, top5, ranked, now, a);
    if p: nat :| Earns(th, obs, rows, top5, ranked, now, a, p) {
      assert ranked[p] in ranked;
      EarnedIff(th, obs, rows, entries, ranked[p], now, a);
    }
    if Qualifies(th, obs, rows, entries, now, a) {
      assert e in ranked;
      var p: nat :| p < |ranked| && ranked[p] == e;
      EarnedIff(th, obs, rows, entries, e, now, a);
      assert Earns(th, obs, rows, top5, ranked, now, a, p);
    }
  }

  /** It proposes them in the order of the ranking, so what a cap drops has the least volume. */
  lemma QualifiersOrdered(th: Thresholds, obs: Observations, rows: seq<Row>, entries: seq<Entry>, now: Time)
    ensures var q := Qualifiers(th, obs, rows, entries, now);
      InRankOrder(Ranked(entries), q) && forall i, j :: 0 <= i < j < |q| ==> q[i].v5 >= q[j].v5
  {
    var q, ranked := Qualifiers(th, obs, rows, entries, now), Ranked(entries);
    RankedIsStableSort(entries, 0.0);
    CandidatesOrdered(th, obs, rows, Top5(ranked), ranked, now);
    forall i, j | 0 <= i < j < |q|
      ensures q[i].v5 >= q[j].v5
    {
      assert RankedBefore(ranked, q[i], q[j]);
    }
  }

  // ---------------------------------------------------------------- what the detector remembers

  ghost predicate ListedIn(raw: Option<seq<Option<Entry>>>, mint: Mint, v5: Option<real>)
  {
    raw.Some? && exists i :: ComesFrom(raw.value, Entry(mint, v5), i)
  }

  ghost predicate OnBoard(raw: Option<seq<Option<Entry>>>, mint: Mint)
  {
    exists v5 :: ListedIn(raw, mint, v5)
  }

  ghost predicate Listed(events: seq<Poll>, mint: Mint, k: nat)
  {
    k < |events| && OnBoard(events[k].raw, mint)
  }

  /** Poll `k` is the last whose board lists the coin. */
  ghost predicate LastListed(events: seq<Poll>, mint: Mint, k: nat)
  {
    Listed(events, mint, k) && forall j: nat :: k < j < |events| ==> !Listed(events, mint, j)
  }

  /** No pruning since poll `k` came after the retention of what it saw. */
  ghost predicate KeptSince(events: seq<Poll>, k: nat)
  {
    k < |events| &&
    forall j: nat :: k <= j < |events| && events[j].pruned ==> events[k].now >= events[j].now - KEEP_OBSERVATION
  }

  /** What poll `k` showed of the coin. */
  ghost predicate SeenAs(e: Poll, mint: Mint, o: Obs)
  {
    && ListedIn(e.raw, mint, o.v5) && o.seenAt == e.now
    && (o.inTop5 <==> InTopFive(FirstSeen(e.raw.value), mint))
  }

  lemma {:induction false} UpsertedRow(obs: Observations, entries: seq<Entry>, top5: set<Mint>, now: Time, mint: Mint)
    requires Distinct(entries)
    ensures var after := Upserted(obs, entries, top5, now);
      && (forall v5 :: Entry(mint, v5) in entries ==> mint in after && after[mint] == Obs(v5, now, mint in top5))
      && ((forall v5 :: Entry(mint, v5) !in entries) ==>
          (mint in after <==> mint in obs) && (mint in obs ==> after[mint] == obs[mint]))
    decreases |entries|
  {
    if entries != [] {
      var n := |entries| - 1;
      UpsertedRow(obs, entries[..n], top5, now, mint);
      assert entries == entries[..n] + [entries[n]];
      var last := entries[n];
      assert last == Entry(last.mint, last.v5);
      assert forall e :: e in entries[..n] ==> e.mint != last.mint;
    }
  }

  lemma BoardRow(raw: seq<Option<Entry>>, mint: Mint, v5: Option<real>)
    ensures Entry(mint, v5) in FirstSeen(raw) <==> ListedIn(Some(raw), mint, v5)
  {
    BoardKeepsFirsts(raw);
  }

  /** One poll: the coin's row is what the poll showed, or is left alone. */
  lemma PolledRow(cfg: ValidConfig, s: State, e: Poll, mint: Mint)
    ensures OnBoard(e.raw, mint) ==>
      mint in Polled(cfg, s, e).obs && SeenAs(e, mint, Polled(cfg, s, e).obs[mint])
    ensures !OnBoard(e.raw, mint) ==>
      (mint in Polled(cfg, s, e).obs <==> mint in s.obs) &&
      (mint in s.obs ==> Polled(cfg, s, e).obs[mint] == s.obs[mint])
  {
    if e.raw.Some? {
      var entries := FirstSeen(e.raw.value);
      FirstSeenOnce(e.raw.value);
      UpsertedRow(s.obs, entries, Top5(Ranked(entries)), e.now, mint);
      if v5 :| ListedIn(e.raw, mint, v5) {
        BoardRow(e.raw.value, mint, v5);
        TopFiveIff(entries, mint);
      } else {
        forall v5
          ensures Entry(mint, v5) !in entries
        {
          BoardRow(e.raw.value, mint, v5);
        }
      }
    }
  }

  lemma LastListedGrows(events: seq<Poll>, mint: Mint, k: nat)
    requires events != []
    ensures LastListed(events, mint, k) <==>
      if Listed(events, mint, |events| - 1) then k == |events| - 1 else LastListed(events[..|events| - 1], mint, k)
  {
    var n := |events| - 1;
    assert forall j: nat :: j < n ==> Listed(events, mint, j) == Listed(events[..n], mint, j);
  }

  lemma KeptSinceGrows(events: seq<Poll>, k: nat)
    requires k < |events| - 1
    ensures var last := events[|events| - 1];
      KeptSince(events, k) <==>
      KeptSince(events[..|events| - 1], k) && (last.pruned ==> events[k].now >= last.now - KEEP_OBSERVATION)
  {
    var n := |events| - 1;
    assert forall j: nat :: j < n ==> events[..n][j] == events[j];
  }

  ghost predicate Remembers(events: seq<Poll>, mint: Mint, k: nat)
  {
    LastListed(events, mint, k) && KeptSince(events, k)
  }

  lemma LastListedUnique(events: seq<Poll>, mint: Mint, j: nat, k: nat)
    requires LastListed(events, mint, j) && LastListed(events, mint, k)
    ensures j == k
  {
  }

  ghost predicate RemembersAs(events: seq<Poll>, mint: Mint, k: nat, o: Obs)
  {
    Remembers(events, mint, k) && SeenAs(events[k], mint, o)
  }

  ghost predicate Told(events: seq<Poll>, mint: Mint, obs: Observations)
  {
    && (mint in obs ==> exists k: nat :: RemembersAs(events, mint, k, obs[mint]))
    && (mint !in obs ==> forall k: nat :: !Remembers(events, mint, k))
  }

  lemma ToldStep(events: seq<Poll>, mint: Mint, before: Observations, polled: Observations, after: Observations)
    requires events != [] && Told(events[..|events| - 1], mint, before)
    requires var e := events[|events| - 1];
      if OnBoard(e.raw, mint) then mint in polled && SeenAs(e, mint, polled[mint])
      else (mint in polled <==> mint in before) && (mint in before ==> polled[mint] == before[mint])
    requires var e := events[|events| - 1];
      && (mint in after <==> mint in polled && (e.pruned ==> polled[mint].seenAt >= e.now - KEEP_OBSERVATION))
      && (mint in after ==> after[mint] == polled[mint])
    ensures Told(events, mint, after)
  {
    var n, less := |events| - 1, events[..|events| - 1];
    if Listed(events, mint, n) {
      LastListedGrows(events, mint, n);
      assert RemembersAs(events, mint, n, after[mint]);
    } else if mint in before {
      var k: nat :| RemembersAs(less, mint, k, before[mint]);
      LastListedGrows(events, mint, k);
      KeptSinceGrows(events, k);
      assert events[k] == less[k];
      assert mint in after ==> RemembersAs(events, mint, k, after[mint]);
      forall j: nat | mint !in after
        ensures !Remembers(events, mint, j)
      {
        LastListedGrows(events, mint, j);
        if Remembers(events, mint, j) {
          LastListedUnique(less, mint, j, k);
        }
      }
    } else {
      forall j: nat
        ensures !Remembers(events, mint, j)
      {
        LastListedGrows(events, mint, j);
        assert !Remembers(less, mint, j);
        if j < n {
          KeptSinceGrows(events, j);
        }
      }
    }
  }

  lemma {:induction false} RunTold(cfg: ValidConfig, events: seq<Poll>, mint: Mint)
    ensures Told(events, mint, Run(cfg, events).obs)
    decreases |events|
  {
    if events != [] {
      var n := |events| - 1;
      RunTold(cfg, events[..n], mint);
      PolledRow(cfg, Run(cfg, events[..n]), events[n], mint);
      ToldStep(events, mint, Run(cfg, events[..n]).obs, Polled(cfg, Run(cfg, events[..n]), events[n]).obs,
               Run(cfg, events).obs);
    }
  }

  /** In every run the detector remembers a coin exactly when no pruning has dropped the last
      poll that listed it, and what it remembers is what that poll showed: the volume of the
      first row of the coin, the moment, and whether fewer than five rows outranked it. */
  lemma ObservationsTell(cfg: ValidConfig, events: seq<Poll>, mint: Mint)
    ensures mint in Run(cfg, events).obs <==> exists k: nat :: Remembers(events, mint, k)
    ensures forall k: nat :: Remembers(events, mint, k) ==>
      mint in Run(cfg, events).obs && SeenAs(events[k], mint, Run(cfg, events).obs[mint])
  {
    RunTold(cfg, events, mint);
    forall k: nat, j: nat | Remembers(events, mint, k) && Remembers(events, mint, j)
      ensures k == j
    {
      LastListedUnique(events, mint, k, j);
    }
  }

  /** The detector's case for an alert, told of the polls: poll `k` is the one it remembers. */
  ghost predicate QualifiesSince(cfg: ValidConfig, events: seq<Poll>, rows: seq<Row>, board: seq<Option<Entry>>,
                                 now: Time, a: Alert, k: nat)
  {
    && Remembers(events, a.mint, k) && events[k].now >= now - cfg.prevMaxAge
    && ListedIn(events[k].raw, a.mint, a.prevV5)
    && ListedIn(Some(board), a.mint, Some(a.v5)) && !AlertedSince(rows, a.mint, now - cfg.cooldownHours * 3600.0)
    && if a.prevV5.Some? && a.prevV5.value > 0.0 && a.v5 >= cfg.minV5 && a.v5 >= cfg.accelRatio * a.prevV5.value then
         a.reason == Accel
       else
         && a.reason == Top5Entry && a.v5 >= cfg.top5MinV5
         && InTopFive(FirstSeen(board), a.mint) && !InTopFive(FirstSeen(events[k].raw.value), a.mint)
  }

  lemma CaseAt(cfg: ValidConfig, events: seq<Poll>, s: State, board: seq<Option<Entry>>, now: Time, a: Alert, k: nat)
    requires Remembers(events, a.mint, k) && a.mint in s.obs && SeenAs(events[k], a.mint, s.obs[a.mint])
    ensures Qualifies(cfg.Limit(), s.obs, s.rows, FirstSeen(board), now, a) <==>
      QualifiesSince(cfg, events, s.rows, board, now, a, k)
  {
    BoardRow(board, a.mint, Some(a.v5));
    if ListedIn(events[k].raw, a.mint, a.prevV5) {
      OneVolume(events[k].raw, a.mint, s.obs[a.mint].v5, a.prevV5);
    }
  }

  /** In every run the alerts proposed on the next board are exactly those whose case the polls
      make: against the last poll that listed the coin, if it is recent enough and not pruned. */
  lemma RunQualifiesIff(cfg: ValidConfig, events: seq<Poll>, board: seq<Option<Entry>>, now: Time, a: Alert)
    ensures var s := Run(cfg, events);
      a in Qualifiers(cfg.Limit(), s.obs, s.rows, FirstSeen(board), now) <==>
      exists k: nat :: QualifiesSince(cfg, events, s.rows, board, now, a, k)
  {
    var s := Run(cfg, events);
    QualifiersIff(cfg.Limit(), s.obs, s.rows, FirstSeen(board), now, a);
    ObservationsTell(cfg, events, a.mint);
    forall k: nat | Remembers(events, a.mint, k)
      ensures Qualifies(cfg.Limit(), s.obs, s.rows, FirstSeen(board), now, a) <==>
        QualifiesSince(cfg, events, s.rows, board, now, a, k)
    {
      CaseAt(cfg, events, s, board, now, a, k);
    }
  }

  /** A board lists a coin at one volume. */
  lemma OneVolume(raw: Option<seq<Option<Entry>>>, mint: Mint, v: Option<real>, w: Option<real>)
    requires ListedIn(raw, mint, v) && ListedIn(raw, mint, w)
    ensures v == w
  {
    var i :| ComesFrom(raw.value, Entry(mint, v), i);
    var j :| ComesFrom(raw.value, Entry(mint, w), j);
    assert i == j;
  }

  // ---------------------------------------------------------------- how many, and in which order

  /** The cap of an hour: full montages at the window rate, rounded up, and one more. */
  lemma HourlyCap(cfg: ValidConfig) returns (perHour: int)
    ensures cfg.Limit().maxPerHour == cfg.montageMax * (perHour + 1)
    ensures perHour as real >= 60.0 / cfg.windowMinutes > perHour as real - 1.0
  {
    perHour := Ceil(60.0 / cfg.windowMinutes);
  }

  lemma HeldIff(rows: seq<Row>, now: Time, window: Time)
    ensures Held(rows, now, window) <==> exists i :: 0 <= i < |rows| && now - rows[i].at < window
  {
    if Held(rows, now, window) {
      var row :| row in rows && row.at == Latest(rows).value;
    }
    if i :| 0 <= i < |rows| && now - rows[i].at < window {
      assert rows[i] in rows;
    }
  }

  ghost predicate Follows(alerts: seq<Alert>, a: Alert, b: Alert)
  {
    exists p, q :: 0 <= p < q < |alerts| && alerts[p] == a && alerts[q] == b
  }

  ghost predicate KeepsOrder(alerts: seq<Alert>, r: seq<Alert>)
  {
    forall i, j :: 0 <= i < j < |r| ==> Follows(alerts, r[i], r[j])
  }

  lemma {:induction false} WithChartKeepsOrder(alerts: seq<Alert>, charted: set<Mint>, wanted: bool)
    ensures KeepsOrder(alerts, WithChart(alerts, charted, wanted))
    decreases |alerts|
  {
    if alerts != [] {
      var n, r := |alerts| - 1, WithChart(alerts, charted, wanted);
      WithChartKeepsOrder(alerts[..n], charted, wanted);
      var less := WithChart(alerts[..n], charted, wanted);
      forall i, j | 0 <= i < j < |r|
        ensures Follows(alerts, r[i], r[j])
      {
        assert r[i] == less[i] && less[i] in less;
        if j < |less| {
          assert Follows(alerts[..n], less[i], less[j]);
          var p, q :| 0 <= p < q < n && alerts[..n][p] == less[i] && alerts[..n][q] == less[j];
          assert alerts[p] == r[i] && alerts[q] == r[j];
        } else {
          var p :| 0 <= p < n && alerts[..n][p] == less[i];
          assert alerts[p] == r[i] && alerts[n] == r[j];
        }
      }
    }
  }

  /** A montage shows the charted coins first, and keeps the order of the batch among them and
      among the others. */
  lemma ChartedFirst(alerts: seq<Alert>, charted: set<Mint>, i: nat, j: nat)
    requires i < j < |Arranged(alerts, charted)|
    ensures var a, b := Arranged(alerts, charted)[i], Arranged(alerts, charted)[j];
      && (b.mint in charted ==> a.mint in charted)
      && ((a.mint in charted <==> b.mint in charted) ==> Follows(alerts, a, b))
  {
    var w, o := WithChart(alerts, charted, true), WithChart(alerts, charted, false);
    WithChartKeepsOrder(alerts, charted, true);
    WithChartKeepsOrder(alerts, charted, false);
    assert forall k :: 0 <= k < |w| ==> w[k] in w;
    assert forall k :: 0 <= k < |o| ==> o[k] in o;
    if j < |w| {
      assert Follows(alerts, w[i], w[j]);
    } else if i >= |w| {
      assert Follows(alerts, o[i - |w|], o[j - |w|]);
    }
  }
}
