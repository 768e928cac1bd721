/** Birth-slot features: netted token-account legs, the birth legs, and the sniper set. */
module Features {
  import opened Vectors
  import opened Ledger

  datatype Balance = Balance(index: nat, mint: Mint, owner: Option<Wallet>, amount: int, decimals: nat)

  datatype Tx = Tx(ok: bool, pre: seq<Balance>, post: seq<Balance>)

  datatype Leg = Leg(owner: Wallet, delta: int, decimals: nat)

  const PUMP_SUPPLY_RAW := 1_000_000_000_000_000
  const PUMP_DECIMALS := 6

  // ---------------------------------------------------------------- balances by account

  /** `{b["accountIndex"]: b for b in balances if b["mint"] == mint}`: the last entry wins. */
  function ByIndex(bs: seq<Balance>, mint: Mint): map<nat, Balance>
  {
    if bs == [] then map[]
    else
      var n := |bs| - 1;
      var less := ByIndex(bs[..n], mint);
      if bs[n].mint == mint then less[bs[n].index := bs[n]] else less
  }

  /** The keys of that dictionary in insertion order. */
  function Keys(bs: seq<Balance>, mint: Mint): seq<nat>
  {
    if bs == [] then []
    else
      var n := |bs| - 1;
      var less := Keys(bs[..n], mint);
      if bs[n].mint == mint && bs[n].index !in less then less + [bs[n].index] else less
  }

  lemma {:induction false} KeysAreDomain(bs: seq<Balance>, mint: Mint)
    ensures forall k :: k in Keys(bs, mint) <==> k in ByIndex(bs, mint)
    ensures forall s, t :: 0 <= s < t < |Keys(bs, mint)| ==> Keys(bs, mint)[s] != Keys(bs, mint)[t]
  {
    if bs != [] {
      KeysAreDomain(bs[..|bs| - 1], mint);
    }
  }

  // ---------------------------------------------------------------- legs

  /** The leg of an account present after the transaction, if it moved and has an owner. */
  function PostLeg(pre: map<nat, Balance>, post: map<nat, Balance>, k: nat): seq<Leg>
    requires k in post
  {
    var before := if k in pre then pre[k].amount else 0;
    if post[k].owner.None? || post[k].amount == before then []
    else [Leg(post[k].owner.value, post[k].amount - before, post[k].decimals)]
  }

  /** The leg of an account that vanished. */
  function PreLeg(pre: map<nat, Balance>, post: map<nat, Balance>, k: nat): seq<Leg>
    requires k in pre
  {
    if k in post || pre[k].owner.None? || pre[k].amount == 0 then []
    else [Leg(pre[k].owner.value, -pre[k].amount, pre[k].decimals)]
  }

  function PostLegs(pre: map<nat, Balance>, post: map<nat, Balance>, keys: seq<nat>): seq<Leg>
    requires forall k :: k in keys ==> k in post
  {
    if keys == [] then []
    else PostLegs(pre, post, keys[..|keys| - 1]) + PostLeg(pre, post, keys[|keys| - 1])
  }

  function PreLegs(pre: map<nat, Balance>, post: map<nat, Balance>, keys: seq<nat>): seq<Leg>
    requires forall k :: k in keys ==> k in pre
  {
    if keys == [] then []
    else PreLegs(pre, post, keys[..|keys| - 1]) + PreLeg(pre, post, keys[|keys| - 1])
  }

  function Legs(tx: Tx, mint: Mint): seq<Leg>
  {
    KeysAreDomain(tx.pre, mint);
    KeysAreDomain(tx.post, mint);
    var pre, post := ByIndex(tx.pre, mint), ByIndex(tx.post, mint);
    PostLegs(pre, post, Keys(tx.post, mint)) + PreLegs(pre, post, Keys(tx.pre, mint))
  }

  method CollectPost(pre: map<nat, Balance>, post: map<nat, Balance>, keys: seq<nat>) returns (legs: seq<Leg>)
    requires forall k :: k in keys ==> k in post
    ensures legs == PostLegs(pre, post, keys)
  {
    legs := [];
    for t := 0 to |keys|
      invariant legs == PostLegs(pre, post, keys[..t])
    {
      var k := keys[t];
      assert keys[..t + 1][..t] == keys[..t] && legs + [] == legs;
      if post[k].owner.Some? {
        var delta := post[k].amount - if k in pre then pre[k].amount else 0;
        if delta != 0 {
          legs := legs + [Leg(post[k].owner.value, delta, post[k].decimals)];
        }
      }
    }
    assert keys[..|keys|] == keys;
  }

  method CollectPre(pre: map<nat, Balance>, post: map<nat, Balance>, keys: seq<nat>) returns (legs: seq<Leg>)
    requires forall k :: k in keys ==> k in pre
    ensures legs == PreLegs(pre, post, keys)
  {
    legs := [];
    for t := 0 to |keys|
      invariant legs == PreLegs(pre, post, keys[..t])
    {
      var k := keys[t];
      assert keys[..t + 1][..t] == keys[..t];
      if k !in post && pre[k].owner.Some? && pre[k].amount != 0 {
        legs := legs + [Leg(pre[k].owner.value, -pre[k].amount, pre[k].decimals)];
      }
    }
    assert keys[..|keys|] == keys;
  }

  /** `mint_legs`: accounts present afterwards first, vanished accounts negated after them. */
  method MintLegs(tx: Tx, mint: Mint) returns (legs: seq<Leg>)
    ensures legs == Legs(tx, mint)
  {
    KeysAreDomain(tx.pre, mint);
    KeysAreDomain(tx.post, mint);
    var pre, post := ByIndex(tx.pre, mint), ByIndex(tx.post, mint);
    var first := CollectPost(pre, post, Keys(tx.post, mint));
    var second := CollectPre(pre, post, Keys(tx.pre, mint));
    legs := first + second;
  }

  // ---------------------------------------------------------------- conservation

  function SumDelta(legs: seq<Leg>): int
  {
    if legs == [] then 0 else SumDelta(legs[..|legs| - 1]) + legs[|legs| - 1].delta
  }

  lemma {:induction false} SumDeltaConcat(a: seq<Leg>, b: seq<Leg>)
    ensures SumDelta(a + b) == SumDelta(a) + SumDelta(b)
  {
    if b == [] {
      assert a + b == a;
    } else {
      assert (a + b)[..|a + b| - 1] == a + b[..|b| - 1];
      SumDeltaConcat(a, b[..|b| - 1]);
    }
  }

  /** Total amount of one mint over a list of balances. */
  function TotalAmount(bs: seq<Balance>, mint: Mint): int
  {
    if bs == [] then 0
    else TotalAmount(bs[..|bs| - 1], mint) + if bs[|bs| - 1].mint == mint then bs[|bs| - 1].amount else 0
  }

  ghost predicate UniqueIndices(bs: seq<Balance>, mint: Mint)
  {
    forall s, t :: 0 <= s < t < |bs| && bs[s].mint == mint && bs[t].mint == mint ==> bs[s].index != bs[t].index
  }

  ghost predicate AllOwned(bs: seq<Balance>, mint: Mint)
  {
    forall s :: 0 <= s < |bs| && bs[s].mint == mint ==> bs[s].owner.Some?
  }

  /** Sum of `m[k].amount` over keys that satisfy `inside` membership. */
  function SumKeys(m: map<nat, Balance>, keys: seq<nat>): int
  {
    if keys == [] then 0
    else
      var k := keys[|keys| - 1];
      SumKeys(m, keys[..|keys| - 1]) + if k in m then m[k].amount else 0
  }

  /** The part of a sum over `keys` whose keys also lie in `other`. */
  function SumShared(m: map<nat, Balance>, keys: seq<nat>, other: seq<nat>): int
  {
    if keys == [] then 0
    else
      var k := keys[|keys| - 1];
      SumShared(m, keys[..|keys| - 1], other) + if k in m && k in other then m[k].amount else 0
  }

  ghost predicate Distinct(keys: seq<nat>)
  {
    forall s, t :: 0 <= s < t < |keys| ==> keys[s] != keys[t]
  }

  lemma {:induction false} SharedGrows(m: map<nat, Balance>, b: seq<nat>, a: seq<nat>, k: nat)
    requires Distinct(b) && k !in a
    ensures SumShared(m, b, a + [k]) == SumShared(m, b, a) + if k in b && k in m then m[k].amount else 0
  {
    if b != [] {
      SharedGrows(m, b[..|b| - 1], a, k);
      assert b == b[..|b| - 1] + [b[|b| - 1]];
    }
  }

  /** Summing the common keys from either side is the same. */
  lemma {:induction false} SharedCommutes(m: map<nat, Balance>, a: seq<nat>, b: seq<nat>)
    requires Distinct(a) && Distinct(b) && forall k :: k in m ==> k in b
    ensures SumKeys(m, a) == SumShared(m, b, a)
  {
    if a == [] {
      SharedNone(m, b);
    } else {
      var n := |a| - 1;
      SharedCommutes(m, a[..n], b);
      assert a == a[..n] + [a[n]];
      SharedGrows(m, b, a[..n], a[n]);
    }
  }

  lemma {:induction false} SharedNone(m: map<nat, Balance>, b: seq<nat>)
    ensures SumShared(m, b, []) == 0
  {
    if b != [] {
      SharedNone(m, b[..|b| - 1]);
    }
  }

  lemma {:induction false} PostLegsSum(pre: map<nat, Balance>, post: map<nat, Balance>, keys: seq<nat>)
    requires forall k :: k in keys ==> k in post
    requires forall k :: k in post ==> post[k].owner.Some?
    ensures SumDelta(PostLegs(pre, post, keys)) == SumKeys(post, keys) - SumKeys(pre, keys)
  {
    if keys != [] {
      var n := |keys| - 1;
      PostLegsSum(pre, post, keys[..n]);
      SumDeltaConcat(PostLegs(pre, post, keys[..n]), PostLeg(pre, post, keys[n]));
    }
  }

  lemma {:induction false} PreLegsSum(pre: map<nat, Balance>, post: map<nat, Balance>, keys: seq<nat>,
                                      postKeys: seq<nat>)
    requires forall k :: k in keys ==> k in pre
    requires forall k :: k in postKeys <==> k in post
    requires forall k :: k in pre ==> pre[k].owner.Some?
    ensures SumDelta(PreLegs(pre, post, keys)) == SumShared(pre, keys, postKeys) - SumKeys(pre, keys)
  {
    if keys != [] {
      var n := |keys| - 1;
      PreLegsSum(pre, post, keys[..n], postKeys);
      SumDeltaConcat(PreLegs(pre, post, keys[..n]), PreLeg(pre, post, keys[n]));
    }
  }

  lemma {:induction false} KeysTotal(bs: seq<Balance>, mint: Mint)
    requires UniqueIndices(bs, mint)
    ensures SumKeys(ByIndex(bs, mint), Keys(bs, mint)) == TotalAmount(bs, mint)
  {
    if bs != [] {
      var n := |bs| - 1;
      KeysTotal(bs[..n], mint);
      KeysAreDomain(bs[..n], mint);
      if bs[n].mint == mint {
        KeyFromEntry(bs[..n], mint, bs[n].index);
        SumKeysUnaffected(ByIndex(bs[..n], mint), Keys(bs[..n], mint), bs[n].index, bs[n]);
        var keys := Keys(bs[..n], mint) + [bs[n].index];
        assert keys[..|keys| - 1] == Keys(bs[..n], mint);
      }
    }
  }

  lemma {:induction false} KeyFromEntry(bs: seq<Balance>, mint: Mint, k: nat)
    ensures k in Keys(bs, mint) <==> exists s :: 0 <= s < |bs| && bs[s].mint == mint && bs[s].index == k
  {
    if bs != [] {
      var n := |bs| - 1;
      KeyFromEntry(bs[..n], mint, k);
      if s :| 0 <= s < |bs| && bs[s].mint == mint && bs[s].index == k {
        assert s < n ==> bs[..n][s] == bs[s];
      }
      if k in Keys(bs[..n], mint) {
        var s :| 0 <= s < n && bs[..n][s].mint == mint && bs[..n][s].index == k;
        assert bs[s].mint == mint && bs[s].index == k;
      }
    }
  }

  lemma {:induction false} SumKeysUnaffected(m: map<nat, Balance>, keys: seq<nat>, k: nat, b: Balance)
    requires k !in keys
    ensures SumKeys(m[k := b], keys) == SumKeys(m, keys)
  {
    if keys != [] {
      SumKeysUnaffected(m, keys[..|keys| - 1], k, b);
    }
  }

  lemma {:induction false} OwnedValues(bs: seq<Balance>, mint: Mint)
    requires AllOwned(bs, mint)
    ensures forall k :: k in ByIndex(bs, mint) ==> ByIndex(bs, mint)[k].owner.Some?
  {
    if bs != [] {
      OwnedValues(bs[..|bs| - 1], mint);
    }
  }

  /** Netting conserves: the legs sum to total post minus total pre. */
  lemma LegsConserve(tx: Tx, mint: Mint)
    requires UniqueIndices(tx.pre, mint) && UniqueIndices(tx.post, mint)
    requires AllOwned(tx.pre, mint) && AllOwned(tx.post, mint)
    ensures SumDelta(Legs(tx, mint)) == TotalAmount(tx.post, mint) - TotalAmount(tx.pre, mint)
  {
    KeysAreDomain(tx.pre, mint);
    KeysAreDomain(tx.post, mint);
    OwnedValues(tx.pre, mint);
    OwnedValues(tx.post, mint);
    var pre, post := ByIndex(tx.pre, mint), ByIndex(tx.post, mint);
    var preKeys, postKeys := Keys(tx.pre, mint), Keys(tx.post, mint);
    PostLegsSum(pre, post, postKeys);
    PreLegsSum(pre, post, preKeys, postKeys);
    SumDeltaConcat(PostLegs(pre, post, postKeys), PreLegs(pre, post, preKeys));
    SharedCommutes(pre, postKeys, preKeys);
    KeysTotal(tx.pre, mint);
    KeysTotal(tx.post, mint);
  }

  // ---------------------------------------------------------------- snipers

  function OwnerDelta(legs: seq<Leg>, owner: Wallet): int
  {
    if legs == [] then 0
    else OwnerDelta(legs[..|legs| - 1], owner) + if legs[|legs| - 1].owner == owner then legs[|legs| - 1].delta else 0
  }

  /** Net change of one owner over the successful transactions of the slot. */
  function Net(txs: seq<Tx>, mint: Mint, owner: Wallet): int
  {
    if txs == [] then 0
    else
      var n := |txs| - 1;
      Net(txs[..n], mint, owner) + if txs[n].ok then OwnerDelta(Legs(txs[n], mint), owner) else 0
  }

  /** Owners with a net positive slot, other than the curve. */
  ghost predicate IsSniper(txs: seq<Tx>, mint: Mint, curve: Option<Wallet>, owner: Wallet)
  {
    Net(txs, mint, owner) > 0 && curve != Some(owner)
  }

  function Successful(txs: seq<Tx>): seq<Tx>
  {
    if txs == [] then []
    else Successful(txs[..|txs| - 1]) + if txs[|txs| - 1].ok then [txs[|txs| - 1]] else []
  }

  lemma {:induction false} NetIgnoresFailed(txs: seq<Tx>, mint: Mint, owner: Wallet)
    ensures Net(Successful(txs), mint, owner) == Net(txs, mint, owner)
  {
    if txs != [] {
      var n := |txs| - 1;
      NetIgnoresFailed(txs[..n], mint, owner);
      if txs[n].ok {
        var s := Successful(txs[..n]) + [txs[n]];
        assert s[..|s| - 1] == Successful(txs[..n]);
      } else {
        assert Successful(txs[..n]) + [] == Successful(txs[..n]);
      }
    }
  }

  lemma {:induction false} NetConcat(a: seq<Tx>, b: seq<Tx>, mint: Mint, owner: Wallet)
    ensures Net(a + b, mint, owner) == Net(a, mint, owner) + Net(b, mint, owner)
  {
    if b == [] {
      assert a + b == a;
    } else {
      assert (a + b)[..|a + b| - 1] == a + b[..|b| - 1];
      NetConcat(a, b[..|b| - 1], mint, owner);
    }
  }

  lemma {:induction false} NetPermutes(a: seq<Tx>, b: seq<Tx>, mint: Mint, owner: Wallet)
    requires multiset(a) == multiset(b)
    ensures Net(a, mint, owner) == Net(b, mint, owner)
    decreases |a|
  {
    if a == [] {
      assert |multiset(b)| == 0;
      assert b == [];
    } else {
      var n, x := |a| - 1, a[|a| - 1];
      assert a == a[..n] + [x];
      assert x in multiset(b);
      var i :| 0 <= i < |b| && b[i] == x;
      var rest := b[..i] + b[i + 1..];
      assert b == b[..i] + [x] + b[i + 1..];
      assert multiset(a[..n]) == multiset(a) - multiset{x} == multiset(rest);
      NetPermutes(a[..n], rest, mint, owner);
      NetConcat(b[..i], b[i + 1..], mint, owner);
      NetConcat(b[..i] + [x], b[i + 1..], mint, owner);
      NetConcat(b[..i], [x], mint, owner);
      NetConcat(a[..n], [x], mint, owner);
    }
  }

  /** The sniper set depends only on which successful transactions the slot holds: order and
      failed transactions do not matter. */
  lemma SnipersIgnoreOrderAndFailures(create: Tx, a: seq<Tx>, b: seq<Tx>, mint: Mint, curve: Option<Wallet>,
                                      owner: Wallet)
    requires multiset(Successful(a)) == multiset(Successful(b))
    ensures IsSniper([create] + a, mint, curve, owner) <==> IsSniper([create] + b, mint, curve, owner)
  {
    NetConcat([create], a, mint, owner);
    NetConcat([create], b, mint, owner);
    NetIgnoresFailed(a, mint, owner);
    NetIgnoresFailed(b, mint, owner);
    NetPermutes(Successful(a), Successful(b), mint, owner);
  }

  /** A sniper of a capped slot is one of the full slot exactly as long as the omitted transactions
      lose that owner less than the seen ones gained. */
  lemma PartialSniperKept(seen: seq<Tx>, omitted: seq<Tx>, mint: Mint, curve: Option<Wallet>, owner: Wallet)
    requires IsSniper(seen, mint, curve, owner)
    ensures IsSniper(seen + omitted, mint, curve, owner) <==> Net(seen, mint, owner) > -Net(omitted, mint, owner)
  {
    NetConcat(seen, omitted, mint, owner);
  }

  // ---------------------------------------------------------------- is the partial count a floor?

  ghost predicate AreSnipers(txs: seq<Tx>, mint: Mint, curve: Option<Wallet>, snipers: set<Wallet>)
  {
    forall o :: o in snipers <==> IsSniper(txs, mint, curve, o)
  }

  /** Whatever was seen, the partial count is at most the full one. */
  ghost predicate CountIsFloor(omitted: seq<Tx>, mint: Mint, curve: Option<Wallet>)
  {
    forall seen: seq<Tx>, part: set<Wallet>, full: set<Wallet> ::
      AreSnipers(seen, mint, curve, part) && AreSnipers(seen + omitted, mint, curve, full) ==> |part| <= |full|
  }

  /** No owner but the curve loses over these transactions. */
  ghost predicate NobodyLoses(omitted: seq<Tx>, mint: Mint, curve: Option<Wallet>)
  {
    forall o: Wallet :: curve != Some(o) ==> Net(omitted, mint, o) >= 0
  }

  lemma SmallerSet(a: set<Wallet>, b: set<Wallet>)
    requires a <= b
    ensures |a| <= |b|
  {
    assert b == a + (b - a);
    assert |a + (b - a)| == |a| + |b - a|;
  }

  function Owners(legs: seq<Leg>): set<Wallet>
  {
    set leg | leg in legs :: leg.owner
  }

  /** Owners of some leg of some transaction. */
  function Movers(txs: seq<Tx>, mint: Mint): set<Wallet>
  {
    if txs == [] then {} else Movers(txs[..|txs| - 1], mint) + Owners(Legs(txs[|txs| - 1], mint))
  }

  lemma {:induction false} NoLegNoDelta(legs: seq<Leg>, o: Wallet)
    requires o !in Owners(legs)
    ensures OwnerDelta(legs, o) == 0
  {
    if legs != [] {
      var n := |legs| - 1;
      assert legs[n] in legs;
      assert forall leg :: leg in legs[..n] ==> leg in legs;
      NoLegNoDelta(legs[..n], o);
    }
  }

  lemma {:induction false} OnlyMoversMove(txs: seq<Tx>, mint: Mint, o: Wallet)
    requires o !in Movers(txs, mint)
    ensures Net(txs, mint, o) == 0
  {
    if txs != [] {
      OnlyMoversMove(txs[..|txs| - 1], mint, o);
      NoLegNoDelta(Legs(txs[|txs| - 1], mint), o);
    }
  }

  /** A buy of one token. */
  function Buy(mint: Mint, o: Wallet): Tx
  {
    Tx(true, [], [Balance(0, mint, Some(o), 1, PUMP_DECIMALS)])
  }

  lemma {:induction false} BuyBalances(post: seq<Balance>, mint: Mint, o: Wallet)
    requires post == [Balance(0, mint, Some(o), 1, PUMP_DECIMALS)]
    ensures Keys(post, mint) == [0] && ByIndex(post, mint) == map[0 := post[0]]
  {
    assert post[..0] == [];
  }

  lemma {:induction false} OnePostLeg(post: map<nat, Balance>, b: Balance)
    requires post == map[0 := b] && b.owner.Some? && b.amount != 0
    ensures PostLegs(map[], post, [0]) == [Leg(b.owner.value, b.amount, b.decimals)]
  {
    var keys: seq<nat> := [0];
    assert keys[..0] == [] && PostLegs(map[], post, keys[..0]) == [];
    assert [] + PostLeg(map[], post, 0) == PostLeg(map[], post, 0);
  }

  lemma {:induction false} BuyLegsAre(mint: Mint, o: Wallet)
    ensures Legs(Buy(mint, o), mint) == [Leg(o, 1, PUMP_DECIMALS)]
  {
    var b := Balance(0, mint, Some(o), 1, PUMP_DECIMALS);
    BuyBalances([b], mint, o);
    OnePostLeg(map[0 := b], b);
    assert ByIndex([], mint) == map[] && Keys([], mint) == [];
    var legs := [Leg(o, 1, PUMP_DECIMALS)];
    assert legs + PreLegs(map[], map[0 := b], []) == legs;
  }

  lemma {:induction false} BuyNet(mint: Mint, o: Wallet, who: Wallet)
    ensures Net([Buy(mint, o)], mint, who) == if who == o then 1 else 0
  {
    BuyLegsAre(mint, o);
    OneLegNet(Buy(mint, o), mint, Leg(o, 1, PUMP_DECIMALS), who);
  }

  /** One such buy for each of these owners. */
  lemma {:induction false} BuyForEach(owners: set<Wallet>, mint: Mint) returns (seen: seq<Tx>)
    ensures forall o :: Net(seen, mint, o) == if o in owners then 1 else 0
    decreases owners
  {
    seen := [];
    if owners != {} {
      var x :| x in owners;
      var rest := BuyForEach(owners - {x}, mint);
      seen := rest + [Buy(mint, x)];
      forall o
        ensures Net(seen, mint, o) == if o in owners then 1 else 0
      {
        NetConcat(rest, [Buy(mint, x)], mint, o);
        BuyNet(mint, x, o);
      }
    }
  }

  lemma {:induction false} SniperAfter(seen: seq<Tx>, omitted: seq<Tx>, mint: Mint, curve: Option<Wallet>, o: Wallet,
                                       held: int)
    requires Net(seen, mint, o) == held
    ensures IsSniper(seen, mint, curve, o) <==> held > 0 && curve != Some(o)
    ensures IsSniper(seen + omitted, mint, curve, o) <==> held + Net(omitted, mint, o) > 0 && curve != Some(o)
  {
    NetConcat(seen, omitted, mint, o);
  }

  /** If somebody loses over the omitted transactions, this was seen: one token for him and for
      everybody who gains over them. He drops out, nobody comes in. */
  lemma {:induction false} LoserBreaksFloor(omitted: seq<Tx>, mint: Mint, curve: Option<Wallet>, loser: Wallet)
    requires curve != Some(loser) && Net(omitted, mint, loser) < 0
    ensures !CountIsFloor(omitted, mint, curve)
  {
    var gainers := set o | o in Movers(omitted, mint) && Net(omitted, mint, o) >= 0 && curve != Some(o);
    var part := gainers + {loser};
    var seen := BuyForEach(part, mint);
    LoserDropsOut(omitted, mint, curve, loser, gainers, part, seen);
    assert |part| == |gainers| + 1;
    FloorBroken(seen, omitted, mint, curve, part, gainers);
  }

  lemma {:induction false} FloorBroken(seen: seq<Tx>, omitted: seq<Tx>, mint: Mint, curve: Option<Wallet>,
                                       part: set<Wallet>, full: set<Wallet>)
    requires AreSnipers(seen, mint, curve, part) && AreSnipers(seen + omitted, mint, curve, full) && |part| > |full|
    ensures !CountIsFloor(omitted, mint, curve)
  {
  }

  lemma {:induction false} LoserDropsOut(omitted: seq<Tx>, mint: Mint, curve: Option<Wallet>, loser: Wallet,
                                         gainers: set<Wallet>, part: set<Wallet>, seen: seq<Tx>)
    requires curve != Some(loser) && Net(omitted, mint, loser) < 0 && part == gainers + {loser}
    requires forall o :: o in gainers <==> o in Movers(omitted, mint) && Net(omitted, mint, o) >= 0 && curve != Some(o)
    requires forall o :: Net(seen, mint, o) == if o in part then 1 else 0
    ensures AreSnipers(seen, mint, curve, part) && AreSnipers(seen + omitted, mint, curve, gainers)
  {
    forall o
      ensures IsSniper(seen, mint, curve, o) <==> o in part
      ensures IsSniper(seen + omitted, mint, curve, o) <==> o in gainers
    {
      SniperAfter(seen, omitted, mint, curve, o, if o in part then 1 else 0);
      if o !in Movers(omitted, mint) {
        OnlyMoversMove(omitted, mint, o);
      }
    }
  }

  /** The partial count is a floor for every seen part exactly when no owner but the curve loses over
      the omitted transactions. */
  lemma PartialCountFloorIff(omitted: seq<Tx>, mint: Mint, curve: Option<Wallet>)
    ensures CountIsFloor(omitted, mint, curve) <==> NobodyLoses(omitted, mint, curve)
  {
    if NobodyLoses(omitted, mint, curve) {
      forall seen: seq<Tx>, part: set<Wallet>, full: set<Wallet>
        | AreSnipers(seen, mint, curve, part) && AreSnipers(seen + omitted, mint, curve, full)
        ensures |part| <= |full|
      {
        forall o | o in part
          ensures o in full
        {
          NetConcat(seen, omitted, mint, o);
        }
        SmallerSet(part, full);
      }
    } else {
      var loser: Wallet :| curve != Some(loser) && Net(omitted, mint, loser) < 0;
      LoserBreaksFloor(omitted, mint, curve, loser);
    }
  }

  /** The count of a partial slot is not a floor: one omitted sell removes the only sniper. */
  lemma PartialCountIsNotAFloor() returns (seen: seq<Tx>, omitted: Tx)
    ensures omitted.ok
    ensures forall o :: IsSniper(seen, 0, Some(9), o) <==> o == 1
    ensures forall o :: !IsSniper(seen + [omitted], 0, Some(9), o)
  {
    var buy := Tx(true, [], [Balance(0, 0, Some(1), 5, 6)]);
    var sell := Tx(true, [Balance(0, 0, Some(1), 5, 6)], [Balance(0, 0, Some(1), 0, 6)]);
    seen, omitted := [buy], sell;
    BuyLegs(buy, sell);
    forall o: Wallet
      ensures Net([buy], 0, o) == (if o == 1 then 5 else 0) && Net([buy] + [sell], 0, o) == 0
    {
      OneLegNet(buy, 0, Leg(1, 5, 6), o);
      OneLegNet(sell, 0, Leg(1, -5, 6), o);
      NetConcat([buy], [sell], 0, o);
    }
  }

  lemma {:induction false} OneLegNet(tx: Tx, mint: Mint, leg: Leg, owner: Wallet)
    requires tx.ok && Legs(tx, mint) == [leg]
    ensures Net([tx], mint, owner) == if leg.owner == owner then leg.delta else 0
  {
    assert [tx][..0] == [] && [leg][..0] == [];
    assert OwnerDelta([leg], owner) == if leg.owner == owner then leg.delta else 0;
  }

  lemma BuyLegs(buy: Tx, sell: Tx)
    requires buy == Tx(true, [], [Balance(0, 0, Some(1), 5, 6)])
    requires sell == Tx(true, [Balance(0, 0, Some(1), 5, 6)], [Balance(0, 0, Some(1), 0, 6)])
    ensures Legs(buy, 0) == [Leg(1, 5, 6)]
    ensures Legs(sell, 0) == [Leg(1, -5, 6)]
  {
    assert buy.post[..0] == [] && sell.pre[..0] == [] && sell.post[..0] == [];
    assert Keys(buy.post, 0) == [0] && Keys(sell.pre, 0) == [0] && Keys(sell.post, 0) == [0];
    assert [0 as nat][..0] == [];
  }

  // ---------------------------------------------------------------- birth features

  datatype Birth = Birth(
    bornStandard: bool, mintedRaw: int, curveOwner: Option<Wallet>, deployer: Option<Wallet>, devBuyRaw: int,
    nSnipers: nat, snipers: seq<Wallet>, isPartial: bool, quoteCurve: bool)

  function NegDeltas(legs: seq<Leg>): (r: seq<int>)
    ensures |r| == |legs| && forall t :: 0 <= t < |legs| ==> r[t] == -legs[t].delta
  {
    seq<int>(|legs|, t requires 0 <= t < |legs| => -legs[t].delta)
  }

  function Held(byOwner: map<Wallet, int>, o: Wallet): int
  {
    if o in byOwner then byOwner[o] else 0
  }

  /** `by_owner`: the running net per owner over the slot's successful transactions. */
  method NetByOwner(txs: seq<Tx>, mint: Mint) returns (byOwner: map<Wallet, int>)
    ensures forall o :: Net(txs, mint, o) == Held(byOwner, o)
  {
    byOwner := map[];
    for n := 0 to |txs|
      invariant forall o :: Net(txs[..n], mint, o) == Held(byOwner, o)
    {
      assert txs[..n + 1][..n] == txs[..n];
      if txs[n].ok {
        var legs := MintLegs(txs[n], mint);
        ghost var before := byOwner;
        for t := 0 to |legs|
          invariant forall o :: Held(byOwner, o) == Held(before, o) + OwnerDelta(legs[..t], o)
        {
          assert legs[..t + 1][..t] == legs[..t];
          var o := legs[t].owner;
          byOwner := byOwner[o := Held(byOwner, o) + legs[t].delta];
        }
        assert legs[..|legs|] == legs;
      }
    }
    assert txs[..|txs|] == txs;
  }

  /** The owners in gain, the curve left out, in ascending order. */
  method SortedSnipers(byOwner: map<Wallet, int>, curve: Option<Wallet>) returns (snipers: seq<Wallet>)
    ensures Ascending(snipers)
    ensures forall o :: o in snipers <==> o in byOwner && byOwner[o] > 0 && curve != Some(o)
  {
    snipers := [];
    var rest := byOwner.Keys;
    while rest != {}
      invariant rest <= byOwner.Keys && Ascending(snipers)
      invariant forall o :: o in snipers <==> o in byOwner && o !in rest && byOwner[o] > 0 && curve != Some(o)
      decreases rest
    {
      var o :| o in rest;
      if byOwner[o] > 0 && curve != Some(o) {
        snipers := Insert(snipers, o);
      }
      rest := rest - {o};
    }
  }

  /** The largest leg of the create names the curve; the second largest, if a gain, the dev buy. */
  ghost predicate BirthOf(legs: seq<Leg>, b: Birth)
  {
    && b.mintedRaw == SumDelta(legs)
    && (legs == [] ==> b.curveOwner.None? && b.deployer.None? && b.devBuyRaw == 0 && !b.bornStandard)
    && (legs != [] ==> exists order :: IsArgsort(NegDeltas(legs), order) && RankedBirth(legs, order, b))
  }

  ghost predicate RankedBirth(legs: seq<Leg>, order: seq<nat>, b: Birth)
    requires |legs| > 0 && |order| == |legs| && forall t :: 0 <= t < |order| ==> order[t] < |legs|
  {
    var top := legs[order[0]];
    && b.curveOwner == Some(top.owner)
    && (b.bornStandard <==> b.mintedRaw == PUMP_SUPPLY_RAW && top.decimals == PUMP_DECIMALS)
    && (if |legs| >= 2 && legs[order[1]].delta > 0
        then b.deployer == Some(legs[order[1]].owner) && b.devBuyRaw == legs[order[1]].delta
        else b.deployer.None? && b.devBuyRaw == 0)
  }

  /** `extract_birth_features`; the curve's quote currency is an input. */
  method ExtractBirth(mint: Mint, create: Tx, sameSlot: seq<Tx>, isPartial: bool, quoteCurve: bool) returns (b: Birth)
    ensures BirthOf(Legs(create, mint), b)
    ensures b.isPartial == isPartial && b.quoteCurve == quoteCurve && b.nSnipers == |b.snipers|
    ensures Ascending(b.snipers)
    ensures forall o :: o in b.snipers <==> IsSniper([create] + sameSlot, mint, b.curveOwner, o)
  {
    var legs := MintLegs(create, mint);
    var order := Argsort(NegDeltas(legs));
    var minted := SumDelta(legs);
    var curve, deployer, devBuy, born := None, None, 0, false;
    if |legs| > 0 {
      curve := Some(legs[order[0]].owner);
      born := minted == PUMP_SUPPLY_RAW && legs[order[0]].decimals == PUMP_DECIMALS;
    }
    if |legs| >= 2 && legs[order[1]].delta > 0 {
      deployer, devBuy := Some(legs[order[1]].owner), legs[order[1]].delta;
    }
    var byOwner := NetByOwner([create] + sameSlot, mint);
    var snipers := SortedSnipers(byOwner, curve);
    b := Birth(born, minted, curve, deployer, devBuy, |snipers|, snipers, isPartial, quoteCurve);
    assert legs != [] ==> RankedBirth(legs, order, b);
  }
}
