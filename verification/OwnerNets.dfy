/** What a transaction's legs mean for one owner: the change in what that owner holds. */
module OwnerNets {
  import opened Ledger
  import opened F = Features

  /** Whom an account counts for: its owner in `after`, or its own if it is not listed there. */
  function CreditedTo(after: map<nat, Balance>, b: Balance): Option<Wallet>
  {
    if b.index in after then after[b.index].owner else b.owner
  }

  /** Total amount of one mint in the accounts that count for an owner. */
  function HeldBy(bs: seq<Balance>, mint: Mint, after: map<nat, Balance>, owner: Wallet): int
  {
    if bs == [] then 0
    else
      var n := |bs| - 1;
      HeldBy(bs[..n], mint, after, owner) +
      if bs[n].mint == mint && CreditedTo(after, bs[n]) == Some(owner) then bs[n].amount else 0
  }

  // ---------------------------------------------------------------- one owner's accounts

  /** The same account with only what counts for one owner in it. */
  function OnlyOne(b: Balance, after: map<nat, Balance>, owner: Wallet): Balance
  {
    b.(owner := Some(owner), amount := if CreditedTo(after, b) == Some(owner) then b.amount else 0)
  }

  function Only(bs: seq<Balance>, after: map<nat, Balance>, owner: Wallet): (r: seq<Balance>)
    ensures |r| == |bs| && forall i :: 0 <= i < |bs| ==> r[i] == OnlyOne(bs[i], after, owner)
  {
    seq(|bs|, i requires 0 <= i < |bs| => OnlyOne(bs[i], after, owner))
  }

  lemma OnlyPrefix(bs: seq<Balance>, after: map<nat, Balance>, owner: Wallet)
    requires bs != []
    ensures Only(bs, after, owner)[..|bs| - 1] == Only(bs[..|bs| - 1], after, owner)
  {
  }

  lemma {:induction false} OnlyTotal(bs: seq<Balance>, mint: Mint, after: map<nat, Balance>, owner: Wallet)
    ensures TotalAmount(Only(bs, after, owner), mint) == HeldBy(bs, mint, after, owner)
    decreases |bs|
  {
    if bs != [] {
      OnlyPrefix(bs, after, owner);
      OnlyTotal(bs[..|bs| - 1], mint, after, owner);
    }
  }

  ghost predicate SameAccounts(m: map<nat, Balance>, only: map<nat, Balance>, after: map<nat, Balance>, owner: Wallet)
  {
    only.Keys == m.Keys && forall k :: k in m ==> only[k] == OnlyOne(m[k], after, owner)
  }

  lemma {:induction false} OnlyByIndex(bs: seq<Balance>, mint: Mint, after: map<nat, Balance>, owner: Wallet)
    ensures SameAccounts(ByIndex(bs, mint), ByIndex(Only(bs, after, owner), mint), after, owner)
    ensures Keys(Only(bs, after, owner), mint) == Keys(bs, mint)
    decreases |bs|
  {
    if bs != [] {
      OnlyPrefix(bs, after, owner);
      OnlyByIndex(bs[..|bs| - 1], mint, after, owner);
    }
  }

  lemma {:induction false} ByIndexKeepsIndex(bs: seq<Balance>, mint: Mint)
    ensures forall k :: k in ByIndex(bs, mint) ==> ByIndex(bs, mint)[k].index == k
    decreases |bs|
  {
    if bs != [] {
      ByIndexKeepsIndex(bs[..|bs| - 1], mint);
    }
  }

  // ---------------------------------------------------------------- their legs

  lemma {:induction false} OwnerDeltaConcat(a: seq<Leg>, b: seq<Leg>, owner: Wallet)
    ensures OwnerDelta(a + b, owner) == OwnerDelta(a, owner) + OwnerDelta(b, owner)
    decreases |b|
  {
    if b == [] {
      assert a + b == a;
    } else {
      assert (a + b)[..|a + b| - 1] == a + b[..|b| - 1];
      OwnerDeltaConcat(a, b[..|b| - 1], owner);
    }
  }

  lemma {:induction false} OneLeg(leg: Leg, owner: Wallet)
    ensures OwnerDelta([leg], owner) == (if leg.owner == owner then leg.delta else 0) && SumDelta([leg]) == leg.delta
    ensures OwnerDelta([], owner) == 0 && SumDelta([]) == 0
  {
    assert [leg][..0] == [];
  }

  /** What an account's leg adds to an owner. */
  lemma PostLegOnly(pre: map<nat, Balance>, post: map<nat, Balance>, only: map<nat, Balance>, onlyPost: map<nat,
                    Balance>,
                    k: nat, owner: Wallet)
    requires k in post && SameAccounts(post, onlyPost, map[], owner)
    requires SameAccounts(pre, only, post, owner) && (k in pre ==> pre[k].index == k)
    ensures OwnerDelta(PostLeg(pre, post, k), owner) == SumDelta(PostLeg(only, onlyPost, k))
  {
    var before := if k in pre then pre[k].amount else 0;
    var leg := Leg(if post[k].owner.Some? then post[k].owner.value else owner, post[k].amount - before,
                   post[k].decimals);
    OneLeg(leg, owner);
    OneLeg(Leg(owner, post[k].amount - before, post[k].decimals), owner);
  }

  lemma PreLegOnly(pre: map<nat, Balance>, post: map<nat, Balance>, only: map<nat, Balance>, onlyPost: map<nat,
                   Balance>,
                   k: nat, owner: Wallet)
    requires k in pre && SameAccounts(post, onlyPost, map[], owner)
    requires SameAccounts(pre, only, post, owner) && pre[k].index == k
    ensures OwnerDelta(PreLeg(pre, post, k), owner) == SumDelta(PreLeg(only, onlyPost, k))
  {
    OneLeg(Leg(if pre[k].owner.Some? then pre[k].owner.value else owner, -pre[k].amount, pre[k].decimals), owner);
    OneLeg(Leg(owner, -pre[k].amount, pre[k].decimals), owner);
  }

  lemma {:induction false} PostLegsOnly(pre: map<nat, Balance>, post: map<nat, Balance>, only: map<nat, Balance>,
                                        onlyPost: map<nat, Balance>, keys: seq<nat>, owner: Wallet)
    requires (forall k :: k in keys ==> k in post) && forall k :: k in pre ==> pre[k].index == k
    requires SameAccounts(post, onlyPost, map[], owner)
    requires SameAccounts(pre, only, post, owner)
    ensures OwnerDelta(PostLegs(pre, post, keys), owner) == SumDelta(PostLegs(only, onlyPost, keys))
    decreases |keys|
  {
    if keys != [] {
      var n := |keys| - 1;
      PostLegsOnly(pre, post, only, onlyPost, keys[..n], owner);
      PostLegOnly(pre, post, only, onlyPost, keys[n], owner);
      OwnerDeltaConcat(PostLegs(pre, post, keys[..n]), PostLeg(pre, post, keys[n]), owner);
      SumDeltaConcat(PostLegs(only, onlyPost, keys[..n]), PostLeg(only, onlyPost, keys[n]));
    }
  }

  lemma {:induction false} PreLegsOnly(pre: map<nat, Balance>, post: map<nat, Balance>, only: map<nat, Balance>,
                                       onlyPost: map<nat, Balance>, keys: seq<nat>, owner: Wallet)
    requires (forall k :: k in keys ==> k in pre) && forall k :: k in pre ==> pre[k].index == k
    requires SameAccounts(post, onlyPost, map[], owner)
    requires SameAccounts(pre, only, post, owner)
    ensures OwnerDelta(PreLegs(pre, post, keys), owner) == SumDelta(PreLegs(only, onlyPost, keys))
    decreases |keys|
  {
    if keys != [] {
      var n := |keys| - 1;
      PreLegsOnly(pre, post, only, onlyPost, keys[..n], owner);
      PreLegOnly(pre, post, only, onlyPost, keys[n], owner);
      OwnerDeltaConcat(PreLegs(pre, post, keys[..n]), PreLeg(pre, post, keys[n]), owner);
      SumDeltaConcat(PreLegs(only, onlyPost, keys[..n]), PreLeg(only, onlyPost, keys[n]));
    }
  }

  /** An owner's legs sum to what the owner's accounts hold afterwards, less what they and the
      accounts it took over held before; what it gave away counts for the taker. */
  lemma OwnerNetIsChange(tx: Tx, mint: Mint, owner: Wallet)
    requires UniqueIndices(tx.pre, mint) && UniqueIndices(tx.post, mint)
    ensures var post := ByIndex(tx.post, mint);
      OwnerDelta(Legs(tx, mint), owner) ==
      HeldBy(tx.post, mint, map[], owner) - HeldBy(tx.pre, mint, post, owner)
  {
    var pre, post := ByIndex(tx.pre, mint), ByIndex(tx.post, mint);
    var none: map<nat, Balance> := map[];
    var only := Tx(tx.ok, Only(tx.pre, post, owner), Only(tx.post, none, owner));
    KeysAreDomain(tx.pre, mint);
    KeysAreDomain(tx.post, mint);
    ByIndexKeepsIndex(tx.pre, mint);
    OnlyByIndex(tx.pre, mint, post, owner);
    OnlyByIndex(tx.post, mint, none, owner);
    PostLegsOnly(pre, post, ByIndex(only.pre, mint), ByIndex(only.post, mint), Keys(tx.post, mint), owner);
    PreLegsOnly(pre, post, ByIndex(only.pre, mint), ByIndex(only.post, mint), Keys(tx.pre, mint), owner);
    var postLegs, preLegs := PostLegs(pre, post, Keys(tx.post, mint)), PreLegs(pre, post, Keys(tx.pre, mint));
    OwnerDeltaConcat(postLegs, preLegs, owner);
    SumDeltaConcat(PostLegs(ByIndex(only.pre, mint), ByIndex(only.post, mint), Keys(tx.post, mint)),
                   PreLegs(ByIndex(only.pre, mint), ByIndex(only.post, mint), Keys(tx.pre, mint)));
    LegsConserve(only, mint);
    OnlyTotal(tx.pre, mint, post, owner);
    OnlyTotal(tx.post, mint, none, owner);
  }
}
