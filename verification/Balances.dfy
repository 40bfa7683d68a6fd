/** Account balances, kept as the list of balance objects in order of creation. */
module Balances {
  import opened Options

  /** The asset that fees, rewards and the supply equation are about has id 0. */
  const CORE: nat := 0

  datatype Asset = Asset(id: nat, amount: int)

  datatype AccountBalance = AccountBalance(owner: nat, asset: nat, amount: int)

  function BalanceOf(b: seq<AccountBalance>, owner: nat, asset: nat): int {
    if b == [] then 0
    else if b[0].owner == owner && b[0].asset == asset then b[0].amount
    else BalanceOf(b[1..], owner, asset)
  }

  /** What a walk over all balance objects adds up for asset `k`. */
  function AssetTotal(b: seq<AccountBalance>, k: nat): int {
    if b == [] then 0 else (if b[0].asset == k then b[0].amount else 0) + AssetTotal(b[1..], k)
  }

  ghost predicate NoneNegative(b: seq<AccountBalance>) {
    forall i :: 0 <= i < |b| ==> b[i].amount >= 0
  }

  function Put(b: seq<AccountBalance>, owner: nat, asset: nat, delta: int): Option<seq<AccountBalance>> {
    if b == [] then
      if delta > 0 then Some([AccountBalance(owner, asset, delta)]) else None
    else if b[0].owner == owner && b[0].asset == asset then
      if delta < 0 && b[0].amount < -delta then None else Some([b[0].(amount := b[0].amount + delta)] + b[1..])
    else
      match Put(b[1..], owner, asset, delta)
      case None => None
      case Some(rest) => Some([b[0]] + rest)
  }

  /** `adjust_balance`; `None` stands for its exception. */
  function Adjusted(b: seq<AccountBalance>, owner: nat, delta: Asset): Option<seq<AccountBalance>> {
    if delta.amount == 0 then Some(b) else Put(b, owner, delta.id, delta.amount)
  }

  /** By how much an adjustment of `owner`'s holding of `delta.id` moves another holding. */
  function Moved(owner: nat, delta: Asset, other: nat, asset: nat): int {
    if owner == other && delta.id == asset then delta.amount else 0
  }

  /** The amount, as far as asset `k` is concerned. */
  function Part(a: Asset, k: nat): int {
    if a.id == k then a.amount else 0
  }

  lemma {:induction false} PutChanges(b: seq<AccountBalance>, owner: nat, asset: nat, delta: int)
    requires delta != 0
    ensures Put(b, owner, asset, delta).Some? <==> BalanceOf(b, owner, asset) + delta >= 0 || delta > 0
    ensures var r := Put(b, owner, asset, delta);
      r.Some? ==>
        && (forall k :: AssetTotal(r.value, k) == AssetTotal(b, k) + Part(Asset(asset, delta), k))
        && (forall o, a :: BalanceOf(r.value, o, a) == BalanceOf(b, o, a) + Moved(owner, Asset(asset, delta), o, a))
        && (NoneNegative(b) ==> NoneNegative(r.value))
  {
    if b != [] && !(b[0].owner == owner && b[0].asset == asset) {
      PutChanges(b[1..], owner, asset, delta);
    }
  }

  /** An adjustment succeeds exactly when the balance covers it, and moves one balance only. */
  lemma AdjustedChanges(b: seq<AccountBalance>, owner: nat, delta: Asset)
    ensures Adjusted(b, owner, delta).Some? <==> BalanceOf(b, owner, delta.id) + delta.amount >= 0 || delta.amount >= 0
    ensures var r := Adjusted(b, owner, delta);
      r.Some? ==>
        && (forall k :: AssetTotal(r.value, k) == AssetTotal(b, k) + Part(delta, k))
        && (forall o, a :: BalanceOf(r.value, o, a) == BalanceOf(b, o, a) + Moved(owner, delta, o, a))
        && (NoneNegative(b) ==> NoneNegative(r.value))
  {
    if delta.amount != 0 {
      PutChanges(b, owner, delta.id, delta.amount);
    }
  }

  /** A covered payment between two accounts goes through and moves exactly the amount. */
  lemma PaymentMoves(b: seq<AccountBalance>, from: nat, to: nat, paid: Asset)
    requires 0 <= paid.amount <= BalanceOf(b, from, paid.id)
    ensures var taken := Adjusted(b, from, Asset(paid.id, -paid.amount));
      && taken.Some?
      && var r := Adjusted(taken.value, to, paid);
      && r.Some? && (forall k :: AssetTotal(r.value, k) == AssetTotal(b, k))
      && (forall o, a ::
        BalanceOf(r.value, o, a) == BalanceOf(b, o, a) + Moved(to, paid, o, a) - Moved(from, paid, o, a))
  {
    AdjustedChanges(b, from, Asset(paid.id, -paid.amount));
    AdjustedChanges(Adjusted(b, from, Asset(paid.id, -paid.amount)).value, to, paid);
  }
}
