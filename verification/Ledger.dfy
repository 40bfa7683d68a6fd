/** Everything that holds or counts the core asset, and every operation that moves it. */
module Ledger {
  import opened Options
  import opened Balances
  import opened Payout

  /** `asset_dynamic_data_object`: issued supply, collected fees, and core kept for converting fees. */
  datatype AssetData = AssetData(supply: int, pool: int, corePool: int)

  datatype Content = Content(author: nat, coAuthors: seq<Split>, quorum: nat, seeders: set<nat>, escrow: int)

  /** A purchase. `escrow` is the source's `price`, `paid` its `paid_price_after_exchange`. */
  datatype Buying = Buying(
    consumer: nat, content: nat, escrow: Asset, paid: nat, expires: nat,
    answered: seq<nat>, delivered: bool, expired: bool)

  datatype State = State(
    balances: seq<AccountBalance>, vestings: seq<Asset>, contents: seq<Content>, buyings: seq<Buying>,
    assets: seq<AssetData>, mined: int, budget: int, unspent: int, now: nat, lastBudget: nat)

  const PURCHASE_LIFETIME: nat := 24 * 3600
  const SHORTFALL_PAYER: nat := 20

  datatype Action =
    | Transfer(from: nat, to: nat, what: Asset)
    | TransferToContent(from: nat, content: nat, what: Asset)
    | Submit(author: nat, coAuthors: seq<Split>, quorum: nat, seeders: set<nat>, fee: nat)
    | Resubmit(content: nat, coAuthors: seq<Split>)
    | RequestToBuy(consumer: nat, content: nat, price: Asset, subscriber: bool)
    | DeliverKeys(buying: nat, seeder: nat)
    | ProveCustody(content: nat, seeder: nat, reward: nat, capped: bool)
    | CreateVesting(creator: nat, what: Asset)
    | WithdrawVesting(vesting: nat, owner: nat, amount: nat)
    | CreateAsset
    | FundPools(from: nat, asset: nat, own: nat, core: nat)
    | ClaimFees(issuer: nat, asset: nat, own: nat, core: nat)
    | Reserve(payer: nat, what: Asset)
    | Issue(to: nat, what: Asset)

  /** The fee of an operation: what the payer gives, and what `prepare_fee` makes it worth in core. */
  datatype Fee = Fee(payer: nat, paid: Asset, core: nat)

  datatype Event =
    | Operation(fee: Fee, action: Action)
    | PayMiner(vesting: Option<nat>, reward: nat, fromFees: nat)
    | ExpireContent(content: nat)
    | ExpireBuying(buying: nat)
    | Renew(from: nat, to: nat, price: Asset)
    | ProcessBudget
    | Advance(now: nat)

  function Minus(a: Asset): Asset {
    Asset(a.id, -a.amount)
  }

  function Adjust(s: State, owner: nat, delta: Asset): Option<State> {
    var b :- Adjusted(s.balances, owner, delta);
    Some(s.(balances := b))
  }

  function Move(s: State, from: nat, to: nat, what: Asset): Option<State> {
    if what.amount < 0 then None else
    var s' :- Adjust(s, from, Minus(what));
    Adjust(s', to, what)
  }

  function PayAuthors(s: State, content: Content, paid: Asset): Option<State>
    requires paid.amount >= 0
  {
    var b :- PaidOut(s.balances, content.author, content.coAuthors, paid);
    Some(s.(balances := b))
  }

  // ---------------------------------------------------------------- contents and purchases

  function Submitted(s: State, author: nat, c: seq<Split>, quorum: nat, seeders: set<nat>, fee: nat): Option<State> {
    if !(InOrder(c) && Accepted(author, c) && (if seeders == {} then quorum == 0 else quorum >= 2)) then None else
    var s' :- Adjust(s, author, Minus(Asset(CORE, fee)));
    Some(s'.(contents := s'.contents + [Content(author, c, quorum, seeders, fee)]))
  }

  /** Resubmission may change the split, also between a purchase and its payout. */
  function Resubmitted(s: State, i: nat, c: seq<Split>): Option<State> {
    if !(i < |s.contents| && InOrder(c) && Accepted(s.contents[i].author, c)) then None else
    Some(s.(contents := s.contents[i := s.contents[i].(coAuthors := c)]))
  }

  function NewPurchase(s: State, consumer: nat, i: nat, paid: Asset): Buying
    requires i < |s.contents| && paid.amount >= 0
  {
    var delivered := s.contents[i].seeders == {};
    Buying(consumer, i, if delivered then Asset(CORE, 0) else paid, paid.amount, s.now + PURCHASE_LIFETIME, [],
      delivered, false)
  }

  /** Content without key parts is delivered, and its authors paid, at once. */
  function Purchased(s: State, consumer: nat, i: nat, paid: Asset): Option<State>
    requires i < |s.contents| && paid.amount >= 0
  {
    var b := NewPurchase(s, consumer, i, paid);
    var s' :- Adjust(s.(buyings := s.buyings + [b]), consumer, Minus(paid));
    if b.delivered then PayAuthors(s', s.contents[i], paid) else Some(s')
  }

  /** A subscriber pays nothing. */
  function Charge(price: Asset, subscriber: bool): (paid: Asset)
    ensures price.amount >= 0 ==> paid.amount >= 0
  {
    if subscriber then Asset(CORE, 0) else price
  }

  function Bought(s: State, consumer: nat, i: nat, price: Asset, subscriber: bool): Option<State> {
    if !(i < |s.contents| && 0 <= price.amount <= BalanceOf(s.balances, consumer, price.id)) then None
    else Purchased(s, consumer, i, Charge(price, subscriber))
  }

  function Noted(b: Buying, seeder: nat): Buying {
    if seeder in b.answered then b else b.(answered := b.answered + [seeder])
  }

  function Closed(b: Buying): bool {
    b.delivered || b.expired
  }

  function Refunded(s: State, i: nat): Option<State>
    requires i < |s.buyings|
  {
    var b := s.buyings[i];
    var s' :- Adjust(s, b.consumer, b.escrow);
    Some(s'.(buyings := s'.buyings[i := b.(escrow := b.escrow.(amount := 0), expired := true)]))
  }

  function Delivered(s: State, i: nat, seeder: nat): Option<State> {
    if !(i < |s.buyings| && s.buyings[i].content < |s.contents|) then None else
    var content := s.contents[s.buyings[i].content];
    if seeder !in content.seeders then None else
    var b := Noted(s.buyings[i], seeder);
    var noted := s.(buyings := s.buyings[i := b]);
    if Closed(b) then Some(noted)
    else if |b.answered| >= content.quorum then
      var paidOut :- PayAuthors(noted, content, Asset(b.escrow.id, b.paid));
      Some(paidOut.(buyings := paidOut.buyings[i := b.(escrow := b.escrow.(amount := 0), delivered := true)]))
    else if b.expires < s.now then Refunded(noted, i)
    else Some(noted)
  }

  function ExpiredBuying(s: State, i: nat): Option<State> {
    if !(i < |s.buyings| && s.buyings[i].expires <= s.now) then None
    else if s.buyings[i].delivered then Some(s)
    else Refunded(s, i)
  }

  function ExpiredContent(s: State, i: nat): Option<State> {
    if i >= |s.contents| then None else
    var c := s.contents[i];
    var payer := if c.escrow >= 0 then c.author else SHORTFALL_PAYER;
    var s' :- Adjust(s, payer, Asset(CORE, c.escrow));
    Some(s'.(contents := s'.contents[i := c.(escrow := 0)]))
  }

  /** `reward` is what the proof is worth; from block 404728 on it is capped by the escrow. */
  function ProvedCustody(s: State, i: nat, seeder: nat, reward: nat, capped: bool): Option<State> {
    if i >= |s.contents| then None else
    var c := s.contents[i];
    var paid := if capped && reward > c.escrow then (if c.escrow > 0 then c.escrow else 0) else reward;
    Adjust(s.(contents := s.contents[i := c.(escrow := c.escrow - paid)]), seeder, Asset(CORE, paid))
  }

  // ---------------------------------------------------------------- vesting, pools, fees, budget

  function WithVesting(s: State, what: Asset): State {
    s.(vestings := s.vestings + [what])
  }

  function VestingChanged(s: State, v: nat, delta: int): State
    requires v < |s.vestings|
  {
    s.(vestings := s.vestings[v := s.vestings[v].(amount := s.vestings[v].amount + delta)])
  }

  function AssetChanged(s: State, a: nat, supply: int, pool: int, corePool: int): State
    requires a < |s.assets|
  {
    var d := s.assets[a];
    s.(assets := s.assets[a := AssetData(d.supply + supply, d.pool + pool, d.corePool + corePool)])
  }

  function VestingCreated(s: State, creator: nat, what: Asset): Option<State> {
    if what.amount <= 0 then None else
    var s' :- Adjust(s, creator, Minus(what));
    Some(WithVesting(s', what))
  }

  function VestingWithdrawn(s: State, v: nat, owner: nat, amount: nat): Option<State> {
    if !(v < |s.vestings| && amount <= s.vestings[v].amount) then None else
    Adjust(VestingChanged(s, v, 0 - amount), owner, Asset(s.vestings[v].id, amount))
  }

  function PoolsFunded(s: State, from: nat, a: nat, own: nat, core: nat): Option<State> {
    if !(CORE < a < |s.assets|) then None else
    var s1 :- Adjust(s, from, Minus(Asset(a, own)));
    var s2 :- Adjust(s1, from, Minus(Asset(CORE, core)));
    Some(AssetChanged(s2, a, 0, own, core))
  }

  function FeesClaimed(s: State, issuer: nat, a: nat, own: nat, core: nat): Option<State> {
    if a >= |s.assets| then None else
    var s1 :- Adjust(s, issuer, Asset(a, own));
    var s2 :- Adjust(s1, issuer, Asset(CORE, core));
    Some(AssetChanged(s2, a, 0, 0 - own, 0 - core))
  }

  function Reserved(s: State, payer: nat, what: Asset): Option<State> {
    if !(what.id < |s.assets| && 0 <= what.amount <= s.assets[what.id].supply) then None else
    var s' :- Adjust(s, payer, Minus(what));
    Some(AssetChanged(s', what.id, Minus(what).amount, 0, 0))
  }

  function Issued(s: State, to: nat, what: Asset): Option<State> {
    if !(what.id < |s.assets| && 0 <= what.amount) then None else
    var s' :- Adjust(s, to, what);
    Some(AssetChanged(s', what.id, what.amount, 0, 0))
  }

  /** What `core_fee_paid` is when the fee is booked: asset creation has halved it by then. */
  function Booked(fee: Fee, action: Action): nat {
    if action.CreateAsset? then fee.core - fee.core / 2 else fee.core
  }

  /** The checks made before anything changes. Claims are checked against the pools as they are before
      the fee is taken. */
  predicate Prepared(s: State, fee: Fee, action: Action) {
    && fee.paid.amount >= 0 && CORE < |s.assets| && fee.paid.id < |s.assets|
    && (if fee.paid.id == CORE then fee.core == fee.paid.amount else fee.core <= s.assets[fee.paid.id].corePool)
    && (action.ClaimFees? ==>
      && action.asset < |s.assets|
      && action.own <= s.assets[action.asset].pool && action.core <= s.assets[action.asset].corePool)
  }

  /** `convert_fee` and `pay_fee`. */
  function Charged(s: State, fee: Fee, booked: nat): State
    requires CORE < |s.assets| && fee.paid.id < |s.assets|
  {
    var converted := if fee.paid.id == CORE then s else AssetChanged(s, fee.paid.id, 0, fee.paid.amount, 0 - booked);
    AssetChanged(converted, CORE, 0, booked, 0)
  }

  function Applied(s: State, action: Action, booked: nat): Option<State> {
    match action
    case Transfer(from, to, what) => Move(s, from, to, what)
    case TransferToContent(from, i, what) =>
      if !(i < |s.contents| && what.amount >= 0) then None else
      var s' :- Adjust(s, from, Minus(what));
      PayAuthors(s', s.contents[i], what)
    case Submit(author, c, quorum, seeders, fee) => Submitted(s, author, c, quorum, seeders, fee)
    case Resubmit(i, c) => Resubmitted(s, i, c)
    case RequestToBuy(consumer, i, price, subscriber) => Bought(s, consumer, i, price, subscriber)
    case DeliverKeys(i, seeder) => Delivered(s, i, seeder)
    case ProveCustody(i, seeder, reward, capped) => ProvedCustody(s, i, seeder, reward, capped)
    case CreateVesting(creator, what) => VestingCreated(s, creator, what)
    case WithdrawVesting(v, owner, amount) => VestingWithdrawn(s, v, owner, amount)
    case CreateAsset => Some(s.(assets := s.assets + [AssetData(0, 0, booked)]))
    case FundPools(from, a, own, core) => PoolsFunded(s, from, a, own, core)
    case ClaimFees(issuer, a, own, core) => FeesClaimed(s, issuer, a, own, core)
    case Reserve(payer, what) => Reserved(s, payer, what)
    case Issue(to, what) => Issued(s, to, what)
  }

  /** An evaluator's life: check, book the fee, apply, and last debit the payer. */
  function Operated(s: State, fee: Fee, action: Action): Option<State> {
    if !Prepared(s, fee, action) then None else
    var booked := Booked(fee, action);
    var s' :- Applied(Charged(s, fee, booked), action, booked);
    Adjust(s', fee.payer, Minus(fee.paid))
  }

  /** `update_signing_miner` and `deposit_miner_pay`. */
  function MinerPaid(s: State, vesting: Option<nat>, reward: nat, fromFees: nat): Option<State> {
    var s' := s.(mined := s.mined + reward, unspent := s.unspent - fromFees);
    if reward + fromFees == 0 then Some(s')
    else
      match vesting
      case None => Some(WithVesting(s', Asset(CORE, reward + fromFees)))
      case Some(v) =>
        if !(v < |s.vestings| && s.vestings[v].id == CORE) then None
        else Some(VestingChanged(s', v, reward + fromFees))
  }

  function CoreData(s: State): AssetData {
    if |s.assets| == 0 then AssetData(0, 0, 0) else s.assets[CORE]
  }

  /** What the next budget will set the supply of the core asset to. */
  function SupplyAfterBudget(s: State): int {
    CoreData(s).supply + s.mined + s.budget - s.unspent - CoreData(s).pool
  }

  function Budgeted(s: State): Option<State> {
    if CORE >= |s.assets| then None else
    var fees := s.assets[CORE].pool + s.unspent;
    var core := s.assets[CORE].(supply := SupplyAfterBudget(s), pool := 0);
    Some(s.(assets := s.assets[CORE := core], budget := fees, unspent := fees, mined := 0, lastBudget := s.now))
  }

  function Step(s: State, e: Event): Option<State> {
    match e
    case Operation(fee, action) => Operated(s, fee, action)
    case PayMiner(vesting, reward, fromFees) => MinerPaid(s, vesting, reward, fromFees)
    case ExpireContent(i) => ExpiredContent(s, i)
    case ExpireBuying(i) => ExpiredBuying(s, i)
    case Renew(from, to, price) => Move(s, from, to, price)
    case ProcessBudget => Budgeted(s)
    case Advance(now) => if now < s.now then None else Some(s.(now := now))
  }

  /** An event that throws is undone and leaves no trace. */
  function Next(s: State, e: Event): State {
    match Step(s, e)
    case None => s
    case Some(s') => s'
  }

  function Run(s: State, es: seq<Event>): State {
    if es == [] then s else Next(Run(s, es[..|es| - 1]), es[|es| - 1])
  }
}
