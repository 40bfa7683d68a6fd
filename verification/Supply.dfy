/** Where each asset is, and the core asset above all, against what the supply counters say. */
module Supply {
  import opened Options
  import opened Balances
  import opened Payout
  import opened Ledger
  import opened Purchases

  function Total<T>(xs: seq<T>, f: T -> int): int {
    if xs == [] then 0 else f(xs[0]) + Total(xs[1..], f)
  }

  lemma {:induction false} TotalOfUpdate<T>(xs: seq<T>, f: T -> int, i: nat, x: T)
    requires i < |xs|
    ensures Total(xs[i := x], f) == Total(xs, f) - f(xs[i]) + f(x)
  {
    if i > 0 {
      assert xs[i := x][1..] == xs[1..][i - 1 := x];
      TotalOfUpdate(xs[1..], f, i - 1, x);
    } else {
      assert xs[i := x][1..] == xs[1..];
    }
  }

  lemma {:induction false} TotalOfAppend<T>(xs: seq<T>, f: T -> int, x: T)
    ensures Total(xs + [x], f) == Total(xs, f) + f(x)
  {
    if xs == [] {
      assert xs + [x] == [x];
    } else {
      assert (xs + [x])[1..] == xs[1..] + [x];
      TotalOfAppend(xs[1..], f, x);
    }
  }

  function AmountOf(a: Asset): int { a.amount }
  function ContentEscrow(c: Content): int { c.escrow }
  function PurchaseEscrow(b: Buying): int { b.escrow.amount }
  function CorePoolOf(d: AssetData): int { d.corePool }

  function PartIn(k: nat): Asset -> int {
    (a: Asset) => Part(a, k)
  }

  function EscrowIn(k: nat): Buying -> int {
    (b: Buying) => Part(b.escrow, k)
  }

  /** `get_real_supply`: all core balances, and all vesting balances, escrows and fee pools. Vesting
      balances and purchase escrows are added whatever asset they are in. */
  function RealSupply(s: State): int {
    AssetTotal(s.balances, CORE) + Total(s.vestings, AmountOf) + Total(s.contents, ContentEscrow)
    + Total(s.buyings, PurchaseEscrow) + Total(s.assets, CorePoolOf)
  }

  /** What accounts, vesting balances and purchase escrows hold of asset `k`. */
  function Held(s: State, k: nat): int {
    AssetTotal(s.balances, k) + Total(s.vestings, PartIn(k)) + Total(s.buyings, EscrowIn(k))
  }

  /** What only the core asset has: publishing escrows and fee pools hold it, and mined rewards and the
      spent part of the fee budget have been paid out of no supply yet. */
  function CoreSide(s: State): int {
    Total(s.contents, ContentEscrow) + Total(s.assets, CorePoolOf) - s.mined - s.budget + s.unspent
  }

  function DataOf(s: State, k: nat): AssetData {
    if k < |s.assets| then s.assets[k] else AssetData(0, 0, 0)
  }

  /** How far what is held and pooled of asset `k` is ahead of its supply. */
  function Surplus(s: State, k: nat): int {
    Held(s, k) + DataOf(s, k).pool - DataOf(s, k).supply + if k == CORE then CoreSide(s) else 0
  }

  /** Vested or escrowed amounts of other assets, which `get_real_supply` counts as core. */
  function ForeignHeld(s: State): int {
    Total(s.vestings, AmountOf) - Total(s.vestings, PartIn(CORE))
    + Total(s.buyings, PurchaseEscrow) - Total(s.buyings, EscrowIn(CORE))
  }

  /** The core surplus is how far the real supply, other assets apart, is ahead of what the next budget
      will declare the supply to be. */
  lemma CoreSurplus(s: State)
    ensures Surplus(s, CORE) == RealSupply(s) - ForeignHeld(s) - SupplyAfterBudget(s)
  {
  }

  /** The core asset an event creates: only the creation of an asset does, by booking half its fee twice. */
  function Minted(s: State, e: Event): nat {
    if e.Operation? && e.action.CreateAsset? && Step(s, e).Some? then
      if e.fee.paid.id == CORE then e.fee.core % 2 else Booked(e.fee, e.action)
    else 0
  }

  // ---------------------------------------------------------------- the building blocks

  lemma AdjustSurplus(s: State, owner: nat, delta: Asset, k: nat)
    requires CORE < |s.assets|
    ensures var r := Adjust(s, owner, delta); r.Some? ==>
      && r.value == s.(balances := r.value.balances)
      && Surplus(r.value, k) == Surplus(s, k) + Part(delta, k)
  {
    AdjustedChanges(s.balances, owner, delta);
  }

  lemma PayAuthorsSurplus(s: State, content: Content, paid: Asset, k: nat)
    requires CORE < |s.assets| && paid.amount >= 0 && InOrder(content.coAuthors)
    ensures var r := PayAuthors(s, content, paid); r.Some? ==>
      && r.value == s.(balances := r.value.balances)
      && Surplus(r.value, k) == Surplus(s, k) + Part(paid, k)
  {
    PaidOutCredits(s.balances, content.author, content.coAuthors, paid);
  }

  lemma ContentUpdateSurplus(s: State, i: nat, c: Content, k: nat)
    requires CORE < |s.assets| && i < |s.contents|
    ensures Surplus(s.(contents := s.contents[i := c]), k) ==
      Surplus(s, k) + if k == CORE then c.escrow - s.contents[i].escrow else 0
  {
    TotalOfUpdate(s.contents, ContentEscrow, i, c);
  }

  lemma BuyingUpdateSurplus(s: State, i: nat, b: Buying, k: nat)
    requires CORE < |s.assets| && i < |s.buyings|
    ensures Surplus(s.(buyings := s.buyings[i := b]), k) ==
      Surplus(s, k) - Part(s.buyings[i].escrow, k) + Part(b.escrow, k)
  {
    TotalOfUpdate(s.buyings, EscrowIn(k), i, b);
  }

  lemma VestingSurplus(s: State, what: Asset, k: nat)
    requires CORE < |s.assets|
    ensures Surplus(WithVesting(s, what), k) == Surplus(s, k) + Part(what, k)
  {
    TotalOfAppend(s.vestings, PartIn(k), what);
  }

  lemma VestingChangedSurplus(s: State, v: nat, delta: int, k: nat)
    requires CORE < |s.assets| && v < |s.vestings|
    ensures Surplus(VestingChanged(s, v, delta), k) == Surplus(s, k) + Part(Asset(s.vestings[v].id, delta), k)
  {
    TotalOfUpdate(s.vestings, PartIn(k), v, s.vestings[v].(amount := s.vestings[v].amount + delta));
  }

  lemma AssetChangedSurplus(s: State, a: nat, supply: int, pool: int, corePool: int, k: nat)
    requires CORE < |s.assets| && a < |s.assets|
    ensures Surplus(AssetChanged(s, a, supply, pool, corePool), k) ==
      Surplus(s, k) + (if k == CORE then corePool else 0) + if a == k then pool - supply else 0
  {
    var d := s.assets[a];
    TotalOfUpdate(s.assets, CorePoolOf, a, AssetData(d.supply + supply, d.pool + pool, d.corePool + corePool));
  }

  // ---------------------------------------------------------------- purchases, contents, actions

  lemma MoveSurplus(s: State, from: nat, to: nat, what: Asset, k: nat)
    requires CORE < |s.assets|
    ensures Move(s, from, to, what).Some? ==> Surplus(Move(s, from, to, what).value, k) == Surplus(s, k)
  {
    AdjustSurplus(s, from, Minus(what), k);
    if what.amount >= 0 && Adjust(s, from, Minus(what)).Some? {
      AdjustSurplus(Adjust(s, from, Minus(what)).value, to, what, k);
    }
  }

  lemma PurchasedSurplus(s: State, consumer: nat, i: nat, paid: Asset, k: nat)
    requires Sound(s) && i < |s.contents| && paid.amount >= 0
    ensures Purchased(s, consumer, i, paid).Some? ==> Surplus(Purchased(s, consumer, i, paid).value, k) == Surplus(s, k)
  {
    var b := NewPurchase(s, consumer, i, paid);
    var s1 := s.(buyings := s.buyings + [b]);
    assert Surplus(s1, k) == Surplus(s, k) + Part(b.escrow, k) by {
      TotalOfAppend(s.buyings, EscrowIn(k), b);
    }
    AdjustSurplus(s1, consumer, Minus(paid), k);
    if b.delivered && Adjust(s1, consumer, Minus(paid)).Some? {
      PayAuthorsSurplus(Adjust(s1, consumer, Minus(paid)).value, s.contents[i], paid, k);
    }
  }

  lemma BoughtSurplus(s: State, consumer: nat, i: nat, price: Asset, subscriber: bool, k: nat)
    requires Sound(s) && Bought(s, consumer, i, price, subscriber).Some?
    ensures Surplus(Bought(s, consumer, i, price, subscriber).value, k) == Surplus(s, k)
  {
    PurchasedSurplus(s, consumer, i, Charge(price, subscriber), k);
  }

  lemma RefundedSurplus(s: State, i: nat, k: nat)
    requires CORE < |s.assets| && i < |s.buyings|
    ensures Refunded(s, i).Some? ==> Surplus(Refunded(s, i).value, k) == Surplus(s, k)
  {
    var b := s.buyings[i];
    AdjustSurplus(s, b.consumer, b.escrow, k);
    if Adjust(s, b.consumer, b.escrow).Some? {
      var d := b.(escrow := b.escrow.(amount := 0), expired := true);
      BuyingUpdateSurplus(Adjust(s, b.consumer, b.escrow).value, i, d, k);
    }
  }

  lemma DeliveredSurplus(s: State, i: nat, seeder: nat, k: nat)
    requires Sound(s)
    ensures Delivered(s, i, seeder).Some? ==> Surplus(Delivered(s, i, seeder).value, k) == Surplus(s, k)
  {
    if i < |s.buyings| {
      assert SoundPurchase(s.contents, s.buyings[i]);
      var content := s.contents[s.buyings[i].content];
      var b := Noted(s.buyings[i], seeder);
      var noted := s.(buyings := s.buyings[i := b]);
      BuyingUpdateSurplus(s, i, b, k);
      RefundedSurplus(noted, i, k);
      if !Closed(b) {
        var paid := Asset(b.escrow.id, b.paid);
        PayAuthorsSurplus(noted, content, paid, k);
        if PayAuthors(noted, content, paid).Some? {
          var done := b.(escrow := b.escrow.(amount := 0), delivered := true);
          BuyingUpdateSurplus(PayAuthors(noted, content, paid).value, i, done, k);
        }
      }
    }
  }

  lemma ExpiredContentSurplus(s: State, i: nat, k: nat)
    requires CORE < |s.assets|
    ensures ExpiredContent(s, i).Some? ==> Surplus(ExpiredContent(s, i).value, k) == Surplus(s, k)
  {
    if i < |s.contents| {
      var c := s.contents[i];
      var payer := if c.escrow >= 0 then c.author else SHORTFALL_PAYER;
      AdjustSurplus(s, payer, Asset(CORE, c.escrow), k);
      if Adjust(s, payer, Asset(CORE, c.escrow)).Some? {
        ContentUpdateSurplus(Adjust(s, payer, Asset(CORE, c.escrow)).value, i, c.(escrow := 0), k);
      }
    }
  }

  lemma TransferToContentSurplus(s: State, from: nat, i: nat, what: Asset, booked: nat, k: nat)
    requires Sound(s)
    ensures var r := Applied(s, TransferToContent(from, i, what), booked);
      r.Some? ==> Surplus(r.value, k) == Surplus(s, k)
  {
    if i < |s.contents| && what.amount >= 0 {
      AdjustSurplus(s, from, Minus(what), k);
      if Adjust(s, from, Minus(what)).Some? {
        assert SoundContent(s.contents[i]);
        PayAuthorsSurplus(Adjust(s, from, Minus(what)).value, s.contents[i], what, k);
      }
    }
  }

  lemma SubmittedSurplus(s: State, author: nat, c: seq<Split>, quorum: nat, seeders: set<nat>, fee: nat, k: nat)
    requires CORE < |s.assets|
    ensures var r := Submitted(s, author, c, quorum, seeders, fee); r.Some? ==> Surplus(r.value, k) == Surplus(s, k)
  {
    AdjustSurplus(s, author, Minus(Asset(CORE, fee)), k);
    TotalOfAppend(s.contents, ContentEscrow, Content(author, c, quorum, seeders, fee));
  }

  lemma ProvedCustodySurplus(s: State, i: nat, seeder: nat, reward: nat, capped: bool, k: nat)
    requires CORE < |s.assets|
    ensures var r := ProvedCustody(s, i, seeder, reward, capped); r.Some? ==> Surplus(r.value, k) == Surplus(s, k)
  {
    if i < |s.contents| {
      var c := s.contents[i];
      var paid := if capped && reward > c.escrow then (if c.escrow > 0 then c.escrow else 0) else reward;
      ContentUpdateSurplus(s, i, c.(escrow := c.escrow - paid), k);
      AdjustSurplus(s.(contents := s.contents[i := c.(escrow := c.escrow - paid)]), seeder, Asset(CORE, paid), k);
    }
  }

  lemma ContentActionSurplus(s: State, action: Action, booked: nat, k: nat)
    requires Sound(s)
    requires action.TransferToContent? || action.Submit? || action.Resubmit? || action.ProveCustody?
    ensures Applied(s, action, booked).Some? ==> Surplus(Applied(s, action, booked).value, k) == Surplus(s, k)
  {
    match action
    case TransferToContent(from, i, what) => TransferToContentSurplus(s, from, i, what, booked, k);
    case Submit(author, c, quorum, seeders, fee) => SubmittedSurplus(s, author, c, quorum, seeders, fee, k);
    case ProveCustody(i, seeder, reward, capped) => ProvedCustodySurplus(s, i, seeder, reward, capped, k);
    case Resubmit(i, c) =>
      if i < |s.contents| {
        ContentUpdateSurplus(s, i, s.contents[i].(coAuthors := c), k);
      }
  }

  /** Two balances of one owner change, and then the data of asset `a`. */
  lemma PoolChangeSurplus(s: State, owner: nat, d1: Asset, d2: Asset, a: nat, pool: int, corePool: int, k: nat)
    requires CORE < |s.assets| && a < |s.assets| && Adjust(s, owner, d1).Some?
    requires Adjust(Adjust(s, owner, d1).value, owner, d2).Some?
    ensures Surplus(AssetChanged(Adjust(Adjust(s, owner, d1).value, owner, d2).value, a, 0, pool, corePool), k) ==
      Surplus(s, k) + Part(d1, k) + Part(d2, k) + (if k == CORE then corePool else 0) + if a == k then pool else 0
  {
    AdjustSurplus(s, owner, d1, k);
    var s1 := Adjust(s, owner, d1).value;
    AdjustSurplus(s1, owner, d2, k);
    AssetChangedSurplus(Adjust(s1, owner, d2).value, a, 0, pool, corePool, k);
  }

  lemma PoolsFundedSurplus(s: State, from: nat, a: nat, own: nat, core: nat, k: nat)
    requires CORE < |s.assets| && PoolsFunded(s, from, a, own, core).Some?
    ensures Surplus(PoolsFunded(s, from, a, own, core).value, k) == Surplus(s, k)
  {
    PoolChangeSurplus(s, from, Minus(Asset(a, own)), Minus(Asset(CORE, core)), a, own, core, k);
  }

  lemma FeesClaimedSurplus(s: State, issuer: nat, a: nat, own: nat, core: nat, k: nat)
    requires CORE < |s.assets| && FeesClaimed(s, issuer, a, own, core).Some?
    ensures Surplus(FeesClaimed(s, issuer, a, own, core).value, k) == Surplus(s, k)
  {
    PoolChangeSurplus(s, issuer, Asset(a, own), Asset(CORE, core), a, 0 - own, 0 - core, k);
  }

  lemma SupplyChangeSurplus(s: State, owner: nat, delta: Asset, k: nat)
    requires CORE < |s.assets| && delta.id < |s.assets| && Adjust(s, owner, delta).Some?
    ensures Surplus(AssetChanged(Adjust(s, owner, delta).value, delta.id, delta.amount, 0, 0), k) == Surplus(s, k)
  {
    AdjustSurplus(s, owner, delta, k);
    AssetChangedSurplus(Adjust(s, owner, delta).value, delta.id, delta.amount, 0, 0, k);
  }

  lemma ReservedSurplus(s: State, payer: nat, what: Asset, k: nat)
    requires CORE < |s.assets|
    ensures Reserved(s, payer, what).Some? ==> Surplus(Reserved(s, payer, what).value, k) == Surplus(s, k)
  {
    if what.id < |s.assets| && Adjust(s, payer, Minus(what)).Some? {
      SupplyChangeSurplus(s, payer, Minus(what), k);
    }
  }

  lemma IssuedSurplus(s: State, to: nat, what: Asset, k: nat)
    requires CORE < |s.assets|
    ensures Issued(s, to, what).Some? ==> Surplus(Issued(s, to, what).value, k) == Surplus(s, k)
  {
    if what.id < |s.assets| && Adjust(s, to, what).Some? {
      SupplyChangeSurplus(s, to, what, k);
    }
  }

  lemma PoolActionSurplus(s: State, action: Action, booked: nat, k: nat)
    requires CORE < |s.assets|
    requires action.FundPools? || action.ClaimFees? || action.Reserve? || action.Issue?
    ensures Applied(s, action, booked).Some? ==> Surplus(Applied(s, action, booked).value, k) == Surplus(s, k)
  {
    if Applied(s, action, booked).None? {
      return;
    }
    match action
    case FundPools(from, a, own, core) => PoolsFundedSurplus(s, from, a, own, core, k);
    case ClaimFees(issuer, a, own, core) => FeesClaimedSurplus(s, issuer, a, own, core, k);
    case Reserve(payer, what) => ReservedSurplus(s, payer, what, k);
    case Issue(to, what) => IssuedSurplus(s, to, what, k);
  }

  lemma VestingActionSurplus(s: State, action: Action, booked: nat, k: nat)
    requires CORE < |s.assets| && (action.CreateVesting? || action.WithdrawVesting?)
    ensures Applied(s, action, booked).Some? ==> Surplus(Applied(s, action, booked).value, k) == Surplus(s, k)
  {
    match action
    case CreateVesting(creator, what) =>
      AdjustSurplus(s, creator, Minus(what), k);
      if Adjust(s, creator, Minus(what)).Some? {
        VestingSurplus(Adjust(s, creator, Minus(what)).value, what, k);
      }
    case WithdrawVesting(v, owner, amount) =>
      if v < |s.vestings| {
        VestingChangedSurplus(s, v, 0 - amount, k);
        AdjustSurplus(VestingChanged(s, v, 0 - amount), owner, Asset(s.vestings[v].id, amount), k);
      }
  }

  lemma DirectActionSurplus(s: State, action: Action, booked: nat, k: nat)
    requires Sound(s) && (action.Transfer? || action.RequestToBuy? || action.DeliverKeys?)
    ensures Applied(s, action, booked).Some? ==> Surplus(Applied(s, action, booked).value, k) == Surplus(s, k)
  {
    if Applied(s, action, booked).None? {
      return;
    }
    match action
    case Transfer(from, to, what) => MoveSurplus(s, from, to, what, k);
    case DeliverKeys(i, seeder) => DeliveredSurplus(s, i, seeder, k);
    case RequestToBuy(consumer, i, price, subscriber) => BoughtSurplus(s, consumer, i, price, subscriber, k);
  }

  lemma CreateAssetSurplus(s: State, booked: nat, k: nat)
    requires Sound(s)
    ensures Applied(s, CreateAsset, booked).Some?
    ensures Surplus(Applied(s, CreateAsset, booked).value, k) == Surplus(s, k) + if k == CORE then booked else 0
  {
    TotalOfAppend(s.assets, CorePoolOf, AssetData(0, 0, booked));
  }

  /** No action moves the surplus but the creation of an asset, which fills the new pool. */
  lemma ActionSurplus(s: State, action: Action, booked: nat, k: nat)
    requires Sound(s)
    ensures Applied(s, action, booked).Some? ==>
      Surplus(Applied(s, action, booked).value, k)
        == Surplus(s, k) + if action.CreateAsset? && k == CORE then booked else 0
  {
    if action.CreateAsset? {
      CreateAssetSurplus(s, booked, k);
    } else if action.Transfer? || action.RequestToBuy? || action.DeliverKeys? {
      DirectActionSurplus(s, action, booked, k);
    } else if action.CreateVesting? || action.WithdrawVesting? {
      VestingActionSurplus(s, action, booked, k);
    } else if action.FundPools? || action.ClaimFees? || action.Reserve? || action.Issue? {
      PoolActionSurplus(s, action, booked, k);
    } else {
      ContentActionSurplus(s, action, booked, k);
    }
  }

  lemma ChargedSurplus(s: State, fee: Fee, booked: nat, k: nat)
    requires CORE < |s.assets| && fee.paid.id < |s.assets|
    ensures Surplus(Charged(s, fee, booked), k) ==
      Surplus(s, k) + if fee.paid.id != k then 0 else if k == CORE then booked else fee.paid.amount
  {
    if fee.paid.id == CORE {
      AssetChangedSurplus(s, CORE, 0, booked, 0, k);
    } else {
      AssetChangedSurplus(s, fee.paid.id, 0, fee.paid.amount, 0 - booked, k);
      AssetChangedSurplus(AssetChanged(s, fee.paid.id, 0, fee.paid.amount, 0 - booked), CORE, 0, booked, 0, k);
    }
  }

  lemma OperationParts(s: State, fee: Fee, action: Action, k: nat)
    requires Sound(s) && Operated(s, fee, action).Some?
    ensures Surplus(Operated(s, fee, action).value, k) ==
      Surplus(s, k) + (if fee.paid.id != k then 0 else if k == CORE then Booked(fee, action) else fee.paid.amount)
      + (if action.CreateAsset? && k == CORE then Booked(fee, action) else 0) - Part(fee.paid, k)
  {
    var booked := Booked(fee, action);
    var charged := Charged(s, fee, booked);
    ChargedSurplus(s, fee, booked, k);
    UntouchedEvolves(s, charged);
    ActionSurplus(charged, action, booked, k);
    ActionEvolves(charged, action, booked);
    var applied := Applied(charged, action, booked).value;
    assert Adjust(applied, fee.payer, Minus(fee.paid)) == Operated(s, fee, action);
    AdjustSurplus(applied, fee.payer, Minus(fee.paid), k);
  }

  lemma TwoHalves(n: nat)
    ensures 2 * (n - n / 2) == n + n % 2
  {
  }

  lemma OperationSurplus(s: State, fee: Fee, action: Action, k: nat)
    requires Sound(s) && Operated(s, fee, action).Some?
    ensures Surplus(Operated(s, fee, action).value, k) ==
      Surplus(s, k) + if k == CORE then Minted(s, Operation(fee, action)) else 0
  {
    OperationParts(s, fee, action, k);
    TwoHalves(fee.core);
    assert Step(s, Operation(fee, action)) == Operated(s, fee, action);
  }

  lemma BudgetSurplus(s: State, k: nat)
    requires CORE < |s.assets|
    ensures Budgeted(s).Some? && Surplus(Budgeted(s).value, k) == Surplus(s, k)
    ensures CoreData(Budgeted(s).value).supply == SupplyAfterBudget(s)
  {
    TotalOfUpdate(s.assets, CorePoolOf, CORE, s.assets[CORE].(supply := SupplyAfterBudget(s), pool := 0));
  }

  lemma MinerPaySurplus(s: State, vesting: Option<nat>, reward: nat, fromFees: nat, k: nat)
    requires CORE < |s.assets| && MinerPaid(s, vesting, reward, fromFees).Some?
    ensures Surplus(MinerPaid(s, vesting, reward, fromFees).value, k) == Surplus(s, k)
  {
    var s' := s.(mined := s.mined + reward, unspent := s.unspent - fromFees);
    if reward + fromFees > 0 && vesting.Some? {
      VestingChangedSurplus(s', vesting.value, reward + fromFees, k);
    } else if reward + fromFees > 0 {
      VestingSurplus(s', Asset(CORE, reward + fromFees), k);
    }
  }

  /** No event moves the surplus except by what asset creation mints. */
  lemma StepSurplus(s: State, e: Event, k: nat)
    requires Sound(s)
    ensures Surplus(Next(s, e), k) == Surplus(s, k) + if k == CORE then Minted(s, e) else 0
  {
    if Step(s, e).Some? {
      match e
      case Operation(fee, action) => OperationSurplus(s, fee, action, k);
      case PayMiner(vesting, reward, fromFees) => MinerPaySurplus(s, vesting, reward, fromFees, k);
      case ExpireContent(i) => ExpiredContentSurplus(s, i, k);
      case ExpireBuying(i) => RefundedSurplus(s, i, k);
      case Renew(from, to, price) => MoveSurplus(s, from, to, price, k);
      case ProcessBudget => BudgetSurplus(s, k);
      case Advance(now) =>
    }
  }

  // ---------------------------------------------------------------- whole runs

  function MintedIn(s: State, es: seq<Event>): nat {
    if es == [] then 0 else MintedIn(s, es[..|es| - 1]) + Minted(Run(s, es[..|es| - 1]), es[|es| - 1])
  }

  lemma {:induction false} RunSurplus(s: State, es: seq<Event>, k: nat)
    requires Sound(s)
    ensures Surplus(Run(s, es), k) == Surplus(s, k) + if k == CORE then MintedIn(s, es) else 0
  {
    if es != [] {
      RunSurplus(s, es[..|es| - 1], k);
      RunEvolves(s, es[..|es| - 1]);
      StepSurplus(Run(s, es[..|es| - 1]), es[|es| - 1], k);
    }
  }

  lemma {:induction false} PartAtMostWhole<T>(xs: seq<T>, f: T -> int, g: T -> int)
    requires forall i :: 0 <= i < |xs| ==> f(xs[i]) <= g(xs[i])
    ensures Total(xs, f) <= Total(xs, g)
    ensures Total(xs, f) == Total(xs, g) <==> forall i :: 0 <= i < |xs| ==> f(xs[i]) == g(xs[i])
  {
    if xs != [] {
      PartAtMostWhole(xs[1..], f, g);
      assert forall i :: 0 <= i < |xs[1..]| ==> xs[1..][i] == xs[i + 1];
      assert (forall i :: 0 <= i < |xs| ==> f(xs[i]) == g(xs[i])) <==>
        f(xs[0]) == g(xs[0]) && forall i :: 0 <= i < |xs[1..]| ==> f(xs[1..][i]) == g(xs[1..][i]) by {
        assert forall i :: 0 < i < |xs| ==> xs[i] == xs[1..][i - 1];
      }
    }
  }

  /** Nothing but the core asset is vested or held for a purchase. */
  ghost predicate OnlyCore(s: State) {
    && (forall i :: 0 <= i < |s.vestings| ==> s.vestings[i].id == CORE || s.vestings[i].amount == 0)
    && (forall i :: 0 <= i < |s.buyings| ==> s.buyings[i].escrow.id == CORE || s.buyings[i].escrow.amount == 0)
  }

  lemma ForeignIsNeverNegative(s: State)
    requires Sound(s)
    ensures ForeignHeld(s) >= 0
    ensures ForeignHeld(s) == 0 <==> OnlyCore(s)
  {
    assert forall i :: 0 <= i < |s.buyings| ==> SoundPurchase(s.contents, s.buyings[i]);
    PartAtMostWhole(s.vestings, PartIn(CORE), AmountOf);
    PartAtMostWhole(s.buyings, EscrowIn(CORE), PurchaseEscrow);
    assert OnlyCore(s) <==>
      && (forall i :: 0 <= i < |s.vestings| ==> Part(s.vestings[i], CORE) == AmountOf(s.vestings[i]))
      && (forall i :: 0 <= i < |s.buyings| ==> EscrowIn(CORE)(s.buyings[i]) == PurchaseEscrow(s.buyings[i]));
  }

  lemma BalancedBooks(s: State)
    requires Sound(s) && Surplus(s, CORE) == 0 && OnlyCore(s)
    ensures SupplyAfterBudget(s) == RealSupply(s)
  {
    ForeignIsNeverNegative(s);
    CoreSurplus(s);
  }

  /** `process_budget` asserts that the supply it writes is the real supply. In every run that started
      with the books balanced this holds at a budget exactly when no other asset is vested or escrowed
      at that moment and no asset creation has minted core before. */
  lemma BudgetAssertionHoldsIff(s: State, es: seq<Event>)
    requires Sound(s) && Surplus(s, CORE) == 0
    ensures var t := Run(s, es);
      CoreData(Next(t, ProcessBudget)).supply == RealSupply(t) <==> OnlyCore(t) && MintedIn(s, es) == 0
  {
    var t := Run(s, es);
    RunEvolves(s, es);
    RunSurplus(s, es, CORE);
    ForeignIsNeverNegative(t);
    BudgetSurplus(t, CORE);
    CoreSurplus(t);
  }

  /** Every other asset is conserved by every event, so over every run: what accounts, vesting balances
      and purchase escrows hold and its own pool move in step with its supply. */
  lemma OtherAssetsAreConserved(s: State, es: seq<Event>, k: nat)
    requires Sound(s) && k != CORE
    ensures Held(Run(s, es), k) + DataOf(Run(s, es), k).pool - DataOf(Run(s, es), k).supply
      == Held(s, k) + DataOf(s, k).pool - DataOf(s, k).supply
  {
    RunSurplus(s, es, k);
  }

  /** The events of a network that uses the core asset alone and pays even fees for creating assets. */
  predicate CoreOnly(e: Event) {
    e.Operation? ==>
      && (e.action.CreateVesting? ==> e.action.what.id == CORE)
      && (e.action.RequestToBuy? ==> e.action.price.id == CORE)
      && (e.action.CreateAsset? ==> e.fee.paid.id == CORE && e.fee.core % 2 == 0)
  }

  lemma DeliveryKeepsCore(s: State, i: nat, seeder: nat)
    requires Sound(s) && OnlyCore(s) && Delivered(s, i, seeder).Some?
    ensures OnlyCore(Delivered(s, i, seeder).value)
  {
    var t := Delivered(s, i, seeder).value;
    DeliveryPays(s, i, seeder);
    forall k | 0 <= k < |t.buyings| ensures t.buyings[k].escrow.id == CORE || t.buyings[k].escrow.amount == 0 {
      assert Progress(s.buyings[k], t.buyings[k]);
      assert SoundPurchase(s.contents, s.buyings[k]) && SoundPurchase(t.contents, t.buyings[k]);
    }
  }

  lemma PurchaseKeepsCore(s: State, consumer: nat, i: nat, paid: Asset)
    requires OnlyCore(s) && i < |s.contents| && paid.amount >= 0 && paid.id == CORE
    ensures Purchased(s, consumer, i, paid).Some? ==> OnlyCore(Purchased(s, consumer, i, paid).value)
  {
  }

  lemma VestingKeepsCore(s: State, action: Action, booked: nat)
    requires OnlyCore(s) && Applied(s, action, booked).Some?
    requires action.WithdrawVesting? || (action.CreateVesting? && action.what.id == CORE)
    ensures OnlyCore(Applied(s, action, booked).value)
  {
  }

  lemma ActionKeepsCore(s: State, action: Action, booked: nat)
    requires Sound(s) && OnlyCore(s) && Applied(s, action, booked).Some?
    requires action.CreateVesting? ==> action.what.id == CORE
    requires action.RequestToBuy? ==> action.price.id == CORE
    ensures OnlyCore(Applied(s, action, booked).value)
  {
    if action.DeliverKeys? {
      DeliveryKeepsCore(s, action.buying, action.seeder);
    } else if action.RequestToBuy? {
      PurchaseKeepsCore(s, action.consumer, action.content, Charge(action.price, action.subscriber));
    } else if action.CreateVesting? || action.WithdrawVesting? {
      VestingKeepsCore(s, action, booked);
    } else {
      OtherActionsHoldNothing(s, action, booked);
    }
  }

  lemma OperationKeepsCore(s: State, fee: Fee, action: Action)
    requires Sound(s) && OnlyCore(s) && CoreOnly(Operation(fee, action)) && Operated(s, fee, action).Some?
    ensures OnlyCore(Operated(s, fee, action).value)
  {
    var charged := Charged(s, fee, Booked(fee, action));
    UntouchedEvolves(s, charged);
    ActionKeepsCore(charged, action, Booked(fee, action));
  }

  lemma StepKeepsCore(s: State, e: Event)
    requires Sound(s) && OnlyCore(s) && CoreOnly(e)
    ensures OnlyCore(Next(s, e))
  {
    if e.Operation? && Step(s, e).Some? {
      OperationKeepsCore(s, e.fee, e.action);
    }
  }

  /** In every such run the supply equation holds throughout, and so at each maintenance. */
  lemma {:induction false} CoreIsConserved(s: State, es: seq<Event>)
    requires Sound(s) && Surplus(s, CORE) == 0 && OnlyCore(s)
    requires forall i :: 0 <= i < |es| ==> CoreOnly(es[i])
    ensures RealSupply(Run(s, es)) == SupplyAfterBudget(Run(s, es))
    ensures OnlyCore(Run(s, es)) && MintedIn(s, es) == 0
  {
    RunSurplus(s, es, CORE);
    RunEvolves(s, es);
    if es != [] {
      CoreIsConserved(s, es[..|es| - 1]);
      RunEvolves(s, es[..|es| - 1]);
      StepKeepsCore(Run(s, es[..|es| - 1]), es[|es| - 1]);
    }
    ForeignIsNeverNegative(Run(s, es));
    CoreSurplus(Run(s, es));
  }

  // ---------------------------------------------------------------- where the equation fails

  /** One account holding the whole supply `n` of the core asset, and `m` of asset 1. */
  function SmallState(n: nat, m: nat): State {
    State([AccountBalance(1, CORE, n), AccountBalance(1, 1, m)], [], [], [],
      [AssetData(n, 0, 0), AssetData(m, 0, 0)], 0, 0, 0, 0, 0)
  }

  lemma SmallStateIsSound(n: nat, m: nat)
    ensures Sound(SmallState(n, m)) && Surplus(SmallState(n, m), CORE) == 0 && OnlyCore(SmallState(n, m))
  {
    var s := SmallState(n, m);
    TotalOfAppend([AssetData(n, 0, 0)], CorePoolOf, AssetData(m, 0, 0));
    assert s.assets == [AssetData(n, 0, 0)] + [AssetData(m, 0, 0)];
    assert AssetTotal([AccountBalance(1, 1, m)], CORE) == 0;
    assert s.balances[1..] == [AccountBalance(1, 1, m)];
  }

  lemma OneEvent(s: State, e: Event)
    ensures Run(s, [e]) == Next(s, e) && MintedIn(s, [e]) == Minted(s, e)
  {
    assert [e][..0] == [];
    assert Run(s, []) == s && MintedIn(s, []) == 0;
  }

  /** Creating an asset takes nothing but the means to pay the fee. */
  lemma CreationNeedsTheFee(s: State, fee: Fee)
    requires Prepared(s, fee, CreateAsset)
    ensures Operated(s, fee, CreateAsset).Some? <==>
      fee.paid.amount == 0 || fee.paid.amount <= BalanceOf(s.balances, fee.payer, fee.paid.id)
  {
    var charged := Charged(s, fee, Booked(fee, CreateAsset));
    var applied := charged.(assets := charged.assets + [AssetData(0, 0, Booked(fee, CreateAsset))]);
    assert Operated(s, fee, CreateAsset) == Adjust(applied, fee.payer, Minus(fee.paid));
    assert applied.balances == s.balances;
    AdjustedChanges(s.balances, fee.payer, Minus(fee.paid));
  }

  /** Every odd fee for the creation of an asset makes the next budget's assertion fail. */
  lemma OddCreationFeeBreaksTheEquation(fee: nat)
    requires fee % 2 == 1
    ensures var e := Operation(Fee(1, Asset(CORE, fee), fee), CreateAsset); var t := Next(SmallState(fee, 0), e);
      CoreData(Next(t, ProcessBudget)).supply != RealSupply(t)
  {
    var s, e := SmallState(fee, 0), Operation(Fee(1, Asset(CORE, fee), fee), CreateAsset);
    SmallStateIsSound(fee, 0);
    CreationNeedsTheFee(s, e.fee);
    assert Step(s, e) == Operated(s, e.fee, CreateAsset);
    OneEvent(s, e);
    BudgetAssertionHoldsIff(s, [e]);
  }

  /** So does vesting any amount of another asset. */
  lemma ForeignVestingBreaksTheEquation(amount: nat)
    requires amount > 0
    ensures var e := Operation(Fee(1, Asset(CORE, 0), 0), CreateVesting(1, Asset(1, amount)));
      var t := Next(SmallState(0, amount), e);
      CoreData(Next(t, ProcessBudget)).supply != RealSupply(t)
  {
    var s, e := SmallState(0, amount), Operation(Fee(1, Asset(CORE, 0), 0), CreateVesting(1, Asset(1, amount)));
    SmallStateIsSound(0, amount);
    var t := Next(s, e);
    assert BalanceOf(s.balances, 1, 1) == amount by {
      assert s.balances[1..][0] == AccountBalance(1, 1, amount);
    }
    AdjustedChanges(s.balances, 1, Minus(Asset(1, amount)));
    assert Step(s, e).Some? && t.vestings[0] == Asset(1, amount);
    OneEvent(s, e);
    BudgetAssertionHoldsIff(s, [e]);
  }

  /** Claims are checked before the fee leaves the same pool. A claim that passes the checks goes through exactly
      when the payer covers the fee, with what is claimed if he is the issuer; the pool is then overdrawn
      exactly when claim and fee together exceed it. */
  lemma {:induction false} ClaimOverdrawsPoolIff(s: State, fee: Fee, issuer: nat, own: nat, core: nat)
    requires CORE < fee.paid.id && Prepared(s, fee, ClaimFees(issuer, fee.paid.id, own, core))
    ensures var a := fee.paid.id; var r := Operated(s, fee, ClaimFees(issuer, a, own, core));
      && (r.Some? <==>
          || fee.paid.amount == 0
          || fee.paid.amount <= BalanceOf(s.balances, fee.payer, a) + if fee.payer == issuer then own else 0)
      && (r.Some? ==> |r.value.assets| == |s.assets|)
      && (r.Some? ==> (r.value.assets[a].corePool < 0 <==> core + fee.core > s.assets[a].corePool))
  {
    var a, charged := fee.paid.id, Charged(s, fee, fee.core);
    assert charged.balances == s.balances && |charged.assets| == |s.assets|;
    assert charged.assets[a].corePool == s.assets[a].corePool - fee.core;
    AdjustedChanges(s.balances, issuer, Asset(a, own));
    var b1 := Adjusted(s.balances, issuer, Asset(a, own)).value;
    AdjustedChanges(b1, issuer, Asset(CORE, core));
    var b2 := Adjusted(b1, issuer, Asset(CORE, core)).value;
    var claimed := FeesClaimed(charged, issuer, a, own, core);
    assert claimed == Some(AssetChanged(charged.(balances := b2), a, 0, 0 - own, 0 - core));
    AdjustedChanges(b2, fee.payer, Minus(fee.paid));
  }

  /** One account holding `n` of asset 1, whose core pool holds `n` too. */
  function PooledState(n: nat): State {
    State([AccountBalance(1, 1, n)], [], [], [], [AssetData(n, 0, 0), AssetData(n, 0, n)], 0, 0, 0, 0, 0)
  }

  /** Whatever a pool holds, its issuer can claim all of it and pay a fee worth all of it out of it. */
  lemma {:induction false} WholePoolClaimedTwice(n: nat)
    requires n > 0
    ensures var r := Operated(PooledState(n), Fee(1, Asset(1, n), n), ClaimFees(1, 1, 0, n));
      r.Some? && |r.value.assets| == 2 && r.value.assets[1].corePool < 0
  {
    var s, fee := PooledState(n), Fee(1, Asset(1, n), n);
    assert s.balances[0] == AccountBalance(1, 1, n);
    ClaimOverdrawsPoolIff(s, fee, 1, 0, n);
  }
}
