/** The evaluators and maintenance steps that move money, as they update the object database. */
module LedgerDatabase {
  import opened Options
  import opened Balances
  import opened Payout
  import opened Ledger
  import opened Purchases
  import opened Supply
  import opened Housekeeping

  /** Methods return false where the source throws; the session around them is then undone. */
  class LedgerDatabase {
    const accounts: AccountBalances
    var vestings: seq<Asset>
    var contents: seq<Content>
    var buyings: seq<Buying>
    var assets: seq<AssetData>
    var mined: int
    var budget: int
    var unspent: int
    var now: nat
    var lastBudget: nat

    function State(): State
      reads this, accounts
    {
      Ledger.State(accounts.balances, vestings, contents, buyings, assets, mined, budget, unspent, now, lastBudget)
    }

    constructor (s: State)
      ensures State() == s && fresh(accounts)
    {
      var a := new AccountBalances(s.balances);
      accounts := a;
      vestings, contents, buyings, assets := s.vestings, s.contents, s.buyings, s.assets;
      mined, budget, unspent, now, lastBudget := s.mined, s.budget, s.unspent, s.now, s.lastBudget;
    }

    /** `convert_fee` followed by `pay_fee`. */
    method ChargeFee(fee: Fee, booked: nat)
      requires CORE < |assets| && fee.paid.id < |assets|
      modifies this
      ensures State() == Charged(old(State()), fee, booked)
      ensures Surplus(State(), CORE) == old(Surplus(State(), CORE)) + if fee.paid.id == CORE then booked else 0
    {
      ChargedSurplus(State(), fee, booked, CORE);
      if fee.paid.id != CORE {
        var d := assets[fee.paid.id];
        assets := assets[fee.paid.id := d.(pool := d.pool + fee.paid.amount, corePool := d.corePool - booked)];
      }
      assets := assets[CORE := assets[CORE].(pool := assets[CORE].pool + booked)];
    }

    /** `deposit_miner_pay` into the vesting balance the miner already has, or into a new one. */
    method PayMiner(vesting: Option<nat>, reward: nat, fromFees: nat) returns (ok: bool)
      requires CORE < |assets|
      modifies this
      ensures ok <==> MinerPaid(old(State()), vesting, reward, fromFees).Some?
      ensures ok ==> MinerPaid(old(State()), vesting, reward, fromFees) == Some(State())
      ensures ok ==> Surplus(State(), CORE) == old(Surplus(State(), CORE))
    {
      ghost var s := State();
      ok := true;
      mined, unspent := mined + reward, unspent - fromFees;
      var amount := reward + fromFees;
      if amount > 0 {
        match vesting
        case None =>
          vestings := vestings + [Asset(CORE, amount)];
        case Some(v) =>
          ok := v < |vestings| && vestings[v].id == CORE;
          if ok {
            vestings := vestings[v := Asset(CORE, vestings[v].amount + amount)];
          }
      }
      if ok {
        MinerPaySurplus(s, vesting, reward, fromFees, CORE);
      }
    }

    method RequestToBuy(consumer: nat, i: nat, price: Asset, subscriber: bool) returns (ok: bool)
      requires i < |contents| ==> InOrder(contents[i].coAuthors)
      requires i < |contents| && price.amount >= 0 ==> Fits(price.amount, contents[i].coAuthors)
      modifies this, accounts
      ensures ok <==> Bought(old(State()), consumer, i, price, subscriber).Some?
      ensures ok ==> Bought(old(State()), consumer, i, price, subscriber) == Some(State())
      ensures ok ==> i < |old(contents)| && price.amount >= 0
      ensures ok ==> var c := old(contents)[i];
        && buyings == old(buyings) + [RecordedPurchase(old(State()), c, consumer, i, price, subscriber)]
        && (forall o, a ::
            BalanceOf(accounts.balances, o, a)
              == old(BalanceOf(accounts.balances, o, a)) + PurchaseMoves(c, consumer, price, subscriber, o, a))
    {
      if i >= |contents| || !(0 <= price.amount <= BalanceOf(accounts.balances, consumer, price.id)) {
        return false;
      }
      BoughtPays(State(), consumer, i, price, subscriber);
      ok := Purchase(consumer, i, Charge(price, subscriber));
    }

    method Purchase(consumer: nat, i: nat, paid: Asset) returns (ok: bool)
      requires i < |contents| && paid.amount >= 0
      requires InOrder(contents[i].coAuthors) && Fits(paid.amount, contents[i].coAuthors)
      modifies this, accounts
      ensures ok <==> Purchased(old(State()), consumer, i, paid).Some?
      ensures ok ==> Purchased(old(State()), consumer, i, paid) == Some(State())
    {
      var content := contents[i];
      var delivered, escrow := false, paid;
      if content.seeders == {} {
        delivered, escrow := true, Asset(CORE, 0);
      }
      buyings := buyings + [Buying(consumer, i, escrow, paid.amount, now + PURCHASE_LIFETIME, [], delivered, false)];
      ok := accounts.AdjustBalance(consumer, Minus(paid));
      if ok && delivered {
        PaidOutCredits(accounts.balances, content.author, content.coAuthors, paid);
        ok := accounts.ContentPayout(content.author, content.coAuthors, paid);
      }
    }

    method BuyingExpire(i: nat) returns (ok: bool)
      requires i < |buyings|
      modifies this, accounts
      ensures ok <==> Refunded(old(State()), i).Some?
      ensures ok ==> Refunded(old(State()), i) == Some(State())
    {
      var b := buyings[i];
      ok := accounts.AdjustBalance(b.consumer, b.escrow);
      if ok {
        buyings := buyings[i := b.(escrow := b.escrow.(amount := 0), expired := true)];
      }
    }

    method DeliverKeys(i: nat, seeder: nat) returns (ok: bool)
      requires Sound(State())
      requires i < |buyings| ==> Fits(buyings[i].paid, contents[buyings[i].content].coAuthors)
      modifies this, accounts
      ensures ok <==> Delivered(old(State()), i, seeder).Some?
      ensures ok ==> Delivered(old(State()), i, seeder) == Some(State()) && Sound(State())
      ensures ok ==> i < |old(buyings)| && Answered(old(State()), i, seeder, buyings[i])
      ensures ok ==> forall o, a ::
        BalanceOf(accounts.balances, o, a)
          == old(BalanceOf(accounts.balances, o, a)) + DeliveryMoves(old(State()), i, seeder, o, a)
    {
      if i >= |buyings| || seeder !in contents[buyings[i].content].seeders {
        return false;
      }
      ghost var s := State();
      assert SoundPurchase(s.contents, s.buyings[i]);
      var content := contents[buyings[i].content];
      assert SoundContent(content);
      if seeder !in buyings[i].answered {
        buyings := buyings[i := buyings[i].(answered := buyings[i].answered + [seeder])];
      }
      ghost var noted := s.(buyings := s.buyings[i := Noted(s.buyings[i], seeder)]);
      assert State() == noted;
      if buyings[i].delivered || buyings[i].expired {
        ok := true;
      } else if |buyings[i].answered| >= content.quorum {
        var paid := Asset(buyings[i].escrow.id, buyings[i].paid);
        PaidOutCredits(accounts.balances, content.author, content.coAuthors, paid);
        ok := accounts.ContentPayout(content.author, content.coAuthors, paid);
        if ok {
          buyings := buyings[i := buyings[i].(escrow := buyings[i].escrow.(amount := 0), delivered := true)];
        }
      } else if buyings[i].expires < now {
        ok := BuyingExpire(i);
      } else {
        ok := true;
      }
      if ok {
        DeliveryPays(s, i, seeder);
      }
    }

    method ContentExpire(i: nat) returns (ok: bool)
      requires i < |contents|
      modifies this, accounts
      ensures ok <==> ExpiredContent(old(State()), i).Some?
      ensures ok ==> ExpiredContent(old(State()), i) == Some(State())
      ensures ok ==> var escrow := Asset(CORE, old(contents)[i].escrow);
        var payer := if escrow.amount >= 0 then old(contents)[i].author else SHORTFALL_PAYER;
        forall o, a ::
          BalanceOf(accounts.balances, o, a) == old(BalanceOf(accounts.balances, o, a)) + Moved(payer, escrow, o, a)
    {
      ExpiredContentPays(State(), i);
      var c := contents[i];
      if c.escrow >= 0 {
        ok := accounts.AdjustBalance(c.author, Asset(CORE, c.escrow));
      } else {
        ok := accounts.AdjustBalance(SHORTFALL_PAYER, Asset(CORE, c.escrow));
      }
      if ok {
        contents := contents[i := c.(escrow := 0)];
      }
    }

    method ExpireIfUndelivered(i: nat)
      requires Sound(State()) && i < |buyings| && buyings[i].expires <= now
      modifies this, accounts
      ensures State() == Next(old(State()), ExpireBuying(i))
    {
      ExpiryPays(State(), i);
      if !buyings[i].delivered {
        var ok := BuyingExpire(i);
      }
    }

    /** The purchase loop of `decent_housekeeping`, from one block interval after the last budget on. It
        cannot fail, and afterwards every purchase in its range is closed. */
    method ExpireBuyings(interval: nat, order: seq<nat>)
      requires Sound(State()) && DuePurchases(State(), lastBudget + interval, order)
      modifies this, accounts
      ensures State() == Swept(old(State()), order) && Sound(State())
      ensures |buyings| == |old(buyings)|
      ensures forall i :: 0 <= i < |buyings| ==>
        if lastBudget + interval <= buyings[i].expires <= now then Closed(buyings[i]) else buyings[i] == old(buyings)[i]
    {
      ghost var s := State();
      for k := 0 to |order|
        invariant State() == Swept(s, order[..k]) && Sound(State())
        invariant |buyings| == |s.buyings|
      {
        assert order[..k + 1][..k] == order[..k];
        SweptCloses(s, order[..k]);
        assert SweptPurchase(s, State(), order[..k], order[k]);
        ExpiryTouchesOne(State(), order[k]);
        ExpireIfUndelivered(order[k]);
      }
      assert order[..|order|] == order;
      SweptCloses(s, order);
      forall i | 0 <= i < |buyings|
        ensures
          if lastBudget + interval <= buyings[i].expires <= now then Closed(buyings[i]) else buyings[i] == s.buyings[i]
      {
        assert SweptPurchase(s, State(), order, i);
      }
    }

    method GetRealSupply() returns (total: int)
      ensures total == RealSupply(State())
    {
      var balances := SumBalances(accounts.balances);
      var vested := SumOf(vestings, AmountOf);
      var published := SumOf(contents, ContentEscrow);
      var purchases := SumOf(buyings, PurchaseEscrow);
      var pools := SumOf(assets, CorePoolOf);
      total := balances + vested + published + purchases + pools;
    }

    /** The supply is rewritten from the counters; the caller asserts that it is the real one. */
    method ProcessBudget() returns (realSupply: int)
      requires CORE < |assets|
      modifies this
      ensures Budgeted(old(State())) == Some(State())
      ensures realSupply == RealSupply(old(State()))
      ensures old(Surplus(State(), CORE)) == 0 && OnlyCore(old(State())) && Sound(old(State())) ==>
        assets[CORE].supply == realSupply
    {
      realSupply := GetRealSupply();
      ghost var s := State();
      if Sound(s) && Surplus(s, CORE) == 0 && OnlyCore(s) {
        BalancedBooks(s);
      }
      var fees := assets[CORE].pool + unspent;
      var generated := mined + budget - unspent;
      var delta := generated - assets[CORE].pool;
      assets := assets[CORE := assets[CORE].(supply := assets[CORE].supply + delta, pool := 0)];
      budget, unspent, mined, lastBudget := fees, fees, 0, now;
    }
  }

  method SumBalances(b: seq<AccountBalance>) returns (total: int)
    ensures total == AssetTotal(b, CORE)
  {
    total := 0;
    for i := 0 to |b|
      invariant total + AssetTotal(b[i..], CORE) == AssetTotal(b, CORE)
    {
      if b[i].asset == CORE {
        total := total + b[i].amount;
      }
    }
  }

  method SumOf<T>(xs: seq<T>, f: T -> int) returns (total: int)
    ensures total == Total(xs, f)
  {
    total := 0;
    for i := 0 to |xs|
      invariant total + Total(xs[i..], f) == Total(xs, f)
    {
      total := total + f(xs[i]);
    }
  }
}
