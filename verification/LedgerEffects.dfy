/** What every operation of the ledger needs and moves, said on balances and objects. */
module LedgerEffects {
  import opened Options
  import opened Balances
  import opened Payout
  import opened Ledger

  /** `owner` holds as much as `what`; nothing is always held. */
  predicate Covers(s: State, owner: nat, what: Asset) {
    what.amount == 0 || what.amount <= BalanceOf(s.balances, owner, what.id)
  }

  /** What `who` has of `what`, for the holding of asset `a` by `o`. */
  function Amount(who: nat, what: Asset, o: nat, a: nat): int {
    if o == who && a == what.id then what.amount else 0
  }

  /** From `b` to `c`, `who` loses `what`, and no other balance moves. */
  ghost predicate Debits(b: seq<AccountBalance>, c: seq<AccountBalance>, who: nat, what: Asset) {
    forall o, a :: BalanceOf(c, o, a) == BalanceOf(b, o, a) - Amount(who, what, o, a)
  }

  /** From `b` to `c`, `who` gains `what`, and no other balance moves. */
  ghost predicate Credits(b: seq<AccountBalance>, c: seq<AccountBalance>, who: nat, what: Asset) {
    forall o, a :: BalanceOf(c, o, a) == BalanceOf(b, o, a) + Amount(who, what, o, a)
  }

  /** From `b` to `c`, `what` moves from `from` to `to`, and no other balance does. */
  ghost predicate Pays(b: seq<AccountBalance>, c: seq<AccountBalance>, from: nat, to: nat, what: Asset) {
    forall o, a :: BalanceOf(c, o, a) == BalanceOf(b, o, a) + Amount(to, what, o, a) - Amount(from, what, o, a)
  }

  lemma {:induction false} DebitIf(s: State, who: nat, what: Asset)
    requires what.amount >= 0
    ensures var r := Adjust(s, who, Minus(what));
      && (r.Some? <==> Covers(s, who, what))
      && (r.Some? ==> r.value == s.(balances := r.value.balances) && Debits(s.balances, r.value.balances, who, what))
  {
    AdjustedChanges(s.balances, who, Minus(what));
  }

  lemma {:induction false} CreditAlways(s: State, who: nat, what: Asset)
    requires what.amount >= 0
    ensures var r := Adjust(s, who, what);
      r.Some? && r.value == s.(balances := r.value.balances) && Credits(s.balances, r.value.balances, who, what)
  {
    AdjustedChanges(s.balances, who, what);
  }

  // ---------------------------------------------------------------- transfers

  lemma {:induction false} MovePays(s: State, from: nat, to: nat, what: Asset)
    ensures var r := Move(s, from, to, what);
      && (r.Some? <==> what.amount >= 0 && Covers(s, from, what))
      && (r.Some? ==> r.value == s.(balances := r.value.balances) && Pays(s.balances, r.value.balances, from, to, what))
  {
    if what.amount >= 0 {
      DebitIf(s, from, what);
      if Covers(s, from, what) {
        CreditAlways(Adjust(s, from, Minus(what)).value, to, what);
      }
    }
  }

  /** A transfer, and the renewal of a subscription, go through exactly when the sender holds the amount, and move
      it to the receiver. */
  lemma {:induction false} TransferPays(s: State, from: nat, to: nat, what: Asset, booked: nat)
    ensures var r := Applied(s, Transfer(from, to, what), booked);
      && (r.Some? <==> what.amount >= 0 && Covers(s, from, what))
      && (r.Some? ==> r.value == s.(balances := r.value.balances) && Pays(s.balances, r.value.balances, from, to, what))
    ensures Step(s, Renew(from, to, what)) == Applied(s, Transfer(from, to, what), booked)
  {
    MovePays(s, from, to, what);
  }

  // ---------------------------------------------------------------- contents

  /** A split as submission accepts it: in order, and in 32 bits 100% if it names the author, less if it does not. */
  predicate GoodSplit(author: nat, c: seq<Split>) {
    && (forall i, j :: 0 <= i < j < |c| ==> c[i].account < c[j].account)
    && (if exists i :: 0 <= i < |c| && c[i].account == author then Points(c) % 0x1_0000_0000 == 10000
        else Points(c) % 0x1_0000_0000 < 10000)
  }

  /** A content is submitted exactly with a good split, a quorum of at least two unless it has no seeders, and a
      publishing fee its author holds; the fee becomes its escrow. */
  lemma {:induction false} SubmitPays(s: State, author: nat, c: seq<Split>, quorum: nat, seeders: set<nat>, fee: nat)
    ensures var r := Submitted(s, author, c, quorum, seeders, fee);
      && (r.Some? <==>
          && GoodSplit(author, c) && (if seeders == {} then quorum == 0 else quorum >= 2)
          && Covers(s, author, Asset(CORE, fee)))
      && (r.Some? ==>
          && r.value == s.(balances := r.value.balances,
               contents := s.contents + [Content(author, c, quorum, seeders, fee)])
          && Debits(s.balances, r.value.balances, author, Asset(CORE, fee)))
  {
    GoodSplitIff(author, c);
    DebitIf(s, author, Asset(CORE, fee));
  }

  lemma {:induction false} GoodSplitIff(author: nat, c: seq<Split>)
    ensures GoodSplit(author, c) <==> InOrder(c) && Accepted(author, c)
  {
  }

  /** A resubmission changes the split of its content to another good one, and nothing else. */
  lemma {:induction false} ResubmitChangesSplit(s: State, i: nat, c: seq<Split>, booked: nat)
    ensures var r := Applied(s, Resubmit(i, c), booked);
      && (r.Some? <==> i < |s.contents| && GoodSplit(s.contents[i].author, c))
      && (r.Some? ==> r.value == s.(contents := s.contents[i := s.contents[i].(coAuthors := c)]))
  {
  }

  /** A proof of custody pays the seeder out of the escrow: all it is worth, or when capped no more than is there. */
  lemma {:induction false} CustodyPays(s: State, i: nat, seeder: nat, reward: nat, capped: bool, booked: nat)
    ensures var r := Applied(s, ProveCustody(i, seeder, reward, capped), booked);
      && (r.Some? <==> i < |s.contents|)
      && (r.Some? ==>
          var escrow := s.contents[i].escrow;
          var paid := if capped && escrow < reward then (if escrow < 0 then 0 else escrow) else reward;
          && r.value == s.(balances := r.value.balances,
               contents := s.contents[i := s.contents[i].(escrow := escrow - paid)])
          && Credits(s.balances, r.value.balances, seeder, Asset(CORE, paid)))
  {
    if i < |s.contents| {
      var escrow := s.contents[i].escrow;
      var paid := if capped && escrow < reward then (if escrow < 0 then 0 else escrow) else reward;
      CreditAlways(s.(contents := s.contents[i := s.contents[i].(escrow := escrow - paid)]), seeder, Asset(CORE, paid));
    }
  }

  // ---------------------------------------------------------------- vesting balances

  lemma {:induction false} CreateVestingPays(s: State, creator: nat, what: Asset, booked: nat)
    ensures var r := Applied(s, CreateVesting(creator, what), booked);
      && (r.Some? <==> what.amount > 0 && Covers(s, creator, what))
      && (r.Some? ==>
          && r.value == s.(balances := r.value.balances, vestings := s.vestings + [what])
          && Debits(s.balances, r.value.balances, creator, what))
  {
    if what.amount > 0 {
      DebitIf(s, creator, what);
    }
  }

  lemma {:induction false} WithdrawVestingPays(s: State, v: nat, owner: nat, amount: nat, booked: nat)
    ensures var r := Applied(s, WithdrawVesting(v, owner, amount), booked);
      && (r.Some? <==> v < |s.vestings| && amount <= s.vestings[v].amount)
      && (r.Some? ==>
          && r.value == s.(balances := r.value.balances,
               vestings := s.vestings[v := Asset(s.vestings[v].id, s.vestings[v].amount - amount)])
          && Credits(s.balances, r.value.balances, owner, Asset(s.vestings[v].id, amount)))
  {
    if v < |s.vestings| && amount <= s.vestings[v].amount {
      CreditAlways(VestingChanged(s, v, 0 - amount), owner, Asset(s.vestings[v].id, amount));
    }
  }

  // ---------------------------------------------------------------- assets

  ghost predicate DebitsBoth(b: seq<AccountBalance>, c: seq<AccountBalance>, who: nat, x: Asset, y: Asset) {
    forall o, a :: BalanceOf(c, o, a) == BalanceOf(b, o, a) - Amount(who, x, o, a) - Amount(who, y, o, a)
  }

  ghost predicate CreditsBoth(b: seq<AccountBalance>, c: seq<AccountBalance>, who: nat, x: Asset, y: Asset) {
    forall o, a :: BalanceOf(c, o, a) == BalanceOf(b, o, a) + Amount(who, x, o, a) + Amount(who, y, o, a)
  }

  lemma {:induction false} DebitsTwice(
    b: seq<AccountBalance>, c: seq<AccountBalance>, d: seq<AccountBalance>, who: nat, x: Asset, y: Asset)
    requires Debits(b, c, who, x) && Debits(c, d, who, y)
    ensures DebitsBoth(b, d, who, x, y)
  {
  }

  lemma {:induction false} CreditsTwice(
    b: seq<AccountBalance>, c: seq<AccountBalance>, d: seq<AccountBalance>, who: nat, x: Asset, y: Asset)
    requires Credits(b, c, who, x) && Credits(c, d, who, y)
    ensures CreditsBoth(b, d, who, x, y)
  {
  }

  /** Whoever funds the pools of an asset pays into them what he gives. */
  lemma {:induction false} FundPoolsPays(s: State, from: nat, a: nat, own: nat, core: nat)
    ensures var r := PoolsFunded(s, from, a, own, core);
      && (r.Some? <==> 0 < a < |s.assets| && Covers(s, from, Asset(a, own)) && Covers(s, from, Asset(CORE, core)))
      && (r.Some? ==>
          var d := s.assets[a];
          && r.value == s.(balances := r.value.balances,
               assets := s.assets[a := AssetData(d.supply, d.pool + own, d.corePool + core)])
          && DebitsBoth(s.balances, r.value.balances, from, Asset(a, own), Asset(CORE, core)))
  {
    if 0 < a {
      BothPaid(s, from, a, own, core);
    }
  }

  /** Two debits of different assets go through exactly when both are covered. */
  lemma {:induction false} BothPaid(s: State, from: nat, a: nat, own: nat, core: nat)
    requires CORE < a
    ensures var r1 := Adjust(s, from, Minus(Asset(a, own)));
      && (r1.Some? <==> Covers(s, from, Asset(a, own)))
      && (r1.Some? ==>
          var r2 := Adjust(r1.value, from, Minus(Asset(CORE, core)));
          && (r2.Some? <==> Covers(s, from, Asset(CORE, core)))
          && (r2.Some? ==>
              && r2.value == s.(balances := r2.value.balances)
              && DebitsBoth(s.balances, r2.value.balances, from, Asset(a, own), Asset(CORE, core))))
  {
    DebitIf(s, from, Asset(a, own));
    var r1 := Adjust(s, from, Minus(Asset(a, own)));
    if r1.Some? {
      assert BalanceOf(r1.value.balances, from, CORE)
        == BalanceOf(s.balances, from, CORE) - Amount(from, Asset(a, own), from, CORE);
      DebitIf(r1.value, from, Asset(CORE, core));
      var r2 := Adjust(r1.value, from, Minus(Asset(CORE, core)));
      if r2.Some? {
        DebitsTwice(s.balances, r1.value.balances, r2.value.balances, from, Asset(a, own), Asset(CORE, core));
      }
    }
  }

  /** The issuer is paid what he claims out of the two pools. */
  lemma {:induction false} ClaimFeesPays(s: State, issuer: nat, a: nat, own: nat, core: nat, booked: nat)
    ensures var r := Applied(s, ClaimFees(issuer, a, own, core), booked);
      && (r.Some? <==> a < |s.assets|)
      && (r.Some? ==>
          var d := s.assets[a];
          && r.value == s.(balances := r.value.balances,
               assets := s.assets[a := AssetData(d.supply, d.pool - own, d.corePool - core)])
          && CreditsBoth(s.balances, r.value.balances, issuer, Asset(a, own), Asset(CORE, core)))
  {
    CreditAlways(s, issuer, Asset(a, own));
    var s1 := Adjust(s, issuer, Asset(a, own)).value;
    CreditAlways(s1, issuer, Asset(CORE, core));
    CreditsTwice(s.balances, s1.balances, Adjust(s1, issuer, Asset(CORE, core)).value.balances,
      issuer, Asset(a, own), Asset(CORE, core));
  }

  /** What is reserved leaves its holder and the supply. */
  lemma {:induction false} ReservePays(s: State, payer: nat, what: Asset, booked: nat)
    ensures var r := Applied(s, Reserve(payer, what), booked);
      && (r.Some? <==> what.id < |s.assets| && 0 <= what.amount <= s.assets[what.id].supply && Covers(s, payer, what))
      && (r.Some? ==>
          var d := s.assets[what.id];
          && r.value == s.(balances := r.value.balances,
               assets := s.assets[what.id := AssetData(d.supply - what.amount, d.pool, d.corePool)])
          && Debits(s.balances, r.value.balances, payer, what))
  {
    if what.amount >= 0 {
      DebitIf(s, payer, what);
    }
  }

  /** What is issued reaches its receiver and the supply. */
  lemma {:induction false} IssuePays(s: State, to: nat, what: Asset, booked: nat)
    ensures var r := Applied(s, Issue(to, what), booked);
      && (r.Some? <==> what.id < |s.assets| && what.amount >= 0)
      && (r.Some? ==>
          var d := s.assets[what.id];
          && r.value == s.(balances := r.value.balances,
               assets := s.assets[what.id := AssetData(d.supply + what.amount, d.pool, d.corePool)])
          && Credits(s.balances, r.value.balances, to, what))
  {
    if what.amount >= 0 {
      CreditAlways(s, to, what);
    }
  }

  /** Submitting and funding as actions of an operation. */
  lemma {:induction false} SubmitAndFundApply(s: State, action: Action, booked: nat)
    ensures action.Submit? ==>
      Applied(s, action, booked) ==
        Submitted(s, action.author, action.coAuthors, action.quorum, action.seeders, action.fee)
    ensures action.FundPools? ==>
      Applied(s, action, booked) == PoolsFunded(s, action.from, action.asset, action.own, action.core)
  {
  }

  // ---------------------------------------------------------------- fees, miners, budget

  /** The core value of a fee reaches the pool of the core asset. If it is paid in another asset, that asset's pool
      takes the payment and its core pool gives the value. */
  lemma {:induction false} ChargedBooks(s: State, fee: Fee, booked: nat)
    requires 0 < |s.assets| && fee.paid.id < |s.assets|
    ensures var t := Charged(s, fee, booked);
      && t == s.(assets := t.assets) && |t.assets| == |s.assets|
      && (forall k :: 0 < k < |s.assets| && k != fee.paid.id ==> t.assets[k] == s.assets[k])
      && t.assets[0] == s.assets[0].(pool := s.assets[0].pool + booked)
      && (fee.paid.id != 0 ==>
          var d := s.assets[fee.paid.id];
          t.assets[fee.paid.id] == AssetData(d.supply, d.pool + fee.paid.amount, d.corePool - booked))
  {
  }

  /** What is checked before anything changes: the fee can be converted, and a claim is covered by the pools as they
      are before the fee is taken. */
  predicate Admissible(s: State, fee: Fee, action: Action) {
    && fee.paid.amount >= 0 && 0 < |s.assets| && fee.paid.id < |s.assets|
    && (fee.paid.id == 0 ==> fee.core == fee.paid.amount)
    && (fee.paid.id != 0 ==> fee.core <= s.assets[fee.paid.id].corePool)
    && (action.ClaimFees? ==>
        && action.asset < |s.assets|
        && action.own <= s.assets[action.asset].pool && action.core <= s.assets[action.asset].corePool)
  }

  /** Asset creation books half of the fee's core value, rounded up; everything else all of it. */
  function BookedFee(fee: Fee, action: Action): nat {
    if action == CreateAsset then (fee.core + 1) / 2 else fee.core
  }

  /** The state after the action, with the fee booked but not yet paid. */
  function BeforePayment(s: State, fee: Fee, action: Action): Option<State>
    requires 0 < |s.assets| && fee.paid.id < |s.assets|
  {
    Applied(Charged(s, fee, BookedFee(fee, action)), action, BookedFee(fee, action))
  }

  lemma {:induction false} OperatedInSteps(s: State, fee: Fee, action: Action)
    ensures Admissible(s, fee, action) <==> Prepared(s, fee, action)
    ensures !Admissible(s, fee, action) ==> Operated(s, fee, action).None?
    ensures Admissible(s, fee, action) ==>
      Operated(s, fee, action) ==
        match BeforePayment(s, fee, action)
        case None => None
        case Some(t) => Adjust(t, fee.payer, Minus(fee.paid))
  {
    assert Booked(fee, action) == BookedFee(fee, action);
  }

  /** An operation goes through exactly when it is admissible, its action applies with the fee booked, and the payer
      then still holds the fee, which he loses. */
  lemma {:induction false} OperationPays(s: State, fee: Fee, action: Action)
    ensures Operated(s, fee, action).Some? <==>
      && Admissible(s, fee, action) && BeforePayment(s, fee, action).Some?
      && Covers(BeforePayment(s, fee, action).value, fee.payer, fee.paid)
    ensures Operated(s, fee, action).Some? ==>
      var t, u := BeforePayment(s, fee, action).value, Operated(s, fee, action).value;
      u == t.(balances := u.balances) && Debits(t.balances, u.balances, fee.payer, fee.paid)
  {
    OperatedInSteps(s, fee, action);
    if Admissible(s, fee, action) && BeforePayment(s, fee, action).Some? {
      DebitIf(BeforePayment(s, fee, action).value, fee.payer, fee.paid);
    }
  }

  /** A miner's pay vests: the reward counts as mined, the rest leaves the unspent fees. */
  lemma {:induction false} MinerPayVests(s: State, vesting: Option<nat>, reward: nat, fromFees: nat)
    ensures var r := Step(s, PayMiner(vesting, reward, fromFees));
      && (r.Some? <==>
          || reward + fromFees == 0 || vesting.None?
          || (vesting.value < |s.vestings| && s.vestings[vesting.value].id == 0))
      && (r.Some? ==>
          && r.value == s.(vestings := r.value.vestings, mined := s.mined + reward, unspent := s.unspent - fromFees)
          && (if reward + fromFees == 0 then r.value.vestings == s.vestings
              else if vesting.None? then r.value.vestings == s.vestings + [Asset(0, reward + fromFees)]
              else
                var v := s.vestings[vesting.value];
                r.value.vestings == s.vestings[vesting.value := Asset(0, v.amount + reward + fromFees)]))
  {
  }

  /** The next budget is what the pool collected and what was left of the last one; the supply grows by what was mined
      and paid out of fees, less what was collected. */
  lemma {:induction false} BudgetTakesFees(s: State)
    ensures var r := Step(s, ProcessBudget);
      && (r.Some? <==> |s.assets| > 0)
      && (r.Some? ==>
          var d, t := s.assets[0], r.value;
          && t.budget == d.pool + s.unspent && t.unspent == d.pool + s.unspent && t.mined == 0 && t.lastBudget == s.now
          && t.assets == s.assets[0 := AssetData(d.supply + s.mined + (s.budget - s.unspent) - d.pool, 0, d.corePool)]
          && t == s.(assets := t.assets, budget := t.budget, unspent := t.unspent, mined := 0, lastBudget := s.now))
  {
  }

  /** Time never goes back, and its passing changes nothing else. */
  lemma {:induction false} TimePasses(s: State, now: nat)
    ensures Step(s, Advance(now)) == if now >= s.now then Some(s.(now := now)) else None
  {
  }

  /** An event that throws leaves no trace. */
  lemma {:induction false} ThrownLeavesNoTrace(s: State, e: Event)
    ensures Next(s, e) == if Step(s, e).Some? then Step(s, e).value else s
  {
  }
}
