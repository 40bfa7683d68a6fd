/** Purchases hold their price in escrow until they are settled, once, by payout or refund. */
module Purchases {
  import opened Options
  import opened Balances
  import opened Payout
  import opened Ledger

  ghost predicate Distinct(xs: seq<nat>) {
    forall i, j :: 0 <= i < j < |xs| ==> xs[i] != xs[j]
  }

  function Members(xs: seq<nat>): set<nat> {
    set x | x in xs
  }

  /** The seeders that have answered. */
  function Answers(b: Buying): set<nat> {
    Members(b.answered)
  }

  lemma {:induction false} DistinctCount(xs: seq<nat>)
    requires Distinct(xs)
    ensures |Members(xs)| == |xs|
  {
    if xs != [] {
      var rest, last := xs[..|xs| - 1], xs[|xs| - 1];
      DistinctCount(rest);
      assert Members(xs) == Members(rest) + {last};
    }
  }

  /** Open: the escrow is what was paid and a quorum has not answered. Closed: it is empty, and a payout had a
      quorum of distinct seeders of the content behind it. */
  ghost predicate SoundPurchase(cs: seq<Content>, b: Buying) {
    && b.content < |cs|
    && b.escrow.amount == (if Closed(b) then 0 else b.paid)
    && !(b.delivered && b.expired)
    && Distinct(b.answered) && (forall k :: 0 <= k < |b.answered| ==> b.answered[k] in cs[b.content].seeders)
    && (b.delivered ==> |b.answered| >= cs[b.content].quorum)
    && (!Closed(b) ==> |b.answered| < cs[b.content].quorum)
  }

  ghost predicate SoundContent(c: Content) {
    InOrder(c.coAuthors) && (c.seeders == {} <==> c.quorum == 0)
  }

  ghost predicate Sound(s: State) {
    && CORE < |s.assets|
    && (forall i :: 0 <= i < |s.contents| ==> SoundContent(s.contents[i]))
    && (forall i :: 0 <= i < |s.buyings| ==> SoundPurchase(s.contents, s.buyings[i]))
    && (forall i :: 0 <= i < |s.vestings| ==> s.vestings[i].amount >= 0)
  }

  /** Contents are never withdrawn and keep what their purchases rely on. */
  ghost predicate Grown(cs: seq<Content>, ds: seq<Content>) {
    && |cs| <= |ds|
    && (forall i :: 0 <= i < |cs| ==>
        ds[i].author == cs[i].author && ds[i].quorum == cs[i].quorum && ds[i].seeders == cs[i].seeders)
  }

  /** A purchase may collect answers and may close; what is closed is final. */
  ghost predicate Progress(b: Buying, d: Buying) {
    && d.consumer == b.consumer && d.content == b.content && d.paid == b.paid && d.escrow.id == b.escrow.id
    && d.expires == b.expires
    && b.answered <= d.answered
    && (Closed(b) ==> d.delivered == b.delivered && d.expired == b.expired && d.escrow == b.escrow)
  }

  ghost predicate PurchasesProgress(bs: seq<Buying>, ds: seq<Buying>) {
    |bs| <= |ds| && forall i :: 0 <= i < |bs| ==> Progress(bs[i], ds[i])
  }

  ghost predicate Evolves(s: State, t: State) {
    Sound(t) && Grown(s.contents, t.contents) && PurchasesProgress(s.buyings, t.buyings)
  }

  /** Events that touch neither contents nor purchases. */
  lemma UntouchedEvolves(s: State, t: State)
    requires Sound(s) && t.contents == s.contents && t.buyings == s.buyings && CORE < |t.assets|
    requires forall i :: 0 <= i < |t.vestings| ==> t.vestings[i].amount >= 0
    ensures Evolves(s, t)
  {
  }

  lemma ContentChangeEvolves(s: State, i: nat, c: Content, b: seq<AccountBalance>)
    requires Sound(s) && i < |s.contents| && SoundContent(c)
    requires c.author == s.contents[i].author && c.quorum == s.contents[i].quorum && c.seeders == s.contents[i].seeders
    ensures Evolves(s, s.(contents := s.contents[i := c], balances := b))
  {
  }

  lemma NewContentEvolves(s: State, c: Content, b: seq<AccountBalance>)
    requires Sound(s) && SoundContent(c)
    ensures Evolves(s, s.(contents := s.contents + [c], balances := b))
  {
    var t := s.(contents := s.contents + [c], balances := b);
    forall i | 0 <= i < |t.buyings| ensures SoundPurchase(t.contents, t.buyings[i]) {
      assert SoundPurchase(s.contents, s.buyings[i]);
    }
  }

  lemma PurchaseChangeEvolves(s: State, i: nat, d: Buying, b: seq<AccountBalance>)
    requires Sound(s) && i < |s.buyings| && SoundPurchase(s.contents, d) && Progress(s.buyings[i], d)
    ensures Evolves(s, s.(buyings := s.buyings[i := d], balances := b))
  {
  }

  lemma NewPurchaseEvolves(s: State, d: Buying, b: seq<AccountBalance>)
    requires Sound(s) && SoundPurchase(s.contents, d)
    ensures Evolves(s, s.(buyings := s.buyings + [d], balances := b))
  {
    var t := s.(buyings := s.buyings + [d], balances := b);
    forall i | 0 <= i < |t.buyings| ensures SoundPurchase(t.contents, t.buyings[i]) {
      if i < |s.buyings| {
        assert SoundPurchase(s.contents, s.buyings[i]);
      }
    }
  }

  /** A key that has not been seen before is noted. */
  lemma NotedAnswers(b: Buying, seeder: nat)
    requires Distinct(b.answered)
    ensures Answers(Noted(b, seeder)) == Answers(b) + {seeder}
    ensures Distinct(Noted(b, seeder).answered) && |Noted(b, seeder).answered| == |Answers(b) + {seeder}|
  {
    DistinctCount(Noted(b, seeder).answered);
    assert Answers(Noted(b, seeder)) == Answers(b) + {seeder};
  }

  /** A refund is always possible and returns the escrow to the consumer. */
  lemma RefundedPays(s: State, i: nat)
    requires Sound(s) && i < |s.buyings| && !s.buyings[i].delivered
    ensures Refunded(s, i).Some? && Evolves(s, Refunded(s, i).value)
    ensures Closed(Refunded(s, i).value.buyings[i]) && Refunded(s, i).value.buyings[i].expired
    ensures forall o, a ::
      BalanceOf(Refunded(s, i).value.balances, o, a)
        == BalanceOf(s.balances, o, a) + Moved(s.buyings[i].consumer, s.buyings[i].escrow, o, a)
  {
    var b := s.buyings[i];
    assert SoundPurchase(s.contents, b);
    AdjustedChanges(s.balances, b.consumer, b.escrow);
    var d := b.(escrow := b.escrow.(amount := 0), expired := true);
    PurchaseChangeEvolves(s, i, d, Refunded(s, i).value.balances);
  }

  /** The seeders that have answered once `seeder` delivers are a quorum. */
  predicate Completes(s: State, i: nat, seeder: nat)
    requires i < |s.buyings| && s.buyings[i].content < |s.contents|
  {
    |Answers(s.buyings[i]) + {seeder}| >= s.contents[s.buyings[i].content].quorum
  }

  /** What a delivery of keys moves: nothing for a closed purchase; the price to the authors with the
      answer that completes the quorum; the escrow back to the consumer when it comes too late. */
  function DeliveryMoves(s: State, i: nat, seeder: nat, o: nat, a: nat): int
    requires i < |s.buyings| && s.buyings[i].content < |s.contents|
  {
    var b := s.buyings[i];
    var c := s.contents[b.content];
    if Closed(b) then 0
    else if Completes(s, i, seeder) then
      if a == b.escrow.id then CreditOf(b.paid, c.author, c.coAuthors, o) else 0
    else if b.expires < s.now then Moved(b.consumer, b.escrow, o, a)
    else 0
  }

  /** What becomes of the purchase: the seeder is among those that answered, a quorum delivers it, and a
      late answer short of one expires it. */
  ghost predicate Answered(s: State, i: nat, seeder: nat, d: Buying)
    requires i < |s.buyings| && s.buyings[i].content < |s.contents|
  {
    var b := s.buyings[i];
    && Answers(d) == Answers(b) + {seeder}
    && (if Closed(b) then d == b.(answered := d.answered)
        else if Completes(s, i, seeder) then
          d == b.(answered := d.answered, escrow := b.escrow.(amount := 0), delivered := true)
        else if b.expires < s.now then
          d == b.(answered := d.answered, escrow := b.escrow.(amount := 0), expired := true)
        else d == b.(answered := d.answered))
  }

  /** `t` differs from `s` in balances and in purchase `i` at most. */
  ghost predicate OnlyPurchase(s: State, t: State, i: nat)
    requires i < |s.buyings|
  {
    |t.buyings| == |s.buyings| && t == s.(balances := t.balances, buyings := s.buyings[i := t.buyings[i]])
  }

  /** A delivery by a seeder of the content goes through exactly when a payout that is due is covered. */
  lemma {:induction false} DeliveryPays(s: State, i: nat, seeder: nat)
    requires Sound(s) && i < |s.buyings|
    ensures var b := s.buyings[i]; var c := s.contents[b.content];
      Delivered(s, i, seeder).Some? <==>
        && seeder in c.seeders
        && (!Closed(b) && Completes(s, i, seeder) ==> SharesTotal(b.paid, c.coAuthors) <= b.paid)
    ensures var r := Delivered(s, i, seeder);
      r.Some? ==>
        && OnlyPurchase(s, r.value, i) && Answered(s, i, seeder, r.value.buyings[i]) && Evolves(s, r.value)
        && (forall o, a ::
            BalanceOf(r.value.balances, o, a) == BalanceOf(s.balances, o, a) + DeliveryMoves(s, i, seeder, o, a))
  {
    assert SoundPurchase(s.contents, s.buyings[i]);
    var b := Noted(s.buyings[i], seeder);
    var c := s.contents[b.content];
    NotedAnswers(s.buyings[i], seeder);
    if seeder in c.seeders {
      if Closed(b) || !(Completes(s, i, seeder) || b.expires < s.now) {
        PurchaseChangeEvolves(s, i, b, s.balances);
      } else if Completes(s, i, seeder) {
        QuorumPaysOut(s, i, seeder);
      } else {
        LateDeliveryRefunds(s, i, seeder);
      }
    }
  }

  lemma {:induction false} QuorumPaysOut(s: State, i: nat, seeder: nat)
    requires Sound(s) && i < |s.buyings| && seeder in s.contents[s.buyings[i].content].seeders
    requires !Closed(s.buyings[i]) && Completes(s, i, seeder)
    ensures var b, r := s.buyings[i], Delivered(s, i, seeder); var c := s.contents[b.content];
      && (r.Some? <==> SharesTotal(b.paid, c.coAuthors) <= b.paid)
      && (r.Some? ==>
          && OnlyPurchase(s, r.value, i) && Answered(s, i, seeder, r.value.buyings[i]) && Evolves(s, r.value)
          && (forall o, a ::
              BalanceOf(r.value.balances, o, a) == BalanceOf(s.balances, o, a) +
                if a == b.escrow.id then CreditOf(b.paid, c.author, c.coAuthors, o) else 0))
  {
    assert SoundPurchase(s.contents, s.buyings[i]);
    var b := Noted(s.buyings[i], seeder);
    var c := s.contents[b.content];
    NotedAnswers(s.buyings[i], seeder);
    assert SoundContent(c);
    PaidOutCredits(s.balances, c.author, c.coAuthors, Asset(b.escrow.id, b.paid));
    if SharesTotal(b.paid, c.coAuthors) <= b.paid {
      var d := b.(escrow := b.escrow.(amount := 0), delivered := true);
      assert s.buyings[i := b][i := d] == s.buyings[i := d];
      PurchaseChangeEvolves(s, i, d, Delivered(s, i, seeder).value.balances);
    }
  }

  lemma {:induction false} LateDeliveryRefunds(s: State, i: nat, seeder: nat)
    requires Sound(s) && i < |s.buyings| && seeder in s.contents[s.buyings[i].content].seeders
    requires !Closed(s.buyings[i]) && !Completes(s, i, seeder) && s.buyings[i].expires < s.now
    ensures var b, r := s.buyings[i], Delivered(s, i, seeder);
      && r.Some? && OnlyPurchase(s, r.value, i) && Answered(s, i, seeder, r.value.buyings[i]) && Evolves(s, r.value)
      && (forall o, a ::
          BalanceOf(r.value.balances, o, a) == BalanceOf(s.balances, o, a) + Moved(b.consumer, b.escrow, o, a))
  {
    assert SoundPurchase(s.contents, s.buyings[i]);
    var b := Noted(s.buyings[i], seeder);
    NotedAnswers(s.buyings[i], seeder);
    AdjustedChanges(s.balances, b.consumer, b.escrow);
    var d := b.(escrow := b.escrow.(amount := 0), expired := true);
    assert s.buyings[i := b][i := d] == s.buyings[i := d];
    PurchaseChangeEvolves(s, i, d, Delivered(s, i, seeder).value.balances);
  }

  /** A transfer to a content goes through exactly when the sender and the split can cover it, and
      credits the same accounts with the same amounts as a purchase at that price. */
  lemma TransferToContentPays(s: State, from: nat, i: nat, what: Asset, booked: nat)
    requires Sound(s) && i < |s.contents| && what.amount >= 0
    ensures var c := s.contents[i]; var r := Applied(s, TransferToContent(from, i, what), booked);
      && (r.Some? <==>
          && (what.amount <= BalanceOf(s.balances, from, what.id) || what.amount == 0)
          && SharesTotal(what.amount, c.coAuthors) <= what.amount)
      && (r.Some? ==> forall o, a ::
        BalanceOf(r.value.balances, o, a) == BalanceOf(s.balances, o, a) - Moved(from, what, o, a)
          + if a == what.id then CreditOf(what.amount, c.author, c.coAuthors, o) else 0)
  {
    var c := s.contents[i];
    assert SoundContent(c);
    AdjustedChanges(s.balances, from, Minus(what));
    if Adjust(s, from, Minus(what)).Some? {
      PaidOutCredits(Adjust(s, from, Minus(what)).value.balances, c.author, c.coAuthors, what);
    }
  }

  /** What a purchase at `price` moves: nothing for a subscriber; otherwise the consumer loses the price, and the
      authors gain their shares at once if there is nothing to deliver. */
  function PurchaseMoves(c: Content, consumer: nat, price: Asset, subscriber: bool, o: nat, a: nat): int
    requires price.amount >= 0
  {
    if subscriber || a != price.id then 0
    else
      (if c.seeders == {} then CreditOf(price.amount, c.author, c.coAuthors, o) else 0)
      - if o == consumer then price.amount else 0
  }

  /** The purchase that is recorded: it lasts a day, and holds the price until it is delivered. */
  function RecordedPurchase(s: State, c: Content, consumer: nat, i: nat, price: Asset, subscriber: bool): Buying
    requires price.amount >= 0
  {
    var paid := if subscriber then 0 else price.amount;
    var escrow := if subscriber || c.seeders == {} then Asset(CORE, 0) else price;
    Buying(consumer, i, escrow, paid, s.now + 86400, [], c.seeders == {}, false)
  }

  lemma {:induction false} NothingToShare(c: seq<Split>, o: nat)
    ensures SharesTotal(0, c) == 0 && ShareFor(0, c, o) == 0
  {
    if c != [] {
      NothingToShare(c[..|c| - 1], o);
      assert 0 * c[|c| - 1].points == 0;
    }
  }

  /** A purchase goes through exactly when there is such a content, the consumer covers its price and, if it is
      paid out at once, the price covers the shares. */
  lemma {:induction false} BoughtPays(s: State, consumer: nat, i: nat, price: Asset, subscriber: bool)
    requires i < |s.contents| ==> InOrder(s.contents[i].coAuthors)
    ensures Bought(s, consumer, i, price, subscriber).Some? <==>
      && i < |s.contents| && 0 <= price.amount <= BalanceOf(s.balances, consumer, price.id)
      && (!subscriber && s.contents[i].seeders == {} ==>
          SharesTotal(price.amount, s.contents[i].coAuthors) <= price.amount)
    ensures var r := Bought(s, consumer, i, price, subscriber);
      r.Some? ==> var c := s.contents[i];
        && Recorded(s, r.value, RecordedPurchase(s, c, consumer, i, price, subscriber))
        && Settled(s.balances, r.value.balances, c, consumer, price, subscriber)
  {
    if i < |s.contents| && 0 <= price.amount <= BalanceOf(s.balances, consumer, price.id) {
      CoveredPurchase(s, consumer, i, price, subscriber);
      BoughtIsPurchased(s, consumer, i, price, subscriber);
    }
  }

  lemma {:induction false} BoughtIsPurchased(s: State, consumer: nat, i: nat, price: Asset, subscriber: bool)
    requires i < |s.contents| && 0 <= price.amount <= BalanceOf(s.balances, consumer, price.id)
    ensures Bought(s, consumer, i, price, subscriber)
      == Purchased(s, consumer, i, if subscriber then Asset(CORE, 0) else price)
  {
  }

  /** Besides balances, all that changes from `s` to `t` is the purchase appended. */
  ghost predicate Recorded(s: State, t: State, b: Buying) {
    t == s.(balances := t.balances, buyings := s.buyings + [b])
  }

  /** `t` has the balances of `b` with what a purchase moves. */
  ghost predicate Settled(
    b: seq<AccountBalance>, t: seq<AccountBalance>, c: Content, consumer: nat, price: Asset, subscriber: bool)
    requires price.amount >= 0
  {
    forall o, a :: BalanceOf(t, o, a) == BalanceOf(b, o, a) + PurchaseMoves(c, consumer, price, subscriber, o, a)
  }

  lemma {:induction false} CoveredPurchase(s: State, consumer: nat, i: nat, price: Asset, subscriber: bool)
    requires i < |s.contents| && InOrder(s.contents[i].coAuthors)
    requires 0 <= price.amount <= BalanceOf(s.balances, consumer, price.id)
    ensures var c, r := s.contents[i], Purchased(s, consumer, i, if subscriber then Asset(CORE, 0) else price);
      && (r.Some? <==> (!subscriber && c.seeders == {} ==> SharesTotal(price.amount, c.coAuthors) <= price.amount))
      && (r.Some? ==>
          && Recorded(s, r.value, RecordedPurchase(s, c, consumer, i, price, subscriber))
          && Settled(s.balances, r.value.balances, c, consumer, price, subscriber))
  {
    var paid := if subscriber then Asset(CORE, 0) else price;
    PurchasedPays(s, consumer, i, paid);
    PurchaseTerms(s, consumer, i, price, subscriber);
    var r := Purchased(s, consumer, i, paid);
    if r.Some? {
      SettledAsPaid(s.balances, r.value.balances, s.contents[i], consumer, price, subscriber);
    }
  }

  /** What the purchase records and moves, from what is paid. */
  lemma {:induction false} PurchaseTerms(s: State, consumer: nat, i: nat, price: Asset, subscriber: bool)
    requires i < |s.contents| && price.amount >= 0
    ensures var c, paid := s.contents[i], if subscriber then Asset(CORE, 0) else price;
      && (subscriber ==> SharesTotal(paid.amount, c.coAuthors) == 0)
      && NewPurchase(s, consumer, i, paid) == RecordedPurchase(s, c, consumer, i, price, subscriber)
  {
    var c, paid := s.contents[i], if subscriber then Asset(CORE, 0) else price;
    NothingToShare(c.coAuthors, 0);
  }

  lemma {:induction false} SettledAsPaid(
    b: seq<AccountBalance>, t: seq<AccountBalance>, c: Content, consumer: nat, price: Asset, subscriber: bool)
    requires price.amount >= 0 && PaidSettled(b, t, c, consumer, if subscriber then Asset(CORE, 0) else price)
    ensures Settled(b, t, c, consumer, price, subscriber)
  {
    var paid := if subscriber then Asset(CORE, 0) else price;
    forall o, a ensures BalanceOf(t, o, a) == BalanceOf(b, o, a) + PurchaseMoves(c, consumer, price, subscriber, o, a) {
      assert BalanceOf(t, o, a) == BalanceOf(b, o, a) + PaidMoves(c, consumer, paid, o, a);
      NothingToShare(c.coAuthors, o);
    }
  }

  /** What is paid leaves the consumer and, if there is nothing to deliver, reaches the authors. */
  function PaidMoves(c: Content, consumer: nat, paid: Asset, o: nat, a: nat): int
    requires paid.amount >= 0
  {
    (if c.seeders == {} && a == paid.id then CreditOf(paid.amount, c.author, c.coAuthors, o) else 0)
    - Moved(consumer, paid, o, a)
  }

  ghost predicate PaidSettled(
    b: seq<AccountBalance>, t: seq<AccountBalance>, c: Content, consumer: nat, paid: Asset)
    requires paid.amount >= 0
  {
    forall o, a :: BalanceOf(t, o, a) == BalanceOf(b, o, a) + PaidMoves(c, consumer, paid, o, a)
  }

  lemma {:induction false} PurchasedPays(s: State, consumer: nat, i: nat, paid: Asset)
    requires i < |s.contents| && InOrder(s.contents[i].coAuthors)
    requires paid.amount == 0 || 0 <= paid.amount <= BalanceOf(s.balances, consumer, paid.id)
    ensures var c, r := s.contents[i], Purchased(s, consumer, i, paid);
      && (r.Some? <==> c.seeders == {} ==> SharesTotal(paid.amount, c.coAuthors) <= paid.amount)
      && (r.Some? ==>
          && Recorded(s, r.value, NewPurchase(s, consumer, i, paid))
          && PaidSettled(s.balances, r.value.balances, c, consumer, paid))
  {
    var c := s.contents[i];
    AdjustedChanges(s.balances, consumer, Minus(paid));
    var taken := Adjusted(s.balances, consumer, Minus(paid)).value;
    PaidOutCredits(taken, c.author, c.coAuthors, paid);
  }

  /** The end of a content returns its escrow to the author, or charges a negative one to account 20 if
      that can pay; nobody else's balance moves. */
  lemma {:induction false} ExpiredContentPays(s: State, i: nat)
    requires i < |s.contents|
    ensures var c, r := s.contents[i], ExpiredContent(s, i);
      var payer := if c.escrow >= 0 then c.author else 20;
      && (r.Some? <==> c.escrow >= 0 || BalanceOf(s.balances, 20, 0) + c.escrow >= 0)
      && (r.Some? ==> forall o, a ::
        BalanceOf(r.value.balances, o, a) == BalanceOf(s.balances, o, a) + Moved(payer, Asset(0, c.escrow), o, a))
  {
    var c := s.contents[i];
    AdjustedChanges(s.balances, if c.escrow >= 0 then c.author else SHORTFALL_PAYER, Asset(CORE, c.escrow));
  }

  lemma EvolvesTwice(s: State, t: State, u: State)
    requires Evolves(s, t) && Evolves(t, u)
    ensures Evolves(s, u)
  {
    forall i | 0 <= i < |s.buyings| ensures Progress(s.buyings[i], u.buyings[i]) {
      assert Progress(s.buyings[i], t.buyings[i]) && Progress(t.buyings[i], u.buyings[i]);
    }
  }

  /** With splits of at most 100% a key delivery by a seeder of the content never fails. */
  lemma DeliveryGoesThrough(s: State, i: nat, seeder: nat)
    requires Sound(s) && i < |s.buyings|
    requires seeder in s.contents[s.buyings[i].content].seeders
    requires Points(s.contents[s.buyings[i].content].coAuthors) <= FULL_POINTS
    ensures Delivered(s, i, seeder).Some?
  {
    DeliveryPays(s, i, seeder);
    WithinFullPoints(s.buyings[i].paid, s.contents[s.buyings[i].content].coAuthors);
  }

  /** A housekeeping pass over a purchase refunds it if it is open and moves nothing otherwise. */
  lemma ExpiryPays(s: State, i: nat)
    requires Sound(s) && i < |s.buyings| && s.buyings[i].expires <= s.now
    ensures ExpiredBuying(s, i).Some? && Evolves(s, ExpiredBuying(s, i).value)
    ensures Closed(ExpiredBuying(s, i).value.buyings[i])
    ensures forall o, a ::
      BalanceOf(ExpiredBuying(s, i).value.balances, o, a) == BalanceOf(s.balances, o, a) +
        if Closed(s.buyings[i]) then 0 else Moved(s.buyings[i].consumer, s.buyings[i].escrow, o, a)
  {
    assert SoundPurchase(s.contents, s.buyings[i]);
    if !s.buyings[i].delivered {
      RefundedPays(s, i);
    } else {
      UntouchedEvolves(s, s);
    }
  }

  lemma PurchasedEvolves(s: State, consumer: nat, i: nat, paid: Asset)
    requires Sound(s) && i < |s.contents| && paid.amount >= 0 && Purchased(s, consumer, i, paid).Some?
    ensures Evolves(s, Purchased(s, consumer, i, paid).value)
  {
    assert SoundContent(s.contents[i]);
    NewPurchaseEvolves(s, NewPurchase(s, consumer, i, paid), Purchased(s, consumer, i, paid).value.balances);
  }

  // ---------------------------------------------------------------- every event

  lemma ContentActionEvolves(s: State, action: Action, booked: nat)
    requires Sound(s) && Applied(s, action, booked).Some?
    requires action.Submit? || action.Resubmit? || action.ProveCustody?
    ensures Evolves(s, Applied(s, action, booked).value)
  {
    var t := Applied(s, action, booked).value;
    match action
    case Submit(author, c, quorum, seeders, fee) =>
      NewContentEvolves(s, Content(author, c, quorum, seeders, fee), t.balances);
    case Resubmit(i, c) =>
      ContentChangeEvolves(s, i, s.contents[i].(coAuthors := c), t.balances);
    case ProveCustody(i, seeder, reward, capped) =>
      ContentChangeEvolves(s, i, t.contents[i], t.balances);
  }

  lemma PurchaseActionEvolves(s: State, action: Action, booked: nat)
    requires Sound(s) && Applied(s, action, booked).Some? && (action.RequestToBuy? || action.DeliverKeys?)
    ensures Evolves(s, Applied(s, action, booked).value)
  {
    match action
    case RequestToBuy(consumer, i, price, subscriber) =>
      PurchasedEvolves(s, consumer, i, Charge(price, subscriber));
    case DeliverKeys(i, seeder) =>
      DeliveryPays(s, i, seeder);
  }

  lemma ActionEvolves(s: State, action: Action, booked: nat)
    requires Sound(s) && Applied(s, action, booked).Some?
    ensures Evolves(s, Applied(s, action, booked).value)
  {
    if action.Submit? || action.Resubmit? || action.ProveCustody? {
      ContentActionEvolves(s, action, booked);
    } else if action.RequestToBuy? || action.DeliverKeys? {
      PurchaseActionEvolves(s, action, booked);
    } else {
      UntouchedEvolves(s, Applied(s, action, booked).value);
    }
  }

  lemma OperationEvolves(s: State, fee: Fee, action: Action)
    requires Sound(s) && Operated(s, fee, action).Some?
    ensures Evolves(s, Operated(s, fee, action).value)
  {
    var booked := Booked(fee, action);
    var charged := Charged(s, fee, booked);
    UntouchedEvolves(s, charged);
    ActionEvolves(charged, action, booked);
    var applied := Applied(charged, action, booked).value;
    UntouchedEvolves(applied, Operated(s, fee, action).value);
    EvolvesTwice(s, charged, applied);
    EvolvesTwice(s, applied, Operated(s, fee, action).value);
  }

  lemma StepEvolves(s: State, e: Event)
    requires Sound(s)
    ensures Evolves(s, Next(s, e))
  {
    if Step(s, e).None? {
      UntouchedEvolves(s, s);
    } else {
      match e
      case Operation(fee, action) => OperationEvolves(s, fee, action);
      case ExpireBuying(i) => ExpiryPays(s, i);
      case ExpireContent(i) => ContentChangeEvolves(s, i, s.contents[i].(escrow := 0), Next(s, e).balances);
      case _ => UntouchedEvolves(s, Next(s, e));
    }
  }

  /** Over every run each purchase stays sound: escrow equal to the price while open, empty after. */
  lemma {:induction false} RunEvolves(s: State, es: seq<Event>)
    requires Sound(s)
    ensures Evolves(s, Run(s, es))
  {
    if es == [] {
      UntouchedEvolves(s, s);
    } else {
      RunEvolves(s, es[..|es| - 1]);
      StepEvolves(Run(s, es[..|es| - 1]), es[|es| - 1]);
      EvolvesTwice(s, Run(s, es[..|es| - 1]), Run(s, es));
    }
  }

  predicate Settles(s: State, e: Event, i: nat) {
    i < |s.buyings| && !Closed(s.buyings[i]) && i < |Next(s, e).buyings| && Closed(Next(s, e).buyings[i])
  }

  function Settlements(s: State, es: seq<Event>, i: nat): nat {
    if es == [] then 0
    else
      Settlements(s, es[..|es| - 1], i) + if Settles(Run(s, es[..|es| - 1]), es[|es| - 1], i) then 1 else 0
  }

  /** In every run an open purchase is settled at most once, and exactly once if it ends up closed; a
      closed one never again, whatever deliveries and housekeeping passes follow. */
  lemma {:induction false} SettlesExactlyOnce(s: State, es: seq<Event>, i: nat)
    requires Sound(s) && i < |s.buyings|
    ensures i < |Run(s, es).buyings|
    ensures Settlements(s, es, i) == if !Closed(s.buyings[i]) && Closed(Run(s, es).buyings[i]) then 1 else 0
    ensures Closed(s.buyings[i]) ==>
      Run(s, es).buyings[i].escrow == s.buyings[i].escrow && Run(s, es).buyings[i].delivered == s.buyings[i].delivered
  {
    RunEvolves(s, es);
    assert Progress(s.buyings[i], Run(s, es).buyings[i]);
    if es != [] {
      var before := Run(s, es[..|es| - 1]);
      SettlesExactlyOnce(s, es[..|es| - 1], i);
      RunEvolves(s, es[..|es| - 1]);
      StepEvolves(before, es[|es| - 1]);
      assert Progress(before.buyings[i], Run(s, es).buyings[i]);
    }
  }

  lemma OtherDeliveriesLeavePurchase(s: State, j: nat, seeder: nat, i: nat)
    requires i < |s.buyings| && j != i && Delivered(s, j, seeder).Some?
    ensures |Delivered(s, j, seeder).value.buyings| == |s.buyings|
    ensures Delivered(s, j, seeder).value.buyings[i] == s.buyings[i]
  {
  }

  lemma OtherActionsHoldNothing(s: State, action: Action, booked: nat)
    requires Applied(s, action, booked).Some?
    requires !(action.DeliverKeys? || action.RequestToBuy? || action.CreateVesting? || action.WithdrawVesting?)
    ensures Applied(s, action, booked).value.vestings == s.vestings
    ensures Applied(s, action, booked).value.buyings == s.buyings
  {
  }

  lemma VestingLeavesPurchases(s: State, action: Action, booked: nat)
    requires Applied(s, action, booked).Some? && (action.CreateVesting? || action.WithdrawVesting?)
    ensures Applied(s, action, booked).value.buyings == s.buyings
  {
  }

  lemma PurchaseIsAppended(s: State, consumer: nat, i: nat, paid: Asset)
    requires i < |s.contents| && paid.amount >= 0 && Purchased(s, consumer, i, paid).Some?
    ensures Purchased(s, consumer, i, paid).value.buyings == s.buyings + [NewPurchase(s, consumer, i, paid)]
  {
  }

  lemma BoughtIsAppended(s: State, consumer: nat, i: nat, price: Asset, subscriber: bool)
    requires Bought(s, consumer, i, price, subscriber).Some?
    ensures s.buyings <= Bought(s, consumer, i, price, subscriber).value.buyings
  {
    PurchaseIsAppended(s, consumer, i, Charge(price, subscriber));
  }

  lemma OtherActionsLeavePurchase(s: State, action: Action, booked: nat, i: nat)
    requires i < |s.buyings| && Applied(s, action, booked).Some?
    requires !(action.DeliverKeys? && action.buying == i)
    ensures i < |Applied(s, action, booked).value.buyings|
    ensures Applied(s, action, booked).value.buyings[i] == s.buyings[i]
  {
    if action.DeliverKeys? {
      OtherDeliveriesLeavePurchase(s, action.buying, action.seeder, i);
    } else if action.RequestToBuy? {
      BoughtIsAppended(s, action.consumer, action.content, action.price, action.subscriber);
    } else if action.CreateVesting? || action.WithdrawVesting? {
      VestingLeavesPurchases(s, action, booked);
    } else {
      OtherActionsHoldNothing(s, action, booked);
    }
  }

  lemma OtherOperationsLeavePurchase(s: State, fee: Fee, action: Action, i: nat)
    requires i < |s.buyings| && Operated(s, fee, action).Some?
    requires !(action.DeliverKeys? && action.buying == i)
    ensures i < |Operated(s, fee, action).value.buyings|
    ensures Operated(s, fee, action).value.buyings[i] == s.buyings[i]
  {
    OtherActionsLeavePurchase(Charged(s, fee, Booked(fee, action)), action, Booked(fee, action), i);
  }

  /** Only a delivery of its own keys or a housekeeping pass over it settles a purchase. */
  lemma OnlyDeliveryOrExpirySettles(s: State, e: Event, i: nat)
    requires Settles(s, e, i)
    ensures e == ExpireBuying(i) || (e.Operation? && e.action.DeliverKeys? && e.action.buying == i)
  {
    if e.Operation? && !(e.action.DeliverKeys? && e.action.buying == i) {
      OtherOperationsLeavePurchase(s, e.fee, e.action, i);
    }
  }
}
