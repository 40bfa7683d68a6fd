/** Over whole runs: a purchase is delivered, and its authors are paid, exactly when a quorum of distinct
    seeders delivers its keys before it expires. */
module KeyDelivery {
  import opened Options
  import opened Balances
  import opened Payout
  import opened Ledger
  import opened Purchases

  // ---------------------------------------------------------------- one operation

  /** A delivery as an operation: what it moves, less its fee. With splits of at most 100% it goes through
      exactly when a seeder of the content sends it and the payer covers the fee afterwards. */
  lemma {:induction false} DeliveryOperationPays(s: State, fee: Fee, i: nat, seeder: nat)
    requires Sound(s) && i < |s.buyings|
    ensures var r := Operated(s, fee, DeliverKeys(i, seeder));
      r.Some? ==>
        && |r.value.buyings| == |s.buyings| && Answered(s, i, seeder, r.value.buyings[i])
        && (forall o, a ::
            BalanceOf(r.value.balances, o, a)
              == BalanceOf(s.balances, o, a) + DeliveryMoves(s, i, seeder, o, a) - Moved(fee.payer, fee.paid, o, a))
    ensures Points(s.contents[s.buyings[i].content].coAuthors) <= FULL_POINTS ==>
      (Operated(s, fee, DeliverKeys(i, seeder)).Some? <==>
        && Prepared(s, fee, DeliverKeys(i, seeder)) && seeder in s.contents[s.buyings[i].content].seeders
        && (fee.paid.amount == 0 || fee.paid.amount <=
            BalanceOf(s.balances, fee.payer, fee.paid.id) + DeliveryMoves(s, i, seeder, fee.payer, fee.paid.id)))
  {
    var action := DeliverKeys(i, seeder);
    if Prepared(s, fee, action) {
      var charged := Charged(s, fee, Booked(fee, action));
      UntouchedEvolves(s, charged);
      DeliveryPays(charged, i, seeder);
      if Points(s.contents[s.buyings[i].content].coAuthors) <= FULL_POINTS {
        WithinFullPoints(s.buyings[i].paid, s.contents[s.buyings[i].content].coAuthors);
      }
      SameDelivery(s, charged, i, seeder);
      if Delivered(charged, i, seeder).Some? {
        AdjustedChanges(Delivered(charged, i, seeder).value.balances, fee.payer, Minus(fee.paid));
      }
    }
  }

  /** A delivery looks at purchases, contents, the time and balances only. */
  lemma {:induction false} SameDelivery(s: State, t: State, i: nat, seeder: nat)
    requires i < |s.buyings| && s.buyings[i].content < |s.contents|
    requires t.buyings == s.buyings && t.contents == s.contents && t.now == s.now
    ensures Completes(s, i, seeder) == Completes(t, i, seeder)
    ensures forall d :: Answered(s, i, seeder, d) == Answered(t, i, seeder, d)
    ensures forall o, a :: DeliveryMoves(s, i, seeder, o, a) == DeliveryMoves(t, i, seeder, o, a)
  {
  }

  // ---------------------------------------------------------------- runs

  /** The seeder whose delivery of the keys of purchase `i` the event carries out. */
  function DeliveredBy(s: State, e: Event, i: nat): set<nat> {
    if e.Operation? && e.action.DeliverKeys? && e.action.buying == i && Step(s, e).Some? then {e.action.seeder} else {}
  }

  /** The seeders that delivered keys of purchase `i` during the run. */
  function Deliverers(s: State, es: seq<Event>, i: nat): set<nat> {
    if es == [] then {}
    else
      Deliverers(s, es[..|es| - 1], i) + DeliveredBy(Run(s, es[..|es| - 1]), es[|es| - 1], i)
  }

  lemma {:induction false} TimeGoesOn(s: State, e: Event)
    ensures Next(s, e).now >= s.now
  {
    if e.Operation? && Step(s, e).Some? {
      ActionKeepsTime(Charged(s, e.fee, Booked(e.fee, e.action)), e.action, Booked(e.fee, e.action));
    }
  }

  lemma {:induction false} ActionKeepsTime(s: State, action: Action, booked: nat)
    requires Applied(s, action, booked).Some?
    ensures Applied(s, action, booked).value.now == s.now
  {
    if action.RequestToBuy? {
      PurchaseKeepsTime(s, action.consumer, action.content, action.price, action.subscriber);
    } else if action.DeliverKeys? {
      DeliveryKeepsTime(s, action.buying, action.seeder);
    } else {
      OtherActionsKeepTime(s, action, booked);
    }
  }

  lemma {:induction false} PurchaseKeepsTime(s: State, consumer: nat, i: nat, price: Asset, subscriber: bool)
    requires Bought(s, consumer, i, price, subscriber).Some?
    ensures Bought(s, consumer, i, price, subscriber).value.now == s.now
  {
    PaidPurchaseKeepsTime(s, consumer, i, Charge(price, subscriber));
  }

  lemma {:induction false} PaidPurchaseKeepsTime(s: State, consumer: nat, i: nat, paid: Asset)
    requires i < |s.contents| && paid.amount >= 0 && Purchased(s, consumer, i, paid).Some?
    ensures Purchased(s, consumer, i, paid).value.now == s.now
  {
  }

  lemma {:induction false} DeliveryKeepsTime(s: State, i: nat, seeder: nat)
    requires Delivered(s, i, seeder).Some?
    ensures Delivered(s, i, seeder).value.now == s.now
  {
  }

  lemma {:induction false} OtherActionsKeepTime(s: State, action: Action, booked: nat)
    requires Applied(s, action, booked).Some? && !action.RequestToBuy? && !action.DeliverKeys?
    ensures Applied(s, action, booked).value.now == s.now
  {
  }

  /** What one event does to the answers of an open purchase, and that before it expires only a quorum
      closes it. */
  lemma {:induction false} EventAnswers(s: State, e: Event, i: nat)
    requires Sound(s) && i < |s.buyings|
    ensures i < |Next(s, e).buyings|
    ensures Answers(Next(s, e).buyings[i]) == Answers(s.buyings[i]) + DeliveredBy(s, e, i)
    ensures !Closed(s.buyings[i]) && s.now < s.buyings[i].expires ==>
      var d := Next(s, e).buyings[i]; Closed(d) ==> d.delivered && !d.expired && DeliveredBy(s, e, i) != {}
  {
    if Step(s, e).Some? {
      if e.Operation? && e.action.DeliverKeys? && e.action.buying == i {
        DeliveryAnswers(s, e.fee, i, e.action.seeder);
      } else if e.Operation? {
        OtherOperationsLeavePurchase(s, e.fee, e.action, i);
      }
    }
  }

  lemma {:induction false} DeliveryAnswers(s: State, fee: Fee, i: nat, seeder: nat)
    requires Sound(s) && i < |s.buyings| && Operated(s, fee, DeliverKeys(i, seeder)).Some?
    ensures var t := Operated(s, fee, DeliverKeys(i, seeder)).value;
      && |t.buyings| == |s.buyings| && Answers(t.buyings[i]) == Answers(s.buyings[i]) + {seeder}
      && (!Closed(s.buyings[i]) && s.now < s.buyings[i].expires ==> !t.buyings[i].expired)
  {
    DeliveryOperationPays(s, fee, i, seeder);
  }

  /** During a run the answers of a purchase grow by exactly the seeders that delivered. */
  lemma {:induction false} AnswersAreDeliverers(s: State, es: seq<Event>, i: nat)
    requires Sound(s) && i < |s.buyings|
    ensures i < |Run(s, es).buyings|
    ensures Answers(Run(s, es).buyings[i]) == Answers(s.buyings[i]) + Deliverers(s, es, i)
  {
    if es != [] {
      AnswersAreDeliverers(s, es[..|es| - 1], i);
      RunEvolves(s, es[..|es| - 1]);
      EventAnswers(Run(s, es[..|es| - 1]), es[|es| - 1], i);
    }
  }

  /** A purchase that has not expired yet is not refunded. */
  lemma {:induction false} NotRefundedInTime(s: State, es: seq<Event>, i: nat)
    requires Sound(s) && i < |s.buyings| && !Closed(s.buyings[i]) && Run(s, es).now < s.buyings[i].expires
    ensures i < |Run(s, es).buyings| && !Run(s, es).buyings[i].expired
    ensures Run(s, es).buyings[i].content == s.buyings[i].content
  {
    RunEvolves(s, es);
    assert Progress(s.buyings[i], Run(s, es).buyings[i]);
    if es != [] {
      var before, e := Run(s, es[..|es| - 1]), es[|es| - 1];
      TimeGoesOn(before, e);
      NotRefundedInTime(s, es[..|es| - 1], i);
      RunEvolves(s, es[..|es| - 1]);
      assert Progress(s.buyings[i], before.buyings[i]);
      StepEvolves(before, e);
      assert Progress(before.buyings[i], Run(s, es).buyings[i]);
      EventAnswers(before, e, i);
    }
  }

  /** Until it expires, an open purchase is delivered exactly when the seeders that have answered, before and
      during the run, are a quorum. */
  lemma {:induction false} DeliveredIffQuorum(s: State, es: seq<Event>, i: nat)
    requires Sound(s) && i < |s.buyings| && !Closed(s.buyings[i]) && Run(s, es).now < s.buyings[i].expires
    ensures i < |Run(s, es).buyings| && s.buyings[i].content < |s.contents|
    ensures Run(s, es).buyings[i].delivered <==>
      |Answers(s.buyings[i]) + Deliverers(s, es, i)| >= s.contents[s.buyings[i].content].quorum
  {
    var t := Run(s, es);
    RunEvolves(s, es);
    NotRefundedInTime(s, es, i);
    AnswersAreDeliverers(s, es, i);
    assert SoundPurchase(s.contents, s.buyings[i]) && SoundPurchase(t.contents, t.buyings[i]);
    DistinctCount(t.buyings[i].answered);
  }

  lemma {:induction false} RunTwice(s: State, es: seq<Event>, later: seq<Event>)
    ensures Run(s, es + later) == Run(Run(s, es), later)
    decreases |later|
  {
    if later == [] {
      assert es + later == es;
    } else {
      var n := |later| - 1;
      RunTwice(s, es, later[..n]);
      assert (es + later)[..|es + later| - 1] == es + later[..n];
      assert (es + later)[|es + later| - 1] == later[n];
    }
  }

  /** An open purchase whose keys a quorum of distinct seeders delivered before it expired is delivered, and
      stays so whatever follows. */
  lemma {:induction false} QuorumDelivers(s: State, es: seq<Event>, later: seq<Event>, i: nat)
    requires Sound(s) && i < |s.buyings| && !Closed(s.buyings[i]) && Run(s, es).now < s.buyings[i].expires
    requires |Answers(s.buyings[i]) + Deliverers(s, es, i)| >= s.contents[s.buyings[i].content].quorum
    ensures i < |Run(s, es + later).buyings|
    ensures Run(s, es + later).buyings[i].delivered && !Run(s, es + later).buyings[i].expired
    ensures Run(s, es + later).buyings[i].escrow.amount == 0
  {
    DeliveredIffQuorum(s, es, i);
    RunTwice(s, es, later);
    RunEvolves(s, es);
    RunEvolves(Run(s, es), later);
    assert SoundPurchase(Run(s, es).contents, Run(s, es).buyings[i]);
    assert Progress(Run(s, es).buyings[i], Run(s, es + later).buyings[i]);
  }

  /** The event at which a purchase is delivered credits the price to the authors, as the split then is. */
  ghost predicate PaysAuthors(s: State, e: Event, i: nat) {
    && i < |s.buyings| && s.buyings[i].content < |s.contents| && !Closed(s.buyings[i])
    && e.Operation? && e.action.DeliverKeys? && e.action.buying == i
    && var b := s.buyings[i]; var c := s.contents[b.content];
      forall o, a ::
        BalanceOf(Next(s, e).balances, o, a) == BalanceOf(s.balances, o, a) - Moved(e.fee.payer, e.fee.paid, o, a) +
          if a == b.escrow.id then CreditOf(b.paid, c.author, c.coAuthors, o) else 0
  }

  /** Every purchase delivered in a run was paid for at one of its events. */
  lemma {:induction false} DeliveredIsPaid(s: State, es: seq<Event>, i: nat) returns (k: nat)
    requires Sound(s) && i < |s.buyings| && !Closed(s.buyings[i])
    requires i < |Run(s, es).buyings| && Run(s, es).buyings[i].delivered
    ensures k < |es| && PaysAuthors(Run(s, es[..k]), es[k], i)
  {
    var n := |es| - 1;
    var before, e := Run(s, es[..n]), es[n];
    RunEvolves(s, es[..n]);
    assert SoundPurchase(before.contents, before.buyings[i]) && Progress(s.buyings[i], before.buyings[i]);
    if before.buyings[i].delivered {
      k := DeliveredIsPaid(s, es[..n], i);
      assert es[..n][..k] == es[..k];
    } else {
      k := n;
      StepEvolves(before, e);
      assert Progress(before.buyings[i], Run(s, es).buyings[i]);
      OnlyDeliveryOrExpirySettles(before, e, i);
      if e.Operation? {
        DeliveryOperationPays(before, e.fee, i, e.action.seeder);
      }
    }
  }
}
