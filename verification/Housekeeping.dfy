/** The maintenance pass over expired contents and purchases, and which of them it finds. */
module Housekeeping {
  import opened Ledger
  import opened Purchases

  /** `order` lists the purchases in the index range of the pass, as an index sorted by time does. */
  ghost predicate DuePurchases(s: State, low: nat, order: seq<nat>) {
    && (forall k :: 0 <= k < |order| ==> order[k] < |s.buyings| && low <= s.buyings[order[k]].expires <= s.now)
    && (forall i :: 0 <= i < |s.buyings| && low <= s.buyings[i].expires <= s.now ==> i in order)
  }

  function Swept(s: State, order: seq<nat>): State {
    if order == [] then s else Next(Swept(s, order[..|order| - 1]), ExpireBuying(order[|order| - 1]))
  }

  lemma ExpiryTouchesOne(s: State, i: nat)
    requires Sound(s) && i < |s.buyings| && s.buyings[i].expires <= s.now
    ensures var t := Next(s, ExpireBuying(i));
      && t == s.(buyings := t.buyings, balances := t.balances) && |t.buyings| == |s.buyings|
      && Evolves(s, t) && Closed(t.buyings[i]) && t.buyings[i].expires == s.buyings[i].expires
      && forall j :: 0 <= j < |s.buyings| && j != i ==> t.buyings[j] == s.buyings[j]
  {
    ExpiryPays(s, i);
  }

  /** What a pass from `s` to `t` over `order` does to purchase `i`. */
  ghost predicate SweptPurchase(s: State, t: State, order: seq<nat>, i: nat)
    requires i < |s.buyings| && |t.buyings| == |s.buyings|
  {
    && t.buyings[i].expires == s.buyings[i].expires
    && (if i in order then Closed(t.buyings[i]) else t.buyings[i] == s.buyings[i])
  }

  lemma SweptOneMore(s: State, m: State, t: State, before: seq<nat>, last: nat, i: nat)
    requires last < |s.buyings| && i < |s.buyings| && |m.buyings| == |s.buyings| == |t.buyings|
    requires SweptPurchase(s, m, before, i)
    requires if i == last then Closed(t.buyings[i]) && t.buyings[i].expires == m.buyings[i].expires
      else t.buyings[i] == m.buyings[i]
    ensures SweptPurchase(s, t, before + [last], i)
  {
  }

  /** A pass closes what it visits and leaves every other purchase, and everything else, alone. */
  lemma {:induction false} SweptCloses(s: State, order: seq<nat>)
    requires Sound(s)
    requires forall k :: 0 <= k < |order| ==> order[k] < |s.buyings| && s.buyings[order[k]].expires <= s.now
    ensures var t := Swept(s, order);
      && Evolves(s, t) && t == s.(buyings := t.buyings, balances := t.balances) && |t.buyings| == |s.buyings|
      && forall i :: 0 <= i < |s.buyings| ==> SweptPurchase(s, t, order, i)
  {
    if order == [] {
      UntouchedEvolves(s, s);
    } else {
      var last, before := order[|order| - 1], order[..|order| - 1];
      SweptCloses(s, before);
      var m, t := Swept(s, before), Swept(s, order);
      assert SweptPurchase(s, m, before, last);
      ExpiryTouchesOne(m, last);
      EvolvesTwice(s, m, t);
      assert order == before + [last];
      forall i | 0 <= i < |s.buyings| ensures SweptPurchase(s, t, order, i) {
        SweptOneMore(s, m, t, before, last, i);
      }
    }
  }

  lemma ClosedIsLeftAlone(s: State, i: nat)
    requires Sound(s) && i < |s.buyings| && Closed(s.buyings[i])
    ensures Next(s, ExpireBuying(i)) == s
  {
    var b := s.buyings[i];
    assert SoundPurchase(s.contents, b);
    if !b.delivered {
      assert b.(escrow := b.escrow.(amount := 0), expired := true) == b;
      assert s.buyings[i := b] == s.buyings;
    }
  }

  /** A second pass over closed purchases changes nothing at all. */
  lemma {:induction false} SweepingAgainIsIdle(s: State, order: seq<nat>)
    requires Sound(s)
    requires forall k :: 0 <= k < |order| ==> order[k] < |s.buyings| && Closed(s.buyings[order[k]])
    ensures Swept(s, order) == s
  {
    if order != [] {
      SweepingAgainIsIdle(s, order[..|order| - 1]);
      ClosedIsLeftAlone(s, order[|order| - 1]);
    }
  }

  // ---------------------------------------------------------------- which pass finds what

  /** Maintenance pass `k`, at `times[k]`, looks for what expires from one block interval after the
      previous pass up to its own time. */
  predicate FoundBy(times: seq<nat>, interval: nat, k: nat, expires: nat)
    requires 0 < k < |times|
  {
    times[k - 1] + interval <= expires <= times[k]
  }

  ghost predicate Increasing(times: seq<nat>) {
    forall i, j :: 0 <= i < j < |times| ==> times[i] < times[j]
  }

  /** Something that expires after pass `k - 1` and not after pass `k` is found by that pass alone, and
      only if it expires at least one block interval after the previous one. */
  lemma FoundExactlyIff(times: seq<nat>, interval: nat, k: nat, expires: nat)
    requires Increasing(times) && 0 < k < |times| && interval > 0 && times[k - 1] < expires <= times[k]
    ensures (exists j :: 0 < j < |times| && FoundBy(times, interval, j, expires)) <==>
      times[k - 1] + interval <= expires
    ensures forall j :: 0 < j < |times| && FoundBy(times, interval, j, expires) ==> j == k
  {
    if times[k - 1] + interval <= expires {
      assert FoundBy(times, interval, k, expires);
    }
  }

  /** What expires on the slot grid of the previous pass is always found. */
  lemma AlignedIsFound(times: seq<nat>, interval: nat, k: nat, expires: nat, slots: nat)
    requires Increasing(times) && 0 < k < |times| && interval > 0 && times[k - 1] < expires <= times[k]
    requires expires == times[k - 1] + slots * interval
    ensures FoundBy(times, interval, k, expires)
  {
    assert slots > 0;
    assert slots * interval >= interval by {
      assert slots * interval == interval + (slots - 1) * interval;
    }
  }

  /** A content that expires two seconds after a maintenance, with blocks every five seconds, is never
      found again. */
  lemma OffGridIsMissed()
    ensures var times := [86400, 172800, 259200];
      forall j :: 0 < j < |times| ==> !FoundBy(times, 5, j, 86402)
  {
  }
}
