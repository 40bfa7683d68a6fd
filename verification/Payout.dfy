/** Sharing a payment among the co-authors of a content. */
module Payout {
  import opened Options
  import opened Division
  import opened Balances

  /** A co-author and his basis points. */
  datatype Split = Split(account: nat, points: nat)

  const FULL_POINTS: nat := 10000
  const UINT32_RANGE: nat := 0x1_0000_0000
  const INT64_MAX: nat := 0x7FFF_FFFF_FFFF_FFFF

  /** `co_authors` as a traversal of the ordered map yields it. */
  predicate InOrder(c: seq<Split>) {
    forall i, j :: 0 <= i < j < |c| ==> c[i].account < c[j].account
  }

  predicate Names(c: seq<Split>, a: nat) {
    exists i :: 0 <= i < |c| && c[i].account == a
  }

  function Points(c: seq<Split>): nat {
    if c == [] then 0 else Points(c[..|c| - 1]) + c[|c| - 1].points
  }

  /** What content submission checks; the sum is a 32-bit one, and no single entry is bounded. */
  predicate Accepted(author: nat, c: seq<Split>) {
    if Names(c, author) then Points(c) % UINT32_RANGE == FULL_POINTS else Points(c) % UINT32_RANGE < FULL_POINTS
  }

  function Share(p: nat, points: nat): nat {
    p * points / FULL_POINTS
  }

  /** The products are formed in 64 bits before they are divided. */
  ghost predicate Fits(p: nat, c: seq<Split>) {
    forall i :: 0 <= i < |c| ==> p * c[i].points <= INT64_MAX
  }

  function SharesTotal(p: nat, c: seq<Split>): nat {
    if c == [] then 0 else SharesTotal(p, c[..|c| - 1]) + Share(p, c[|c| - 1].points)
  }

  function ShareFor(p: nat, c: seq<Split>, a: nat): nat {
    if c == [] then 0
    else if c[|c| - 1].account == a then Share(p, c[|c| - 1].points)
    else ShareFor(p, c[..|c| - 1], a)
  }

  /** What account `a` is due: its own share, and for the author whatever the shares leave over. */
  function CreditOf(p: nat, author: nat, c: seq<Split>, a: nat): int {
    ShareFor(p, c, a) + if a == author then p - SharesTotal(p, c) else 0
  }

  lemma {:induction false} UnnamedGetsNothing(p: nat, c: seq<Split>, a: nat)
    requires !Names(c, a)
    ensures ShareFor(p, c, a) == 0
  {
    if c != [] {
      assert c[|c| - 1].account != a;
      assert forall i :: 0 <= i < |c| - 1 ==> c[..|c| - 1][i] == c[i];
      UnnamedGetsNothing(p, c[..|c| - 1], a);
    }
  }

  // ---------------------------------------------------------------- the shares against the payment

  lemma ShareBounds(p: nat, points: nat)
    ensures p * points - FULL_POINTS < FULL_POINTS * Share(p, points) <= p * points
  {
    DivisionInterval(p * points, FULL_POINTS, Share(p, points));
  }

  /** Rounding loses less than one unit a co-author. */
  lemma {:induction false} SharesBounds(p: nat, c: seq<Split>)
    ensures FULL_POINTS * SharesTotal(p, c) <= p * Points(c)
    ensures c != [] ==> p * Points(c) - FULL_POINTS * |c| < FULL_POINTS * SharesTotal(p, c)
  {
    if c != [] {
      var rest, last := c[..|c| - 1], c[|c| - 1];
      SharesBounds(p, rest);
      ShareBounds(p, last.points);
      assert p * Points(c) == p * Points(rest) + p * last.points;
    }
  }

  lemma WithinFullPoints(p: nat, c: seq<Split>)
    requires Points(c) <= FULL_POINTS
    ensures SharesTotal(p, c) <= p
  {
    SharesBounds(p, c);
    MulMonotone(Points(c), FULL_POINTS, p);
  }

  lemma {:induction false} SharesOfFullPoints(c: seq<Split>)
    ensures SharesTotal(FULL_POINTS, c) == Points(c)
  {
    if c != [] {
      SharesOfFullPoints(c[..|c| - 1]);
      ModOf(c[|c| - 1].points, 0, FULL_POINTS, FULL_POINTS * c[|c| - 1].points);
    }
  }

  /** The shares fit into every payment exactly when the basis points add up to at most 100%. */
  lemma EveryPaymentCoversItsShares(c: seq<Split>)
    ensures (forall p: nat :: SharesTotal(p, c) <= p) <==> Points(c) <= FULL_POINTS
  {
    if Points(c) <= FULL_POINTS {
      forall p: nat ensures SharesTotal(p, c) <= p {
        WithinFullPoints(p, c);
      }
    } else {
      SharesOfFullPoints(c);
      assert SharesTotal(FULL_POINTS, c) > FULL_POINTS;
    }
  }

  /** Submission guarantees that exactly for the splits whose sum stays within 32 bits. */
  lemma AcceptedSplitsPayExactlyWithin32Bits(author: nat, c: seq<Split>)
    requires Accepted(author, c)
    ensures (forall p: nat :: SharesTotal(p, c) <= p) <==> Points(c) < UINT32_RANGE
  {
    EveryPaymentCoversItsShares(c);
    if Points(c) < UINT32_RANGE {
      ModOf(0, Points(c), UINT32_RANGE, Points(c));
    }
  }

  /** Two co-authors with 2^31 points each are accepted, and then no payment of 10000 settles. */
  lemma WrappedSplitsAreAccepted()
    ensures var c := [Split(1, 0x8000_0000), Split(2, 0x8000_0000)];
      Accepted(3, c) && SharesTotal(10000, c) > 10000 && Fits(10000, c)
  {
    var c := [Split(1, 0x8000_0000), Split(2, 0x8000_0000)];
    assert c[..1] == [Split(1, 0x8000_0000)] && c[..1][..0] == [];
    assert Points(c[..1]) == 0x8000_0000;
    assert Points(c) == UINT32_RANGE;
    SharesOfFullPoints(c);
    assert !Names(c, 3);
  }

  /** When the author is listed himself, what he gets on top of his share is rounding only. */
  lemma ListedAuthorsRemainderIsRounding(p: nat, c: seq<Split>)
    requires c != [] && Points(c) == FULL_POINTS
    ensures 0 <= p - SharesTotal(p, c) < |c|
  {
    WithinFullPoints(p, c);
    SharesBounds(p, c);
  }

  // ---------------------------------------------------------------- the credits add up

  function Payees(author: nat, c: seq<Split>): seq<nat> {
    var named := seq(|c|, i requires 0 <= i < |c| => c[i].account);
    if Names(c, author) then named else named + [author]
  }

  function CreditsOf(p: nat, author: nat, c: seq<Split>, who: seq<nat>): int {
    if who == [] then 0 else CreditsOf(p, author, c, who[..|who| - 1]) + CreditOf(p, author, c, who[|who| - 1])
  }

  lemma {:induction false} ShareAt(p: nat, c: seq<Split>, i: nat)
    requires InOrder(c) && i < |c|
    ensures ShareFor(p, c, c[i].account) == Share(p, c[i].points)
  {
    if i < |c| - 1 {
      ShareAt(p, c[..|c| - 1], i);
    }
  }

  /** The first `n` co-authors' credits: their shares, and the remainder once the author is among them. */
  lemma {:induction false} CreditsOfNamed(p: nat, author: nat, c: seq<Split>, who: seq<nat>, n: nat)
    requires InOrder(c) && n <= |c| && |who| == n
    requires forall i :: 0 <= i < n ==> who[i] == c[i].account
    ensures CreditsOf(p, author, c, who) ==
      SharesTotal(p, c[..n]) + if Names(c[..n], author) then p - SharesTotal(p, c) else 0
  {
    if n > 0 {
      var before := c[..n - 1];
      assert c[..n][..n - 1] == before;
      CreditsOfNamed(p, author, c, who[..n - 1], n - 1);
      ShareAt(p, c, n - 1);
      if c[n - 1].account == author {
        assert c[..n][n - 1].account == author;
      } else if Names(before, author) {
        var i :| 0 <= i < n - 1 && before[i].account == author;
        assert c[..n][i].account == author;
      }
    }
  }

  /** All that the payees are credited is the payment. */
  lemma CreditsAddUpToPayment(p: nat, author: nat, c: seq<Split>)
    requires InOrder(c)
    ensures CreditsOf(p, author, c, Payees(author, c)) == p
  {
    var who := Payees(author, c);
    CreditsOfNamed(p, author, c, who[..|c|], |c|);
    assert c[..|c|] == c;
    if Names(c, author) {
      assert who[..|c|] == who;
    } else {
      UnnamedGetsNothing(p, c, author);
      assert who[..|who| - 1] == who[..|c|];
    }
  }

  // ---------------------------------------------------------------- paying

  function PayShares(b: seq<AccountBalance>, c: seq<Split>, paid: Asset): (r: Option<seq<AccountBalance>>)
    requires paid.amount >= 0
  {
    if c == [] then Some(b)
    else
      match PayShares(b, c[..|c| - 1], paid)
      case None => None
      case Some(b') => Adjusted(b', c[|c| - 1].account, Asset(paid.id, Share(paid.amount, c[|c| - 1].points)))
  }

  /** `content_payout`; `None` when the shares exceed the payment. */
  function PaidOut(b: seq<AccountBalance>, author: nat, c: seq<Split>, paid: Asset): Option<seq<AccountBalance>>
    requires paid.amount >= 0
  {
    if c == [] then Adjusted(b, author, paid)
    else
      match PayShares(b, c, paid)
      case None => None
      case Some(b') =>
        var rest := paid.amount - SharesTotal(paid.amount, c);
        if rest < 0 then None else Adjusted(b', author, Asset(paid.id, rest))
  }

  lemma {:induction false} PaySharesCredits(b: seq<AccountBalance>, c: seq<Split>, paid: Asset)
    requires paid.amount >= 0 && InOrder(c)
    ensures var r := PayShares(b, c, paid);
      && r.Some?
      && (forall k :: AssetTotal(r.value, k) == AssetTotal(b, k) + Part(Asset(paid.id, SharesTotal(paid.amount, c)), k))
      && (forall o, a ::
          BalanceOf(r.value, o, a) == BalanceOf(b, o, a) + if a == paid.id then ShareFor(paid.amount, c, o) else 0)
      && (NoneNegative(b) ==> NoneNegative(r.value))
  {
    if c != [] {
      var rest, last := c[..|c| - 1], c[|c| - 1];
      PaySharesCredits(b, rest, paid);
      AdjustedChanges(PayShares(b, rest, paid).value, last.account, Asset(paid.id, Share(paid.amount, last.points)));
      assert !Names(rest, last.account);
      UnnamedGetsNothing(paid.amount, rest, last.account);
    }
  }

  /** A payout settles exactly when the payment covers the shares; it then credits every account what
      it is due and nothing else. */
  lemma PaidOutCredits(b: seq<AccountBalance>, author: nat, c: seq<Split>, paid: Asset)
    requires paid.amount >= 0 && InOrder(c)
    ensures PaidOut(b, author, c, paid).Some? <==> SharesTotal(paid.amount, c) <= paid.amount
    ensures var r := PaidOut(b, author, c, paid);
      r.Some? ==>
        && (forall k :: AssetTotal(r.value, k) == AssetTotal(b, k) + Part(paid, k))
        && (forall o, a ::
            BalanceOf(r.value, o, a)
              == BalanceOf(b, o, a) + if a == paid.id then CreditOf(paid.amount, author, c, o) else 0)
        && (NoneNegative(b) ==> NoneNegative(r.value))
  {
    if c == [] {
      AdjustedChanges(b, author, paid);
    } else {
      PaySharesCredits(b, c, paid);
      var rest := paid.amount - SharesTotal(paid.amount, c);
      if rest >= 0 {
        AdjustedChanges(PayShares(b, c, paid).value, author, Asset(paid.id, rest));
      }
    }
  }

  function Listed(m: map<nat, int>, a: nat): int {
    if a in m then m[a] else 0
  }

  /** `split_payout_to_coauthors` of the history interface: the same credits as the payout itself. */
  method SplitPayoutToCoauthors(p: nat, author: nat, c: seq<Split>) returns (ok: bool, result: map<nat, int>)
    requires InOrder(c) && Fits(p, c)
    ensures ok <==> SharesTotal(p, c) <= p
    ensures ok ==> forall a :: Listed(result, a) == CreditOf(p, author, c, a)
  {
    ok, result := true, map[];
    if c == [] {
      result := map[author := p];
    } else {
      var price: int := p;
      for i := 0 to |c|
        invariant price == p - SharesTotal(p, c[..i])
        invariant result.Keys == set k | 0 <= k < i :: c[k].account
        invariant forall a :: Listed(result, a) == ShareFor(p, c[..i], a)
      {
        assert c[..i + 1][..i] == c[..i];
        var share := Share(p, c[i].points);
        result := result[c[i].account := share];
        price := price - share;
      }
      assert c[..|c|] == c;
      if price < 0 {
        ok := false;
      } else if price > 0 {
        result := result[author := Listed(result, author) + price];
      }
    }
  }

  /** The balance index, and the two operations on it that pay. */
  class AccountBalances {
    var balances: seq<AccountBalance>

    constructor (b: seq<AccountBalance>)
      ensures balances == b
    {
      balances := b;
    }

    method AdjustBalance(owner: nat, delta: Asset) returns (ok: bool)
      modifies this
      ensures ok <==> Adjusted(old(balances), owner, delta).Some?
      ensures balances == if ok then Adjusted(old(balances), owner, delta).value else old(balances)
    {
      if delta.amount == 0 {
        return true;
      }
      var i := 0;
      while i < |balances| && !(balances[i].owner == owner && balances[i].asset == delta.id)
        invariant i <= |balances| && balances == old(balances)
        invariant forall k :: 0 <= k < i ==> !(balances[k].owner == owner && balances[k].asset == delta.id)
      {
        i := i + 1;
      }
      PutSkips(balances, owner, delta.id, delta.amount, i);
      if i == |balances| {
        ok := delta.amount > 0;
        if ok {
          balances := balances + [AccountBalance(owner, delta.id, delta.amount)];
        }
      } else {
        ok := !(delta.amount < 0 && balances[i].amount < -delta.amount);
        if ok {
          balances := balances[i := balances[i].(amount := balances[i].amount + delta.amount)];
        }
      }
    }

    /** On failure part of the shares may have been credited; the surrounding session is undone. */
    method ContentPayout(author: nat, c: seq<Split>, paid: Asset) returns (ok: bool)
      requires paid.amount >= 0 && InOrder(c) && Fits(paid.amount, c)
      modifies this
      ensures ok <==> SharesTotal(paid.amount, c) <= paid.amount
      ensures ok ==> PaidOut(old(balances), author, c, paid) == Some(balances)
    {
      PaidOutCredits(balances, author, c, paid);
      if c == [] {
        ok := AdjustBalance(author, paid);
      } else {
        var price := paid.amount;
        for i := 0 to |c|
          invariant price == paid.amount - SharesTotal(paid.amount, c[..i])
          invariant PayShares(old(balances), c[..i], paid) == Some(balances)
        {
          assert c[..i + 1][..i] == c[..i];
          var share := Share(paid.amount, c[i].points);
          AdjustedChanges(balances, c[i].account, Asset(paid.id, share));
          ok := AdjustBalance(c[i].account, Asset(paid.id, share));
          price := price - share;
        }
        assert c[..|c|] == c;
        ok := true;
        if price != 0 {
          if price < 0 {
            return false;
          }
          AdjustedChanges(balances, author, Asset(paid.id, price));
          ok := AdjustBalance(author, Asset(paid.id, price));
        }
      }
    }
  }

  lemma {:induction false} PutSkips(b: seq<AccountBalance>, owner: nat, asset: nat, delta: int, i: nat)
    requires i <= |b|
    requires forall k :: 0 <= k < i ==> !(b[k].owner == owner && b[k].asset == asset)
    requires i < |b| ==> b[i].owner == owner && b[i].asset == asset
    ensures Put(b, owner, asset, delta) ==
      if i == |b| then (if delta > 0 then Some(b + [AccountBalance(owner, asset, delta)]) else None)
      else if delta < 0 && b[i].amount < -delta then None
      else Some(b[i := b[i].(amount := b[i].amount + delta)])
  {
    if i > 0 {
      PutSkips(b[1..], owner, asset, delta, i - 1);
      if i == |b| {
        assert [b[0]] + (b[1..] + [AccountBalance(owner, asset, delta)]) == b + [AccountBalance(owner, asset, delta)];
      } else {
        var changed := b[i].(amount := b[i].amount + delta);
        assert [b[0]] + b[1..][i - 1 := changed] == b[i := changed];
      }
    } else if b != [] {
      assert b[0 := b[0].(amount := b[0].amount + delta)] == [b[0].(amount := b[0].amount + delta)] + b[1..];
    } else {
      assert b + [AccountBalance(owner, asset, delta)] == [AccountBalance(owner, asset, delta)];
    }
  }
}
