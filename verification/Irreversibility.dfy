/** The last irreversible block: which number it picks, that it only grows, and that the undo
    history kept always reaches back to it. */
module Irreversibility {
  import opened Permutation
  import opened Division

  const HUNDRED_PERCENT: nat := 10000
  const THRESHOLD: nat := 7000
  const MAX_UNDO_HISTORY: nat := 10000

  type Miner = nat

  /** How many of `n` confirmations may be missing. */
  function Offset(n: nat): (k: nat)
    ensures n >= 1 ==> k < n
  {
    (HUNDRED_PERCENT - THRESHOLD) * n / HUNDRED_PERCENT
  }

  /** How many miners have confirmed block `x`. */
  function Confirmations(s: seq<nat>, x: nat): nat {
    if s == [] then 0 else (if s[0] >= x then 1 else 0) + Confirmations(s[1..], x)
  }

  // ---------------------------------------------------------------- the quantile

  /** What `nth_element` leaves: a rearrangement with element `k` in its sorted place. */
  ghost predicate NthPlaced(s: seq<nat>, t: seq<nat>, k: nat) {
    && multiset(t) == multiset(s) && k < |t|
    && (forall i :: 0 <= i < k ==> t[i] <= t[k])
    && (forall i :: k < i < |t| ==> t[k] <= t[i])
  }

  function MinIndex(s: seq<nat>, from: nat): (m: nat)
    requires from < |s|
    ensures from <= m < |s| && forall i :: from <= i < |s| ==> s[m] <= s[i]
    decreases |s| - from
  {
    if from + 1 == |s| then from
    else
      var m := MinIndex(s, from + 1);
      if s[from] <= s[m] then from else m
  }

  /** The first `n` elements are the smallest, in order. */
  ghost predicate Selected(t: seq<nat>, n: nat) {
    n <= |t| && forall a, b :: 0 <= a < n && a <= b < |t| ==> t[a] <= t[b]
  }

  lemma SelectNext(t: seq<nat>, n: nat)
    requires n < |t| && Selected(t, n)
    ensures Selected(Swap(t, n, MinIndex(t, n)), n + 1)
  {
    var m := MinIndex(t, n);
    var u := Swap(t, n, m);
    forall a, b | 0 <= a < n + 1 && a <= b < |u|
      ensures u[a] <= u[b]
    {
      assert t[m] <= t[n];
    }
  }

  /** `nth_element`, by selection. */
  method NthElement(s: seq<nat>, k: nat) returns (t: seq<nat>)
    requires k < |s|
    ensures NthPlaced(s, t, k)
  {
    t := s;
    for i := 0 to k + 1
      invariant |t| == |s| && multiset(t) == multiset(s) && Selected(t, i)
    {
      SelectNext(t, i);
      t := Swap(t, i, MinIndex(t, i));
    }
  }

  lemma {:induction false} ConfirmationsSplit(s: seq<nat>, i: nat, x: nat)
    requires i < |s|
    ensures Confirmations(s, x) == (if s[i] >= x then 1 else 0) + Confirmations(s[..i] + s[i + 1..], x)
    decreases i
  {
    if i == 0 {
      assert s[..0] + s[1..] == s[1..];
    } else {
      ConfirmationsSplit(s[1..], i - 1, x);
      var rest := s[..i] + s[i + 1..];
      assert rest[1..] == s[1..][..i - 1] + s[1..][i..];
    }
  }

  lemma {:induction false} TakeOut(s: seq<nat>, i: nat)
    requires i < |s|
    ensures multiset(s[..i] + s[i + 1..]) == multiset(s) - multiset{s[i]}
  {
    assert s == s[..i] + [s[i]] + s[i + 1..];
    assert multiset(s) == multiset(s[..i]) + multiset{s[i]} + multiset(s[i + 1..]);
  }

  lemma {:induction false} SameRest(s: seq<nat>, t: seq<nat>, i: nat)
    requires multiset(s) == multiset(t) && s != [] && i < |t| && t[i] == s[0]
    ensures multiset(s[1..]) == multiset(t[..i] + t[i + 1..])
  {
    TakeOut(s, 0);
    TakeOut(t, i);
    assert s[..0] + s[1..] == s[1..];
  }

  /** The number of confirmations does not depend on the order of the miners. */
  lemma {:induction false} ConfirmationsPermute(s: seq<nat>, t: seq<nat>, x: nat)
    requires multiset(s) == multiset(t)
    ensures |s| == |t| && Confirmations(s, x) == Confirmations(t, x)
    decreases |s|
  {
    if s == [] {
      assert |multiset(t)| == 0;
    } else {
      assert s[0] in multiset(t);
      var i :| 0 <= i < |t| && t[i] == s[0];
      SameRest(s, t, i);
      ConfirmationsPermute(s[1..], t[..i] + t[i + 1..], x);
      ConfirmationsSplit(t, i, x);
    }
  }

  lemma {:induction false} AllConfirm(s: seq<nat>, x: nat)
    requires forall i :: 0 <= i < |s| ==> s[i] >= x
    ensures Confirmations(s, x) == |s|
  {
    if s != [] {
      AllConfirm(s[1..], x);
    }
  }

  lemma {:induction false} NoneConfirm(s: seq<nat>, x: nat)
    requires forall i :: 0 <= i < |s| ==> s[i] < x
    ensures Confirmations(s, x) == 0
  {
    if s != [] {
      NoneConfirm(s[1..], x);
    }
  }

  lemma {:induction false} ConfirmationsAppend(s: seq<nat>, t: seq<nat>, x: nat)
    ensures Confirmations(s + t, x) == Confirmations(s, x) + Confirmations(t, x)
    decreases |s|
  {
    if s == [] {
      assert s + t == t;
    } else {
      ConfirmationsAppend(s[1..], t, x);
      assert (s + t)[1..] == s[1..] + t;
    }
  }

  lemma {:induction false} ConfirmationsBound(s: seq<nat>, x: nat)
    ensures Confirmations(s, x) <= |s|
  {
    if s != [] {
      ConfirmationsBound(s[1..], x);
    }
  }

  /** The element picked is the largest number that all but `k` miners have confirmed. */
  lemma QuantileIsLargestConfirmed(s: seq<nat>, t: seq<nat>, k: nat, x: nat)
    requires NthPlaced(s, t, k)
    ensures Confirmations(s, t[k]) >= |s| - k
    ensures x > t[k] ==> Confirmations(s, x) < |s| - k
  {
    ConfirmationsPermute(s, t, t[k]);
    ConfirmationsPermute(s, t, x);
    assert t == t[..k] + t[k..] && t == t[..k + 1] + t[k + 1..];
    ConfirmationsAppend(t[..k], t[k..], t[k]);
    AllConfirm(t[k..], t[k]);
    ConfirmationsAppend(t[..k + 1], t[k + 1..], x);
    ConfirmationsBound(t[k + 1..], x);
    if x > t[k] {
      NoneConfirm(t[..k + 1], x);
    }
  }

  // ---------------------------------------------------------------- block by block

  /** What the irreversibility rules read and write; `kept` counts the undo entries of blocks. */
  datatype Chain = Chain(head: nat, lib: nat, confirmed: map<Miner, nat>, active: seq<Miner>, bound: nat, kept: nat)

  /** One pushed block: its miner, the active miners after it, whether the undo-history check is
      skipped, and whether it throws (before or after the undo bound is set). */
  datatype Event = Event(miner: Miner, active: seq<Miner>, skipCheck: bool, throws: bool, boundSet: bool)

  function ConfirmedBy(confirmed: map<Miner, nat>, m: Miner): nat {
    if m in confirmed then confirmed[m] else 0
  }

  function LastConfirmed(c: Chain): (s: seq<nat>)
    ensures |s| == |c.active| && forall i :: 0 <= i < |s| ==> s[i] == ConfirmedBy(c.confirmed, c.active[i])
  {
    seq<nat>(|c.active|, i requires 0 <= i < |c.active| => ConfirmedBy(c.confirmed, c.active[i]))
  }

  /** The state after a block, `quantile` being what `nth_element` gave for the confirmations. */
  function Pushed(c: Chain, e: Event, quantile: nat): Chain {
    var kept := Least(c.kept, c.bound);
    var head := c.head + 1;
    if e.throws then c.(kept := kept, bound := if e.boundSet && head >= c.lib then head - c.lib + 1 else c.bound)
    else if !e.skipCheck && head >= c.lib + MAX_UNDO_HISTORY then c.(kept := kept)
    else
      var bound := if head >= c.lib then head - c.lib + 1 else 0;
      var lib := if e.skipCheck then head else if quantile > c.lib then quantile else c.lib;
      Chain(head, lib, c.confirmed[e.miner := head], e.active, bound, Least(kept + 1, bound))
  }

  /** `quantile` is the number at the offset among the active miners' confirmations, once the
      block's own miner has confirmed it. */
  ghost predicate IsQuantile(c: Chain, e: Event, quantile: nat) {
    var s := LastConfirmed(c.(confirmed := c.confirmed[e.miner := c.head + 1]));
    |s| >= 1 && exists t :: NthPlaced(s, t, Offset(|s|)) && t[Offset(|s|)] == quantile
  }

  ghost predicate Sound(c: Chain) {
    && c.lib <= c.head
    && (forall m <- c.confirmed :: c.confirmed[m] <= c.head)
    && c.kept >= c.head - c.lib
    && c.bound >= c.head - c.lib + 1
  }

  lemma QuantileBelowHead(c: Chain, e: Event, quantile: nat)
    requires Sound(c) && IsQuantile(c, e, quantile)
    ensures quantile <= c.head + 1
  {
    var s := LastConfirmed(c.(confirmed := c.confirmed[e.miner := c.head + 1]));
    var t :| NthPlaced(s, t, Offset(|s|)) && t[Offset(|s|)] == quantile;
    assert t[Offset(|s|)] in multiset(s);
  }

  /** Every block keeps irreversibility at or below the head, never moves it back, and leaves
      enough undo entries to pop back to it. */
  lemma BlockKeepsSound(c: Chain, e: Event, quantile: nat)
    requires Sound(c) && IsQuantile(c, e, quantile)
    ensures Sound(Pushed(c, e, quantile)) && Pushed(c, e, quantile).lib >= c.lib
    ensures var d := Pushed(c, e, quantile);
      d.head != c.head ==>
        && d.head == c.head + 1 && d.bound == d.head - c.lib + 1
        && d.kept <= d.bound && d.kept <= c.kept + 1 && d.kept <= c.bound + 1
        && (d.kept == d.bound || d.kept == c.kept + 1 || d.kept == c.bound + 1)
        && ConfirmedBy(d.confirmed, e.miner) == d.head && d.active == e.active
  {
    QuantileBelowHead(c, e, quantile);
  }

  /** Seven in ten of the miners have confirmed `x`. */
  predicate Supported(s: seq<nat>, x: nat) {
    10 * Confirmations(s, x) >= 7 * |s|
  }

  lemma QuorumIsSeventyPercent(n: nat, c: nat)
    ensures c >= n - Offset(n) <==> 10 * c >= 7 * n
  {
    DivisionInterval((HUNDRED_PERCENT - THRESHOLD) * n, HUNDRED_PERCENT, Offset(n));
  }

  /** An accepted block leaves no number above the irreversible one that seven in ten active miners have
      confirmed, and an advance goes to such a number. */
  lemma AdvanceIsConfirmed(c: Chain, e: Event, quantile: nat)
    requires IsQuantile(c, e, quantile) && !e.skipCheck && !e.throws && c.head + 1 < c.lib + 10000
    ensures var s := LastConfirmed(c.(confirmed := c.confirmed[e.miner := c.head + 1]));
            var lib := Pushed(c, e, quantile).lib;
            && (lib > c.lib ==> Supported(s, lib))
            && (forall x: nat :: Supported(s, x) ==> x <= lib)
  {
    var s := LastConfirmed(c.(confirmed := c.confirmed[e.miner := c.head + 1]));
    var t :| NthPlaced(s, t, Offset(|s|)) && t[Offset(|s|)] == quantile;
    forall x: nat ensures Supported(s, x) ==> x <= quantile {
      QuantileIsLargestConfirmed(s, t, Offset(|s|), x);
      QuorumIsSeventyPercent(|s|, Confirmations(s, x));
    }
    QuantileIsLargestConfirmed(s, t, Offset(|s|), 0);
    QuorumIsSeventyPercent(|s|, Confirmations(s, quantile));
  }

  /** A block that throws, or that comes too far ahead of the irreversible one, moves nothing. */
  lemma RefusedMovesNothing(c: Chain, e: Event, quantile: nat)
    requires e.throws || (!e.skipCheck && c.head + 1 >= c.lib + 10000)
    ensures var d := Pushed(c, e, quantile);
      && d.head == c.head && d.lib == c.lib && d.confirmed == c.confirmed && d.active == c.active
      && d.kept <= c.kept && d.kept <= c.bound && (d.kept == c.kept || d.kept == c.bound)
      && (e.throws && e.boundSet && c.lib <= c.head ==> d.bound == c.head - c.lib + 2)
      && (!(e.throws && e.boundSet) ==> d.bound == c.bound)
  {
  }

  /** A node that skips the undo-history check trusts every block at once. */
  lemma SkippedCheckTrustsHead(c: Chain, e: Event, quantile: nat)
    requires e.skipCheck && !e.throws
    ensures Pushed(c, e, quantile).lib == Pushed(c, e, quantile).head == c.head + 1
  {
  }

  /** A run: the state before each block, with the block and its quantile. */
  ghost predicate IsRun(c: Chain, es: seq<(Event, nat)>)
    decreases |es|
  {
    es == [] || (IsQuantile(c, es[0].0, es[0].1) && IsRun(Pushed(c, es[0].0, es[0].1), es[1..]))
  }

  function RunBlocks(c: Chain, es: seq<(Event, nat)>): Chain
    decreases |es|
  {
    if es == [] then c else RunBlocks(Pushed(c, es[0].0, es[0].1), es[1..])
  }

  /** Over every run of block pushes: irreversibility is monotone, never passes the head, and the
      undo entries kept reach back to it. */
  lemma {:induction false} IrreversibleAlwaysReachable(c: Chain, es: seq<(Event, nat)>)
    requires Sound(c) && IsRun(c, es)
    ensures var d := RunBlocks(c, es); c.lib <= d.lib <= d.head && d.kept >= d.head - d.lib && Sound(d)
    decreases |es|
  {
    if es != [] {
      BlockKeepsSound(c, es[0].0, es[0].1);
      IrreversibleAlwaysReachable(Pushed(c, es[0].0, es[0].1), es[1..]);
    }
  }

  /** `update_last_irreversible_block` as the node runs it. */
  method UpdateLastIrreversible(c: Chain, skipCheck: bool) returns (lib: nat)
    requires |c.active| >= 1
    ensures skipCheck ==> lib == c.head
    ensures !skipCheck ==> lib >= c.lib
    ensures !skipCheck && lib > c.lib ==> Supported(LastConfirmed(c), lib)
    ensures !skipCheck ==> forall x: nat :: Supported(LastConfirmed(c), x) ==> x <= lib
  {
    if skipCheck {
      return c.head;
    }
    var s := LastConfirmed(c);
    var k := Offset(|s|);
    var t := NthElement(s, k);
    forall x: nat ensures Supported(s, x) ==> x <= t[k] {
      QuantileIsLargestConfirmed(s, t, k, x);
      QuorumIsSeventyPercent(|s|, Confirmations(s, x));
    }
    QuantileIsLargestConfirmed(s, t, k, 0);
    QuorumIsSeventyPercent(|s|, Confirmations(s, t[k]));
    lib := if t[k] > c.lib then t[k] else c.lib;
  }
}
