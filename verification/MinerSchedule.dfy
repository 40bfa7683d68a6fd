/** Slots in time, and which miner owns which slot. */
module MinerSchedule {
  import opened Division
  import opened Permutation

  /** The properties the slot functions read. */
  datatype Clock = Clock(headNum: nat, headTime: nat, interval: nat, maintenance: bool, skipSlots: nat)

  /** `get_slot_time`. */
  function SlotTime(c: Clock, slot: nat): nat
    requires c.interval > 0
  {
    if slot == 0 then 0
    else if c.headNum == 0 then c.headTime + slot * c.interval
    else
      var shift := if c.maintenance then slot + c.skipSlots else slot;
      c.headTime / c.interval * c.interval + shift * c.interval
  }

  /** `get_slot_at_time`. */
  function SlotAtTime(c: Clock, when: nat): nat
    requires c.interval > 0
  {
    var first := SlotTime(c, 1);
    if when < first then 0 else (when - first) / c.interval + 1
  }

  /** The first slot starts one interval after genesis; later it is the next multiple of the interval after the
      head, and after maintenance the skipped slots later. */
  lemma FirstSlotStarts(c: Clock)
    requires c.interval > 0
    ensures c.headNum == 0 ==> SlotTime(c, 1) == c.headTime + c.interval
    ensures c.headNum > 0 ==>
      var first := SlotTime(c, 1) - if c.maintenance then c.skipSlots * c.interval else 0;
      first % c.interval == 0 && c.headTime < first <= c.headTime + c.interval
  {
    var q, i := c.headTime / c.interval, c.interval;
    QuotientAndRest(c.headTime, i);
    NextMultiple(q, i);
    assert (1 + c.skipSlots) * i == i + c.skipSlots * i;
    ModOf(q + 1, 0, i, q * i + i);
  }

  lemma SlotsAreEvenlySpaced(c: Clock, n: nat)
    requires c.interval > 0 && n >= 1
    ensures SlotTime(c, n) == SlotTime(c, 1) + (n - 1) * c.interval
  {
    var s, i := (if c.headNum > 0 && c.maintenance then c.skipSlots else 0), c.interval;
    assert (n + s) * i == (1 + s) * i + (n - 1) * i;
  }

  /** The two slot functions are adjoint, in genesis, maintenance and normal states alike: a time
      belongs to slot `n` exactly when it lies between the start of that slot and of the next. */
  lemma SlotFunctionsAreAdjoint(c: Clock, when: nat, n: nat)
    requires c.interval > 0 && n >= 1
    ensures SlotAtTime(c, when) == n <==> SlotTime(c, n) <= when < SlotTime(c, n + 1)
    ensures SlotAtTime(c, when) == 0 <==> when < SlotTime(c, 1)
  {
    SlotsAreEvenlySpaced(c, n);
    SlotsAreEvenlySpaced(c, n + 1);
    SlotOfOffset(SlotTime(c, 1), c.interval, when, n);
  }

  lemma SlotOfOffset(first: nat, i: nat, when: nat, n: nat)
    requires i > 0 && n >= 1
    ensures first + (n - 1) * i >= first
    ensures when >= first ==> ((when - first) / i + 1 == n <==> first + (n - 1) * i <= when < first + n * i)
  {
    NextMultiple(n - 1, i);
    MulMonotone(0, n - 1, i);
    if when >= first {
      DivisionInterval(when - first, i, n - 1);
    }
  }

  /** A block in a slot advances the absolute slot of the head by at least one, and after
      maintenance by the skipped slots as well. */
  lemma BlockAdvancesSlot(c: Clock, when: nat)
    requires c.interval > 0 && c.headNum > 0 && SlotAtTime(c, when) > 0
    ensures when / c.interval >= c.headTime / c.interval + 1 + (if c.maintenance then c.skipSlots else 0)
  {
    var i, abs := c.interval, c.headTime / c.interval;
    SlotFunctionsAreAdjoint(c, when, 1);
    var s := 1 + (if c.maintenance then c.skipSlots else 0);
    assert (abs + s) * i == abs * i + s * i;
    QuotientAtLeast(when, i, abs + s);
  }

  // ---------------------------------------------------------------- the shuffle

  type Miner = nat

  /** Where step `i` of the shuffle of `n` miners swaps to, for whatever the generator draws. */
  function Target(draw: nat -> nat, i: nat, n: nat): (j: nat)
    requires i < n
    ensures i <= j < n
  {
    i + draw(i) % (n - i)
  }

  /** The first `k` steps of the shuffle: a permutation of the active miners, whatever is drawn. */
  function Shuffled(active: seq<Miner>, draw: nat -> nat, k: nat): (s: seq<Miner>)
    requires k <= |active|
    ensures |s| == |active| && multiset(s) == multiset(active)
  {
    if k == 0 then active else Swap(Shuffled(active, draw, k - 1), k - 1, Target(draw, k - 1, |active|))
  }

  /** `update_miner_schedule`: reshuffles in place when the head number is a multiple of the number
      of active miners, and otherwise leaves the schedule alone. */
  method UpdateSchedule(active: seq<Miner>, headNum: nat, draw: nat -> nat, schedule: array<Miner>)
    returns (next: array<Miner>)
    requires |active| >= 1
    ensures headNum % |active| != 0 ==> next == schedule
    ensures headNum % |active| == 0 ==> next[..] == Shuffled(active, draw, |active|)
    ensures headNum % |active| == 0 ==> next[..] == Lottery(active, draw, 0) && multiset(next[..]) == multiset(active)
  {
    if headNum % |active| != 0 {
      return schedule;
    }
    var n := |active|;
    next := new Miner[n](i requires 0 <= i < n => active[i]);
    assert next[..] == active;
    ShuffleIsLottery(active, draw);
    for i := 0 to n
      invariant next[..] == Shuffled(active, draw, i)
    {
      var j := Target(draw, i, n);
      ghost var before := next[..];
      next[i], next[j] := next[j], next[i];
      assert next[..] == Swap(before, i, j);
    }
  }

  /** The schedule as a lottery: each place goes to one of the miners left, the first of whom then takes the place
      of the one drawn. */
  function Lottery(pool: seq<Miner>, draw: nat -> nat, i: nat): seq<Miner>
    decreases |pool|
  {
    if pool == [] then []
    else
      var j := draw(i) % |pool|;
      [pool[j]] + Lottery(pool[j := pool[0]][1..], draw, i + 1)
  }

  lemma {:induction false} ShuffleStep(s: seq<Miner>, draw: nat -> nat, k: nat)
    requires k < |s|
    ensures var t := Swap(s, k, Target(draw, k, |s|));
      s[..k] + Lottery(s[k..], draw, k) == t[..k + 1] + Lottery(t[k + 1..], draw, k + 1)
  {
    var pool, t := s[k..], Swap(s, k, Target(draw, k, |s|));
    var j := draw(k) % |pool|;
    assert t[..k + 1] == s[..k] + [pool[j]];
    assert t[k + 1..] == pool[j := pool[0]][1..];
  }

  lemma {:induction false} PartlyShuffled(active: seq<Miner>, draw: nat -> nat, k: nat)
    requires k <= |active|
    ensures var s := Shuffled(active, draw, k); Lottery(active, draw, 0) == s[..k] + Lottery(s[k..], draw, k)
    decreases k
  {
    if k > 0 {
      PartlyShuffled(active, draw, k - 1);
      ShuffleStep(Shuffled(active, draw, k - 1), draw, k - 1);
    }
  }

  /** The shuffle in place draws that lottery. */
  lemma {:induction false} ShuffleIsLottery(active: seq<Miner>, draw: nat -> nat)
    ensures Shuffled(active, draw, |active|) == Lottery(active, draw, 0)
  {
    PartlyShuffled(active, draw, |active|);
  }

  lemma {:induction false} RestOfPool(pool: seq<Miner>, j: nat)
    requires j < |pool|
    ensures multiset(pool[j := pool[0]][1..]) == multiset(pool) - multiset{pool[j]}
  {
    var rest := pool[j := pool[0]][1..];
    assert pool == [pool[0]] + pool[1..];
    if j == 0 {
      assert rest == pool[1..];
    } else {
      assert rest == pool[1..][j - 1 := pool[0]];
    }
  }

  /** Drawing `ds` from the pool gives `t`. */
  ghost predicate Gives(pool: seq<Miner>, ds: seq<nat>, t: seq<Miner>)
    decreases |pool|
  {
    if pool == [] then ds == [] && t == []
    else
      && ds != [] && t != [] && ds[0] < |pool| && pool[ds[0]] == t[0]
      && Gives(pool[ds[0] := pool[0]][1..], ds[1..], t[1..])
  }

  lemma {:induction false} DrawsFor(pool: seq<Miner>, t: seq<Miner>) returns (ds: seq<nat>)
    requires multiset(pool) == multiset(t)
    ensures Gives(pool, ds, t)
    decreases |pool|
  {
    assert |pool| == |multiset(pool)| == |t|;
    ds := [];
    if pool != [] {
      assert t[0] in multiset(pool);
      var j :| 0 <= j < |pool| && pool[j] == t[0];
      RestOfPool(pool, j);
      assert t == [t[0]] + t[1..];
      var rest := DrawsFor(pool[j := pool[0]][1..], t[1..]);
      ds := [j] + rest;
      assert ds[1..] == rest;
    }
  }

  ghost predicate Follows(draw: nat -> nat, i: nat, ds: seq<nat>) {
    forall k :: 0 <= k < |ds| ==> draw(i + k) == ds[k]
  }

  lemma {:induction false} LotteryGives(pool: seq<Miner>, draw: nat -> nat, i: nat, ds: seq<nat>, t: seq<Miner>)
    requires Gives(pool, ds, t) && Follows(draw, i, ds)
    ensures Lottery(pool, draw, i) == t
    decreases |pool|
  {
    if pool != [] {
      assert draw(i + 0) == ds[0];
      ModOf(0, ds[0], |pool|, ds[0]);
      forall k | 0 <= k < |ds| - 1 ensures draw(i + 1 + k) == ds[1..][k] {
        assert draw(i + (k + 1)) == ds[k + 1];
      }
      LotteryGives(pool[ds[0] := pool[0]][1..], draw, i + 1, ds[1..], t[1..]);
    }
  }

  /** Every order of the active miners is drawn by some generator. */
  lemma {:induction false} EveryScheduleIsPossible(active: seq<Miner>, t: seq<Miner>) returns (draw: nat -> nat)
    requires multiset(active) == multiset(t)
    ensures Shuffled(active, draw, |active|) == t
  {
    var ds := DrawsFor(active, t);
    draw := (i: nat) => if i < |ds| then ds[i] else 0;
    LotteryGives(active, draw, 0, ds, t);
    ShuffleIsLottery(active, draw);
  }

  // ---------------------------------------------------------------- fairness

  /** `get_scheduled_miner`. */
  function ScheduledMiner(schedule: seq<Miner>, currentSlot: nat, slot: nat): Miner
    requires |schedule| >= 1
  {
    schedule[(currentSlot + slot) % |schedule|]
  }

  /** The miners of as many consecutive slots as there are miners. */
  function Window(schedule: seq<Miner>, currentSlot: nat, first: nat): (w: seq<Miner>)
    requires |schedule| >= 1
    ensures |w| == |schedule|
    ensures forall k :: 0 <= k < |w| ==> w[k] == ScheduledMiner(schedule, currentSlot, first + k)
  {
    seq<Miner>(|schedule|, k requires 0 <= k => ScheduledMiner(schedule, currentSlot, first + k))
  }

  lemma RotateIndex(a: nat, k: nat, n: nat)
    requires n > 0 && k < n
    ensures (a + k) % n == if a % n + k < n then a % n + k else a % n + k - n
  {
    var q, r := a / n, a % n;
    if r + k < n {
      ModOf(q, r + k, n, a + k);
    } else {
      NextMultiple(q, n);
      ModOf(q + 1, r + k - n, n, a + k);
    }
  }

  /** Any window of consecutive slots under one schedule gives every miner exactly its share: the
      window is a rotation of the schedule. */
  lemma WindowIsFair(schedule: seq<Miner>, currentSlot: nat, first: nat)
    requires |schedule| >= 1
    ensures multiset(Window(schedule, currentSlot, first)) == multiset(schedule)
  {
    var n := |schedule|;
    var r := (currentSlot + first) % n;
    var w := Window(schedule, currentSlot, first);
    forall k | 0 <= k < n
      ensures w[k] == (schedule[r..] + schedule[..r])[k]
    {
      RotateIndex(currentSlot + first, k, n);
      var i := (currentSlot + (first + k)) % n;
      assert w[k] == schedule[i];
      assert i == if k < n - r then r + k else k - (n - r);
    }
    assert w == schedule[r..] + schedule[..r];
    assert schedule == schedule[..r] + schedule[r..];
  }

  /** With distinct active miners, each of them is scheduled exactly once in every window. */
  lemma EachMinerOncePerWindow(active: seq<Miner>, draw: nat -> nat, currentSlot: nat, first: nat, m: Miner)
    requires |active| >= 1 && m in active && (forall i, j :: 0 <= i < j < |active| ==> active[i] != active[j])
    ensures multiset(Window(Shuffled(active, draw, |active|), currentSlot, first))[m] == 1
  {
    WindowIsFair(Shuffled(active, draw, |active|), currentSlot, first);
    CountDistinct(active, m);
  }

  lemma {:induction false} CountDistinct(s: seq<Miner>, m: Miner)
    requires forall i, j :: 0 <= i < j < |s| ==> s[i] != s[j]
    ensures multiset(s)[m] == if m in s then 1 else 0
    decreases |s|
  {
    if s != [] {
      var n := |s| - 1;
      CountDistinct(s[..n], m);
      assert s == s[..n] + [s[n]];
    }
  }
}
