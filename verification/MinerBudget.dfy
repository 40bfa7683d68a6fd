/** Paying miners out of collected fees: the budget set at each maintenance is never overspent. */
module MinerBudget {
  import opened Division
  import opened MinerSchedule

  datatype Params = Params(interval: nat, skipSlots: nat, maintenanceInterval: nat)

  /** The chain parameters and dynamic properties that time and fee budgets live in. Amounts are
      signed, as `share_type` is. */
  datatype State = State(
    params: Params, headNum: nat, headTime: nat, flag: bool,
    lastBudget: nat, nextMaintenance: nat, budget: int, unspent: int, pool: int)

  /** A block: its time, the fees its transactions leave in the pool, and the parameters that a
      maintenance at this block would switch to. */
  datatype Event = Event(when: nat, fees: nat, pending: Params)

  function ClockOf(s: State): Clock {
    Clock(s.headNum, s.headTime, s.params.interval, s.flag, s.params.skipSlots)
  }

  /** Blocks the interval is divided into: the quotient rounded up. */
  function BlocksInInterval(timeToMaintenance: nat, interval: nat): nat
    requires interval > 0
  {
    (timeToMaintenance + interval - 1) / interval
  }

  /** One block's share of the budget; a negative one would be replaced by zero. */
  function FeeShare(budget: int, blocks: nat): nat {
    if blocks > 0 && budget > 0 then budget / blocks else 0
  }

  /** The next maintenance time after a maintenance at `now`. */
  function NextMaintenance(headNum: nat, previous: nat, now: nat, interval: nat): nat
    requires interval > 0 && previous <= now
  {
    if headNum == 1 then (now / interval + 1) * interval else previous + ((now - previous) / interval + 1) * interval
  }

  /** It is the first point of its grid after `now`. */
  lemma NextMaintenanceIsNext(headNum: nat, previous: nat, now: nat, interval: nat)
    requires interval > 0 && previous <= now
    ensures now < NextMaintenance(headNum, previous, now, interval) <= now + interval
  {
    var base := if headNum == 1 then 0 else previous;
    var q := (now - base) / interval;
    DivisionInterval(now - base, interval, q);
    NextMultiple(q, interval);
  }

  predicate Accepts(s: State, e: Event)
    requires s.params.interval > 0
  {
    && s.headTime < e.when && SlotAtTime(ClockOf(s), e.when) > 0
    && e.pending.interval > 0 && e.pending.maintenanceInterval > 0
  }

  // ---------------------------------------------------------------- one interval in isolation

  /** The clock that block `i` of the interval is judged by. */
  function ClockBefore(start: nat, interval: nat, skip: nat, ts: seq<nat>, i: nat): Clock
    requires i <= |ts|
  {
    Clock(1, if i == 0 then start else ts[i - 1], interval, i == 0, skip)
  }

  /** Block times after a maintenance at `start`: each in a slot of its own, and all but the last,
      which triggers the next maintenance, before `next`. */
  ghost predicate PaidTimes(start: nat, next: nat, interval: nat, skip: nat, ts: seq<nat>)
    requires interval > 0
  {
    && (forall i :: 0 <= i < |ts| ==> SlotAtTime(ClockBefore(start, interval, skip, ts, i), ts[i]) > 0)
    && (forall i :: 0 <= i < |ts| - 1 ==> ts[i] < next)
  }

  /** The most blocks that can be paid between two maintenances. */
  function MostPaid(start: nat, next: nat, interval: nat, skip: nat): int
    requires interval > 0 && next > 0
  {
    (next - 1) / interval - start / interval - skip + 1
  }

  lemma {:induction false} SlotsPassed(start: nat, next: nat, interval: nat, skip: nat, ts: seq<nat>, i: nat)
    requires interval > 0 && PaidTimes(start, next, interval, skip, ts) && i < |ts|
    ensures ts[i] / interval >= start / interval + skip + i + 1
    decreases i
  {
    BlockAdvancesSlot(ClockBefore(start, interval, skip, ts, i), ts[i]);
    if i > 0 {
      SlotsPassed(start, next, interval, skip, ts, i - 1);
    }
  }

  /** No legal sequence of blocks is longer than `MostPaid`, except the single closing block. */
  lemma PaidAtMost(start: nat, next: nat, interval: nat, skip: nat, ts: seq<nat>)
    requires interval > 0 && next > start && PaidTimes(start, next, interval, skip, ts)
    ensures |ts| <= 1 || |ts| <= MostPaid(start, next, interval, skip)
  {
    if |ts| >= 2 {
      SlotsPassed(start, next, interval, skip, ts, |ts| - 2);
      QuotientMonotone(ts[|ts| - 2], next - 1, interval);
    }
  }

  /** Start of slot number `k`. */
  function Grid(k: nat, interval: nat): nat {
    k * interval
  }

  /** ... and there is one exactly that long. */
  lemma PaidAttained(start: nat, next: nat, interval: nat, skip: nat) returns (ts: seq<nat>)
    requires interval > 0 && next > start && MostPaid(start, next, interval, skip) >= 1
    ensures PaidTimes(start, next, interval, skip, ts) && |ts| == MostPaid(start, next, interval, skip)
  {
    ts := GridTimes(start, next, interval, skip, start / interval + skip + 1, MostPaid(start, next, interval, skip));
  }

  lemma GridTimes(start: nat, next: nat, interval: nat, skip: nat, s: nat, n: nat) returns (ts: seq<nat>)
    requires interval > 0 && next > start
    requires s == start / interval + skip + 1 && s + n == (next - 1) / interval + 2
    ensures PaidTimes(start, next, interval, skip, ts) && |ts| == n
  {
    ts := seq<nat>(n, i requires 0 <= i < n => Grid(s + i, interval));
    forall i | 0 <= i < |ts|
      ensures SlotAtTime(ClockBefore(start, interval, skip, ts, i), ts[i]) > 0
    {
      AlignedSlot(start, interval, skip, s, i);
    }
    forall i | 0 <= i < |ts| - 1
      ensures ts[i] < next
    {
      GridBefore(s + i, next, interval);
    }
  }

  lemma GridBefore(k: nat, next: nat, interval: nat)
    requires interval > 0 && next > 0 && k <= (next - 1) / interval
    ensures Grid(k, interval) < next
  {
    QuotientAtLeast(next - 1, interval, k);
  }

  lemma AlignedSlot(start: nat, interval: nat, skip: nat, s: nat, i: nat)
    requires interval > 0 && s == start / interval + skip + 1
    ensures var head := if i == 0 then start else Grid(s + (i - 1), interval);
      SlotAtTime(Clock(1, head, interval, i == 0, skip), Grid(s + i, interval)) > 0
  {
    var head := if i == 0 then start else Grid(s + (i - 1), interval);
    var c := Clock(1, head, interval, i == 0, skip);
    if i > 0 {
      ModOf(s + (i - 1), 0, interval, head);
      NextMultiple(s + (i - 1), interval);
    } else {
      assert (1 + skip) * interval + start / interval * interval == s * interval;
    }
    SlotFunctionsAreAdjoint(c, Grid(s + i, interval), 1);
  }

  /** The remainder that can push one extra slot into the interval. */
  predicate NoCarry(start: nat, next: nat, interval: nat)
    requires interval > 0 && next > start
  {
    (next - start - 1) % interval + start % interval < interval
  }

  lemma MostPaidVersusBlocks(start: nat, next: nat, interval: nat, skip: nat)
    requires interval > 0 && next > start
    ensures MostPaid(start, next, interval, skip)
         == BlocksInInterval(next - start, interval) - skip + (if NoCarry(start, next, interval) then 0 else 1)
    ensures BlocksInInterval(next - start, interval) >= 1
  {
    var d := next - start - 1;
    QuotientOfSum(d, start, interval);
    QuotientOfSum(d, interval, interval);
    ModOf(1, 0, interval, interval);
  }

  /** The quotient of a sum, with the carry of the remainders. */
  lemma QuotientOfSum(a: nat, b: nat, d: nat)
    requires d > 0
    ensures (a + b) / d == a / d + b / d + (if a % d + b % d < d then 0 else 1)
  {
    QuotientAndRest(a, d);
    QuotientAndRest(b, d);
    CarriedSum(a / d, b / d, a % d, b % d, d, a + b);
  }

  lemma CarriedSum(p: nat, q: nat, r: nat, s: nat, d: nat, x: nat)
    requires r < d && s < d && x == p * d + r + (q * d + s)
    ensures x / d == p + q + (if r + s < d then 0 else 1)
  {
    assert (p + q) * d == p * d + q * d;
    if r + s < d {
      ModOf(p + q, r + s, d, x);
    } else {
      NextMultiple(p + q, d);
      ModOf(p + q + 1, r + s - d, d, x);
    }
  }

  /** The interval is divided into enough shares for every legal sequence of blocks exactly when
      maintenance skips a slot or no extra slot fits between the two maintenances. */
  lemma EnoughSharesIff(start: nat, next: nat, interval: nat, skip: nat)
    requires interval > 0 && next > start
    ensures var n := BlocksInInterval(next - start, interval);
      (forall ts :: PaidTimes(start, next, interval, skip, ts) ==> |ts| <= n) <==>
        skip >= 1 || NoCarry(start, next, interval)
  {
    MostPaidVersusBlocks(start, next, interval, skip);
    var blocks := BlocksInInterval(next - start, interval);
    if skip >= 1 || NoCarry(start, next, interval) {
      forall ts | PaidTimes(start, next, interval, skip, ts)
        ensures |ts| <= blocks
      {
        PaidAtMost(start, next, interval, skip, ts);
      }
    } else {
      var ts := PaidAttained(start, next, interval, skip);
      assert |ts| == blocks + 1;
    }
  }

  /** There is no carry when either of the two maintenances falls on the slot grid. */
  lemma AlignedNeverCarries(start: nat, next: nat, interval: nat)
    requires interval > 0 && next > start && (start % interval == 0 || next % interval == 0)
    ensures NoCarry(start, next, interval)
  {
    var d := next - start - 1;
    if start % interval != 0 {
      QuotientAndRest(d, interval);
      QuotientAndRest(start, interval);
      QuotientAndRest(next, interval);
      RemaindersFit(d / interval, start / interval, next / interval, d % interval, start % interval, interval);
    }
  }

  /** Two remainders whose sum is one short of a multiple stay below the divisor. */
  lemma RemaindersFit(p: nat, q: nat, t: nat, r: nat, s: nat, d: nat)
    requires r < d && s < d && p * d + r + (q * d + s) + 1 == t * d
    ensures r + s < d
  {
    var k := t - p - q;
    assert k * d == t * d - p * d - q * d;
    if k >= 2 {
      MulMonotone(2, k, d);
    }
  }

  // ---------------------------------------------------------------- whole runs

  /** `update_signing_miner`: the block's share of the fee budget is taken. */
  function PaySigner(s: State): State
    requires s.params.interval > 0 && s.nextMaintenance >= s.lastBudget
  {
    s.(unspent := s.unspent - FeeShare(s.budget, BlocksInInterval(s.nextMaintenance - s.lastBudget, s.params.interval)))
  }

  /** The maintenance part: switch parameters, set the next maintenance time, and roll the pool and
      what is unspent into the next budget. */
  function Maintain(s: State, pending: Params): State
    requires pending.maintenanceInterval > 0 && s.nextMaintenance <= s.headTime
  {
    var next := NextMaintenance(s.headNum, s.nextMaintenance, s.headTime, pending.maintenanceInterval);
    s.(params := pending, nextMaintenance := next, lastBudget := s.headTime,
       budget := s.pool + s.unspent, unspent := s.pool + s.unspent, pool := 0)
  }

  /** What every block finds, from the first one on. */
  predicate Live(s: State) {
    s.params.interval > 0 && s.nextMaintenance >= s.lastBudget
  }

  /** `_apply_block` as far as time and fees go. */
  function Step(s: State, e: Event): State
    requires Live(s) && Accepts(s, e)
  {
    var maintenance := s.nextMaintenance <= e.when;
    var s1 := PaySigner(s.(pool := s.pool + e.fees, headNum := s.headNum + 1, headTime := e.when));
    (if maintenance then Maintain(s1, e.pending) else s1).(flag := maintenance)
  }

  /** The interval is divided into just as many blocks as cover it, and a positive budget into equal shares, of which
      less than one unit a block is left over. */
  lemma SharesAreEqual(time: nat, interval: nat, budget: int)
    requires interval > 0
    ensures var n := BlocksInInterval(time, interval);
      && n * interval >= time && (n >= 1 ==> (n - 1) * interval < time)
      && (n >= 1 && budget >= 0 ==> FeeShare(budget, n) * n <= budget < FeeShare(budget, n) * n + n)
      && (n == 0 || budget < 0 ==> FeeShare(budget, n) == 0)
  {
    var n := BlocksInInterval(time, interval);
    DivisionInterval(time + interval - 1, interval, n);
    if n >= 1 {
      NextMultiple(n - 1, interval);
      if budget > 0 {
        DivisionInterval(budget, n, FeeShare(budget, n));
      }
    }
  }

  /** What a block does: it collects its fees and pays its miner a share; at maintenance all that is collected and
      unspent becomes the next budget, under the pending parameters. */
  lemma BlockPays(s: State, e: Event)
    requires Live(s) && Accepts(s, e)
    ensures var share := FeeShare(s.budget, BlocksInInterval(s.nextMaintenance - s.lastBudget, s.params.interval));
      var t, fees, left := Step(s, e), s.pool + e.fees, s.unspent - share;
      && t.headNum == s.headNum + 1 && t.headTime == e.when && t.flag == (e.when >= s.nextMaintenance)
      && (t.flag ==>
          && t.budget == fees + left && t.unspent == fees + left && t.pool == 0
          && t.lastBudget == e.when && t.params == e.pending)
      && (!t.flag ==>
          && t.pool == fees && t.unspent == left && t.budget == s.budget && t.lastBudget == s.lastBudget
          && t.params == s.params && t.nextMaintenance == s.nextMaintenance)
  {
  }

  /** Blocks are accepted in slots only: at least one slot after the head, in order of time. */
  lemma AcceptedIff(s: State, e: Event)
    requires Live(s)
    ensures Accepts(s, e) <==>
      && e.when > s.headTime && e.when >= SlotTime(ClockOf(s), 1)
      && e.pending.interval > 0 && e.pending.maintenanceInterval > 0
  {
    SlotFunctionsAreAdjoint(ClockOf(s), e.when, 1);
  }

  /** Maintenance times keep their distance: from one to a later one there are whole maintenance intervals, and the
      first is a multiple of the interval. */
  lemma NextMaintenanceIsOnGrid(headNum: nat, previous: nat, now: nat, interval: nat)
    requires interval > 0 && previous <= now
    ensures var next := NextMaintenance(headNum, previous, now, interval);
      if headNum == 1 then next % interval == 0 else next > previous && (next - previous) % interval == 0
  {
    var base := if headNum == 1 then 0 else previous;
    ModOf((now - base) / interval + 1, 0, interval, ((now - base) / interval + 1) * interval);
    NextMaintenanceIsNext(headNum, previous, now, interval);
  }

  /** The current interval divides its budget into enough shares. */
  predicate Covered(s: State) {
    s.params.interval > 0 && s.nextMaintenance > s.lastBudget &&
    (s.params.skipSlots >= 1 || NoCarry(s.lastBudget, s.nextMaintenance, s.params.interval))
  }

  function Blocks(s: State): nat
    requires Covered(s)
  {
    BlocksInInterval(s.nextMaintenance - s.lastBudget, s.params.interval)
  }

  /** After `paid` blocks of the current interval. The blocks paid are at most the slots gone by
      since the maintenance block, less the skipped ones. */
  ghost predicate Solvent(s: State, paid: nat) {
    && Covered(s) && s.headNum >= 1 && s.budget >= 0 && s.pool >= 0
    && s.headTime < s.nextMaintenance
    && s.unspent == s.budget - paid * FeeShare(s.budget, Blocks(s))
    && (paid == 0 ==> s.flag && s.headTime == s.lastBudget)
    && (paid >= 1 ==> !s.flag)
    && (paid >= 1 ==>
        s.headTime / s.params.interval >= s.lastBudget / s.params.interval + s.params.skipSlots + paid)
  }

  /** Another block can always be paid. */
  lemma OneMoreShare(s: State, paid: nat)
    requires Solvent(s, paid)
    ensures paid + 1 <= Blocks(s) && PaySigner(s).unspent >= 0
    ensures PaySigner(s).unspent == s.budget - (paid + 1) * FeeShare(s.budget, Blocks(s))
  {
    MostPaidVersusBlocks(s.lastBudget, s.nextMaintenance, s.params.interval, s.params.skipSlots);
    QuotientMonotone(s.headTime, s.nextMaintenance - 1, s.params.interval);
    var share := FeeShare(s.budget, Blocks(s));
    NextMultiple(paid, share);
    MulMonotone(paid + 1, Blocks(s), share);
    DivisionInterval(s.budget, Blocks(s), share);
    assert Blocks(s) * share == share * Blocks(s);
  }

  /** Every accepted block keeps the budget solvent, as long as the parameters a maintenance
      switches to leave the next interval covered. */
  lemma StepKeepsSolvent(s: State, paid: nat, e: Event) returns (paid': nat)
    requires Solvent(s, paid) && Accepts(s, e)
    requires s.nextMaintenance <= e.when ==> Covered(Step(s, e))
    ensures Solvent(Step(s, e), paid') && Step(s, e).unspent >= 0
  {
    OneMoreShare(s, paid);
    if s.nextMaintenance <= e.when {
      paid' := 0;
      NextMaintenanceIsNext(s.headNum + 1, s.nextMaintenance, e.when, e.pending.maintenanceInterval);
    } else {
      paid' := paid + 1;
      BlockAdvancesSlot(ClockOf(s), e.when);
    }
  }

  /** A maintenance at this block skips a slot, or no extra slot fits before the next one. */
  predicate Careful(s: State, e: Event)
    requires Live(s) && Accepts(s, e)
  {
    s.nextMaintenance <= e.when ==> Covered(Step(s, e))
  }

  lemma StepStaysLive(s: State, e: Event)
    requires Live(s) && Accepts(s, e)
    ensures Live(Step(s, e))
  {
    if s.nextMaintenance <= e.when {
      NextMaintenanceIsNext(s.headNum + 1, s.nextMaintenance, e.when, e.pending.maintenanceInterval);
    }
  }

  /** So it is when a slot is skipped, or this or the next maintenance falls on the slot grid. */
  lemma CarefulIf(s: State, e: Event)
    requires Live(s) && Accepts(s, e)
    requires s.nextMaintenance <= e.when ==>
      || e.pending.skipSlots >= 1 || e.when % e.pending.interval == 0
      || Step(s, e).nextMaintenance % e.pending.interval == 0
    ensures Careful(s, e)
  {
    if s.nextMaintenance <= e.when {
      NextMaintenanceIsNext(s.headNum + 1, s.nextMaintenance, e.when, e.pending.maintenanceInterval);
      var t := Step(s, e);
      if e.pending.skipSlots == 0 {
        AlignedNeverCarries(t.lastBudget, t.nextMaintenance, t.params.interval);
      }
    }
  }

  predicate IsRun(s: State, es: seq<Event>)
    decreases |es|
  {
    es == [] || (Live(s) && Accepts(s, es[0]) && IsRun(Step(s, es[0]), es[1..]))
  }

  function Run(s: State, es: seq<Event>): State
    requires IsRun(s, es)
    decreases |es|
  {
    if es == [] then s else Run(Step(s, es[0]), es[1..])
  }

  predicate AllCareful(s: State, es: seq<Event>)
    requires IsRun(s, es)
    decreases |es|
  {
    es == [] || (Careful(s, es[0]) && AllCareful(Step(s, es[0]), es[1..]))
  }

  /** Over any number of careful maintenance intervals the fee budget is never overspent. */
  lemma {:induction false} FeesNeverOverspent(s: State, paid: nat, es: seq<Event>)
    requires Solvent(s, paid) && s.unspent >= 0 && IsRun(s, es) && AllCareful(s, es)
    ensures Run(s, es).unspent >= 0 && exists paid' :: Solvent(Run(s, es), paid')
    decreases |es|
  {
    if es != [] {
      var paid' := StepKeepsSolvent(s, paid, es[0]);
      FeesNeverOverspent(Step(s, es[0]), paid', es[1..]);
    }
  }

  /** The properties as genesis leaves them: the first block is a maintenance block. */
  function Genesis(params: Params, start: nat): State {
    State(params, 0, start, false, 0, 0, 0, 0, 0)
  }

  /** So from genesis on, as long as every maintenance is careful. */
  lemma {:induction false} FeesNeverOverspentFromGenesis(params: Params, start: nat, es: seq<Event>)
    requires params.interval > 0 && IsRun(Genesis(params, start), es) && AllCareful(Genesis(params, start), es)
    ensures Run(Genesis(params, start), es).unspent >= 0
  {
    if es != [] {
      var s := Genesis(params, start);
      NextMaintenanceIsNext(1, 0, es[0].when, es[0].pending.maintenanceInterval);
      assert Solvent(Step(s, es[0]), 0);
      FeesNeverOverspent(Step(s, es[0]), 0, es[1..]);
    }
  }

  // ---------------------------------------------------------------- legal parameters

  /** What `chain_parameters::validate` asks of the two intervals; it asks nothing of the skipped slots. */
  predicate Legal(p: Params) {
    0 < p.interval < p.maintenanceInterval && p.maintenanceInterval % p.interval == 0
  }

  lemma MultipleOnGrid(k: nat, n: nat, i: nat)
    requires i > 0 && n % i == 0
    ensures (k * n) % i == 0
  {
    QuotientAndRest(n, i);
    assert k * n == k * (n / i) * i;
    ModOf(k * (n / i), 0, i, k * n);
  }

  lemma SumOnGrid(a: nat, b: nat, i: nat)
    requires i > 0 && a % i == 0 && b % i == 0
    ensures (a + b) % i == 0
  {
    QuotientAndRest(a, i);
    QuotientAndRest(b, i);
    assert (a / i + b / i) * i == a / i * i + b / i * i;
    ModOf(a / i + b / i, 0, i, a + b);
  }

  /** With legal parameters every maintenance time that follows one on the grid is on the grid. */
  lemma NextStaysOnGrid(headNum: nat, previous: nat, now: nat, p: Params)
    requires Legal(p) && previous <= now && previous % p.interval == 0
    ensures NextMaintenance(headNum, previous, now, p.maintenanceInterval) % p.interval == 0
  {
    var m := p.maintenanceInterval;
    if headNum == 1 {
      MultipleOnGrid(now / m + 1, m, p.interval);
    } else {
      MultipleOnGrid((now - previous) / m + 1, m, p.interval);
      SumOnGrid(previous, ((now - previous) / m + 1) * m, p.interval);
    }
  }

  predicate Unchanged(es: seq<Event>, p: Params) {
    forall i :: 0 <= i < |es| ==> es[i].pending == p
  }

  lemma {:induction false} UnchangedIsCareful(s: State, es: seq<Event>)
    requires Legal(s.params) && Unchanged(es, s.params) && s.nextMaintenance % s.params.interval == 0 && IsRun(s, es)
    ensures AllCareful(s, es)
    decreases |es|
  {
    if es != [] {
      var e := es[0];
      if s.nextMaintenance <= e.when {
        NextStaysOnGrid(s.headNum + 1, s.nextMaintenance, e.when, s.params);
      }
      CarefulIf(s, e);
      assert forall i :: 0 <= i < |es[1..]| ==> es[1..][i] == es[i + 1];
      UnchangedIsCareful(Step(s, e), es[1..]);
    }
  }

  /** Legal parameters that never change never overspend, without skipped slots and whatever the block
      times. */
  lemma {:induction false} LegalParametersNeverOverspend(params: Params, start: nat, es: seq<Event>)
    requires Legal(params) && Unchanged(es, params) && IsRun(Genesis(params, start), es)
    ensures Run(Genesis(params, start), es).unspent >= 0
  {
    ModOf(0, 0, params.interval, 0);
    UnchangedIsCareful(Genesis(params, start), es);
    FeesNeverOverspentFromGenesis(params, start, es);
  }

  /** Block `e` takes the properties from `s` to `t`. */
  predicate Takes(s: State, e: Event, t: State) {
    Live(s) && Accepts(s, e) && Step(s, e) == t
  }

  ghost predicate TakesAll(ss: seq<State>, es: seq<Event>) {
    |ss| == |es| + 1 && forall i :: 0 <= i < |es| ==> Takes(ss[i], es[i], ss[i + 1])
  }

  lemma {:induction false} RunAlong(ss: seq<State>, es: seq<Event>)
    requires TakesAll(ss, es)
    ensures IsRun(ss[0], es) && Run(ss[0], es) == ss[|es|]
    decreases |es|
  {
    if es != [] {
      var rest, later := ss[1..], es[1..];
      assert Takes(ss[0], es[0], ss[1]);
      forall i | 0 <= i < |later| ensures Takes(rest[i], later[i], rest[i + 1]) {
        assert Takes(ss[i + 1], es[i + 1], ss[i + 2]);
      }
      RunAlong(rest, later);
    }
  }

  const SLOW: Params := Params(5, 0, 10)
  const FAST: Params := Params(3, 0, 6)

  /** The properties after each of the blocks below. */
  function Stage(i: nat): State
    requires i <= 5
  {
    if i == 0 then Genesis(SLOW, 5)
    else if i == 1 then State(SLOW, 1, 10, true, 10, 20, 0, 0, 0)
    else if i == 2 then State(FAST, 2, 20, true, 20, 26, 2, 2, 0)
    else if i == 3 then State(FAST, 3, 21, false, 20, 26, 2, 1, 0)
    else if i == 4 then State(FAST, 4, 24, false, 20, 26, 2, 0, 0)
    else State(FAST, 5, 27, true, 27, 32, -1, -1, 0)
  }

  /** Blocks every five seconds and maintenance every ten; from the maintenance at 20 on, three and six. */
  function Block(i: nat): Event
    requires i < 5
  {
    if i == 0 then Event(10, 0, SLOW)
    else if i == 1 then Event(20, 2, FAST)
    else Event(if i == 2 then 21 else if i == 3 then 24 else 27, 0, FAST)
  }

  /** `q` is the quotient of `x` by `d`. */
  predicate IsQuotient(x: nat, d: nat, q: nat) {
    q * d <= x < q * d + d
  }

  /** Block `e` comes in a slot of its own, slot `q` being that of the head, with no slot to skip. */
  predicate InSlot(s: State, e: Event, q: nat) {
    && s.params.skipSlots == 0 && s.headTime < e.when
    && (if s.headNum == 0 then s.headTime + s.params.interval <= e.when
        else IsQuotient(s.headTime, s.params.interval, q) && q * s.params.interval + s.params.interval <= e.when)
    && e.pending.interval > 0 && e.pending.maintenanceInterval > 0
  }

  /** The interval has `n` shares of `share` each. */
  predicate ShareIs(s: State, n: nat, share: nat)
    requires Live(s)
  {
    && IsQuotient(s.nextMaintenance - s.lastBudget + s.params.interval - 1, s.params.interval, n)
    && (if s.budget <= 0 then share == 0 else n > 0 && IsQuotient(s.budget, n, share))
  }

  lemma {:induction false} SlotAccepts(s: State, e: Event, q: nat)
    requires Live(s) && InSlot(s, e, q)
    ensures Accepts(s, e)
  {
    if s.headNum > 0 {
      DivisionInterval(s.headTime, s.params.interval, q);
    }
    SlotFunctionsAreAdjoint(ClockOf(s), e.when, 1);
  }

  lemma {:induction false} ShareFound(s: State, n: nat, share: nat)
    requires Live(s) && ShareIs(s, n, share)
    ensures FeeShare(s.budget, BlocksInInterval(s.nextMaintenance - s.lastBudget, s.params.interval)) == share
  {
    DivisionInterval(s.nextMaintenance - s.lastBudget + s.params.interval - 1, s.params.interval, n);
    if s.budget > 0 {
      DivisionInterval(s.budget, n, share);
    }
  }

  /** What a block before the next maintenance does. */
  lemma {:induction false} PlainBlock(s: State, e: Event, t: State, q: nat, n: nat, share: nat)
    requires Live(s) && InSlot(s, e, q) && ShareIs(s, n, share) && e.when < s.nextMaintenance
    requires t == s.(headNum := s.headNum + 1, headTime := e.when, flag := false, pool := s.pool + e.fees,
      unspent := s.unspent - share)
    ensures Takes(s, e, t)
  {
    SlotAccepts(s, e, q);
    ShareFound(s, n, share);
  }

  /** What a maintenance block does; `y` intervals have passed since the maintenance was due. */
  lemma {:induction false} MaintenanceBlock(s: State, e: Event, t: State, q: nat, n: nat, share: nat, y: nat)
    requires Live(s) && InSlot(s, e, q) && ShareIs(s, n, share) && s.nextMaintenance <= e.when
    requires IsQuotient(e.when - if s.headNum == 0 then 0 else s.nextMaintenance, e.pending.maintenanceInterval, y)
    requires var due := if s.headNum == 0 then 0 else s.nextMaintenance;
      var next := due + (y * e.pending.maintenanceInterval + e.pending.maintenanceInterval);
      var fees := s.pool + e.fees + s.unspent - share;
      t == State(e.pending, s.headNum + 1, e.when, true, e.when, next, fees, fees, 0)
    ensures Takes(s, e, t)
  {
    SlotAccepts(s, e, q);
    ShareFound(s, n, share);
    var m := e.pending.maintenanceInterval;
    DivisionInterval(e.when - if s.headNum == 0 then 0 else s.nextMaintenance, m, y);
    NextMultiple(y, m);
  }

  lemma {:induction false} EachStep(i: nat, s: State, e: Event, t: State)
    requires i < 5 && s == Stage(i) && e == Block(i) && t == Stage(i + 1)
    ensures Takes(s, e, t)
  {
    if i == 0 {
      MaintenanceBlock(s, e, t, 0, 0, 0, 1);
    } else if i == 1 {
      MaintenanceBlock(s, e, t, 2, 2, 0, 0);
    } else if i == 2 {
      PlainBlock(s, e, t, 6, 2, 1);
    } else if i == 3 {
      PlainBlock(s, e, t, 7, 2, 1);
    } else {
      MaintenanceBlock(s, e, t, 8, 2, 1, 0);
    }
  }

  lemma {:induction false} AllBlocks(ss: seq<State>, es: seq<Event>)
    requires |ss| == 6 && |es| == 5
    requires forall i :: 0 <= i < 6 ==> ss[i] == Stage(i)
    requires forall i :: 0 <= i < 5 ==> es[i] == Block(i)
    ensures TakesAll(ss, es)
  {
    forall i | 0 <= i < 5 ensures Takes(ss[i], es[i], ss[i + 1]) {
      EachStep(i, ss[i], es[i], ss[i + 1]);
    }
  }

  /** A run that spends more fees than there are. */
  ghost predicate Overspends(s: State, es: seq<Event>) {
    IsRun(s, es) && Run(s, es).unspent < 0
  }

  lemma {:induction false} OverspendsAlong(ss: seq<State>, es: seq<Event>)
    requires TakesAll(ss, es) && ss[|es|].unspent < 0
    ensures Overspends(ss[0], es)
  {
    RunAlong(ss, es);
  }

  lemma {:induction false} StagesOverspend(ss: seq<State>, es: seq<Event>)
    requires |ss| == 6 && |es| == 5
    requires forall i :: 0 <= i < 6 ==> ss[i] == Stage(i)
    requires forall i :: 0 <= i < 5 ==> es[i] == Block(i)
    ensures Overspends(ss[0], es)
  {
    AllBlocks(ss, es);
    assert ss[5] == Stage(5);
    OverspendsAlong(ss, es);
  }

  /** A change of legal parameters does, without skipped slots: the next maintenance, at 26, is off the new
      grid, and the two shares of the fees of 2 are taken by the blocks at 21, 24 and 27. */
  lemma {:induction false} ChangedIntervalOverspends(s: State, es: seq<Event>)
    requires s == Stage(0) && |es| == 5 && forall i :: 0 <= i < 5 ==> es[i] == Block(i)
    ensures Legal(SLOW) && Legal(FAST) && s == Genesis(SLOW, 5) && Overspends(s, es)
  {
    StagesAreLegal();
    var ss := seq(6, i requires 0 <= i < 6 => Stage(i));
    StagesOverspend(ss, es);
  }

  lemma StagesAreLegal()
    ensures Legal(SLOW) && Legal(FAST) && Stage(0) == Genesis(SLOW, 5)
  {
  }

  /** The properties that a block updates in place. */
  class DynamicProperties {
    var params: Params
    var headNum: nat
    var headTime: nat
    var flag: bool
    var lastBudget: nat
    var nextMaintenance: nat
    var budget: int
    var unspent: int
    var pool: int

    function View(): State
      reads this
    {
      State(params, headNum, headTime, flag, lastBudget, nextMaintenance, budget, unspent, pool)
    }

    constructor (s: State)
      ensures View() == s
    {
      params, headNum, headTime, flag := s.params, s.headNum, s.headTime, s.flag;
      lastBudget, nextMaintenance := s.lastBudget, s.nextMaintenance;
      budget, unspent, pool := s.budget, s.unspent, s.pool;
    }

    method UpdateSigningMiner()
      requires params.interval > 0 && nextMaintenance >= lastBudget
      modifies this`unspent
      ensures View() == PaySigner(old(View()))
    {
      var blocks := (nextMaintenance - lastBudget + params.interval - 1) / params.interval;
      var fromFees := 0;
      if blocks > 0 && budget > 0 {
        fromFees := budget / blocks;
      }
      unspent := unspent - fromFees;
    }

    method PerformMaintenance(pending: Params)
      requires pending.maintenanceInterval > 0 && nextMaintenance <= headTime
      modifies this
      ensures View() == Maintain(old(View()), pending)
    {
      params := pending;
      if headNum == 1 {
        nextMaintenance := (headTime / params.maintenanceInterval + 1) * params.maintenanceInterval;
      } else {
        var y := (headTime - nextMaintenance) / params.maintenanceInterval;
        nextMaintenance := nextMaintenance + (y + 1) * params.maintenanceInterval;
      }
      budget := pool + unspent;
      unspent := budget;
      pool := 0;
      lastBudget := headTime;
    }

    /** `paid` counts the blocks already paid in the interval. */
    method ApplyBlock(e: Event, ghost paid: nat)
      requires Live(View()) && Accepts(View(), e)
      modifies this
      ensures View() == Step(old(View()), e) && Live(View())
      ensures old(Solvent(View(), paid)) && (Covered(View()) || !flag) ==>
        unspent >= 0 && exists paid' :: Solvent(View(), paid')
    {
      ghost var s := View();
      StepStaysLive(s, e);
      var maintenance := nextMaintenance <= e.when;
      pool, headNum, headTime := pool + e.fees, headNum + 1, e.when;
      UpdateSigningMiner();
      if maintenance {
        PerformMaintenance(e.pending);
      }
      flag := maintenance;
      if Solvent(s, paid) && (Covered(View()) || !flag) {
        ghost var paid' := StepKeepsSolvent(s, paid, e);
        assert Solvent(View(), paid');
      }
    }
  }
}
