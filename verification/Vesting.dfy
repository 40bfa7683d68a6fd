/** Vesting balances: coin-seconds (cdd) and linear policies. */
module Vesting {
  import opened Division

  datatype Policy =
    | Linear(beginTime: nat, cliff: nat, duration: nat, beginBalance: nat)
    | Cdd(vestingSeconds: nat, startClaim: nat, earned: nat, lastUpdate: nat)

  datatype Vesting = Vesting(balance: nat, policy: Policy)

  /** `max(vesting_seconds, 1)`. */
  function Seconds(p: Policy): (v: nat)
    requires p.Cdd?
    ensures v >= 1
  {
    if p.vestingSeconds >= 1 then p.vestingSeconds else 1
  }

  /** Coin-seconds at `now`: what was earned plus the balance held since, capped. */
  function Earned(v: Vesting, now: nat): nat
    requires v.policy.Cdd? && now >= v.policy.lastUpdate
  {
    Least(v.policy.earned + v.balance * (now - v.policy.lastUpdate), v.balance * Seconds(v.policy))
  }

  function Prorated(total: nat, elapsed: nat, duration: nat): nat
    requires duration > 0
  {
    total * elapsed / duration
  }

  function LinearVested(p: Policy, now: nat): nat
    requires p.Linear?
  {
    if now <= p.beginTime || now - p.beginTime < p.cliff then 0
    else if now - p.beginTime < p.duration then Prorated(p.beginBalance, now - p.beginTime, p.duration)
    else p.beginBalance
  }

  /** `get_allowed_withdraw`. */
  function Allowed(v: Vesting, now: nat): int
    requires v.policy.Cdd? ==> now >= v.policy.lastUpdate
  {
    match v.policy
    case Cdd(_, start, _, _) => if now <= start then 0 else Earned(v, now) / Seconds(v.policy)
    case Linear(begin, cliff, _, total) =>
      if now <= begin || now - begin < cliff then 0
      else LinearVested(v.policy, now) - (total - v.balance)
  }

  // ---------------------------------------------------------------- operations as functions

  function Updated(v: Vesting, now: nat): Policy
    requires v.policy.Cdd? && now >= v.policy.lastUpdate
  {
    v.policy.(earned := Earned(v, now), lastUpdate := now)
  }

  function Deposited(v: Vesting, now: nat, amount: nat): Vesting
    requires v.policy.Cdd? ==> now >= v.policy.lastUpdate
  {
    Vesting(v.balance + amount, if v.policy.Cdd? then Updated(v, now) else v.policy)
  }

  function DepositedVested(v: Vesting, now: nat, amount: nat): Vesting
    requires v.policy.Cdd? && now >= v.policy.lastUpdate
  {
    var p := Updated(v, now);
    Vesting(v.balance + amount, p.(earned := p.earned + amount * Seconds(p)))
  }

  function Withdrawn(v: Vesting, now: nat, amount: nat): Vesting
    requires amount <= v.balance
    requires v.policy.Cdd? ==> now >= v.policy.lastUpdate && amount * Seconds(v.policy) <= Earned(v, now)
  {
    if v.policy.Linear? then v.(balance := v.balance - amount)
    else
      var p := Updated(v, now);
      Vesting(v.balance - amount, p.(earned := p.earned - amount * Seconds(p)))
  }

  // ---------------------------------------------------------------- coin-seconds, one step

  /** Earned coin-seconds never exceed the cap. */
  predicate Capped(v: Vesting) {
    v.policy.Cdd? && v.policy.earned <= v.balance * Seconds(v.policy)
  }

  /** What may be withdrawn is covered by coin-seconds and by the balance. */
  lemma AllowedIsCovered(v: Vesting, now: nat, amount: nat)
    requires v.policy.Cdd? && now >= v.policy.lastUpdate && amount <= Allowed(v, now)
    ensures amount <= v.balance && amount * Seconds(v.policy) <= Earned(v, now)
  {
    var s, e := Seconds(v.policy), Earned(v, now);
    QuotientAtLeast(e, s, if now <= v.policy.startClaim then 0 else amount);
    MulMonotone(amount, e / s, s);
    DivisionInterval(e, s, e / s);
    if amount > v.balance {
      MulMonotone(v.balance + 1, amount, s);
      NextMultiple(v.balance, s);
    }
  }

  /** An amount may be withdrawn exactly when claiming has started, the balance holds it, and the coin-seconds earned
      before and since the last update pay for the whole vesting period of it. */
  lemma AllowedIff(v: Vesting, now: nat, amount: nat)
    requires v.policy.Cdd? && now >= v.policy.lastUpdate && amount > 0
    ensures var period := if v.policy.vestingSeconds == 0 then 1 else v.policy.vestingSeconds;
      amount <= Allowed(v, now) <==>
        && now > v.policy.startClaim && amount <= v.balance
        && amount * period <= v.policy.earned + v.balance * (now - v.policy.lastUpdate)
  {
    var s, e := Seconds(v.policy), Earned(v, now);
    QuotientAtLeast(e, s, amount);
    if amount <= v.balance {
      MulMonotone(amount, v.balance, s);
    } else {
      MulMonotone(v.balance + 1, amount, s);
      NextMultiple(v.balance, s);
    }
  }

  /** What has been held for the vesting period may be withdrawn. */
  lemma HeldIsAvailable(v: Vesting, now: nat)
    requires v.policy.Cdd? && now > v.policy.startClaim
    requires now >= v.policy.lastUpdate + 1 && now >= v.policy.lastUpdate + v.policy.vestingSeconds
    ensures Allowed(v, now) == v.balance
  {
    var s := Seconds(v.policy);
    MulMonotone(s, now - v.policy.lastUpdate, v.balance);
    ModOf(v.balance, 0, s, v.balance * s);
  }

  /** Looking at the balance in between does not change what is earned. */
  lemma AccrualIsPathIndependent(v: Vesting, middle: nat, now: nat)
    requires v.policy.Cdd? && v.policy.lastUpdate <= middle <= now
    ensures Earned(v.(policy := Updated(v, middle)), now) == Earned(v, now)
  {
    var b, a, c := v.balance, middle - v.policy.lastUpdate, now - middle;
    assert b * (a + c) == b * a + b * c;
  }

  lemma QuotientShift(e: nat, w: nat, s: nat)
    requires s >= 1 && w * s <= e
    ensures (e - w * s) / s == e / s - w
  {
    var q := e / s;
    DivisionInterval(e, s, q);
    QuotientAtLeast(e, s, w);
    assert (q - w) * s == q * s - w * s;
    DivisionInterval(e - w * s, s, q - w);
  }

  /** A withdrawal lowers what is allowed at that moment by exactly itself. */
  lemma WithdrawalCountsOnce(v: Vesting, now: nat, amount: nat)
    requires Capped(v) && now >= v.policy.lastUpdate && amount <= Allowed(v, now)
    ensures amount <= v.balance && amount * Seconds(v.policy) <= Earned(v, now)
    ensures Capped(Withdrawn(v, now, amount)) && Allowed(Withdrawn(v, now, amount), now) == Allowed(v, now) - amount
  {
    AllowedIsCovered(v, now, amount);
    var s, e, w := Seconds(v.policy), Earned(v, now), Withdrawn(v, now, amount);
    assert (v.balance - amount) * s == v.balance * s - amount * s;
    assert w.balance * 0 == 0;
    QuotientShift(e, amount, s);
  }

  /** A plain deposit leaves what is allowed at that moment as it was. */
  lemma DepositMustVest(v: Vesting, now: nat, amount: nat)
    requires Capped(v) && now >= v.policy.lastUpdate
    ensures Capped(Deposited(v, now, amount)) && Allowed(Deposited(v, now, amount), now) == Allowed(v, now)
  {
    var s := Seconds(v.policy);
    MulMonotone(v.balance, v.balance + amount, s);
    assert (v.balance + amount) * 0 == 0;
  }

  /** A vested deposit raises what is allowed by exactly itself, once claiming has started. */
  lemma VestedDepositIsAvailable(v: Vesting, now: nat, amount: nat)
    requires Capped(v) && now >= v.policy.lastUpdate
    ensures Capped(DepositedVested(v, now, amount))
    ensures Allowed(DepositedVested(v, now, amount), now) == Allowed(v, now) + amount <==>
      now > v.policy.startClaim || amount == 0
  {
    var s, e, d := Seconds(v.policy), Earned(v, now), DepositedVested(v, now, amount);
    assert (v.balance + amount) * s == v.balance * s + amount * s;
    assert d.balance * 0 == 0;
    QuotientShift(e + amount * s, amount, s);
  }

  // ---------------------------------------------------------------- coin-seconds, whole runs

  datatype Event =
    | Deposit(now: nat, amount: nat)
    | DepositVested(now: nat, amount: nat)
    | Withdraw(now: nat, amount: nat)

  predicate Legal(v: Vesting, e: Event) {
    v.policy.Cdd? && e.now >= v.policy.lastUpdate && (e.Withdraw? ==> e.amount <= Allowed(v, e.now))
  }

  function Step(v: Vesting, e: Event): Vesting
    requires Legal(v, e)
  {
    match e
    case Deposit(now, x) => Deposited(v, now, x)
    case DepositVested(now, x) => DepositedVested(v, now, x)
    case Withdraw(now, x) => AllowedIsCovered(v, now, x); Withdrawn(v, now, x)
  }

  predicate IsRun(v: Vesting, es: seq<Event>)
    decreases |es|
  {
    es == [] || (Legal(v, es[0]) && IsRun(Step(v, es[0]), es[1..]))
  }

  function Run(v: Vesting, es: seq<Event>): Vesting
    requires IsRun(v, es)
    decreases |es|
  {
    if es == [] then v else Run(Step(v, es[0]), es[1..])
  }

  /** Total withdrawn, total deposited, and coin-seconds supplied (held balances plus vested
      deposits) over a run. */
  function TotalWithdrawn(es: seq<Event>): nat {
    if es == [] then 0 else (if es[0].Withdraw? then es[0].amount else 0) + TotalWithdrawn(es[1..])
  }

  function TotalDeposited(es: seq<Event>): nat {
    if es == [] then 0 else (if es[0].Withdraw? then 0 else es[0].amount) + TotalDeposited(es[1..])
  }

  function CoinSeconds(v: Vesting, es: seq<Event>): nat
    requires IsRun(v, es)
    decreases |es|
  {
    if es == [] then 0 else StepCoinSeconds(v, es[0]) + CoinSeconds(Step(v, es[0]), es[1..])
  }

  function StepCoinSeconds(v: Vesting, e: Event): nat
    requires Legal(v, e)
  {
    v.balance * (e.now - v.policy.lastUpdate) + (if e.DepositVested? then e.amount * Seconds(v.policy) else 0)
  }

  lemma StepKeepsCap(v: Vesting, e: Event)
    requires Capped(v) && Legal(v, e)
    ensures Capped(Step(v, e)) && Seconds(Step(v, e).policy) == Seconds(v.policy)
  {
    match e {
      case Deposit(now, x) => DepositMustVest(v, now, x);
      case DepositVested(now, x) => VestedDepositIsAvailable(v, now, x);
      case Withdraw(now, x) => WithdrawalCountsOnce(v, now, x);
    }
  }

  lemma StepPaysCoinSeconds(v: Vesting, e: Event)
    requires Capped(v) && Legal(v, e)
    ensures Step(v, e).policy.earned + (if e.Withdraw? then e.amount * Seconds(v.policy) else 0)
         <= v.policy.earned + StepCoinSeconds(v, e)
  {
    if e.Withdraw? {
      AllowedIsCovered(v, e.now, e.amount);
    }
  }

  lemma {:induction false} RunKeepsBooks(v: Vesting, es: seq<Event>)
    requires Capped(v) && IsRun(v, es)
    ensures Capped(Run(v, es)) && Run(v, es).balance + TotalWithdrawn(es) == v.balance + TotalDeposited(es)
    decreases |es|
  {
    if es != [] {
      StepKeepsCap(v, es[0]);
      RunKeepsBooks(Step(v, es[0]), es[1..]);
      if es[0].Withdraw? {
        AllowedIsCovered(v, es[0].now, es[0].amount);
      }
    }
  }

  lemma TimesSum(a: nat, b: nat, s: nat)
    ensures (a + b) * s == a * s + b * s
  {
  }

  lemma {:induction false} RunPaysCoinSeconds(v: Vesting, es: seq<Event>)
    requires Capped(v) && IsRun(v, es)
    ensures Run(v, es).policy.Cdd?
    ensures TotalWithdrawn(es) * Seconds(v.policy) + Run(v, es).policy.earned <= v.policy.earned + CoinSeconds(v, es)
    decreases |es|
  {
    if es != [] {
      var w, s := Step(v, es[0]), Seconds(v.policy);
      StepKeepsCap(v, es[0]);
      StepPaysCoinSeconds(v, es[0]);
      RunPaysCoinSeconds(w, es[1..]);
      var first := if es[0].Withdraw? then es[0].amount else 0;
      TimesSum(first, TotalWithdrawn(es[1..]), s);
      assert TotalWithdrawn(es) == first + TotalWithdrawn(es[1..]) && Seconds(w.policy) == s;
    }
  }

  /** Over every run: the cap holds, no money appears or vanishes, and every coin withdrawn was paid
      for in full with coin-seconds. */
  lemma WithdrawalsArePaidFor(v: Vesting, es: seq<Event>)
    requires Capped(v) && IsRun(v, es)
    ensures Capped(Run(v, es)) && Run(v, es).balance + TotalWithdrawn(es) == v.balance + TotalDeposited(es)
    ensures TotalWithdrawn(es) * Seconds(v.policy) + Run(v, es).policy.earned <= v.policy.earned + CoinSeconds(v, es)
  {
    RunKeepsBooks(v, es);
    RunPaysCoinSeconds(v, es);
  }

  // ---------------------------------------------------------------- linear vesting

  lemma VestedGrows(p: Policy, t: nat, u: nat)
    requires p.Linear? && t <= u
    ensures LinearVested(p, t) <= LinearVested(p, u) <= p.beginBalance
  {
    var b, d := p.beginBalance, p.duration;
    if p.beginTime < u && u - p.beginTime < d {
      ShareBelowWhole(b, u - p.beginTime, d);
      if p.beginTime < t {
        MulMonotone(t - p.beginTime, u - p.beginTime, b);
        QuotientMonotone(b * (t - p.beginTime), b * (u - p.beginTime), d);
      }
    } else if p.beginTime < t && t - p.beginTime < d {
      ShareBelowWhole(b, t - p.beginTime, d);
    }
  }

  lemma ShareBelowWhole(b: nat, e: nat, d: nat)
    requires e < d
    ensures b * e / d <= b
  {
    MulMonotone(e, d, b);
    DivisionInterval(b * d, d, b);
    QuotientMonotone(b * e, b * d, d);
  }

  /** An amount of a linear balance has vested exactly when the cliff has passed and either the whole duration has, or
      the amount is at most the elapsed part of it. */
  lemma VestedIff(p: Policy, now: nat, amount: nat)
    requires p.Linear? && amount > 0
    ensures amount <= LinearVested(p, now) <==>
      && now > p.beginTime && now - p.beginTime >= p.cliff
      && (if now - p.beginTime >= p.duration then amount <= p.beginBalance
          else amount * p.duration <= p.beginBalance * (now - p.beginTime))
  {
    if now > p.beginTime && now - p.beginTime < p.duration {
      QuotientAtLeast(p.beginBalance * (now - p.beginTime), p.duration, amount);
    }
  }

  /** And it may be withdrawn exactly when it has vested on top of all that was withdrawn before. */
  lemma LinearAllowedIff(v: Vesting, now: nat, amount: nat)
    requires v.policy.Linear? && v.balance <= v.policy.beginBalance && amount > 0
    ensures amount <= Allowed(v, now) <==>
      v.policy.beginBalance - v.balance + amount <= LinearVested(v.policy, now)
    ensures now <= v.policy.beginTime || now < v.policy.beginTime + v.policy.cliff ==> Allowed(v, now) == 0
  {
  }

  /** What was withdrawn by `since` does not exceed what had vested by then. */
  predicate Backed(v: Vesting, since: nat) {
    && v.policy.Linear? && v.balance <= v.policy.beginBalance
    && v.policy.beginBalance - v.balance <= LinearVested(v.policy, since)
  }

  /** For a linear policy under withdrawals, what is allowed is between zero and the balance at every
      later moment, and a withdrawal within it keeps all withdrawals within what has vested. */
  lemma LinearWithdrawalsAreBacked(v: Vesting, since: nat, now: nat, amount: nat)
    requires Backed(v, since) && since <= now
    ensures 0 <= Allowed(v, now) <= v.balance
    ensures amount <= Allowed(v, now) ==> Backed(Withdrawn(v, now, amount), now)
    ensures amount <= Allowed(v, now) ==> Allowed(Withdrawn(v, now, amount), now) == Allowed(v, now) - amount
  {
    VestedGrows(v.policy, since, now);
  }

  /** A linear policy never allows more than the balance, and what is allowed falls by what is taken. */
  lemma LinearAllowance(v: Vesting, now: nat, amount: nat)
    requires v.policy.Linear? && amount <= Allowed(v, now)
    ensures amount <= v.balance && Allowed(Withdrawn(v, now, amount), now) == Allowed(v, now) - amount
  {
    VestedGrows(v.policy, now, now);
  }

  /** Withdrawals `(time, amount)` in order of time, each within what is allowed at its time. */
  predicate LinearRun(v: Vesting, since: nat, ws: seq<(nat, nat)>)
    decreases |ws|
  {
    ws == [] ||
    (v.policy.Linear? && since <= ws[0].0 && ws[0].1 <= Allowed(v, ws[0].0) && ws[0].1 <= v.balance &&
     LinearRun(Withdrawn(v, ws[0].0, ws[0].1), ws[0].0, ws[1..]))
  }

  function LinearTotal(ws: seq<(nat, nat)>): nat {
    if ws == [] then 0 else ws[0].1 + LinearTotal(ws[1..])
  }

  /** Over every run of withdrawals from a linear balance, at any time after the last one, all that
      was ever withdrawn had vested. */
  lemma {:induction false} LinearRunIsBacked(v: Vesting, since: nat, ws: seq<(nat, nat)>, now: nat)
    requires Backed(v, since) && LinearRun(v, since, ws)
    requires now >= if ws == [] then since else ws[|ws| - 1].0
    ensures (v.policy.beginBalance - v.balance) + LinearTotal(ws) <= LinearVested(v.policy, now)
    decreases |ws|
  {
    if ws == [] {
      VestedGrows(v.policy, since, now);
    } else {
      LinearWithdrawalsAreBacked(v, since, ws[0].0, ws[0].1);
      LinearRunIsBacked(Withdrawn(v, ws[0].0, ws[0].1), ws[0].0, ws[1..], now);
    }
  }

  // ---------------------------------------------------------------- the object

  /** `vesting_balance_object`, for the operations that deposit and withdraw. */
  class VestingBalance {
    var balance: nat
    var policy: Policy

    function State(): Vesting
      reads this
    {
      Vesting(balance, policy)
    }

    constructor (b: nat, p: Policy)
      ensures State() == Vesting(b, p)
    {
      balance, policy := b, p;
    }

    method GetAllowedWithdraw(now: nat) returns (amount: int)
      requires policy.Cdd? ==> now >= policy.lastUpdate
      ensures amount == Allowed(State(), now)
      ensures Capped(State()) ==> 0 <= amount <= balance
    {
      amount := Allowed(State(), now);
      if Capped(State()) {
        AllowedIsCovered(State(), now, amount);
      }
    }

    method Update(now: nat)
      requires policy.Cdd? && now >= policy.lastUpdate
      modifies this`policy
      ensures policy == Updated(old(State()), now)
    {
      policy := policy.(earned := Earned(State(), now), lastUpdate := now);
    }

    method Deposit(now: nat, amount: nat)
      requires policy.Cdd? ==> now >= policy.lastUpdate
      modifies this
      ensures State() == Deposited(old(State()), now, amount)
      ensures old(Capped(State())) ==> Capped(State()) && Allowed(State(), now) == old(Allowed(State(), now))
    {
      if Capped(State()) {
        DepositMustVest(State(), now, amount);
      }
      if policy.Cdd? {
        Update(now);
      }
      balance := balance + amount;
    }

    /** Throws for a linear balance. */
    method DepositVested(now: nat, amount: nat) returns (ok: bool)
      requires policy.Cdd? ==> now >= policy.lastUpdate
      modifies this
      ensures ok <==> old(policy).Cdd?
      ensures ok ==> State() == DepositedVested(old(State()), now, amount)
      ensures !ok ==> State() == old(State())
    {
      ok := policy.Cdd?;
      if ok {
        Update(now);
        policy := policy.(earned := policy.earned + amount * Seconds(policy));
        balance := balance + amount;
      }
    }

    /** The withdrawal the evaluator makes: refused exactly when more than is allowed is asked for, be it
        linear or not; otherwise balance and allowance fall by the amount. */
    method Withdraw(now: nat, amount: nat) returns (ok: bool)
      requires policy.Cdd? ==> Capped(State()) && now >= policy.lastUpdate
      modifies this
      ensures ok <==> amount <= old(Allowed(State(), now))
      ensures !ok ==> State() == old(State())
      ensures ok ==> old(balance) >= amount && balance == old(balance) - amount
      ensures ok && policy.Cdd? ==> policy.lastUpdate == now && Capped(State())
      ensures ok ==> Allowed(State(), now) == old(Allowed(State(), now)) - amount
    {
      ok := amount <= Allowed(State(), now);
      if ok && policy.Cdd? {
        WithdrawalCountsOnce(State(), now, amount);
        Update(now);
        policy := policy.(earned := policy.earned - amount * Seconds(policy));
        balance := balance - amount;
      } else if ok {
        LinearAllowance(State(), now, amount);
        balance := balance - amount;
      }
    }
  }
}
