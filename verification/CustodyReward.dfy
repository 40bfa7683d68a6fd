/** Paying seeders for proofs of custody out of a content's publishing escrow. */
module CustodyReward {
  import opened Options
  import opened Division

  const MICROS_PER_SECOND: nat := 1_000_000
  const DAY: nat := 86400
  const DAY_MICROS: nat := DAY * MICROS_PER_SECOND
  const FULL: nat := 10000
  const CAP_BLOCK: nat := 404727

  /** Seconds since the last proof as parts of a day, at most one day. */
  function Ratio(gap: nat): nat {
    FULL * ((if gap > DAY then DAY else gap) * MICROS_PER_SECOND) / DAY_MICROS
  }

  /** A quarter of the time missing to a full day is lost. */
  function Kept(ratio: nat): nat
    requires ratio <= FULL
  {
    FULL - (FULL - ratio) / 4
  }

  function RewardRatio(ratio: nat): nat
    requires ratio <= FULL
  {
    ratio * Kept(ratio) / FULL
  }

  function Scaled(price: nat, ratio: nat, size: nat): nat {
    price * ratio * size / FULL
  }

  function Reward(price: nat, size: nat, gap: nat): nat {
    RatioWithinFull(gap);
    Scaled(price, RewardRatio(Ratio(gap)), size)
  }

  lemma RatioWithinFull(gap: nat)
    ensures Ratio(gap) <= FULL
    ensures gap >= DAY ==> Ratio(gap) == FULL
  {
    var capped := if gap > DAY then DAY else gap;
    MulMonotone(capped * MICROS_PER_SECOND, DAY_MICROS, FULL);
    QuotientMonotone(FULL * (capped * MICROS_PER_SECOND), FULL * DAY_MICROS, DAY_MICROS);
    DivisionInterval(FULL * DAY_MICROS, DAY_MICROS, FULL);
  }

  // ---------------------------------------------------------------- every rounding is superadditive

  lemma FloorSuperadditive(x: nat, y: nat, d: nat)
    requires d > 0
    ensures x / d + y / d <= (x + y) / d
  {
    DivisionInterval(x, d, x / d);
    DivisionInterval(y, d, y / d);
    assert (x / d + y / d) * d == x / d * d + y / d * d;
    QuotientAtLeast(x + y, d, x / d + y / d);
  }

  lemma RatioSuperadditive(a: nat, b: nat)
    requires a + b <= DAY
    ensures Ratio(a) + Ratio(b) <= Ratio(a + b)
  {
    FloorSuperadditive(FULL * (a * MICROS_PER_SECOND), FULL * (b * MICROS_PER_SECOND), DAY_MICROS);
  }

  lemma ProductSuperadditive(r: nat, q: nat, g: nat, h: nat, k: nat)
    requires g <= k && h <= k
    ensures r * g + q * h <= (r + q) * k
  {
    MulMonotone(g, k, r);
    MulMonotone(h, k, q);
  }

  /** Two short waits earn at most what the long one does, with anything larger than their sum. */
  lemma RewardRatioSuperadditive(r: nat, q: nat, t: nat)
    requires r + q <= t <= FULL
    ensures RewardRatio(r) + RewardRatio(q) <= RewardRatio(t)
  {
    ProductSuperadditive(r, q, Kept(r), Kept(q), Kept(t));
    FloorSuperadditive(r * Kept(r), q * Kept(q), FULL);
    MulMonotone(r + q, t, Kept(t));
    QuotientMonotone(r * Kept(r) + q * Kept(q), t * Kept(t), FULL);
  }

  lemma ScaledSuperadditive(price: nat, size: nat, r: nat, q: nat, t: nat)
    requires r + q <= t
    ensures Scaled(price, r, size) + Scaled(price, q, size) <= Scaled(price, t, size)
  {
    FloorSuperadditive(price * r * size, price * q * size, FULL);
    Distribute(price, r, q, size);
    MulMonotone(r + q, t, price);
    MulMonotone(price * (r + q), price * t, size);
    QuotientMonotone(price * (r + q) * size, price * t * size, FULL);
  }

  lemma Distribute(p: nat, r: nat, q: nat, s: nat)
    ensures p * r * s + p * q * s == p * (r + q) * s
  {
    assert p * (r + q) == p * r + p * q;
  }

  /** Splitting a wait of at most a day never pays more, through all four roundings. */
  lemma SplittingAWaitNeverPays(price: nat, size: nat, a: nat, b: nat)
    requires a + b <= DAY
    ensures Reward(price, size, a) + Reward(price, size, b) <= Reward(price, size, a + b)
  {
    RatioSuperadditive(a, b);
    RatioWithinFull(a);
    RatioWithinFull(b);
    RatioWithinFull(a + b);
    RewardRatioSuperadditive(Ratio(a), Ratio(b), Ratio(a + b));
    ScaledSuperadditive(price, size, RewardRatio(Ratio(a)), RewardRatio(Ratio(b)), RewardRatio(Ratio(a + b)));
  }

  /** A full day loses nothing. */
  lemma FullDayIsFullReward(price: nat, size: nat, gap: nat)
    requires gap >= 86400
    ensures Reward(price, size, gap) == price * size
  {
    RatioWithinFull(gap);
    assert RewardRatio(FULL) == FULL;
    assert price * FULL * size == price * size * FULL;
    ModOf(price * size, 0, FULL, price * FULL * size);
  }

  /** A wait of up to a day counts in ten-thousandths of a day, rounded down. */
  lemma RatioIsPartOfDay(gap: nat)
    requires gap <= 86400
    ensures Ratio(gap) * 86400 <= 10000 * gap < Ratio(gap) * 86400 + 86400
  {
    DivisionInterval(FULL * (gap * MICROS_PER_SECOND), DAY_MICROS, Ratio(gap));
  }

  /** Of `r` ten-thousandths a quarter of what is missing to a day is lost: what counts is `r (3 + r) / 4`, `r` taken
      as a part of a day, up to rounding. */
  lemma RewardRatioIs(r: nat)
    requires r <= 10000
    ensures r * (30000 + r) - 40000 < 40000 * RewardRatio(r) <= r * (30000 + r + 3)
  {
    DivisionInterval(r * Kept(r), FULL, RewardRatio(r));
    DivisionInterval(FULL - r, 4, (FULL - r) / 4);
    MulMonotone(3 * FULL + r, 4 * Kept(r), r);
    MulMonotone(4 * Kept(r), 3 * FULL + r + 3, r);
    assert 4 * Kept(r) * r == 4 * (r * Kept(r));
  }

  /** Half a day earns seven sixteenths of the price of a day. */
  lemma HalfDayReward(price: nat, size: nat)
    ensures Reward(price, size, 43200) == price * size * 7 / 16
  {
    assert Ratio(43200) == FULL / 2;
    assert RewardRatio(FULL / 2) == 4375;
    assert price * 4375 * size == 4375 * (price * size);
    SevenSixteenths(price * size);
  }

  lemma SevenSixteenths(n: nat)
    ensures 4375 * n / FULL == n * 7 / 16
  {
    var q := n * 7 / 16;
    DivisionInterval(n * 7, 16, q);
    DivisionInterval(4375 * n, FULL, q);
  }

  // ---------------------------------------------------------------- runs of proofs

  /** The parts of a content that proofs of custody read and change. */
  datatype Custody = Custody(size: nat, escrow: int, prices: map<nat, nat>, lastProof: map<nat, nat>)

  /** A proof in block `block` at time `when`, by a seeder whose advertised price is then `advertised`. */
  datatype Proof = Proof(seeder: nat, when: nat, block: nat, advertised: nat)

  function PriceFor(c: Custody, p: Proof): Option<nat> {
    if p.block <= CAP_BLOCK then Some(p.advertised)
    else if p.seeder in c.prices then Some(c.prices[p.seeder])
    else None
  }

  function Capped(escrow: int, block: nat, reward: nat): int {
    if block > CAP_BLOCK && reward > escrow then (if escrow > 0 then escrow else 0) else reward
  }

  /** What the proof is paid; `None` for the exception on a seeder without an agreed price. Block
      times only grow, so the case of a proof before the last one is never met. */
  function Payment(c: Custody, p: Proof): Option<int> {
    if p.seeder !in c.lastProof || p.when < c.lastProof[p.seeder] then Some(0)
    else
      match PriceFor(c, p)
      case None => None
      case Some(price) => Some(Capped(c.escrow, p.block, Reward(price, c.size, p.when - c.lastProof[p.seeder])))
  }

  function Proved(c: Custody, p: Proof): Custody {
    match Payment(c, p)
    case None => c
    case Some(paid) => c.(escrow := c.escrow - paid, lastProof := c.lastProof[p.seeder := p.when])
  }

  function After(c: Custody, ps: seq<Proof>): Custody
    decreases |ps|
  {
    if ps == [] then c else After(Proved(c, ps[0]), ps[1..])
  }

  /** Total paid to the seeders `who` accepts. */
  function PaidTo(c: Custody, ps: seq<Proof>, who: nat -> bool): int
    decreases |ps|
  {
    if ps == [] then 0
    else
      (if who(ps[0].seeder) && Payment(c, ps[0]).Some? then Payment(c, ps[0]).value else 0)
      + PaidTo(Proved(c, ps[0]), ps[1..], who)
  }

  /** Proofs come in the order of their blocks' times, none before the seeder's last one. */
  ghost predicate InTime(c: Custody, ps: seq<Proof>) {
    && (forall i, j :: 0 <= i < j < |ps| ==> ps[i].when <= ps[j].when)
    && (forall i :: 0 <= i < |ps| && ps[i].seeder in c.lastProof ==> c.lastProof[ps[i].seeder] <= ps[i].when)
  }

  lemma InTimeContinues(c: Custody, ps: seq<Proof>)
    requires ps != [] && InTime(c, ps)
    ensures InTime(Proved(c, ps[0]), ps[1..])
  {
    var rest := ps[1..];
    forall i | 0 <= i < |rest| && rest[i].seeder in Proved(c, ps[0]).lastProof
      ensures Proved(c, ps[0]).lastProof[rest[i].seeder] <= rest[i].when
    {
      assert rest[i] == ps[i + 1];
    }
  }

  /** The escrow pays for every proof and, from the capping block on, is never overdrawn. */
  lemma {:induction false} EscrowIsNeverOverdrawn(c: Custody, ps: seq<Proof>)
    requires c.escrow >= 0
    requires forall i :: 0 <= i < |ps| ==> ps[i].block > CAP_BLOCK
    ensures After(c, ps).escrow >= 0
    ensures PaidTo(c, ps, (s: nat) => true) == c.escrow - After(c, ps).escrow
    decreases |ps|
  {
    if ps != [] {
      EscrowIsNeverOverdrawn(Proved(c, ps[0]), ps[1..]);
    }
  }

  /** The proofs of seeder `s` are all priced at `price`. */
  ghost predicate PricedAt(c: Custody, ps: seq<Proof>, s: nat, price: nat) {
    forall i :: 0 <= i < |ps| && ps[i].seeder == s ==> PriceFor(c, ps[i]) == Some(price)
  }

  lemma CappedAtMost(escrow: int, block: nat, reward: nat)
    ensures 0 <= Capped(escrow, block, reward) <= reward
  {
  }

  /** Within a day of his last proof, a seeder cannot earn more by proving more often than a single
      proof at the end would earn, whatever the other seeders of the content do in between. */
  lemma {:induction false} EarlyProofsNeverPay(c: Custody, ps: seq<Proof>, s: nat, price: nat, end: nat)
    requires s in c.lastProof && c.lastProof[s] <= end <= c.lastProof[s] + DAY
    requires InTime(c, ps) && PricedAt(c, ps, s, price)
    requires forall i :: 0 <= i < |ps| && ps[i].seeder == s ==> ps[i].when <= end
    ensures PaidTo(c, ps, (x: nat) => x == s) <= Reward(price, c.size, end - c.lastProof[s])
    decreases |ps|
  {
    if ps != [] {
      var p, rest, next := ps[0], ps[1..], Proved(c, ps[0]);
      InTimeContinues(c, ps);
      assert forall i :: 0 <= i < |rest| ==> rest[i] == ps[i + 1];
      EarlyProofsNeverPay(next, rest, s, price, end);
      if p.seeder == s {
        var gap := p.when - c.lastProof[s];
        CappedAtMost(c.escrow, p.block, Reward(price, c.size, gap));
        SplittingAWaitNeverPays(price, c.size, gap, end - p.when);
      }
    }
  }

  /** What a proof is paid, its seeder having proved before: up to the capping block what he advertises for the wait,
      later what was agreed for it, as far as the escrow goes. Without an agreed price it is refused. */
  lemma ProofIsPaid(c: Custody, p: Proof)
    requires p.seeder in c.lastProof && c.lastProof[p.seeder] <= p.when
    ensures var gap := p.when - c.lastProof[p.seeder];
      && (p.block <= 404727 ==> Payment(c, p) == Some(Reward(p.advertised, c.size, gap)))
      && (p.block > 404727 ==> (Payment(c, p).Some? <==> p.seeder in c.prices))
      && (p.block > 404727 && p.seeder in c.prices ==>
          var due := Reward(c.prices[p.seeder], c.size, gap);
          && (due <= c.escrow ==> Payment(c, p) == Some(due))
          && (due > c.escrow >= 0 ==> Payment(c, p) == Some(c.escrow))
          && (c.escrow < 0 ==> Payment(c, p) == Some(0)))
  {
  }

  /** A first proof is free of charge. Every proof that is not refused starts a new wait, and what it is paid leaves
      the escrow. */
  lemma ProofStartsWait(c: Custody, p: Proof)
    ensures p.seeder !in c.lastProof ==> Payment(c, p) == Some(0)
    ensures var d := Proved(c, p);
      if Payment(c, p).None? then d == c
      else
        && d.lastProof == c.lastProof[p.seeder := p.when] && d.escrow == c.escrow - Payment(c, p).value
        && d.size == c.size && d.prices == c.prices
  {
  }

  /** Before the capping block a reward above the escrow is paid all the same. */
  lemma UncappedProofOverdrawsIff(c: Custody, p: Proof)
    requires c.escrow >= 0 && p.block <= CAP_BLOCK && p.seeder in c.lastProof && c.lastProof[p.seeder] <= p.when
    ensures Proved(c, p).escrow < 0 <==> Reward(p.advertised, c.size, p.when - c.lastProof[p.seeder]) > c.escrow
  {
  }

  /** The content object as the evaluator changes it. */
  class Content {
    const size: nat
    const prices: map<nat, nat>
    var escrow: int
    var lastProof: map<nat, nat>

    function State(): Custody
      reads this
    {
      Custody(size, escrow, prices, lastProof)
    }

    constructor (size: nat, escrow: nat, prices: map<nat, nat>)
      ensures State() == Custody(size, escrow, prices, map[])
    {
      this.size, this.escrow, this.prices, this.lastProof := size, escrow, prices, map[];
    }

    /** Returns what the seeder is to be credited; not `ok` is the exception. */
    method ProofOfCustody(p: Proof) returns (ok: bool, paid: int)
      requires p.seeder in lastProof ==> lastProof[p.seeder] <= p.when
      modifies this
      ensures ok <==> old(Payment(State(), p)).Some?
      ensures ok ==> old(Payment(State(), p)) == Some(paid) && paid >= 0
      ensures State() == Proved(old(State()), p)
      ensures ok && p.block > CAP_BLOCK && old(escrow) >= 0 ==> escrow >= 0
    {
      ok, paid := true, 0;
      if p.seeder !in lastProof {
        lastProof := lastProof[p.seeder := p.when];
      } else {
        var gap := p.when - lastProof[p.seeder];
        if gap > DAY {
          gap := DAY;
        }
        var ratio := FULL * (gap * MICROS_PER_SECOND) / DAY_MICROS;
        RatioWithinFull(gap);
        var loss := (FULL - ratio) / 4;
        var rewardRatio := ratio * (FULL - loss) / FULL;
        var price := p.advertised;
        if p.block > CAP_BLOCK {
          if p.seeder !in prices {
            return false, 0;
          }
          price := prices[p.seeder];
        }
        paid := Scaled(price, rewardRatio, size);
        if p.block > CAP_BLOCK && paid > escrow {
          paid := if escrow > 0 then escrow else 0;
        }
        lastProof := lastProof[p.seeder := p.when];
        escrow := escrow - paid;
      }
    }
  }
}
