/** Splitting a key among seeders and putting it together again. */
module ShamirSecret {
  import opened ModularArithmetic
  import opened Interpolation

  type Point = (nat, nat)

  /** The product over the other points, for the numerator and the denominator of one term. */
  function Numerator(split: seq<Point>, s: Point, p: nat): (r: nat)
    requires p > 1 && forall q <- split :: q.0 <= p
  {
    if split == [] then 1
    else
      var n := |split| - 1;
      var rest := Numerator(split[..n], s, p);
      if split[n] == s then rest else Multiply(Negate(split[n].0, p), rest, p)
  }

  function Denominator(split: seq<Point>, s: Point, p: nat): (r: nat)
    requires p > 1 && forall q <- split :: q.0 <= p
  {
    if split == [] then 1
    else
      var n := |split| - 1;
      var rest := Denominator(split[..n], s, p);
      if split[n] == s then rest else Multiply(Add(s.0, Negate(split[n].0, p), p), rest, p)
  }

  /** The sum over the first `n` points that `calculate_secret` accumulates. */
  function PartialSecret(split: seq<Point>, p: nat, n: nat): nat
    requires p > 1 && n <= |split| && forall q <- split :: q.0 <= p
  {
    if n == 0 then 0
    else
      Add(SecretTerm(split, split[n - 1], p), PartialSecret(split, p, n - 1), p)
  }

  /** Distinct points of the polynomial `cs`, none of them at zero. */
  ghost predicate SharesOf(split: seq<Point>, cs: seq<int>, p: nat)
    requires p > 1
  {
    && (forall i :: 0 <= i < |split| ==> 0 < split[i].0 < p && split[i].1 == Eval(cs, split[i].0) % p)
    && (forall i, j :: 0 <= i < j < |split| ==> split[i].0 != split[j].0)
  }

  ghost function Places(split: seq<Point>): (xs: seq<int>)
    ensures |xs| == |split| && forall i :: 0 <= i < |xs| ==> xs[i] == split[i].0
  {
    seq(|split|, i requires 0 <= i < |split| => split[i].0)
  }

  // ---------------------------------------------------------------- the code's residues

  lemma NegateCong(a: nat, p: nat)
    requires p > 0 && a <= p
    ensures Cong(Negate(a, p), 0 - a, p)
  {
    CongFrom(Negate(a, p), 0 - a, if a == 0 then 0 else 1, p);
  }

  lemma DifferenceCong(x: nat, y: nat, p: nat)
    requires p > 1 && y <= p
    ensures Cong(Add(x, Negate(y, p), p), x - y, p)
  {
    AddCong(x, Negate(y, p), p);
    NegateCong(y, p);
    CongRefl(x, p);
    CongAdd(x, x, Negate(y, p), 0 - y, p);
    CongTrans(Add(x, Negate(y, p), p), x + Negate(y, p), x - y, p);
  }

  /** The two products of one term are the interpolation products at zero and at the point. */
  lemma {:induction false} TermProducts(split: seq<Point>, i: nat, s: Point, p: nat)
    requires p > 1 && (forall q <- split :: q.0 <= p)
    requires forall j :: 0 <= j < |split| ==> (split[j] == s <==> j == i)
    ensures Cong(Numerator(split, s, p), Except(Places(split), 0, i), p)
    ensures Cong(Denominator(split, s, p), Except(Places(split), s.0, i), p)
  {
    if split == [] {
      CongRefl(1, p);
    } else {
      var n := |split| - 1;
      TermProducts(split[..n], i, s, p);
      assert Places(split)[..n] == Places(split[..n]);
      var xs := Places(split[..n]);
      if n == i {
        assert Except(Places(split), 0, i) == Except(xs, 0, i) * 1;
        assert Except(Places(split), s.0, i) == Except(xs, s.0, i) * 1;
      } else {
        FactorProducts(split[n].0, s.0, Numerator(split[..n], s, p), Denominator(split[..n], s, p),
                       Except(xs, 0, i), Except(xs, s.0, i), p);
      }
    }
  }

  lemma FactorProducts(x: nat, y: nat, num: nat, den: nat, e0: int, e: int, p: nat)
    requires p > 1 && x <= p && Cong(num, e0, p) && Cong(den, e, p)
    ensures Cong(Multiply(Negate(x, p), num, p), e0 * (0 - x as int), p)
    ensures Cong(Multiply(Add(y, Negate(x, p), p), den, p), e * (y as int - x as int), p)
  {
    NegateCong(x, p);
    DifferenceCong(y, x, p);
    var d0: int, d: int := 0 - x as int, y as int - x as int;
    MultiplyCong(Negate(x, p), num, d0, e0, p);
    MultiplyCong(Add(y, Negate(x, p), p), den, d, e, p);
    assert d0 * e0 == e0 * d0 && d * e == e * d;
  }

  /** Congruent arguments have the same inverse. */
  lemma InvertCong(a: nat, b: int, p: nat)
    requires p > 1 && Cong(a, b, p)
    ensures Invert(a, p) == Invert(b % p, p)
  {
    CongIsMod(a, b, p);
    SameResidue(a, b % p, p);
  }

  lemma SameResidue(a: nat, r: nat, p: nat)
    requires p > 1 && r < p && a % p == r
    ensures Invert(a, p) == Invert(r, p)
  {
    assert r % p == r;
  }

  function SecretTerm(split: seq<Point>, s: Point, p: nat): (r: nat)
    requires p > 1 && forall q <- split :: q.0 <= p
    ensures r < p
  {
    Multiply(Multiply(Invert(Denominator(split, s, p), p), Numerator(split, s, p), p), s.1, p)
  }

  lemma TermCong(split: seq<Point>, cs: seq<int>, p: nat, i: nat)
    requires IsPrime(p) && SharesOf(split, cs, p) && i < |split|
    ensures var xs := Places(split);
            Cong(SecretTerm(split, split[i], p), Eval(cs, xs[i]) * (Except(xs, 0, i) * Weight(xs, i, p)), p)
  {
    var s, xs := split[i], Places(split);
    TermProducts(split, i, s, p);
    InvertCong(Denominator(split, s, p), Except(xs, xs[i], i), p);
    CongMod(Eval(cs, xs[i]), p);
    ThreeFactors(Weight(xs, i, p), Numerator(split, s, p), s.1, Except(xs, 0, i), Eval(cs, xs[i]), p);
  }

  lemma ThreeFactors(w: nat, num: nat, y: nat, e: int, v: int, p: nat)
    requires p > 1 && Cong(num, e, p) && Cong(y, v, p)
    ensures Cong(Multiply(Multiply(w, num, p), y, p), v * (e * w), p)
  {
    CongRefl(w, p);
    MultiplyCong(w, num, w, e, p);
    MultiplyCong(Multiply(w, num, p), y, w * e, v, p);
    assert w * e * v == v * (e * w);
  }

  lemma {:induction false} PartialSecretCong(split: seq<Point>, cs: seq<int>, p: nat, n: nat)
    requires IsPrime(p) && SharesOf(split, cs, p) && n <= |split|
    ensures PartialSecret(split, p, n) < p
    ensures Cong(PartialSecret(split, p, n), Lagrange(Places(split), cs, 0, p, n), p)
    decreases n
  {
    if n == 0 {
      CongRefl(0, p);
    } else {
      PartialSecretCong(split, cs, p, n - 1);
      TermCong(split, cs, p, n - 1);
      var term := SecretTerm(split, split[n - 1], p);
      var sofar := PartialSecret(split, p, n - 1);
      var xs := Places(split);
      AddCong(term, sofar, p);
      CongAdd(
        term, Eval(cs, xs[n - 1]) * (Except(xs, 0, n - 1) * Weight(xs, n - 1, p)), sofar, Lagrange(xs, cs, 0, p, n - 1),
        p);
      CongTrans(Add(term, sofar, p), term + sofar, Lagrange(xs, cs, 0, p, n), p);
    }
  }

  lemma PlacesDistinct(split: seq<Point>, cs: seq<int>, p: nat)
    requires p > 1 && SharesOf(split, cs, p)
    ensures Distinct(Places(split), p)
  {
    var xs := Places(split);
    forall i, j | 0 <= i < |xs| && 0 <= j < |xs| && i != j
      ensures (xs[i] - xs[j]) % p != 0
    {
      assert split[i].0 != split[j].0;
      SmallDifference(xs[i] - xs[j], p);
    }
  }

  lemma SmallDifference(d: int, p: nat)
    requires p > 1 && d != 0 && 0 < d + p && d < p
    ensures d % p != 0
  {
  }

  /** Any distinct shares, at least as many as the polynomial has coefficients, give back exactly
      the secret. */
  lemma SharesRecoverTheSecret(split: seq<Point>, cs: seq<int>, p: nat)
    requires IsPrime(p) && SharesOf(split, cs, p)
    requires 1 <= |cs| <= |split| && 0 <= cs[0] < p
    ensures PartialSecret(split, p, |split|) == cs[0]
  {
    var xs := Places(split);
    PlacesDistinct(split, cs, p);
    PartialSecretCong(split, cs, p, |split|);
    LagrangeReproduces(xs, cs, 0, p);
    assert Eval(cs, 0) == cs[0];
    CongTrans(PartialSecret(split, p, |split|), Lagrange(xs, cs, 0, p, |xs|), cs[0], p);
    CongResidues(PartialSecret(split, p, |split|), cs[0], p);
  }

  // ---------------------------------------------------------------- evaluating the polynomial

  lemma {:induction false} EvalSnoc(cs: seq<int>, c: int, x: int, power: int)
    requires power == Power(x, |cs|)
    ensures Eval(cs + [c], x) == Eval(cs, x) + c * power
    decreases |cs|
  {
    if cs == [] {
      assert ([] + [c])[1..] == [];
      assert Eval([c], x) == c + x * Eval([c][1..], x);
      assert Eval([], x) == 0;
    } else {
      var q := Power(x, |cs| - 1);
      EvalSnoc(cs[1..], c, x, q);
      assert (cs + [c])[1..] == cs[1..] + [c];
      SnocStep(cs[0], x, Eval(cs[1..], x), c, q);
    }
  }

  lemma SnocStep(a: int, x: int, e: int, c: int, q: int)
    ensures a + x * (e + c * q) == a + x * e + c * (x * q)
  {
    assert x * (c * q) == c * (x * q);
  }

  /** `y + c * x^i`, reduced. */
  function NextShare(y: nat, c: nat, x: nat, i: nat, p: nat): nat
    requires p > 1
  {
    Add(y, Multiply(c, Exponentiate(x, i, p), p), p)
  }

  lemma FirstShare(cs: seq<int>, x: nat, p: nat)
    requires p > 1 && |cs| >= 1
    ensures Cong(cs[0], Eval(cs[..1], x), p)
  {
    assert cs[..1] == [] + [cs[0]];
    EvalSnoc([], cs[0], x, 1);
    CongRefl(cs[0], p);
  }

  /** One step of the inner loop of `calculate_split`. */
  lemma ShareStep(cs: seq<int>, i: nat, x: nat, y: nat, p: nat)
    requires p > 1 && i < |cs| && cs[i] >= 0 && y < p && Cong(y, Eval(cs[..i], x), p)
    ensures var y' := NextShare(y, cs[i], x, i, p);
            y' < p && Cong(y', Eval(cs[..i + 1], x), p)
  {
    var t := Multiply(cs[i], Exponentiate(x, i, p), p);
    ExponentiateCong(x, i, p);
    CongRefl(cs[i], p);
    MultiplyCong(cs[i], Exponentiate(x, i, p), cs[i], Power(x, i), p);
    EvalSnoc(cs[..i], cs[i], x, Power(x, i));
    assert cs[..i] + [cs[i]] == cs[..i + 1];
    CongAdd(y, Eval(cs[..i], x), t, cs[i] * Power(x, i), p);
    AddCong(y, t, p);
    CongTrans(Add(y, t, p), y + t, Eval(cs[..i + 1], x), p);
  }

  class ShamirSecret {
    var secret: nat
    var split: seq<Point>
    const quorum: nat
    const shares: nat
    const order: nat

    constructor (q: nat, n: nat, s: nat, p: nat)
      ensures quorum == q && shares == n && secret == s && order == p && split == []
    {
      quorum, shares, secret, order, split := q, n, s, p, [];
    }

    method AddPoint(pt: Point)
      modifies this`split
      ensures split == old(split) + [pt]
    {
      split := split + [pt];
    }

    /** One share per place 1, 2, ..., each the value there of the polynomial whose constant term is
        the secret and whose other coefficients were drawn at random. */
    method CalculateSplit(random: seq<nat>)
      requires order > 1 && secret < order && |random| == (if quorum == 0 then 0 else quorum - 1)
      modifies this`split
      ensures |split| == shares
      ensures forall k :: 0 <= k < shares ==> split[k] == (k + 1, Eval([secret as int] + random, k + 1) % order)
    {
      split := [];
      var coef: seq<nat> := [secret] + random;
      assert coef == [secret as int] + random;
      for x := 1 to shares + 1
        invariant |split| == x - 1
        invariant forall k :: 0 <= k < x - 1 ==> split[k] == (k + 1, Eval(coef, k + 1) % order)
      {
        var y := ShareAt(coef, x, order);
        split := split + [(x, y)];
      }
    }

    /** The inner loop of `calculate_split`: the polynomial's value at one place. */
    static method ShareAt(coef: seq<nat>, x: nat, p: nat) returns (y: nat)
      requires p > 1 && |coef| >= 1 && coef[0] < p
      ensures y == Eval(coef, x) % p
    {
      y := coef[0];
      FirstShare(coef, x, p);
      for i := 1 to |coef|
        invariant y < p && Cong(y, Eval(coef[..i], x), p)
      {
        ShareStep(coef, i, x, y, p);
        y := NextShare(y, coef[i], x, i, p);
      }
      assert coef[..|coef|] == coef;
      ResidueOf(y, Eval(coef, x), p);
    }

    method CalculateSecret()
      requires order > 1 && forall q <- split :: q.0 <= order
      modifies this`secret
      ensures secret == PartialSecret(split, order, |split|)
    {
      var res := 0;
      for i := 0 to |split|
        invariant res == PartialSecret(split, order, i)
      {
        var s := split[i];
        var numerator, denominator := 1, 1;
        for j := 0 to |split|
          invariant numerator == Numerator(split[..j], s, order)
          invariant denominator == Denominator(split[..j], s, order)
        {
          assert split[..j + 1][..j] == split[..j];
          var q := split[j];
          if q != s {
            var next := Negate(q.0, order);
            numerator := Multiply(next, numerator, order);
            denominator := Multiply(Add(s.0, next, order), denominator, order);
          }
        }
        assert split[..|split|] == split;
        res := Add(Multiply(Multiply(Invert(denominator, order), numerator, order), s.1, order), res, order);
      }
      secret := res;
    }
  }

  /** The round trip: split a secret, hand any distinct shares (a quorum at least) to another
      object, and that object computes the secret. */
  method SplitAndRestore(quorum: nat, shares: nat, secret: nat, order: nat, random: seq<nat>, chosen: seq<nat>)
    returns (restored: nat)
    requires IsPrime(order) && secret < order && shares < order
    requires |random| == (if quorum == 0 then 0 else quorum - 1)
    requires forall i :: 0 <= i < |chosen| ==> chosen[i] < shares
    requires forall i, j :: 0 <= i < j < |chosen| ==> chosen[i] != chosen[j]
    requires 1 <= |chosen| && quorum <= |chosen|
    ensures restored == secret
  {
    var author := new ShamirSecret(quorum, shares, secret, order);
    author.CalculateSplit(random);
    var consumer := new ShamirSecret(quorum, shares, 0, order);
    ghost var cs: seq<int> := [secret as int] + random;
    for i := 0 to |chosen|
      invariant consumer.order == order && |consumer.split| == i && |author.split| == shares
      invariant forall k :: 0 <= k < i ==> consumer.split[k] == author.split[chosen[k]]
      invariant forall k :: 0 <= k < shares ==> author.split[k] == (k + 1, Eval(cs, k + 1) % order)
    {
      consumer.AddPoint(author.split[chosen[i]]);
    }
    assert SharesOf(consumer.split, cs, order);
    consumer.CalculateSecret();
    SharesRecoverTheSecret(consumer.split, cs, order);
    restored := consumer.secret;
  }
}
