/** Lagrange interpolation modulo a prime: any polynomial of degree below the number of points is
    determined at every place by its values at those points. */
module Interpolation {
  import opened ModularArithmetic

  /** `cs[0] + cs[1] x + cs[2] x^2 + ...` */
  function Eval(cs: seq<int>, x: int): int {
    if cs == [] then 0 else cs[0] + x * Eval(cs[1..], x)
  }

  /** The product of `z - xs[j]` over every `j` except `i`. */
  function Except(xs: seq<int>, z: int, i: nat): int {
    if xs == [] then 1
    else
      var n := |xs| - 1;
      Except(xs[..n], z, i) * (if i == n then 1 else z - xs[n])
  }

  /** The inverse of the product of the differences of `xs[i]` to the other points. */
  function Weight(xs: seq<int>, i: nat, p: nat): nat
    requires i < |xs| && p > 1
  {
    Invert(Except(xs, xs[i], i) % p, p)
  }

  /** The first `n` terms of the interpolation formula at `z` for the values of `cs`. */
  function Lagrange(xs: seq<int>, cs: seq<int>, z: int, p: nat, n: nat): int
    requires n <= |xs| && p > 1
  {
    if n == 0 then 0
    else Lagrange(xs, cs, z, p, n - 1) + Eval(cs, xs[n - 1]) * (Except(xs, z, n - 1) * Weight(xs, n - 1, p))
  }

  ghost predicate Distinct(xs: seq<int>, p: nat)
    requires p > 0
  {
    forall i, j :: 0 <= i < |xs| && 0 <= j < |xs| && i != j ==> (xs[i] - xs[j]) % p != 0
  }

  // ---------------------------------------------------------------- dividing by a linear factor

  function Quotient(cs: seq<int>, a: int): (r: seq<int>)
    ensures |r| == if cs == [] then 0 else |cs| - 1
  {
    if |cs| <= 1 then [] else [Eval(cs[1..], a)] + Quotient(cs[1..], a)
  }

  lemma {:induction false} DivideByLinear(cs: seq<int>, a: int, x: int)
    ensures Eval(cs, x) == Eval(cs, a) + (x - a) * Eval(Quotient(cs, a), x)
  {
    if |cs| == 1 {
      assert Eval(cs[1..], x) == 0 && Eval(cs[1..], a) == 0;
    } else if |cs| > 1 {
      DivideByLinear(cs[1..], a, x);
      var q := Quotient(cs[1..], a);
      assert Quotient(cs, a)[1..] == q;
      LinearStep(cs[0], a, x, Eval(cs[1..], a), Eval(q, x));
    }
  }

  lemma LinearStep(c: int, a: int, x: int, pa: int, s: int)
    ensures c + x * (pa + (x - a) * s) == c + a * pa + (x - a) * (pa + x * s)
  {
    assert x * ((x - a) * s) == (x - a) * (x * s);
  }

  // ---------------------------------------------------------------- products of differences

  lemma {:induction false} FullProduct(xs: seq<int>, z: int, i: nat)
    requires i < |xs|
    ensures Except(xs, z, i) * (z - xs[i]) == Except(xs, z, |xs|)
  {
    var n := |xs| - 1;
    if i == n {
      ExceptPast(xs[..n], z, n, n + 1);
    } else {
      FullProduct(xs[..n], z, i);
      ExceptPast(xs[..n], z, n, n + 1);
      var e, d, l := Except(xs[..n], z, i), z - xs[i], z - xs[n];
      assert (e * l) * d == (e * d) * l;
    }
  }

  lemma {:induction false} ExceptPast(xs: seq<int>, z: int, i: nat, j: nat)
    requires i >= |xs| && j >= |xs|
    ensures Except(xs, z, i) == Except(xs, z, j)
  {
    if xs != [] {
      ExceptPast(xs[..|xs| - 1], z, i, j);
    }
  }

  lemma {:induction false} ExceptNonzero(xs: seq<int>, z: int, i: nat, p: nat)
    requires IsPrime(p)
    requires forall j :: 0 <= j < |xs| && j != i ==> (z - xs[j]) % p != 0
    ensures Except(xs, z, i) % p != 0
  {
    if xs != [] {
      var n := |xs| - 1;
      ExceptNonzero(xs[..n], z, i, p);
      if i != n {
        NonzeroIntProduct(Except(xs[..n], z, i), z - xs[n], p);
      }
    }
  }

  lemma NonzeroIntProduct(a: int, b: int, p: nat)
    requires IsPrime(p) && a % p != 0 && b % p != 0
    ensures (a * b) % p != 0
  {
    NonzeroProduct(a % p, b % p, p);
    CongMod(a, p);
    CongMod(b, p);
    CongMul(a % p, a, b % p, b, p);
    CongIsMod(a % p * (b % p), a * b, p);
  }

  lemma InvertInt(d: int, p: nat)
    requires IsPrime(p) && d % p != 0
    ensures Cong(d * Invert(d % p, p), 1, p)
  {
    var v := Invert(d % p, p);
    InvertWorks(d % p, p);
    CongMod(d, p);
    CongSym(d % p, d, p);
    CongRefl(v, p);
    CongMul(d, d % p, v, v, p);
    CongTrans(d * v, d % p * v, 1, p);
  }

  lemma CancelInt(u: int, a: int, b: int, p: nat)
    requires IsPrime(p) && u % p != 0 && Cong(u * a, u * b, p)
    ensures Cong(a, b, p)
  {
    InvertInt(u, p);
    CancelUnit(u, Invert(u % p, p), a, b, p);
  }

  lemma WeightInverts(xs: seq<int>, i: nat, p: nat)
    requires IsPrime(p) && Distinct(xs, p) && i < |xs|
    ensures Except(xs, xs[i], i) % p != 0
    ensures Cong(Except(xs, xs[i], i) * Weight(xs, i, p), 1, p)
  {
    ExceptNonzero(xs, xs[i], i, p);
    InvertInt(Except(xs, xs[i], i), p);
  }

  lemma DistinctPrefix(xs: seq<int>, p: nat)
    requires p > 0 && Distinct(xs, p) && |xs| >= 1
    ensures Distinct(xs[..|xs| - 1], p)
  {
  }

  /** Dropping the last point `a` multiplies a weight by the difference to `a`. */
  lemma WeightShrinks(xs: seq<int>, i: nat, p: nat)
    requires IsPrime(p) && Distinct(xs, p) && i < |xs| - 1
    ensures Cong((xs[i] - xs[|xs| - 1]) * Weight(xs, i, p), Weight(xs[..|xs| - 1], i, p), p)
  {
    var n := |xs| - 1;
    var ys := xs[..n];
    DistinctPrefix(xs, p);
    WeightInverts(xs, i, p);
    WeightInverts(ys, i, p);
    InverseOfFactor(Except(ys, xs[i], i), xs[i] - xs[n], Weight(xs, i, p), Weight(ys, i, p), p);
  }

  lemma InverseOfFactor(d: int, l: int, w: int, v: int, p: nat)
    requires IsPrime(p) && d % p != 0 && Cong(d * l * w, 1, p) && Cong(d * v, 1, p)
    ensures Cong(l * w, v, p)
  {
    assert d * l * w == d * (l * w);
    CongSym(d * v, 1, p);
    CongTrans(d * (l * w), 1, d * v, p);
    CancelInt(d, l * w, v, p);
  }

  // ---------------------------------------------------------------- the weights sum to one

  function SumOfWeights(xs: seq<int>, p: nat, m: nat): int
    requires m <= |xs| && p > 1
  {
    if m == 0 then 0 else SumOfWeights(xs, p, m - 1) + Weight(xs, m - 1, p)
  }

  lemma EvalOne(x: int)
    ensures Eval([1], x) == 1
  {
    assert [1][1..] == [];
    assert Eval([], x) == 0;
  }

  /** One term of the sum over the shorter list, written with the weights of the longer one. */
  lemma UnityTerm(xs: seq<int>, z: int, p: nat, i: nat)
    requires IsPrime(p) && Distinct(xs, p) && i < |xs| - 1
    ensures var ys := xs[..|xs| - 1];
            Cong(Except(ys, z, i) * Weight(ys, i, p),
                 Except(xs, z, i) * Weight(xs, i, p) - Except(ys, z, |ys|) * Weight(xs, i, p), p)
  {
    var n := |xs| - 1;
    var ys, a := xs[..n], xs[n];
    var e, w := Except(ys, z, i), Weight(xs, i, p);
    WeightShrinks(xs, i, p);
    CongSym((xs[i] - a) * w, Weight(ys, i, p), p);
    CongRefl(e, p);
    CongMul(e, e, Weight(ys, i, p), (xs[i] - a) * w, p);
    FullProduct(ys, z, i);
    calc {
      e * ((xs[i] - a) * w);
      { assert xs[i] - a == (z - a) - (z - xs[i]); }
      e * (((z - a) - (z - xs[i])) * w);
      { Spread(e, z - a, z - xs[i], w); }
      e * (z - a) * w - e * (z - xs[i]) * w;
    }
  }

  lemma Spread(e: int, s: int, t: int, w: int)
    ensures e * ((s - t) * w) == e * s * w - e * t * w
  {
    assert (s - t) * w == s * w - t * w;
    assert e * (s * w) == e * s * w;
    assert e * (t * w) == e * t * w;
  }

  lemma {:induction false} UnityPrefix(xs: seq<int>, z: int, p: nat, m: nat)
    requires IsPrime(p) && Distinct(xs, p) && m < |xs|
    ensures var ys := xs[..|xs| - 1];
            Cong(Lagrange(ys, [1], z, p, m),
                 Lagrange(xs, [1], z, p, m) - Except(ys, z, |ys|) * SumOfWeights(xs, p, m), p)
    decreases m
  {
    var ys := xs[..|xs| - 1];
    if m == 0 {
      CongRefl(0, p);
    } else {
      var i := m - 1;
      UnityPrefix(xs, z, p, i);
      UnityTerm(xs, z, p, i);
      EvalOne(xs[i]);
      AddTerm(Lagrange(ys, [1], z, p, i), Lagrange(xs, [1], z, p, i), Except(ys, z, |ys|), SumOfWeights(xs, p, i),
              Except(ys, z, i) * Weight(ys, i, p), Except(xs, z, i) * Weight(xs, i, p), Weight(xs, i, p), p);
    }
  }

  lemma AddTerm(ly: int, lx: int, f: int, v: int, ty: int, tx: int, w: int, p: nat)
    requires p > 1 && Cong(ly, lx - f * v, p) && Cong(ty, tx - f * w, p)
    ensures Cong(ly + 1 * ty, (lx + 1 * tx) - f * (v + w), p)
  {
    CongAdd(ly, lx - f * v, ty, tx - f * w, p);
    assert f * (v + w) == f * v + f * w;
  }

  /** At the last point every other term vanishes. */
  lemma {:induction false} VanishesAtLast(xs: seq<int>, cs: seq<int>, p: nat, m: nat)
    requires p > 1 && m < |xs|
    ensures Lagrange(xs, cs, xs[|xs| - 1], p, m) == 0
    decreases m
  {
    if m > 0 {
      VanishesAtLast(xs, cs, p, m - 1);
      assert Except(xs, xs[|xs| - 1], m - 1) == 0;
    }
  }

  /** The Lagrange basis sums to one everywhere. */
  lemma {:induction false} PartitionOfUnity(xs: seq<int>, z: int, p: nat)
    requires IsPrime(p) && Distinct(xs, p) && |xs| >= 1
    ensures Cong(Lagrange(xs, [1], z, p, |xs|), 1, p)
    decreases |xs|
  {
    var n := |xs| - 1;
    var ys, a := xs[..n], xs[n];
    var w := Weight(xs, n, p);
    EvalOne(a);
    WeightInverts(xs, n, p);
    ExceptPast(ys, a, n, |ys|);
    ExceptPast(ys, z, n, |ys|);
    var full, fullA := Except(ys, z, n), Except(ys, a, n);
    if n == 0 {
      assert Lagrange(xs, [1], z, p, 1) == 0 + 1 * (full * w);
      assert full == 1 == fullA;
    } else {
      assert Distinct(ys, p);
      var v := SumOfWeights(xs, p, n);
      UnityBelow(xs, z, p);
      UnityBelow(xs, a, p);
      VanishesAtLast(xs, [1], p, n);
      OppositeWeight(fullA, v, w, p);
      UnityLast(Lagrange(xs, [1], z, p, n), full, v, w, p);
    }
  }

  /** The statement for the points below the last, in terms of the longer list. */
  lemma {:induction false} UnityBelow(xs: seq<int>, z: int, p: nat)
    requires IsPrime(p) && Distinct(xs, p) && |xs| >= 2
    ensures var n := |xs| - 1;
            Cong(1, Lagrange(xs, [1], z, p, n) - Except(xs[..n], z, n) * SumOfWeights(xs, p, n), p)
    decreases |xs|, 0
  {
    var n := |xs| - 1;
    var ys := xs[..n];
    assert Distinct(ys, p);
    PartitionOfUnity(ys, z, p);
    UnityPrefix(xs, z, p, n);
    CongSym(Lagrange(ys, [1], z, p, n), 1, p);
    CongTrans(1, Lagrange(ys, [1], z, p, n), Lagrange(xs, [1], z, p, n) - Except(ys, z, n) * SumOfWeights(xs, p, n), p);
  }

  lemma OppositeWeight(f: int, v: int, w: int, p: nat)
    requires IsPrime(p) && f % p != 0 && Cong(1, 0 - f * v, p) && Cong(f * w, 1, p)
    ensures Cong(w + v, 0, p)
  {
    CongTrans(f * w, 1, 0 - f * v, p);
    CongRefl(f * v, p);
    CongAdd(f * w, 0 - f * v, f * v, f * v, p);
    assert f * (w + v) == f * w + f * v;
    assert f * 0 == 0;
    CancelInt(f, w + v, 0, p);
  }

  lemma UnityLast(l: int, f: int, v: int, w: int, p: nat)
    requires p > 1 && Cong(1, l - f * v, p) && Cong(w + v, 0, p)
    ensures Cong(l + 1 * (f * w), 1, p)
  {
    CongRefl(f, p);
    CongMul(f, f, w + v, 0, p);
    CongAdd(1, l - f * v, f * (w + v), f * 0, p) by { CongSym(1, l - f * v, p); CongSym(l - f * v, 1, p); }
    assert f * (w + v) == f * w + f * v;
    CongSym(1, l - f * v, p);
    CongAdd(l - f * v, 1, f * (w + v), 0, p);
  }

  // ---------------------------------------------------------------- interpolation

  lemma LagrangeTerm(xs: seq<int>, cs: seq<int>, z: int, p: nat, i: nat)
    requires IsPrime(p) && Distinct(xs, p) && i < |xs| - 1
    ensures var a, ys := xs[|xs| - 1], xs[..|xs| - 1];
            Cong(Eval(cs, xs[i]) * (Except(xs, z, i) * Weight(xs, i, p)),
                 Eval(cs, a) * (Except(xs, z, i) * Weight(xs, i, p))
                 + (z - a) * (Eval(Quotient(cs, a), xs[i]) * (Except(ys, z, i) * Weight(ys, i, p))), p)
  {
    var a, ys := xs[|xs| - 1], xs[..|xs| - 1];
    DivideByLinear(cs, a, xs[i]);
    WeightShrinks(xs, i, p);
    TermCong(
      Eval(cs, a), xs[i] - a, Eval(Quotient(cs, a), xs[i]), Except(ys, z, i), z - a, Weight(xs, i, p), Weight(ys, i, p),
      p);
  }

  lemma TermCong(pa: int, l: int, r: int, e: int, d: int, w: int, v: int, p: nat)
    requires p > 1 && Cong(l * w, v, p)
    ensures Cong((pa + l * r) * (e * d * w), pa * (e * d * w) + d * (r * (e * v)), p)
  {
    var c := d * (r * e);
    CongRefl(c, p);
    CongMul(c, c, l * w, v, p);
    var u := pa * (e * d * w);
    CongRefl(u, p);
    CongAdd(u, u, c * (l * w), c * v, p);
    TermAlgebra(pa, l, r, e, d, w);
    FactorOut(d, r, e, v);
  }

  lemma FactorOut(d: int, r: int, e: int, v: int)
    ensures d * (r * e) * v == d * (r * (e * v))
  {
    assert d * (r * e) * v == d * (r * e * v);
    assert r * e * v == r * (e * v);
  }

  lemma TermAlgebra(pa: int, l: int, r: int, e: int, d: int, w: int)
    ensures (pa + l * r) * (e * d * w) == pa * (e * d * w) + d * (r * e) * (l * w)
  {
    assert (l * r) * (e * d * w) == d * (r * e) * (l * w);
  }

  lemma {:induction false} LagrangePrefix(xs: seq<int>, cs: seq<int>, z: int, p: nat, m: nat)
    requires IsPrime(p) && Distinct(xs, p) && m < |xs|
    ensures var a, ys := xs[|xs| - 1], xs[..|xs| - 1];
            Cong(Lagrange(xs, cs, z, p, m),
                 Eval(cs, a) * Lagrange(xs, [1], z, p, m) + (z - a) * Lagrange(ys, Quotient(cs, a), z, p, m), p)
    decreases m
  {
    var a, ys := xs[|xs| - 1], xs[..|xs| - 1];
    var pa, q := Eval(cs, a), Quotient(cs, a);
    if m == 0 {
      CongRefl(0, p);
      assert pa * 0 + (z - a) * 0 == 0;
    } else {
      var i := m - 1;
      LagrangePrefix(xs, cs, z, p, i);
      LagrangeTerm(xs, cs, z, p, i);
      EvalOne(xs[i]);
      var u := Except(xs, z, i) * Weight(xs, i, p);
      var t := Eval(q, xs[i]) * (Except(ys, z, i) * Weight(ys, i, p));
      CongAdd(Lagrange(xs, cs, z, p, i),
              pa * Lagrange(xs, [1], z, p, i) + (z - a) * Lagrange(ys, q, z, p, i),
              Eval(cs, xs[i]) * u, pa * u + (z - a) * t, p);
      Distribute(pa, Lagrange(xs, [1], z, p, i), u, z - a, Lagrange(ys, q, z, p, i), t);
    }
  }

  lemma Distribute(a: int, s: int, u: int, d: int, r: int, t: int)
    ensures a * (s + 1 * u) + d * (r + t) == a * s + d * r + (a * u + d * t)
  {
  }

  /** Interpolation: the formula reproduces, at every `z`, any polynomial with at most as many
      coefficients as there are points. */
  lemma {:induction false} LagrangeReproduces(xs: seq<int>, cs: seq<int>, z: int, p: nat)
    requires IsPrime(p) && Distinct(xs, p) && |cs| <= |xs|
    ensures Cong(Lagrange(xs, cs, z, p, |xs|), Eval(cs, z), p)
    decreases |xs|
  {
    if cs == [] {
      LagrangeOfZero(xs, z, p, |xs|);
      CongRefl(0, p);
    } else {
      var n := |xs| - 1;
      var a, ys := xs[n], xs[..n];
      var pa, q := Eval(cs, a), Quotient(cs, a);
      assert Distinct(ys, p);
      LagrangeReproduces(ys, q, z, p);
      PartitionOfUnity(xs, z, p);
      LagrangePrefix(xs, cs, z, p, n);
      EvalOne(a);
      DivideByLinear(cs, a, z);
      var u := Except(xs, z, n) * Weight(xs, n, p);
      CongRefl(pa * u, p);
      CongAdd(Lagrange(xs, cs, z, p, n), pa * Lagrange(xs, [1], z, p, n) + (z - a) * Lagrange(ys, q, z, p, n),
              pa * u, pa * u, p);
      FinishInterpolation(Lagrange(xs, cs, z, p, n + 1), pa, Lagrange(xs, [1], z, p, n), u, z - a,
                          Lagrange(ys, q, z, p, n), Eval(q, z), p);
    }
  }

  lemma FinishInterpolation(l: int, pa: int, s: int, u: int, d: int, r: int, rz: int, p: nat)
    requires p > 1 && Cong(l, pa * s + d * r + pa * u, p) && Cong(s + 1 * u, 1, p) && Cong(r, rz, p)
    ensures Cong(l, pa + d * rz, p)
  {
    CongRefl(pa, p);
    CongRefl(d, p);
    CongMul(pa, pa, s + 1 * u, 1, p);
    CongMul(d, d, r, rz, p);
    CongAdd(pa * (s + 1 * u), pa * 1, d * r, d * rz, p);
    assert pa * (s + 1 * u) == pa * s + pa * u;
    CongTrans(l, pa * s + d * r + pa * u, pa + d * rz, p);
  }

  lemma {:induction false} LagrangeOfZero(xs: seq<int>, z: int, p: nat, n: nat)
    requires n <= |xs| && p > 1
    ensures Lagrange(xs, [], z, p, n) == 0
    decreases n
  {
    if n > 0 {
      LagrangeOfZero(xs, z, p, n - 1);
    }
  }
}
