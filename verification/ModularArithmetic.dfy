/** Arithmetic modulo a prime as the crypto library does it, and the congruences the proofs use. */
module ModularArithmetic {
  import opened Division

  // ---------------------------------------------------------------- the library's operations

  /** `Add`: one conditional subtraction. */
  function Add(a: nat, b: nat, m: nat): nat {
    if a + b >= m then a + b - m else a + b
  }

  /** `Inverse`: the additive inverse. */
  function Negate(a: nat, m: nat): nat
    requires a <= m
  {
    if a == 0 then 0 else m - a
  }

  function Multiply(a: nat, b: nat, m: nat): (r: nat)
    requires m > 0
    ensures r < m
  {
    a * b % m
  }

  /** `Exponentiate`. */
  function Exponentiate(a: nat, e: nat, m: nat): (r: nat)
    requires m > 1
    ensures r < m
  {
    if e == 0 then 1 else Multiply(a, Exponentiate(a, e - 1, m), m)
  }

  /** Extended Euclid: `a * x + b * y == g`, and `g` divides both. */
  function Bezout(a: nat, b: nat): (r: (nat, int, int))
    decreases b
  {
    if b == 0 then (a, 1, 0)
    else
      var (g, x, y) := Bezout(b, a % b);
      (g, y, x - a / b * y)
  }

  /** `MultiplicativeInverse`: zero when there is none. */
  function Invert(a: nat, m: nat): (r: nat)
    requires m > 1
    ensures r < m
  {
    var (g, x, y) := Bezout(a % m, m);
    if g == 1 then x % m else 0
  }

  // ---------------------------------------------------------------- congruence

  ghost function Times(k: int, m: nat): int {
    k * m
  }

  ghost predicate Cong(a: int, b: int, m: nat)
    requires m > 0
  {
    exists k: int :: a == b + Times(k, m)
  }

  lemma CongFrom(a: int, b: int, k: int, m: nat)
    requires m > 0 && a == b + k * m
    ensures Cong(a, b, m)
  {
    assert a == b + Times(k, m);
  }

  lemma CongRefl(a: int, m: nat)
    requires m > 0
    ensures Cong(a, a, m)
  {
    CongFrom(a, a, 0, m);
  }

  lemma CongSym(a: int, b: int, m: nat)
    requires m > 0 && Cong(a, b, m)
    ensures Cong(b, a, m)
  {
    var k :| a == b + Times(k, m);
    assert (-k) * m == -(k * m);
    CongFrom(b, a, -k, m);
  }

  lemma CongTrans(a: int, b: int, c: int, m: nat)
    requires m > 0 && Cong(a, b, m) && Cong(b, c, m)
    ensures Cong(a, c, m)
  {
    var k :| a == b + Times(k, m);
    var l :| b == c + Times(l, m);
    assert (k + l) * m == k * m + l * m;
    CongFrom(a, c, k + l, m);
  }

  lemma CongAdd(a: int, b: int, c: int, d: int, m: nat)
    requires m > 0 && Cong(a, b, m) && Cong(c, d, m)
    ensures Cong(a + c, b + d, m)
  {
    var k :| a == b + Times(k, m);
    var l :| c == d + Times(l, m);
    assert (k + l) * m == k * m + l * m;
    CongFrom(a + c, b + d, k + l, m);
  }

  lemma CongSub(a: int, b: int, c: int, d: int, m: nat)
    requires m > 0 && Cong(a, b, m) && Cong(c, d, m)
    ensures Cong(a - c, b - d, m)
  {
    var k :| a == b + Times(k, m);
    var l :| c == d + Times(l, m);
    assert (k - l) * m == k * m - l * m;
    CongFrom(a - c, b - d, k - l, m);
  }

  lemma ScaleStep(b: int, k: int, m: int, c: int)
    ensures (b + k * m) * c == b * c + k * c * m
  {
    assert (b + k * m) * c == b * c + k * m * c;
    assert k * m * c == k * c * m;
  }

  lemma CongScale(a: int, b: int, c: int, m: nat)
    requires m > 0 && Cong(a, b, m)
    ensures Cong(a * c, b * c, m) && Cong(c * a, c * b, m)
  {
    var k :| a == b + Times(k, m);
    ScaleStep(b, k, m, c);
    CongFrom(a * c, b * c, k * c, m);
    Swapped(a, c);
    Swapped(b, c);
  }

  lemma Swapped(a: int, b: int)
    ensures a * b == b * a
  {
  }

  lemma CongMul(a: int, b: int, c: int, d: int, m: nat)
    requires m > 0 && Cong(a, b, m) && Cong(c, d, m)
    ensures Cong(a * c, b * d, m)
  {
    CongScale(a, b, c, m);
    CongScale(c, d, b, m);
    CongTrans(a * c, b * c, b * d, m);
  }

  lemma CongMod(a: int, m: nat)
    requires m > 0
    ensures Cong(a % m, a, m)
  {
    assert a == a / m * m + a % m;
    assert (-(a / m)) * m == -(a / m * m);
    CongFrom(a % m, a, -(a / m), m);
  }

  /** Congruent residues are equal. */
  lemma CongResidues(a: int, b: int, m: nat)
    requires m > 0 && Cong(a, b, m) && 0 <= a < m && 0 <= b < m
    ensures a == b
  {
    var k :| a == b + Times(k, m);
    assert k == 0;
  }

  lemma CongIsMod(a: int, b: int, m: nat)
    requires m > 0
    ensures Cong(a, b, m) <==> a % m == b % m
  {
    CongMod(a, m);
    CongMod(b, m);
    if Cong(a, b, m) {
      CongTrans(a % m, a, b, m);
      CongSym(b % m, b, m);
      CongTrans(a % m, b, b % m, m);
      CongResidues(a % m, b % m, m);
    }
    if a % m == b % m {
      CongSym(a % m, a, m);
      CongTrans(a, a % m, b, m);
    }
  }

  // ---------------------------------------------------------------- primes and inverses

  ghost predicate Divides(d: nat, n: nat) {
    exists e: nat :: n == d * e
  }

  ghost predicate IsPrime(p: nat) {
    p > 1 && forall d: nat :: Divides(d, p) ==> d == 1 || d == p
  }

  lemma {:induction false} BezoutIdentity(a: nat, b: nat)
    ensures var (g, x, y) := Bezout(a, b); a * x + b * y == g
    decreases b
  {
    if b > 0 {
      BezoutIdentity(b, a % b);
      var (g, x, y) := Bezout(b, a % b);
      BezoutStep(a, b, x, y);
    }
  }

  lemma BezoutStep(a: nat, b: nat, x: int, y: int)
    requires b > 0
    ensures a * y + b * (x - a / b * y) == b * x + a % b * y
  {
    BezoutRing(a / b, b, a % b, x, y);
    QuotientAndRest(a, b);
  }

  lemma BezoutRing(q: int, b: int, r: int, x: int, y: int)
    ensures (q * b + r) * y + b * (x - q * y) == b * x + r * y
  {
    assert (q * b + r) * y == q * b * y + r * y;
    assert b * (x - q * y) == b * x - b * (q * y);
    assert b * (q * y) == q * b * y;
  }

  /** The greatest common divisor divides both arguments. */
  lemma {:induction false} BezoutDivides(a: nat, b: nat) returns (s: nat, t: nat)
    ensures a == Bezout(a, b).0 * s && b == Bezout(a, b).0 * t
    decreases b
  {
    if b == 0 {
      s, t := 1, 0;
    } else {
      var s1, t1 := BezoutDivides(b, a % b);
      s := DivisorOfSum(a, b, Bezout(b, a % b).0, s1, t1);
      t := s1;
    }
  }

  lemma DivisorOfSum(a: nat, b: nat, g: nat, s1: nat, t1: nat) returns (s: nat)
    requires b > 0 && b == g * s1 && a % b == g * t1
    ensures a == g * s
  {
    QuotientAndRest(a, b);
    s := CombinedFactor(a / b, g, s1, t1);
  }

  lemma CombinedFactor(q: nat, g: nat, s1: nat, t1: nat) returns (s: nat)
    ensures q * (g * s1) + g * t1 == g * s
  {
    s := q * s1 + t1;
    assert q * (g * s1) == g * (q * s1);
    assert g * (q * s1 + t1) == g * (q * s1) + g * t1;
  }

  lemma CoprimeToPrime(r: nat, p: nat)
    requires IsPrime(p) && 0 < r < p
    ensures Bezout(r, p).0 == 1
  {
    var g := Bezout(r, p).0;
    var s, t := BezoutDivides(r, p);
    assert Divides(g, p);
    if g == p {
      assert p * s == r;
      MultipleTooBig(p, s, r);
    }
  }

  lemma MultipleTooBig(p: nat, s: nat, r: nat)
    requires p * s == r && 0 < r
    ensures r >= p
  {
    assert s >= 1;
    assert p * s == p * (s - 1) + p;
  }

  /** Modulo a prime, everything not divisible by it has an inverse, and `Invert` finds it. */
  lemma InvertWorks(a: nat, p: nat)
    requires IsPrime(p) && a % p != 0
    ensures Cong(a * Invert(a, p), 1, p)
  {
    var r := a % p;
    var (g, x, y) := Bezout(r, p);
    CoprimeToPrime(r, p);
    BezoutIdentity(r, p);
    CongFrom(r * x, 1, -y, p) by { assert (-y) * p == -(p * y); }
    CongMod(x, p);
    CongMod(a, p);
    CongSym(r, a, p);
    CongMul(a, r, x % p, x, p);
    CongTrans(a * (x % p), r * x, 1, p);
  }

  /** A product that is 1 modulo a prime has no factor divisible by it. */
  lemma UnitNonzero(a: int, b: int, p: nat)
    requires p > 1 && Cong(a * b, 1, p)
    ensures a % p != 0
  {
    if a % p == 0 {
      CongIsMod(a, 0, p);
      CongRefl(b, p);
      CongMul(a, 0, b, b, p);
      CongSym(a * b, 0, p);
      CongTrans(0, a * b, 1, p);
      CongIsMod(0, 1, p);
    }
  }

  /** Cancelling a factor that has an inverse. */
  lemma CancelUnit(u: int, v: int, a: int, b: int, p: nat)
    requires p > 0 && Cong(u * v, 1, p) && Cong(u * a, u * b, p)
    ensures Cong(a, b, p)
  {
    CongRefl(v, p);
    CongMul(u * a, u * b, v, v, p);
    CancelOne(u, v, a, p);
    CancelOne(u, v, b, p);
    CongSym(u * a * v, a, p);
    CongTrans(a, u * a * v, u * b * v, p);
    CongTrans(a, u * b * v, b, p);
  }

  lemma CancelOne(u: int, v: int, a: int, p: nat)
    requires p > 0 && Cong(u * v, 1, p)
    ensures Cong(u * a * v, a, p)
  {
    CongRefl(a, p);
    CongMul(u * v, 1, a, a, p);
    assert u * a * v == u * v * a;
  }

  /** Modulo a prime, everything not divisible by it cancels. */
  lemma CancelNonzero(u: int, a: int, b: int, p: nat)
    requires IsPrime(p) && u % p != 0 && Cong(u * a, u * b, p)
    ensures Cong(a, b, p)
  {
    var e: nat := u % p;
    var v := Invert(e, p);
    CongMod(u, p);
    CongSym(e, u, p);
    CongIsMod(e, u, p);
    InvertWorks(e, p);
    CongScale(u, e, v, p);
    CongTrans(u * v, e * v, 1, p);
    CancelUnit(u, v, a, b, p);
  }

  /** Congruence does not depend on the representatives. */
  lemma CongBoth(a: int, a': int, b: int, b': int, p: nat)
    requires p > 0 && Cong(a, a', p) && Cong(b, b', p)
    ensures Cong(a, b, p) <==> Cong(a', b', p)
  {
    CongIsMod(a, a', p);
    CongIsMod(b, b', p);
    CongIsMod(a, b, p);
    CongIsMod(a', b', p);
  }

  /** A prime divides a product only if it divides a factor. */
  lemma NonzeroProduct(a: nat, b: nat, p: nat)
    requires IsPrime(p) && a % p != 0 && b % p != 0
    ensures (a * b) % p != 0
  {
    var v := Invert(a, p);
    InvertWorks(a, p);
    CongIsMod(a * b, 0, p);
    if Cong(a * b, 0, p) {
      CongRefl(v, p);
      CongMul(a * b, 0, v, v, p);
      CancelOne(a, v, b, p);
      CongSym(a * b * v, b, p);
      CongTrans(b, a * b * v, 0, p);
      CongIsMod(b, 0, p);
    }
  }

  // ---------------------------------------------------------------- residues of expressions

  lemma AddCong(a: nat, b: nat, p: nat)
    requires p > 0
    ensures Cong(Add(a, b, p), a + b, p)
  {
    CongFrom(Add(a, b, p), a + b, if a + b >= p then -1 else 0, p);
  }

  lemma MultiplyCong(a: nat, b: nat, a': int, b': int, p: nat)
    requires p > 1 && Cong(a, a', p) && Cong(b, b', p)
    ensures Cong(Multiply(a, b, p), a' * b', p)
  {
    CongMul(a, a', b, b', p);
    CongMod(a * b, p);
    CongTrans(Multiply(a, b, p), a * b, a' * b', p);
  }

  function Power(x: int, e: nat): int {
    if e == 0 then 1 else x * Power(x, e - 1)
  }

  lemma {:induction false} ExponentiateCong(a: nat, e: nat, p: nat)
    requires p > 1
    ensures Cong(Exponentiate(a, e, p), Power(a, e), p)
    decreases e
  {
    if e == 0 {
      CongRefl(1, p);
    } else {
      ExponentiateCong(a, e - 1, p);
      CongRefl(a, p);
      MultiplyCong(a, Exponentiate(a, e - 1, p), a, Power(a, e - 1), p);
    }
  }

  lemma ResidueOf(y: nat, e: int, p: nat)
    requires p > 0 && y < p && Cong(y, e, p)
    ensures y == e % p
  {
    CongIsMod(y, e, p);
  }
}
