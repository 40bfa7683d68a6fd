/** Fermat's little theorem, by multiplying all nonzero residues. */
module Fermat {
  import opened Division
  import opened ModularArithmetic

  /** The product of a finite set of numbers. */
  ghost function Product(s: set<nat>): nat {
    if s == {} then 1 else
    var x :| x in s;
    x * Product(s - {x})
  }

  /** It does not depend on the order in which the numbers are taken. */
  lemma {:induction false} ProductAdd(s: set<nat>, x: nat)
    requires x !in s
    ensures Product(s + {x}) == x * Product(s)
    decreases |s|
  {
    var t := s + {x};
    var y :| y in t && Product(t) == y * Product(t - {y});
    if y == x {
      assert t - {x} == s;
    } else {
      var rest := s - {y};
      assert t - {y} == rest + {x} && s == rest + {y};
      ProductAdd(rest, x);
      ProductAdd(rest, y);
      TurnAround(x, y, Product(rest));
    }
  }

  lemma TurnAround(x: nat, y: nat, z: nat)
    ensures y * (x * z) == x * (y * z)
  {
  }

  predicate Within(i: nat, n: nat) {
    1 <= i <= n
  }

  ghost function UpTo(n: nat): set<nat> {
    set i: nat | i <= n && Within(i, n)
  }

  lemma {:induction false} UpToSize(n: nat)
    ensures |UpTo(n)| == n
  {
    if n > 0 {
      UpToSize(n - 1);
      assert UpTo(n) == UpTo(n - 1) + {n};
    } else {
      assert UpTo(0) == {};
    }
  }

  /** The residues of the first `n` multiples of `a`. */
  ghost function Multiples(a: nat, n: nat, p: nat): set<nat>
    requires p > 1
  {
    set i | i in UpTo(n) :: Multiply(a, i, p)
  }

  lemma MultiplesDiffer(a: nat, i: nat, j: nat, p: nat)
    requires IsPrime(p) && a % p != 0 && i < p && j < p && Multiply(a, i, p) == Multiply(a, j, p)
    ensures i == j
  {
    CongIsMod(a * i, a * j, p);
    InvertWorks(a, p);
    CancelUnit(a, Invert(a, p), i, j, p);
    CongResidues(i, j, p);
  }

  lemma {:induction false} MultiplesCount(a: nat, n: nat, p: nat)
    requires IsPrime(p) && a % p != 0 && n < p
    ensures |Multiples(a, n, p)| == n
  {
    if n == 0 {
      assert Multiples(a, 0, p) == {};
    } else {
      MultiplesCount(a, n - 1, p);
      LastMultipleIsNew(a, n, p);
    }
  }

  /** They multiply to `a^n` times the product of `1` to `n`. */
  lemma {:induction false} ProductOfMultiples(a: nat, n: nat, p: nat)
    requires IsPrime(p) && a % p != 0 && n < p
    ensures Cong(Product(Multiples(a, n, p)), Power(a, n) * Product(UpTo(n)), p)
    decreases n
  {
    if n == 0 {
      assert Multiples(a, 0, p) == {} && UpTo(0) == {};
      CongRefl(1, p);
    } else {
      var m, w, z := Product(Multiples(a, n - 1, p)), Power(a, n - 1), Product(UpTo(n - 1));
      ProductOfMultiples(a, n - 1, p);
      OneMoreFactor(a, n, m, w, z, p);
      assert Product(Multiples(a, n, p)) == Multiply(a, n, p) * m by {
        LastMultipleIsNew(a, n, p);
        ProductAdd(Multiples(a, n - 1, p), Multiply(a, n, p));
      }
      assert Product(UpTo(n)) == n * z by {
        assert UpTo(n) == UpTo(n - 1) + {n};
        ProductAdd(UpTo(n - 1), n);
      }
      assert Power(a, n) == a * w;
    }
  }

  lemma OneMoreFactor(a: nat, n: nat, m: nat, w: int, z: int, p: nat)
    requires p > 1 && Cong(m, w * z, p)
    ensures Cong(Multiply(a, n, p) * m, (a * w) * (n * z), p)
  {
    CongMod(a * n, p);
    CongMul(Multiply(a, n, p), a * n, m, w * z, p);
    PairFactors(a, n, w, z);
  }

  lemma PairFactors(a: int, n: int, w: int, z: int)
    ensures (a * n) * (w * z) == (a * w) * (n * z)
  {
    assert (a * n) * (w * z) == a * (n * (w * z));
    assert n * (w * z) == w * (n * z);
  }

  lemma LastMultipleIsNew(a: nat, n: nat, p: nat)
    requires IsPrime(p) && a % p != 0 && 1 <= n < p
    ensures Multiply(a, n, p) !in Multiples(a, n - 1, p)
    ensures Multiples(a, n, p) == Multiples(a, n - 1, p) + {Multiply(a, n, p)}
  {
    if Multiply(a, n, p) in Multiples(a, n - 1, p) {
      var i :| i in UpTo(n - 1) && Multiply(a, i, p) == Multiply(a, n, p);
      MultiplesDiffer(a, i, n, p);
    }
    forall m | m in Multiples(a, n, p) ensures m in Multiples(a, n - 1, p) + {Multiply(a, n, p)} {
      var i :| i in UpTo(n) && Multiply(a, i, p) == m;
    }
  }

  /** All of them are all nonzero residues. */
  lemma AllMultiples(a: nat, p: nat)
    requires IsPrime(p) && a % p != 0
    ensures Multiples(a, p - 1, p) == UpTo(p - 1)
  {
    var all := Multiples(a, p - 1, p);
    forall m | m in all ensures m in UpTo(p - 1) {
      var i :| i in UpTo(p - 1) && Multiply(a, i, p) == m;
      ModOf(0, i, p, i);
      NonzeroProduct(a, i, p);
    }
    MultiplesCount(a, p - 1, p);
    UpToSize(p - 1);
    SubsetOfSameSize(all, UpTo(p - 1));
  }

  lemma SubsetOfSameSize(s: set<nat>, t: set<nat>)
    requires s <= t && |s| == |t|
    ensures s == t
  {
    assert |t - s| == |t| - |s|;
  }

  lemma {:induction false} FactorialNonzero(n: nat, p: nat)
    requires IsPrime(p) && n < p
    ensures Product(UpTo(n)) % p != 0
  {
    if n == 0 {
      assert UpTo(0) == {};
      ModOf(0, 1, p, 1);
    } else {
      FactorialNonzero(n - 1, p);
      assert UpTo(n) == UpTo(n - 1) + {n};
      ProductAdd(UpTo(n - 1), n);
      ModOf(0, n, p, n);
      NonzeroProduct(n, Product(UpTo(n - 1)), p);
    }
  }

  lemma FermatsTheorem(a: nat, p: nat)
    requires IsPrime(p) && a % p != 0
    ensures Cong(Power(a, p - 1), 1, p)
  {
    var z := Product(UpTo(p - 1));
    AllMultiples(a, p);
    ProductOfMultiples(a, p - 1, p);
    FactorialNonzero(p - 1, p);
    InvertWorks(z, p);
    CongSym(z, Power(a, p - 1) * z, p);
    Swapped(z, Power(a, p - 1));
    assert z * 1 == z;
    CancelUnit(z, Invert(z, p), Power(a, p - 1), 1, p);
  }
}
