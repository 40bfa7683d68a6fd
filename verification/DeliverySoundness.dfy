/** What an accepted delivery proof shows: two accepted answers to different challenges on the same
    commitments tie the keys, the ciphertexts and the messages together. */
module DeliverySoundness {
  import opened ModularArithmetic
  import opened DeliveryProof
  import opened Fermat

  // ---------------------------------------------------------------- the three checks as congruences

  function Challenge(hash: Hash, proof: Proof, first: Ciphertext, second: Ciphertext, key1: nat, key2: nat): nat {
    hash(first, second, key1, key2, proof.g1, proof.g2, proof.g3)
  }

  /** `g^e` equals `key^x` times the commitment `c`. */
  ghost predicate Opens(g: int, e: nat, key: int, x: nat, c: int, p: nat)
    requires p > 1
  {
    Cong(Power(g, e), Power(key, x) * c, p)
  }

  lemma OpensIff(g: nat, e: nat, key: nat, x: nat, c: nat, p: nat)
    requires p > 1
    ensures Exponentiate(g, e, p) == Multiply(Exponentiate(key, x, p), c, p) <==> Opens(g, e, key, x, c, p)
  {
    var l, r := Exponentiate(g, e, p), Multiply(Exponentiate(key, x, p), c, p);
    ExponentiateCong(g, e, p);
    ExponentiateCong(key, x, p);
    CongRefl(c, p);
    MultiplyCong(Exponentiate(key, x, p), c, Power(key, x), c, p);
    if l == r {
      CongSym(l, Power(g, e), p);
      CongTrans(Power(g, e), l, Power(key, x) * c, p);
    }
    if Opens(g, e, key, x, c, p) {
      CongTrans(l, Power(g, e), Power(key, x) * c, p);
      EqualByCong(l, r, Power(key, x) * c, p);
    }
  }

  /** The third check without inverses. */
  ghost predicate Carries(
    x: nat, s: nat, r: nat, g3: int, first: Ciphertext, second: Ciphertext, key2: int, p: nat)
    requires p > 1
  {
    Cong(Power(second.c1, x) * Power(first.d1, s), g3 * Power(first.c1, x) * Power(key2, r), p)
  }

  /** A quotient of four factors is `f` exactly when the products agree. */
  lemma QuotientIff(u: nat, v: nat, a: nat, b: nat, f: nat, p: nat)
    requires IsPrime(p) && a % p != 0 && b % p != 0
    ensures Multiply(Multiply(Multiply(u, Invert(a, p), p), v, p), Invert(b, p), p) == f
      <==> f < p && Cong(u * v, f * a * b, p)
  {
    var ai, bi := Invert(a, p), Invert(b, p);
    var t := Multiply(Multiply(Multiply(u, ai, p), v, p), bi, p);
    InvertWorks(a, p);
    InvertWorks(b, p);
    FourFactors(u, ai, v, bi, p);
    if t == f {
      TimesThrough(t, u, v, a, b, ai, bi, p);
    }
    if f < p && Cong(u * v, f * a * b, p) {
      CongRefl(1, p);
      assert u * v * 1 == u * v && f * 1 == f;
      DivideThrough(u, v, 1, f, a, b, ai, bi, 1, p);
      CongTrans(t, u * ai * v * bi, f, p);
      CongResidues(t, f, p);
    }
  }

  /** Multiplying a quotient by its divisors. */
  lemma TimesThrough(t: int, u: int, v: int, a: int, b: int, ai: int, bi: int, p: nat)
    requires p > 0 && Cong(t, u * ai * v * bi, p) && Cong(a * ai, 1, p) && Cong(b * bi, 1, p)
    ensures Cong(u * v, t * a * b, p)
  {
    CongScale(t, u * ai * v * bi, a * b, p);
    CongMul(a * ai, 1, b * bi, 1, p);
    CongScale((a * ai) * (b * bi), 1, u * v, p);
    SortFactors(u, v, a, b, ai, bi);
    FactorOut(t, a, b, 0);
    CongTrans(t * a * b, u * ai * v * bi * (a * b), u * v, p);
    CongSym(t * a * b, u * v, p);
  }

  lemma SortFactors(u: int, v: int, a: int, b: int, ai: int, bi: int)
    ensures u * ai * v * bi * (a * b) == u * v * ((a * ai) * (b * bi))
  {
    Interleave(u, v, ai, bi);
    FactorOut(u * ai, v, bi, 0);
    FactorOut(u * v, ai * bi, a * b, 0);
    Interleave(a, b, ai, bi);
    Swapped(a * b, ai * bi);
  }

  lemma ThirdCheckIff(p: nat, x: nat, proof: Proof, first: Ciphertext, second: Ciphertext, key2: nat)
    requires IsPrime(p) && first.c1 % p != 0 && key2 % p != 0
    ensures ThirdCheck(p, x, proof, first, second, key2) == proof.g3
      <==> proof.g3 < p && Carries(x, proof.s, proof.r, proof.g3, first, second, key2, p)
  {
    var u, v := Exponentiate(second.c1, x, p), Exponentiate(first.d1, proof.s, p);
    var a, b, f := Exponentiate(first.c1, x, p), Exponentiate(key2, proof.r, p), proof.g3;
    ExpNonzero(first.c1, x, p);
    ExpNonzero(key2, proof.r, p);
    QuotientIff(u, v, a, b, f, p);
    ExponentiateCong(second.c1, x, p);
    ExponentiateCong(first.d1, proof.s, p);
    ExponentiateCong(first.c1, x, p);
    ExponentiateCong(key2, proof.r, p);
    CongMul(u, Power(second.c1, x), v, Power(first.d1, proof.s), p);
    CongRefl(f, p);
    ThreeProducts(f, f, a, Power(first.c1, x), b, Power(key2, proof.r), p);
    CongBoth(u * v, Power(second.c1, x) * Power(first.d1, proof.s),
             f * a * b, f * Power(first.c1, x) * Power(key2, proof.r), p);
  }

  /** `verify_delivery_proof` accepts exactly the answers that satisfy three equations of powers. */
  lemma VerifiesIff(gr: Group, hash: Hash, proof: Proof, first: Ciphertext, second: Ciphertext, key1: nat, key2: nat)
    requires IsPrime(gr.p) && first.c1 % gr.p != 0 && key2 % gr.p != 0
    ensures var x := Challenge(hash, proof, first, second, key1, key2);
      Verifies(gr, hash, proof, first, second, key1, key2) <==>
        && Opens(gr.g, proof.s, key1, x, proof.g1, gr.p)
        && Opens(gr.g, proof.r, second.d1, x, proof.g2, gr.p)
        && proof.g3 < gr.p && Carries(x, proof.s, proof.r, proof.g3, first, second, key2, gr.p)
  {
    var x := Challenge(hash, proof, first, second, key1, key2);
    OpensIff(gr.g, proof.s, key1, x, proof.g1, gr.p);
    OpensIff(gr.g, proof.r, second.d1, x, proof.g2, gr.p);
    ThirdCheckIff(gr.p, x, proof, first, second, key2);
  }

  // ---------------------------------------------------------------- two answers on the same commitments

  /** Two proofs with the same commitments. */
  predicate SameCommitments(a: Proof, b: Proof) {
    a.g1 == b.g1 && a.g2 == b.g2 && a.g3 == b.g3
  }

  /** `a^m b^n' == a^m' b^n`: the exponents `m - m'` of `a` and `n - n'` of `b` give the same power. */
  ghost predicate SamePower(a: int, m: nat, m': nat, b: int, n: nat, n': nat, p: nat)
    requires p > 1
  {
    Cong(Power(a, m) * Power(b, n'), Power(a, m') * Power(b, n), p)
  }

  lemma TwoOpenings(g: int, e: nat, e': nat, key: int, x: nat, x': nat, c: int, p: nat)
    requires p > 1 && Opens(g, e, key, x, c, p) && Opens(g, e', key, x', c, p)
    ensures SamePower(g, e, e', key, x, x', p)
  {
    Swapped(Power(key, x), c);
    Swapped(Power(key, x'), c);
    CrossMultiply(Power(g, e), Power(g, e'), c, Power(key, x), Power(key, x'), p);
  }

  lemma CrossMultiply(l: int, l': int, f: int, z: int, z': int, p: nat)
    requires p > 0 && Cong(l, f * z, p) && Cong(l', f * z', p)
    ensures Cong(l * z', l' * z, p)
  {
    CongScale(l, f * z, z', p);
    CongScale(l', f * z', z, p);
    SwapLast(f, z, z');
    CongSym(l' * z, f * z' * z, p);
    CongTrans(l * z', f * z * z', l' * z, p);
  }

  lemma RotateFactors(d: int, c: int, v: int)
    ensures d * c * v == c * v * d
  {
    SwapLast(c, d, v);
    Swapped(d, c);
  }

  lemma SwapLast(f: int, z: int, z': int)
    ensures f * z * z' == f * z' * z
  {
  }

  /** Two accepted answers to the challenges `x` and `x'` on the same commitments: the secret key behind
      `key1` and the randomizer behind `second.d1` can be read off the answers. */
  lemma TwoAnswersOpenKeys(
    gr: Group, hash: Hash, hash': Hash, a: Proof, b: Proof, first: Ciphertext, second: Ciphertext, key1: nat, key2: nat)
    requires gr.p > 1 && SameCommitments(a, b)
    requires Verifies(gr, hash, a, first, second, key1, key2) && Verifies(gr, hash', b, first, second, key1, key2)
    ensures var x := Challenge(hash, a, first, second, key1, key2);
      var x' := Challenge(hash', b, first, second, key1, key2);
      && SamePower(gr.g, a.s, b.s, key1, x, x', gr.p)
      && SamePower(gr.g, a.r, b.r, second.d1, x, x', gr.p)
  {
    var x := Challenge(hash, a, first, second, key1, key2);
    var x' := Challenge(hash', b, first, second, key1, key2);
    OpensIff(gr.g, a.s, key1, x, a.g1, gr.p);
    OpensIff(gr.g, b.s, key1, x', b.g1, gr.p);
    OpensIff(gr.g, a.r, second.d1, x, a.g2, gr.p);
    OpensIff(gr.g, b.r, second.d1, x', b.g2, gr.p);
    TwoOpenings(gr.g, a.s, b.s, key1, x, x', a.g1, gr.p);
    TwoOpenings(gr.g, a.r, b.r, second.d1, x, x', a.g2, gr.p);
  }

  /** With the commitments fixed, an accepted answer is unique up to its power of the generator. */
  lemma AnswerIsUnique(
    gr: Group, hash: Hash, a: Proof, b: Proof, first: Ciphertext, second: Ciphertext, key1: nat, key2: nat)
    requires gr.p > 1 && SameCommitments(a, b)
    requires Verifies(gr, hash, a, first, second, key1, key2) && Verifies(gr, hash, b, first, second, key1, key2)
    ensures Exponentiate(gr.g, a.s, gr.p) == Exponentiate(gr.g, b.s, gr.p)
    ensures Exponentiate(gr.g, a.r, gr.p) == Exponentiate(gr.g, b.r, gr.p)
  {
  }

  // ---------------------------------------------------------------- units

  lemma {:induction false} PowerNonzero(a: int, e: nat, p: nat)
    requires IsPrime(p) && a % p != 0
    ensures Power(a, e) % p != 0
    decreases e
  {
    if e == 0 {
      ResidueIsSmall(1, p);
    } else {
      PowerNonzero(a, e - 1, p);
      ProductNonzero(a, Power(a, e - 1), p);
    }
  }

  lemma ProductNonzero(a: int, b: int, p: nat)
    requires IsPrime(p) && a % p != 0 && b % p != 0
    ensures (a * b) % p != 0
  {
    CongIsMod(a * b, 0, p);
    if Cong(a * b, 0, p) {
      assert a * 0 == 0;
      CancelNonzero(a, b, 0, p);
      CongIsMod(b, 0, p);
    }
  }

  lemma CommonFactor(l: int, r: int, z: int, m: int, m': int, p: nat)
    requires IsPrime(p) && z % p != 0 && Cong(l, m * z, p) && Cong(r, m' * z, p) && Cong(l, r, p)
    ensures Cong(m, m', p)
  {
    CongBoth(l, m * z, r, m' * z, p);
    Swapped(m, z);
    Swapped(m', z);
    CancelNonzero(z, m, m', p);
  }

  /** Where `m >= m'` and `n >= n'`: `a^(m - m') == b^(n - n')`. */
  lemma PowerOfDifference(a: nat, m: nat, m': nat, b: nat, n: nat, n': nat, p: nat)
    requires IsPrime(p) && a % p != 0 && b % p != 0 && m >= m' && n >= n' && SamePower(a, m, m', b, n, n', p)
    ensures Cong(Power(a, m - m'), Power(b, n - n'), p)
  {
    var d, e, z := Power(a, m - m'), Power(b, n - n'), Power(a, m') * Power(b, n');
    PowerAdd(a, m - m', m');
    PowerAdd(b, n - n', n');
    PowerNonzero(a, m', p);
    PowerNonzero(b, n', p);
    ProductNonzero(Power(a, m'), Power(b, n'), p);
    FactorOut(d, Power(a, m'), Power(b, n'), e);
    CongRefl(d * z, p);
    CongRefl(e * z, p);
    CommonFactor(Power(a, m) * Power(b, n'), Power(a, m') * Power(b, n), z, d, e, p);
  }

  lemma FactorOut(d: int, a: int, b: int, e: int)
    ensures d * a * b == d * (a * b) && a * (e * b) == e * (a * b)
  {
  }

  // ---------------------------------------------------------------- the messages

  /** What holds of powers of `g` and `b` holds of their `u`-th powers `d` and `f`. */
  lemma PowersFollow(g: int, m: nat, m': nat, b: int, n: nat, n': nat, u: nat, d: int, f: int, p: nat)
    requires p > 1 && SamePower(g, m, m', b, n, n', p) && Cong(d, Power(g, u), p) && Cong(f, Power(b, u), p)
    ensures SamePower(d, m, m', f, n, n', p)
  {
    PowerCong(Power(g, m) * Power(b, n'), Power(g, m') * Power(b, n), u, p);
    ProductOfPowers(g, m, b, n', u, d, f, p);
    ProductOfPowers(g, m', b, n, u, d, f, p);
    CongBoth(Power(d, m) * Power(f, n'), Power(Power(g, m) * Power(b, n'), u),
             Power(d, m') * Power(f, n), Power(Power(g, m') * Power(b, n), u), p);
  }

  lemma ProductOfPowers(g: int, m: nat, b: int, n: nat, u: nat, d: int, f: int, p: nat)
    requires p > 1 && Cong(d, Power(g, u), p) && Cong(f, Power(b, u), p)
    ensures Cong(Power(d, m) * Power(f, n), Power(Power(g, m) * Power(b, n), u), p)
  {
    PowerProduct(Power(g, m), Power(b, n), u);
    PowersCommute(g, m, u);
    PowersCommute(b, n, u);
    PowerCong(d, Power(g, u), m, p);
    PowerCong(f, Power(b, u), n, p);
    CongMul(Power(d, m), Power(Power(g, u), m), Power(f, n), Power(Power(b, u), n), p);
  }

  lemma PowersCommute(g: int, m: nat, u: nat)
    ensures Power(Power(g, m), u) == Power(Power(g, u), m)
  {
    PowerMul(g, m, u);
    PowerMul(g, u, m);
    Swapped(m, u);
  }

  /** The third check for two answers. */
  lemma TwoAnswersCarry(
    x: nat, s: nat, r: nat, x': nat, s': nat, r': nat, g3: int,
    first: Ciphertext, second: Ciphertext, key2: int, p: nat)
    requires p > 1 && Carries(x, s, r, g3, first, second, key2, p) && Carries(x', s', r', g3, first, second, key2, p)
    ensures Cong(Power(second.c1, x) * Power(first.d1, s) * (Power(first.c1, x') * Power(key2, r')),
                 Power(second.c1, x') * Power(first.d1, s') * (Power(first.c1, x) * Power(key2, r)), p)
  {
    FactorOut(g3, Power(first.c1, x), Power(key2, r), 0);
    FactorOut(g3, Power(first.c1, x'), Power(key2, r'), 0);
    CrossMultiply(
      Power(second.c1, x) * Power(first.d1, s), Power(second.c1, x') * Power(first.d1, s'), g3,
      Power(first.c1, x) * Power(key2, r), Power(first.c1, x') * Power(key2, r'), p);
  }

  /** `c^n == m^n d^n` for a ciphertext part `c == m d`. */
  lemma PowerOfHolds(c: int, m: int, d: int, n: nat, p: nat)
    requires p > 1 && Cong(c, m * d, p)
    ensures Cong(Power(c, n), Power(m, n) * Power(d, n), p)
  {
    PowerCong(c, m * d, n, p);
    PowerProduct(m, d, n);
  }

  lemma RegroupMessages(m2: int, b: int, d: int, m1: int, a: int, k: int)
    ensures (m2 * b) * d * ((m1 * a) * k) == (m2 * m1) * ((d * a) * (k * b))
  {
    assert (m2 * b) * d == m2 * (b * d);
    Interleave(m2, b * d, m1, a * k);
    assert (m1 * a) * k == m1 * (a * k);
    Interleave(b, d, k, a);
    assert (k * b) * (d * a) == (b * d) * (a * k);
    Swapped(k * b, d * a);
  }

  /** One side of the third check for two answers, with the messages `m1` and `m2` taken out. */
  lemma CarriedSide(
    c2: int, m2: int, b: int, n: nat, d: int, s: nat, c1: int, m1: int, a: int, n': nat, k: int, r: nat, p: nat)
    requires p > 1 && Cong(c2, m2 * b, p) && Cong(c1, m1 * a, p)
    ensures Cong(Power(c2, n) * Power(d, s) * (Power(c1, n') * Power(k, r)),
                 Power(m2, n) * Power(m1, n') * (Power(d, s) * Power(a, n') * (Power(k, r) * Power(b, n))), p)
  {
    PowerOfHolds(c2, m2, b, n, p);
    PowerOfHolds(c1, m1, a, n', p);
    CongRefl(Power(d, s), p);
    CongScale(Power(c1, n'), Power(m1, n') * Power(a, n'), Power(k, r), p);
    ThreeProducts(Power(c2, n), Power(m2, n) * Power(b, n), Power(d, s), Power(d, s),
                  Power(c1, n') * Power(k, r), Power(m1, n') * Power(a, n') * Power(k, r), p);
    RegroupMessages(Power(m2, n), Power(b, n), Power(d, s), Power(m1, n'), Power(a, n'), Power(k, r));
  }

  /** Keys and ciphertexts as the protocol makes them: `key1 == g^secretKey` receives `first`, and
      `key2 == g^consumerKey` receives `second`; both use powers of the generator, the `u`-th and the `t`-th. */
  datatype Parties = Parties(secretKey: nat, consumerKey: nat, u: nat, t: nat)

  ghost predicate Keyed(gr: Group, k: Parties, first: Ciphertext, second: Ciphertext, key1: nat, key2: nat) {
    && ValidGroup(gr) && key1 == PublicKey(gr, k.secretKey) && key2 == PublicKey(gr, k.consumerKey)
    && first.d1 == Exponentiate(gr.g, k.u, gr.p) && second.d1 == Exponentiate(gr.g, k.t, gr.p)
  }

  /** The masks of the two ciphertexts, from their powers of the generator. */
  lemma MasksFollow(
    gr: Group, k: Parties, first: Ciphertext, second: Ciphertext, key1: nat, key2: nat,
    s: nat, s': nat, r: nat, r': nat, x: nat, x': nat)
    requires Keyed(gr, k, first, second, key1, key2)
    requires SamePower(gr.g, s, s', key1, x, x', gr.p) && SamePower(gr.g, r, r', second.d1, x, x', gr.p)
    ensures SamePower(first.d1, s, s', Power(first.d1, k.secretKey), x, x', gr.p)
    ensures SamePower(key2, r, r', Power(second.d1, k.consumerKey), x, x', gr.p)
  {
    var p, g := gr.p, gr.g;
    ExponentiateCong(g, k.u, p);
    ExponentiateCong(g, k.secretKey, p);
    ExponentiateCong(g, k.consumerKey, p);
    PowerCong(first.d1, Power(g, k.u), k.secretKey, p);
    PowerCong(key1, Power(g, k.secretKey), k.u, p);
    PowersCommute(g, k.u, k.secretKey);
    CongSym(Power(key1, k.u), Power(Power(g, k.secretKey), k.u), p);
    CongTrans(Power(first.d1, k.secretKey), Power(Power(g, k.u), k.secretKey), Power(key1, k.u), p);
    PowersFollow(g, s, s', key1, x, x', k.u, first.d1, Power(first.d1, k.secretKey), p);
    CongRefl(Power(second.d1, k.consumerKey), p);
    PowersFollow(g, r, r', second.d1, x, x', k.consumerKey, key2, Power(second.d1, k.consumerKey), p);
  }

  lemma UnitMasks(d: int, s: nat, a: int, n: nat, k: int, r: nat, b: int, m: nat, p: nat)
    requires IsPrime(p) && d % p != 0 && a % p != 0 && k % p != 0 && b % p != 0
    ensures (Power(d, s) * Power(a, n) * (Power(k, r) * Power(b, m))) % p != 0
  {
    PowerNonzero(d, s, p);
    PowerNonzero(a, n, p);
    PowerNonzero(k, r, p);
    PowerNonzero(b, m, p);
    ProductNonzero(Power(d, s), Power(a, n), p);
    ProductNonzero(Power(k, r), Power(b, m), p);
    ProductNonzero(Power(d, s) * Power(a, n), Power(k, r) * Power(b, m), p);
  }

  /** The masks cancel from the third check of two answers. */
  lemma MasksCancel(
    c2: int, m2: int, b: int, d: int, c1: int, m1: int, a: int, k: int,
    x: nat, s: nat, r: nat, x': nat, s': nat, r': nat, p: nat)
    requires IsPrime(p) && d % p != 0 && a % p != 0 && k % p != 0 && b % p != 0
    requires Cong(c2, m2 * b, p) && Cong(c1, m1 * a, p)
    requires SamePower(d, s, s', a, x, x', p) && SamePower(k, r, r', b, x, x', p)
    requires Cong(Power(c2, x) * Power(d, s) * (Power(c1, x') * Power(k, r')),
                  Power(c2, x') * Power(d, s') * (Power(c1, x) * Power(k, r)), p)
    ensures SamePower(m2, x, x', m1, x, x', p)
  {
    var e, f := Power(d, s) * Power(a, x'), Power(k, r') * Power(b, x);
    var e', f' := Power(d, s') * Power(a, x), Power(k, r) * Power(b, x');
    CarriedSide(c2, m2, b, x, d, s, c1, m1, a, x', k, r', p);
    CarriedSide(c2, m2, b, x', d, s', c1, m1, a, x, k, r, p);
    var l := Power(c2, x) * Power(d, s) * (Power(c1, x') * Power(k, r'));
    var l' := Power(c2, x') * Power(d, s') * (Power(c1, x) * Power(k, r));
    var m, m' := Power(m2, x) * Power(m1, x'), Power(m2, x') * Power(m1, x);
    SameMasks(l', m', e, e', f, f', p);
    UnitMasks(d, s, a, x', k, r', b, x, p);
    CommonFactor(l, l', e * f, m, m', p);
  }

  lemma SameMasks(l: int, m: int, e: int, e': int, f: int, f': int, p: nat)
    requires p > 1 && Cong(l, m * (e' * f'), p) && Cong(e, e', p) && Cong(f', f, p)
    ensures Cong(l, m * (e * f), p)
  {
    CongSym(e, e', p);
    CongMul(e', e, f', f, p);
    CongScale(e' * f', e * f, m, p);
    CongTrans(l, m * (e' * f'), m * (e * f), p);
  }

  /** Two accepted answers on the same commitments show that both ciphertexts carry one message, as far as
      the difference of the challenges can tell: `m2^(x - x') == m1^(x - x')`, written without differences. */
  lemma MessagesAgree(
    gr: Group, k: Parties, hash: Hash, hash': Hash, a: Proof, b: Proof,
    first: Ciphertext, second: Ciphertext, key1: nat, key2: nat, m1: nat, m2: nat)
    requires Keyed(gr, k, first, second, key1, key2) && first.c1 % gr.p != 0 && SameCommitments(a, b)
    requires Verifies(gr, hash, a, first, second, key1, key2) && Verifies(gr, hash', b, first, second, key1, key2)
    requires Holds(gr, first, m1, k.secretKey) && Holds(gr, second, m2, k.consumerKey)
    ensures var x := Challenge(hash, a, first, second, key1, key2);
      var x' := Challenge(hash', b, first, second, key1, key2);
      SamePower(m2, x, x', m1, x, x', gr.p)
  {
    var p := gr.p;
    var x := Challenge(hash, a, first, second, key1, key2);
    var x' := Challenge(hash', b, first, second, key1, key2);
    ExpNonzero(gr.g, k.consumerKey, p);
    VerifiesIff(gr, hash, a, first, second, key1, key2);
    VerifiesIff(gr, hash', b, first, second, key1, key2);
    TwoAnswersOpenKeys(gr, hash, hash', a, b, first, second, key1, key2);
    MasksFollow(gr, k, first, second, key1, key2, a.s, b.s, a.r, b.r, x, x');
    TwoAnswersCarry(x, a.s, a.r, x', b.s, b.r, a.g3, first, second, key2, p);
    PowerNonzero(first.d1, k.secretKey, p);
    PowerNonzero(second.d1, k.consumerKey, p);
    MasksCancel(
      second.c1, m2, Power(second.d1, k.consumerKey), first.d1, first.c1, m1, Power(first.d1, k.secretKey), key2,
      x, a.s, a.r, x', b.s, b.r, p);
  }

  lemma HeldIsUnit(gr: Group, c: Ciphertext, m: nat, secretKey: nat)
    requires IsPrime(gr.p) && Holds(gr, c, m, secretKey) && c.c1 % gr.p != 0
    ensures m % gr.p != 0
  {
    var p := gr.p;
    if m % p == 0 {
      CongIsMod(m, 0, p);
      CongScale(m, 0, Power(c.d1, secretKey), p);
      CongTrans(c.c1, m * Power(c.d1, secretKey), 0, p);
      CongIsMod(c.c1, 0, p);
    }
  }

  /** A number prime to `q` has an inverse modulo `q`, and both can be taken positive. */
  lemma ExponentInverse(n: nat, q: nat) returns (e: nat, j: nat)
    requires n >= 1 && q >= 1 && Bezout(n, q).0 == 1
    ensures n * e == 1 + j * q
  {
    var (g, x, y) := Bezout(n, q);
    BezoutIdentity(n, q);
    var c := (if x < 0 then -x else x) + if y < 0 then -y else y;
    MulAtLeast(c, q);
    MulAtLeast(c, n);
    ShiftedIdentity(n, q, x, y, c);
    e, j := x + c * q, c * n - y;
  }

  lemma MulAtLeast(c: nat, q: nat)
    requires q >= 1
    ensures c * q >= c
  {
    assert c * q == c + c * (q - 1);
  }

  lemma ShiftedIdentity(n: int, q: int, x: int, y: int, c: int)
    requires n * x + q * y == 1
    ensures n * (x + c * q) == 1 + (c * n - y) * q
  {
    assert n * (x + c * q) == n * x + n * (c * q);
    assert (c * n - y) * q == c * n * q - y * q;
    assert n * (c * q) == c * n * q;
    Swapped(q, y);
  }

  lemma RootIsUnique(m: nat, n: nat, e: nat, j: nat, p: nat)
    requires IsPrime(p) && m % p != 0 && n * e == 1 + j * (p - 1)
    ensures Cong(Power(Power(m, n), e), m, p)
  {
    PowerMul(m, n, e);
    FermatsTheorem(m, p);
    OnePlusPeriods(m, p - 1, j, p);
  }

  lemma OnePlusPeriods(m: nat, q: nat, j: nat, p: nat)
    requires p > 1 && Cong(Power(m, q), 1, p)
    ensures Cong(Power(m, 1 + j * q), m, p)
  {
    Swapped(j, q);
    PowerMul(m, q, j);
    PowerCong(Power(m, q), 1, j, p);
    PowerOfOne(j);
    CongScale(Power(m, j * q), 1, m, p);
    assert Power(m, 1 + j * q) == m * Power(m, j * q);
  }

  lemma {:induction false} PowerOfOne(j: nat)
    ensures Power(1, j) == 1
  {
    if j > 0 {
      PowerOfOne(j - 1);
    }
  }

  lemma EqualPowersEqual(m1: nat, m2: nat, n: nat, p: nat)
    requires IsPrime(p) && m1 % p != 0 && m2 % p != 0 && n >= 1 && Bezout(n, p - 1).0 == 1
    requires Cong(Power(m2, n), Power(m1, n), p)
    ensures m1 % p == m2 % p
  {
    var e, j := ExponentInverse(n, p - 1);
    RootIsUnique(m1, n, e, j, p);
    RootIsUnique(m2, n, e, j, p);
    PowerCong(Power(m2, n), Power(m1, n), e, p);
    CongBoth(Power(Power(m2, n), e), m2, Power(Power(m1, n), e), m1, p);
    CongIsMod(m2, m1, p);
  }

  /** When the difference of the challenges is prime to `p - 1`, the consumer reads from the delivered
      ciphertext exactly what the seeder read from his. */
  lemma SameMessageIsDelivered(
    gr: Group, k: Parties, hash: Hash, hash': Hash, a: Proof, b: Proof,
    first: Ciphertext, second: Ciphertext, key1: nat, key2: nat)
    requires Keyed(gr, k, first, second, key1, key2) && first.c1 % gr.p != 0 && second.c1 % gr.p != 0
    requires SameCommitments(a, b)
    requires Verifies(gr, hash, a, first, second, key1, key2) && Verifies(gr, hash', b, first, second, key1, key2)
    requires var x, x' := Challenge(hash, a, first, second, key1, key2), Challenge(hash', b, first, second, key1, key2);
      x > x' && Bezout(x - x', gr.p - 1).0 == 1
    ensures Decrypt(gr, first, k.secretKey) == Decrypt(gr, second, k.consumerKey)
  {
    var p := gr.p;
    var x, x' := Challenge(hash, a, first, second, key1, key2), Challenge(hash', b, first, second, key1, key2);
    var m1, m2 := Decrypt(gr, first, k.secretKey), Decrypt(gr, second, k.consumerKey);
    ExpNonzero(gr.g, k.u, p);
    ExpNonzero(gr.g, k.t, p);
    DecryptedIsHeld(gr, first, k.secretKey);
    DecryptedIsHeld(gr, second, k.consumerKey);
    MessagesAgree(gr, k, hash, hash', a, b, first, second, key1, key2, m1, m2);
    HeldIsUnit(gr, first, m1, k.secretKey);
    HeldIsUnit(gr, second, m2, k.consumerKey);
    PowerOfDifference(m2, x, x', m1, x, x', p);
    EqualPowersEqual(m1, m2, x - x', p);
    ResidueIsSmall(m1, p);
    ResidueIsSmall(m2, p);
  }

  /** A ciphertext holds what decrypting it gives. */
  lemma DecryptedIsHeld(gr: Group, c: Ciphertext, secretKey: nat)
    requires IsPrime(gr.p) && c.d1 % gr.p != 0
    ensures Holds(gr, c, Decrypt(gr, c, secretKey), secretKey)
  {
    var p, d := gr.p, Exponentiate(c.d1, secretKey, gr.p);
    var m, v := Decrypt(gr, c, secretKey), Invert(d, p);
    ExpNonzero(c.d1, secretKey, p);
    InvertWorks(d, p);
    ExponentiateCong(c.d1, secretKey, p);
    CongMod(c.c1 * v, p);
    CongMul(m, c.c1 * v, d, d, p) by { CongRefl(d, p); }
    CancelOne(d, v, c.c1, p);
    RotateFactors(d, c.c1, v);
    CongTrans(m * d, c.c1 * v * d, c.c1, p);
    CongScale(d, Power(c.d1, secretKey), m, p);
    CongSym(m * d, c.c1, p);
    CongTrans(c.c1, m * d, m * Power(c.d1, secretKey), p);
  }
}
