/** ElGamal re-encryption of a key share and the proof that it was re-encrypted honestly. */
module DeliveryProof {
  import opened ModularArithmetic
  import opened Division

  datatype Ciphertext = Ciphertext(c1: nat, d1: nat)

  datatype Proof = Proof(g1: nat, g2: nat, g3: nat, s: nat, r: nat)

  /** The group: a prime modulus and a generator that is not a multiple of it. */
  datatype Group = Group(p: nat, g: nat)

  ghost predicate ValidGroup(gr: Group) {
    IsPrime(gr.p) && gr.g % gr.p != 0
  }

  /** `hash_elements`, any function of the nine elements it digests. */
  type Hash = (Ciphertext, Ciphertext, nat, nat, nat, nat, nat) -> nat

  function PublicKey(gr: Group, secretKey: nat): nat
    requires gr.p > 1
  {
    Exponentiate(gr.g, secretKey, gr.p)
  }

  function Encrypt(gr: Group, m: nat, key: nat, randomizer: nat): Ciphertext
    requires gr.p > 1
  {
    Ciphertext(Multiply(m, Exponentiate(key, randomizer, gr.p), gr.p), Exponentiate(gr.g, randomizer, gr.p))
  }

  function Decrypt(gr: Group, c: Ciphertext, secretKey: nat): nat
    requires gr.p > 1
  {
    Multiply(c.c1, Invert(Exponentiate(c.d1, secretKey, gr.p), gr.p), gr.p)
  }

  /** `encrypt_with_proof` with its three random draws as arguments. */
  function EncryptWithProof(
    gr: Group, hash: Hash, m: nat, secretKey: nat, destination: nat, incoming: Ciphertext,
    randomizer: nat, b1: nat, b2: nat): (Ciphertext, Proof)
    requires gr.p > 1
  {
    var p := gr.p;
    var outgoing := Encrypt(gr, m, destination, randomizer);
    var g1 := Exponentiate(gr.g, b1, p);
    var g2 := Exponentiate(gr.g, b2, p);
    var g3 := Multiply(Exponentiate(incoming.d1, b1, p), Invert(Exponentiate(destination, b2, p), p), p);
    var x := hash(incoming, outgoing, PublicKey(gr, secretKey), destination, g1, g2, g3);
    (outgoing, Proof(g1, g2, g3, secretKey * x + b1, randomizer * x + b2))
  }

  /** The three checks of `verify_delivery_proof`. */
  predicate Verifies(gr: Group, hash: Hash, proof: Proof, first: Ciphertext, second: Ciphertext, key1: nat, key2: nat)
    requires gr.p > 1
  {
    var p := gr.p;
    var x := hash(first, second, key1, key2, proof.g1, proof.g2, proof.g3);
    && Exponentiate(gr.g, proof.s, p) == Multiply(Exponentiate(key1, x, p), proof.g1, p)
    && Exponentiate(gr.g, proof.r, p) == Multiply(Exponentiate(second.d1, x, p), proof.g2, p)
    && ThirdCheck(p, x, proof, first, second, key2) == proof.g3
  }

  function ThirdCheck(p: nat, x: nat, proof: Proof, first: Ciphertext, second: Ciphertext, key2: nat): nat
    requires p > 1
  {
    var c2v := Exponentiate(second.c1, x, p);
    var c1v := Invert(Exponentiate(first.c1, x, p), p);
    var d1v := Exponentiate(first.d1, proof.s, p);
    var r2v := Exponentiate(key2, proof.r, p);
    Multiply(Multiply(Multiply(c2v, c1v, p), d1v, p), Invert(r2v, p), p)
  }

  // ---------------------------------------------------------------- powers

  lemma {:induction false} PowerAdd(x: int, a: nat, b: nat)
    ensures Power(x, a + b) == Power(x, a) * Power(x, b)
    decreases a
  {
    if a > 0 {
      PowerAdd(x, a - 1, b);
      assert x * (Power(x, a - 1) * Power(x, b)) == x * Power(x, a - 1) * Power(x, b);
    }
  }

  lemma {:induction false} PowerMul(x: int, a: nat, b: nat)
    ensures Power(x, a * b) == Power(Power(x, a), b)
    decreases b
  {
    if b == 0 {
      assert a * b == 0;
    } else {
      PowerMul(x, a, b - 1);
      assert a * b == a + a * (b - 1);
      PowerAdd(x, a, a * (b - 1));
    }
  }

  lemma {:induction false} PowerProduct(x: int, y: int, e: nat)
    ensures Power(x * y, e) == Power(x, e) * Power(y, e)
    decreases e
  {
    if e > 0 {
      PowerProduct(x, y, e - 1);
      Interleave(x, y, Power(x, e - 1), Power(y, e - 1));
    }
  }

  lemma Interleave(x: int, y: int, a: int, b: int)
    ensures (x * y) * (a * b) == (x * a) * (y * b)
  {
    assert (x * y) * (a * b) == x * (y * (a * b));
    assert y * (a * b) == a * (y * b);
  }

  lemma {:induction false} PowerCong(a: int, b: int, e: nat, p: nat)
    requires p > 0 && Cong(a, b, p)
    ensures Cong(Power(a, e), Power(b, e), p)
    decreases e
  {
    if e == 0 {
      CongRefl(1, p);
    } else {
      PowerCong(a, b, e - 1, p);
      CongMul(a, b, Power(a, e - 1), Power(b, e - 1), p);
    }
  }

  /** `Exponentiate` on any representative of the base. */
  lemma ExpCong(a: nat, b: int, e: nat, p: nat)
    requires p > 1 && Cong(a, b, p)
    ensures Cong(Exponentiate(a, e, p), Power(b, e), p)
  {
    ExponentiateCong(a, e, p);
    PowerCong(a, b, e, p);
    CongTrans(Exponentiate(a, e, p), Power(a, e), Power(b, e), p);
  }

  lemma {:induction false} ExpNonzero(a: nat, e: nat, p: nat)
    requires IsPrime(p) && a % p != 0
    ensures Exponentiate(a, e, p) % p != 0
    decreases e
  {
    if e == 0 {
      assert 1 % p == 1;
    } else {
      ExpNonzero(a, e - 1, p);
      MultiplyNonzero(a, Exponentiate(a, e - 1, p), p);
    }
  }

  lemma MultiplyNonzero(a: nat, b: nat, p: nat)
    requires IsPrime(p) && a % p != 0 && b % p != 0
    ensures Multiply(a, b, p) % p != 0
  {
    NonzeroProduct(a, b, p);
    ResidueIsSmall(Multiply(a, b, p), p);
  }

  lemma ResidueIsSmall(a: nat, p: nat)
    requires a < p
    ensures a % p == a
  {
  }

  lemma EqualByCong(a: nat, b: nat, t: int, p: nat)
    requires p > 0 && a < p && b < p && Cong(a, t, p) && Cong(b, t, p)
    ensures a == b
  {
    CongSym(b, t, p);
    CongTrans(a, t, b, p);
    CongResidues(a, b, p);
  }

  // ---------------------------------------------------------------- decryption

  /** Decrypting gives the message back up to the modulus. */
  lemma DecryptsToResidue(gr: Group, m: nat, secretKey: nat, randomizer: nat)
    requires ValidGroup(gr)
    ensures Decrypt(gr, Encrypt(gr, m, PublicKey(gr, secretKey), randomizer), secretKey) == m % gr.p
  {
    var p, key := gr.p, PublicKey(gr, secretKey);
    var c := Encrypt(gr, m, key, randomizer);
    var sh := Exponentiate(c.d1, secretKey, p);
    var inv := Invert(sh, p);
    SharedSecret(gr, secretKey, randomizer);
    ExpNonzero(gr.g, randomizer, p);
    ExpNonzero(c.d1, secretKey, p);
    InvertWorks(sh, p);
    CongRefl(m, p);
    CongRefl(sh, p);
    MultiplyCong(m, sh, m, sh, p);
    CongRefl(inv, p);
    MultiplyCong(c.c1, inv, m * sh, inv, p);
    assert m * sh * inv == sh * m * inv;
    CancelOne(sh, inv, m, p);
    CongTrans(Decrypt(gr, c, secretKey), m * sh * inv, m, p);
    ResidueOf(Decrypt(gr, c, secretKey), m, p);
  }

  /** Both sides compute the same shared secret. */
  lemma SharedSecret(gr: Group, a: nat, b: nat)
    requires gr.p > 1
    ensures Exponentiate(PublicKey(gr, a), b, gr.p) == Exponentiate(PublicKey(gr, b), a, gr.p)
  {
    var p := gr.p;
    CongRefl(gr.g, p);
    ExpCong(gr.g, gr.g, a, p);
    ExpCong(gr.g, gr.g, b, p);
    ExpCong(PublicKey(gr, a), Power(gr.g, a), b, p);
    ExpCong(PublicKey(gr, b), Power(gr.g, b), a, p);
    PowerMul(gr.g, a, b);
    PowerMul(gr.g, b, a);
    assert a * b == b * a;
    EqualByCong(Exponentiate(PublicKey(gr, a), b, p), Exponentiate(PublicKey(gr, b), a, p), Power(gr.g, a * b), p);
  }

  /** The message survives encryption and decryption exactly when it is below the modulus. */
  lemma DecryptionRoundTrip(gr: Group, m: nat, secretKey: nat, randomizer: nat)
    requires ValidGroup(gr)
    ensures Decrypt(gr, Encrypt(gr, m, PublicKey(gr, secretKey), randomizer), secretKey) == m <==> m < gr.p
  {
    DecryptsToResidue(gr, m, secretKey, randomizer);
    SmallIffResidue(m, gr.p);
  }

  lemma SmallIffResidue(m: nat, p: nat)
    requires p > 0
    ensures m % p == m <==> m < p
  {
  }

  // ---------------------------------------------------------------- the honest proof

  /** `g^(a x + b) == (g^a)^x g^b`: why the first two checks hold whatever was drawn. */
  lemma LinearExponent(g: nat, a: nat, x: nat, b: nat, p: nat)
    requires p > 1
    ensures Exponentiate(g, a * x + b, p)
      == Multiply(Exponentiate(Exponentiate(g, a, p), x, p), Exponentiate(g, b, p), p)
  {
    CongRefl(g, p);
    ExpCong(g, g, a * x + b, p);
    ExpCong(g, g, a, p);
    ExpCong(g, g, b, p);
    ExpCong(Exponentiate(g, a, p), Power(g, a), x, p);
    PowerAdd(g, a * x, b);
    PowerMul(g, a, x);
    MultiplyCong(
      Exponentiate(Exponentiate(g, a, p), x, p), Exponentiate(g, b, p), Power(Power(g, a), x), Power(g, b), p);
    EqualByCong(Exponentiate(g, a * x + b, p),
                Multiply(Exponentiate(Exponentiate(g, a, p), x, p), Exponentiate(g, b, p), p), Power(g, a * x + b), p);
  }

  /** The incoming ciphertext holds `m` for the owner of `secretKey`. */
  ghost predicate Holds(gr: Group, c: Ciphertext, m: nat, secretKey: nat)
    requires gr.p > 1
  {
    c.d1 % gr.p != 0 && Cong(c.c1, m * Power(c.d1, secretKey), gr.p)
  }

  lemma EncryptedHolds(gr: Group, m: nat, secretKey: nat, randomizer: nat)
    requires ValidGroup(gr)
    ensures Holds(gr, Encrypt(gr, m, PublicKey(gr, secretKey), randomizer), m, secretKey)
  {
    var p := gr.p;
    var c := Encrypt(gr, m, PublicKey(gr, secretKey), randomizer);
    ExpNonzero(gr.g, randomizer, p);
    SharedSecret(gr, secretKey, randomizer);
    ExponentiateCong(c.d1, secretKey, p);
    CongRefl(m, p);
    MultiplyCong(m, Exponentiate(c.d1, secretKey, p), m, Power(c.d1, secretKey), p);
  }

  /** The part of the third equation that remains after cancelling: with `k = key2` and `d = D1`,
      `(m k^t)^x d^(a x + b1) k^b2 == d^b1 (m d^a)^x k^(t x + b2)`. */
  lemma ThirdEquation(m: int, k: int, d: int, a: nat, t: nat, x: nat, b1: nat, b2: nat)
    ensures Power(m * Power(k, t), x) * Power(d, a * x + b1) * Power(k, b2)
         == Power(d, b1) * Power(m * Power(d, a), x) * Power(k, t * x + b2)
  {
    PowerProduct(m, Power(k, t), x);
    PowerProduct(m, Power(d, a), x);
    PowerMul(k, t, x);
    PowerMul(d, a, x);
    PowerAdd(d, a * x, b1);
    PowerAdd(k, t * x, b2);
    SixFactors(Power(m, x), Power(k, t * x), Power(d, a * x), Power(d, b1), Power(k, b2));
  }

  lemma SixFactors(mx: int, kt: int, da: int, db: int, kb: int)
    ensures (mx * kt) * (da * db) * kb == db * (mx * da) * (kt * kb)
  {
    Interleave(mx, kt, da, db);
    assert (mx * da) * (kt * db) * kb == (mx * da) * ((kt * db) * kb);
    assert (kt * db) * kb == db * (kt * kb);
    assert (mx * da) * (db * (kt * kb)) == db * (mx * da) * (kt * kb);
  }

  /** Dividing both sides of `u v w == f a b` by `a`, `b` and `w`. */
  lemma DivideThrough(u: int, v: int, w: int, f: int, a: int, b: int, ai: int, bi: int, wi: int, p: nat)
    requires p > 0 && Cong(u * v * w, f * a * b, p)
    requires Cong(a * ai, 1, p) && Cong(b * bi, 1, p) && Cong(w * wi, 1, p)
    ensures Cong(u * ai * v * bi, f * wi, p)
  {
    CongRefl(ai * bi * wi, p);
    CongMul(u * v * w, f * a * b, ai * bi * wi, ai * bi * wi, p);
    CongMul(a * ai, 1, b * bi, 1, p);
    CongRefl(f * wi, p);
    CongMul(f * wi, f * wi, (a * ai) * (b * bi), 1, p);
    CongRefl(u * ai * v * bi, p);
    CongMul(u * ai * v * bi, u * ai * v * bi, w * wi, 1, p);
    RegroupLeft(u, v, w, ai, bi, wi);
    RegroupRight(f, a, b, ai, bi, wi);
    CongSym(u * ai * v * bi * (w * wi), u * ai * v * bi, p);
    CongTrans(u * ai * v * bi, u * ai * v * bi * (w * wi), f * a * b * (ai * bi * wi), p);
    CongTrans(u * ai * v * bi, f * a * b * (ai * bi * wi), f * wi, p);
  }

  lemma RegroupLeft(u: int, v: int, w: int, ai: int, bi: int, wi: int)
    ensures u * v * w * (ai * bi * wi) == u * ai * v * bi * (w * wi)
  {
    Interleave(u * v, w, ai * bi, wi);
    Interleave(u, v, ai, bi);
    assert u * ai * (v * bi) == u * ai * v * bi;
  }

  lemma RegroupRight(f: int, a: int, b: int, ai: int, bi: int, wi: int)
    ensures f * a * b * (ai * bi * wi) == f * wi * ((a * ai) * (b * bi))
  {
    Interleave(a, b, ai, bi);
    assert f * a * b == f * (a * b);
    Interleave(f, a * b, wi, ai * bi);
    assert ai * bi * wi == wi * (ai * bi);
  }

  /** What an honest run of `encrypt_with_proof` was given. */
  datatype Run = Run(m: nat, secretKey: nat, destination: nat, incoming: Ciphertext, randomizer: nat, b1: nat, b2: nat)

  /** The commitment G3 of an honest proof. */
  function Commitment(gr: Group, run: Run): nat
    requires gr.p > 1
  {
    var p := gr.p;
    Multiply(Exponentiate(run.incoming.d1, run.b1, p), Invert(Exponentiate(run.destination, run.b2, p), p), p)
  }

  ghost predicate Honest(gr: Group, run: Run) {
    ValidGroup(gr) && run.destination % gr.p != 0 && Holds(gr, run.incoming, run.m, run.secretKey)
  }

  /** The third value computed by the verifier is the commitment G3, when the message is a unit or
      the challenge is zero. */
  lemma ThirdCheckHolds(gr: Group, run: Run, x: nat, proof: Proof)
    requires Honest(gr, run) && (run.m % gr.p != 0 || x == 0)
    requires proof.s == run.secretKey * x + run.b1 && proof.r == run.randomizer * x + run.b2
    ensures var out := Encrypt(gr, run.m, run.destination, run.randomizer);
      ThirdCheck(gr.p, x, proof, run.incoming, out, run.destination) == Commitment(gr, run)
  {
    var p, k, d := gr.p, run.destination, run.incoming.d1;
    var out := Encrypt(gr, run.m, k, run.randomizer);
    var first := Exponentiate(run.incoming.c1, x, p);
    var r2v, kb := Exponentiate(k, proof.r, p), Exponentiate(k, run.b2, p);
    IncomingUnit(gr, run, x);
    ExpNonzero(k, proof.r, p);
    ExpNonzero(k, run.b2, p);
    InvertWorks(first, p);
    InvertWorks(r2v, p);
    InvertWorks(kb, p);
    var c2v, d1v, db := Exponentiate(out.c1, x, p), Exponentiate(d, proof.s, p), Exponentiate(d, run.b1, p);
    CrossProducts(gr, run, x, proof);
    DivideThrough(c2v, d1v, kb, db, first, r2v, Invert(first, p), Invert(r2v, p), Invert(kb, p), p);
    FourFactors(c2v, Invert(first, p), d1v, Invert(r2v, p), p);
    CongMod(db * Invert(kb, p), p);
    CongSym(Multiply(db, Invert(kb, p), p), db * Invert(kb, p), p);
    CongTrans(
      ThirdCheck(p, x, proof, run.incoming, out, k), c2v * Invert(first, p) * d1v * Invert(r2v, p), db * Invert(kb, p),
      p);
    CongSym(db * Invert(kb, p), Multiply(db, Invert(kb, p), p), p);
    EqualByCong(ThirdCheck(p, x, proof, run.incoming, out, k), Multiply(db, Invert(kb, p), p), db * Invert(kb, p), p);
  }

  lemma FourFactors(a: nat, b: nat, c: nat, d: nat, p: nat)
    requires p > 1
    ensures Cong(Multiply(Multiply(Multiply(a, b, p), c, p), d, p), a * b * c * d, p)
  {
    CongRefl(a, p);
    CongRefl(b, p);
    CongRefl(c, p);
    CongRefl(d, p);
    MultiplyCong(a, b, a, b, p);
    MultiplyCong(Multiply(a, b, p), c, a * b, c, p);
    MultiplyCong(Multiply(Multiply(a, b, p), c, p), d, a * b * c, d, p);
  }

  lemma IncomingUnit(gr: Group, run: Run, x: nat)
    requires Honest(gr, run) && (run.m % gr.p != 0 || x == 0)
    ensures Exponentiate(run.incoming.c1, x, gr.p) % gr.p != 0
  {
    var p := gr.p;
    if x == 0 {
      ResidueIsSmall(1, p);
    } else {
      IncomingResidue(gr, run);
      ExpNonzero(run.incoming.d1, run.secretKey, p);
      MultiplyNonzero(run.m, Exponentiate(run.incoming.d1, run.secretKey, p), p);
      ExpNonzero(run.incoming.c1, x, p);
    }
  }

  lemma IncomingResidue(gr: Group, run: Run)
    requires Honest(gr, run)
    ensures run.incoming.c1 % gr.p == Multiply(run.m, Exponentiate(run.incoming.d1, run.secretKey, gr.p), gr.p) % gr.p
  {
    var p := gr.p;
    ExponentiateCong(run.incoming.d1, run.secretKey, p);
    CongRefl(run.m, p);
    var t := Multiply(run.m, Exponentiate(run.incoming.d1, run.secretKey, p), p);
    MultiplyCong(
      run.m, Exponentiate(run.incoming.d1, run.secretKey, p), run.m, Power(run.incoming.d1, run.secretKey), p);
    CongSym(t, run.m * Power(run.incoming.d1, run.secretKey), p);
    CongTrans(run.incoming.c1, run.m * Power(run.incoming.d1, run.secretKey), t, p);
    CongIsMod(run.incoming.c1, t, p);
  }

  /** The third equation with no division, on the computed residues. */
  lemma CrossProducts(gr: Group, run: Run, x: nat, proof: Proof)
    requires Honest(gr, run)
    requires proof.s == run.secretKey * x + run.b1 && proof.r == run.randomizer * x + run.b2
    ensures var p, k, d := gr.p, run.destination, run.incoming.d1;
            var c1 := Encrypt(gr, run.m, k, run.randomizer).c1;
            Cong(Exponentiate(c1, x, p) * Exponentiate(d, proof.s, p) * Exponentiate(k, run.b2, p),
                 Exponentiate(d, run.b1, p) * Exponentiate(run.incoming.c1, x, p) * Exponentiate(k, proof.r, p), p)
  {
    var p, k, d, m := gr.p, run.destination, run.incoming.d1, run.m;
    var out := Encrypt(gr, m, k, run.randomizer);
    ExponentiateCong(k, run.randomizer, p);
    CongRefl(m, p);
    MultiplyCong(m, Exponentiate(k, run.randomizer, p), m, Power(k, run.randomizer), p);
    ExpCong(out.c1, m * Power(k, run.randomizer), x, p);
    ExpCong(run.incoming.c1, m * Power(d, run.secretKey), x, p);
    ExponentiateCong(d, proof.s, p);
    ExponentiateCong(d, run.b1, p);
    ExponentiateCong(k, run.b2, p);
    ExponentiateCong(k, proof.r, p);
    var l := Power(m * Power(k, run.randomizer), x) * Power(d, proof.s) * Power(k, run.b2);
    ThreeProducts(Exponentiate(out.c1, x, p), Power(m * Power(k, run.randomizer), x),
                  Exponentiate(d, proof.s, p), Power(d, proof.s), Exponentiate(k, run.b2, p), Power(k, run.b2), p);
    ThreeProducts(Exponentiate(d, run.b1, p), Power(d, run.b1),
                  Exponentiate(run.incoming.c1, x, p), Power(m * Power(d, run.secretKey), x),
                  Exponentiate(k, proof.r, p), Power(k, proof.r), p);
    ThirdEquation(m, k, d, run.secretKey, run.randomizer, x, run.b1, run.b2);
    CongSym(Exponentiate(d, run.b1, p) * Exponentiate(run.incoming.c1, x, p) * Exponentiate(k, proof.r, p), l, p);
    CongTrans(Exponentiate(out.c1, x, p) * Exponentiate(d, proof.s, p) * Exponentiate(k, run.b2, p), l,
              Exponentiate(d, run.b1, p) * Exponentiate(run.incoming.c1, x, p) * Exponentiate(k, proof.r, p), p);
  }

  lemma ThreeProducts(a: int, a': int, b: int, b': int, c: int, c': int, p: nat)
    requires p > 0 && Cong(a, a', p) && Cong(b, b', p) && Cong(c, c', p)
    ensures Cong(a * b * c, a' * b' * c', p)
  {
    CongMul(a, a', b, b', p);
    CongMul(a * b, a' * b', c, c', p);
  }

  /** A message that is zero in the field cannot be proved delivered: the inverse the verifier
      takes does not exist and comes out as zero, while G3 is not zero. */
  lemma ZeroMessageFails(gr: Group, run: Run, x: nat, proof: Proof)
    requires Honest(gr, run) && run.m % gr.p == 0 && x > 0
    ensures var out := Encrypt(gr, run.m, run.destination, run.randomizer);
      ThirdCheck(gr.p, x, proof, run.incoming, out, run.destination) != Commitment(gr, run)
  {
    VerifierSeesZero(gr, run, x, proof);
    CommitmentNonzero(gr, run);
  }

  lemma QuotientNonzero(a: nat, k: nat, p: nat)
    requires IsPrime(p) && a % p != 0 && k % p != 0
    ensures Multiply(a, Invert(k, p), p) % p != 0
  {
    InvertWorks(k, p);
    InverseNonzero(k, Invert(k, p), p);
    MultiplyNonzero(a, Invert(k, p), p);
  }

  lemma InverseNonzero(k: nat, v: nat, p: nat)
    requires p > 1 && Cong(k * v, 1, p)
    ensures v % p != 0
  {
    assert k * v == v * k;
    UnitNonzero(v, k, p);
  }

  lemma CommitmentNonzero(gr: Group, run: Run)
    requires Honest(gr, run)
    ensures Commitment(gr, run) != 0
  {
    ExpNonzero(run.destination, run.b2, gr.p);
    ExpNonzero(run.incoming.d1, run.b1, gr.p);
    QuotientNonzero(Exponentiate(run.incoming.d1, run.b1, gr.p), Exponentiate(run.destination, run.b2, gr.p), gr.p);
    ZeroIsZero(Commitment(gr, run), gr.p);
  }

  lemma ZeroIsZero(x: nat, p: nat)
    requires p > 0 && x % p != 0
    ensures x != 0
  {
    ModOf(0, 0, p, 0);
  }

  lemma VerifierSeesZero(gr: Group, run: Run, x: nat, proof: Proof)
    requires Honest(gr, run) && run.m % gr.p == 0 && x > 0
    ensures var out := Encrypt(gr, run.m, run.destination, run.randomizer);
      ThirdCheck(gr.p, x, proof, run.incoming, out, run.destination) == 0
  {
    var p := gr.p;
    IncomingResidue(gr, run);
    ZeroProduct(run.m, Exponentiate(run.incoming.d1, run.secretKey, p), p);
    ResidueIsSmall(0, p);
    ZeroPower(run.incoming.c1, x, p);
    var c2v := Exponentiate(Encrypt(gr, run.m, run.destination, run.randomizer).c1, x, p);
    ZeroFactors(
      c2v, Exponentiate(run.incoming.d1, proof.s, p), Invert(Exponentiate(run.destination, proof.r, p), p), p);
  }

  lemma ZeroFactors(a: nat, c: nat, d: nat, p: nat)
    requires p > 1
    ensures Multiply(Multiply(Multiply(a, 0, p), c, p), d, p) == 0
  {
    assert a * 0 == 0;
    ResidueIsSmall(0, p);
    assert 0 * c == 0 && 0 * d == 0;
  }

  lemma ZeroProduct(m: nat, e: nat, p: nat)
    requires p > 1 && m % p == 0
    ensures Multiply(m, e, p) == 0
  {
    CongIsMod(m, 0, p);
    CongRefl(e, p);
    CongMul(m, 0, e, e, p);
    CongIsMod(m * e, 0, p);
  }

  lemma ZeroPower(c: nat, x: nat, p: nat)
    requires p > 1 && c % p == 0 && x > 0
    ensures Exponentiate(c, x, p) == 0 && Invert(0, p) == 0
  {
    ZeroProduct(c, Exponentiate(c, x - 1, p), p);
    ResidueIsSmall(0, p);
    assert Bezout(p, 0) == (p, 1, 0);
    assert Bezout(0, p).0 == p;
  }

  /** An honest delivery proof passes all three checks whatever was drawn, exactly when the message
      is not a multiple of the modulus (or the challenge happens to be zero). */
  lemma HonestProofVerifies(gr: Group, hash: Hash, run: Run)
    requires Honest(gr, run)
    ensures var (out, proof) := EncryptWithProof(
              gr, hash, run.m, run.secretKey, run.destination, run.incoming, run.randomizer, run.b1, run.b2);
            var key := PublicKey(gr, run.secretKey);
            var x := hash(run.incoming, out, key, run.destination, proof.g1, proof.g2, proof.g3);
            Verifies(gr, hash, proof, run.incoming, out, key, run.destination) <==> run.m % gr.p != 0 || x == 0
  {
    var (out, proof) := EncryptWithProof(
      gr, hash, run.m, run.secretKey, run.destination, run.incoming, run.randomizer, run.b1, run.b2);
    var x := hash(run.incoming, out, PublicKey(gr, run.secretKey), run.destination, proof.g1, proof.g2, proof.g3);
    LinearExponent(gr.g, run.secretKey, x, run.b1, gr.p);
    LinearExponent(gr.g, run.randomizer, x, run.b2, gr.p);
    if run.m % gr.p != 0 || x == 0 {
      ThirdCheckHolds(gr, run, x, proof);
    } else {
      ZeroMessageFails(gr, run, x, proof);
    }
  }

  /** The consumer, owning the destination key, decrypts what was delivered to the very message. */
  lemma DeliveredMessageIsRead(gr: Group, hash: Hash, run: Run, consumerKey: nat)
    requires Honest(gr, run) && run.destination == PublicKey(gr, consumerKey)
    ensures var (out, _) := EncryptWithProof(
              gr, hash, run.m, run.secretKey, run.destination, run.incoming, run.randomizer, run.b1, run.b2);
            Decrypt(gr, out, consumerKey) == run.m % gr.p
  {
    DecryptsToResidue(gr, run.m, consumerKey, run.randomizer);
  }

  // ---------------------------------------------------------------- delivering a key share

  /** Half of the 64-byte buffer a point is encoded into. */
  const HALF: nat := 0x1_00000000_00000000_00000000_00000000_00000000_00000000_00000000_00000000

  const EL_GAMAL_MODULUS: nat :=
    11760620558671662461946567396662025495126946227619472274601251081547302009186313201119191293557856181195016058359990840577430081932807832465057884143546419

  function EncodePoint(pt: (nat, nat)): nat {
    pt.0 % HALF * HALF + pt.1 % HALF
  }

  function DecodePoint(m: nat): (nat, nat) {
    (m / HALF, m % HALF)
  }

  predicate BelowModulus(pt: (nat, nat)) {
    pt.0 < EL_GAMAL_MODULUS / HALF || (pt.0 == EL_GAMAL_MODULUS / HALF && pt.1 < EL_GAMAL_MODULUS % HALF)
  }

  /** A share the group can carry without it being taken for zero. */
  predicate Carried(share: (nat, nat)) {
    share != (0, 0) && share.0 < HALF && share.1 < HALF && BelowModulus(share)
  }

  /** A point of two 32-byte halves decodes back, and the group carries it exactly when it is below the
      modulus, half by half. */
  lemma ShareFitsGroup(pt: (nat, nat))
    requires pt.0 < HALF && pt.1 < HALF
    ensures HALF == 0x1_00000000_00000000_00000000_00000000_00000000_00000000_00000000_00000000
    ensures DecodePoint(EncodePoint(pt)) == pt && (EncodePoint(pt) == 0 <==> pt == (0, 0))
    ensures EncodePoint(pt) < EL_GAMAL_MODULUS <==> BelowModulus(pt)
  {
    ModOf(0, pt.0, HALF, pt.0);
    ModOf(0, pt.1, HALF, pt.1);
    ModOf(pt.0, pt.1, HALF, EncodePoint(pt));
    var q := EL_GAMAL_MODULUS / HALF;
    if pt.0 < q {
      MulMonotone(pt.0 + 1, q, HALF);
    } else if pt.0 > q {
      MulMonotone(q + 1, pt.0, HALF);
    }
  }

  /** A key share sent by a seeder with an honest proof passes verification, and
      the consumer reads that very share. */
  lemma DeliveredShareIsRead(gr: Group, hash: Hash, run: Run, share: (nat, nat), consumerKey: nat)
    requires Honest(gr, run) && gr.p == EL_GAMAL_MODULUS && run.destination == PublicKey(gr, consumerKey)
    requires Carried(share) && run.m == EncodePoint(share)
    ensures var (out, proof) := EncryptWithProof(
              gr, hash, run.m, run.secretKey, run.destination, run.incoming, run.randomizer, run.b1, run.b2);
            && Verifies(gr, hash, proof, run.incoming, out, PublicKey(gr, run.secretKey), run.destination)
            && DecodePoint(Decrypt(gr, out, consumerKey)) == share
  {
    ShareFitsGroup(share);
    ResidueIsSmall(run.m, gr.p);
    HonestProofVerifies(gr, hash, run);
    DeliveredMessageIsRead(gr, hash, run, consumerKey);
  }

  /** From author to consumer: the author encrypts a share for a seeder with any randomness; the seeder
      decrypts it and delivers it with a proof; the proof verifies and the consumer reads the share. */
  lemma AuthorToConsumer(
    gr: Group, hash: Hash, share: (nat, nat), seederKey: nat, consumerKey: nat, r0: nat, r1: nat, b1: nat, b2: nat)
    requires ValidGroup(gr) && gr.p == EL_GAMAL_MODULUS && Carried(share)
    ensures var incoming := Encrypt(gr, EncodePoint(share), PublicKey(gr, seederKey), r0);
            var m := Decrypt(gr, incoming, seederKey);
            var (out, proof) := EncryptWithProof(
              gr, hash, m, seederKey, PublicKey(gr, consumerKey), incoming, r1, b1, b2);
            && m == EncodePoint(share)
            && Verifies(gr, hash, proof, incoming, out, PublicKey(gr, seederKey), PublicKey(gr, consumerKey))
            && DecodePoint(Decrypt(gr, out, consumerKey)) == share
  {
    var m := EncodePoint(share);
    var incoming := Encrypt(gr, m, PublicKey(gr, seederKey), r0);
    ShareFitsGroup(share);
    DecryptsToResidue(gr, m, seederKey, r0);
    SmallIffResidue(m, gr.p);
    EncryptedHolds(gr, m, seederKey, r0);
    ExpNonzero(gr.g, consumerKey, gr.p);
    var run := Run(m, seederKey, PublicKey(gr, consumerKey), incoming, r1, b1, b2);
    DeliveredShareIsRead(gr, hash, run, share, consumerKey);
  }
}
