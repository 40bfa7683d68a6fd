/** Proofs of custody. Elements of the pairing group of prime order `r` are written by their
    exponents modulo `r`: multiplying elements adds exponents, raising to a power multiplies, and
    the symmetric pairing of two elements multiplies their exponents. */
module CustodyProof {
  import opened ModularArithmetic
  import opened Division

  const SECTOR_BYTES: nat := 16
  const THREADS: nat := 4
  const PER_CHUNK: nat := 40000
  const TWO_32: nat := 0x1_0000_0000

  type Byte = b: nat | b < 256

  function Mul(a: nat, b: nat, r: nat): nat
    requires r > 0
  {
    (a + b) % r
  }

  function Pow(a: nat, k: nat, r: nat): nat
    requires r > 0
  {
    a * k % r
  }

  function Pairing(a: nat, b: nat, r: nat): nat
    requires r > 0
  {
    a * b % r
  }

  // ---------------------------------------------------------------- the file as numbers

  function ByteAt(file: seq<Byte>, pos: nat): Byte {
    if pos < |file| then file[pos] else 0
  }

  /** Big-endian number in the `n` bytes at `pos`, bytes past the end counting as zero. */
  function NumberAt(file: seq<Byte>, pos: nat, n: nat): nat {
    if n == 0 then 0 else 256 * NumberAt(file, pos, n - 1) + ByteAt(file, pos + n - 1)
  }

  /** Sector `j` of row `i` as the signer reads it, straight through the file. */
  function Signed(file: seq<Byte>, sectors: nat, i: nat, j: nat): nat {
    NumberAt(file, SECTOR_BYTES * (sectors * i + j), SECTOR_BYTES)
  }

  /** The file position `get_m` computes, in 32-bit unsigned arithmetic. */
  function Position32(sectors: nat, i: nat, j: nat): nat {
    SECTOR_BYTES * ((j + sectors * i) % TWO_32) % TWO_32
  }

  /** Sector `j` of row `i` as the prover and `get_m` read it. */
  function Proved(file: seq<Byte>, sectors: nat, i: nat, j: nat): nat {
    NumberAt(file, Position32(sectors, i, j), SECTOR_BYTES)
  }

  lemma SameSector(file: seq<Byte>, sectors: nat, i: nat, j: nat)
    requires SECTOR_BYTES * (sectors * i + j) < TWO_32
    ensures Proved(file, sectors, i, j) == Signed(file, sectors, i, j)
  {
    assert j + sectors * i == sectors * i + j;
  }

  /** The buffer of `n` bytes that `get_data` or `get_m` fills from position `pos`. */
  function Padded(file: seq<Byte>, pos: nat, n: nat): (b: seq<Byte>)
    ensures |b| == n && forall t :: 0 <= t < n ==> b[t] == ByteAt(file, pos + t)
  {
    seq<Byte>(n, t requires 0 <= t < n => ByteAt(file, pos + t))
  }

  lemma {:induction false} NumberOfPadded(file: seq<Byte>, pos: nat, len: nat, off: nat, n: nat)
    requires off + n <= len
    ensures NumberAt(Padded(file, pos, len), off, n) == NumberAt(file, pos + off, n)
    decreases n
  {
    if n > 0 {
      NumberOfPadded(file, pos, len, off, n - 1);
    }
  }

  function Power256(n: nat): nat {
    if n == 0 then 1 else 256 * Power256(n - 1)
  }

  /** The bytes further on are the less significant ones. */
  lemma {:induction false} NumberOfJoined(file: seq<Byte>, pos: nat, a: nat, b: nat)
    ensures NumberAt(file, pos, a + b) == NumberAt(file, pos, a) * Power256(b) + NumberAt(file, pos + a, b)
    decreases b
  {
    if b > 0 {
      NumberOfJoined(file, pos, a, b - 1);
      ShiftByte(NumberAt(file, pos, a), Power256(b - 1), NumberAt(file, pos + a, b - 1));
    }
  }

  lemma ShiftByte(x: nat, w: nat, y: nat)
    ensures 256 * (x * w + y) == x * (256 * w) + 256 * y
  {
  }

  /** One byte is its own number, and past the end there are zeros. */
  lemma NumberOfByte(file: seq<Byte>, pos: nat)
    ensures NumberAt(file, pos, 1) == if pos < |file| then file[pos] else 0
  {
    assert NumberAt(file, pos, 0) == 0;
  }

  /** `get_m`: seek, read what is left of the file, and pad with zeros. */
  method GetM(file: seq<Byte>, i: nat, j: nat, sectors: nat) returns (m: nat)
    ensures m == Proved(file, sectors, i, j)
  {
    var position := SECTOR_BYTES * ((j + sectors * i) % TWO_32) % TWO_32;
    var buffer: seq<Byte>;
    if |file| < position {
      buffer := seq(SECTOR_BYTES, _ => 0);
    } else if |file| < position + SECTOR_BYTES {
      var left := |file| - position;
      buffer := file[position..position + left] + seq(SECTOR_BYTES - left, _ => 0);
    } else {
      buffer := file[position..position + SECTOR_BYTES];
    }
    assert buffer == Padded(file, position, SECTOR_BYTES);
    NumberOfPadded(file, position, SECTOR_BYTES, 0, SECTOR_BYTES);
    m := NumberAt(buffer, 0, SECTOR_BYTES);
  }

  /** `get_data`: one chunk of the file, all zeros past its end. */
  method GetData(file: seq<Byte>, position: nat, size: nat) returns (buffer: seq<Byte>)
    ensures buffer == Padded(file, position, size)
  {
    if |file| > position + size {
      buffer := file[position..position + size];
    } else if position > |file| {
      buffer := seq(size, _ => 0);
    } else {
      var left := |file| - position;
      buffer := file[position..position + left] + seq(size - left, _ => 0);
    }
    assert buffer == Padded(file, position, size);
  }

  // ---------------------------------------------------------------- sums of exponents

  /** Sum over the first `n` sectors of `u[j] * m[j]`. */
  function RowSum(u: seq<nat>, row: seq<nat>, n: nat): nat
    requires n <= |u| && n <= |row|
  {
    if n == 0 then 0 else RowSum(u, row, n - 1) + u[n - 1] * row[n - 1]
  }

  function SignedRow(file: seq<Byte>, sectors: nat, i: nat): (s: seq<nat>)
    ensures |s| == sectors
  {
    seq(sectors, j requires 0 <= j < sectors => Signed(file, sectors, i, j))
  }

  function ProvedRow(file: seq<Byte>, sectors: nat, i: nat): (s: seq<nat>)
    ensures |s| == sectors
  {
    seq(sectors, j requires 0 <= j < sectors => Proved(file, sectors, i, j))
  }

  /** The public parameters: order, generator, one element per sector, and the hash into the group. */
  datatype Setup = Setup(r: nat, generator: nat, u: seq<nat>, hash: nat -> nat)

  ghost predicate ValidSetup(s: Setup) {
    IsPrime(s.r) && |s.u| >= 1
  }

  /** Exponent of the signature of row `i`: `(u[0]^m0 ... u[k]^mk H(i))^pk`. */
  function SigmaExponent(s: Setup, pk: nat, file: seq<Byte>, i: nat): nat {
    (RowSum(s.u, SignedRow(file, |s.u|, i), |s.u|) + s.hash(i)) * pk
  }

  lemma MulCong(a: nat, b: nat, a': int, b': int, r: nat)
    requires r > 0 && Cong(a, a', r) && Cong(b, b', r)
    ensures Cong(Mul(a, b, r), a' + b', r)
  {
    CongAdd(a, a', b, b', r);
    CongMod(a + b, r);
    CongTrans(Mul(a, b, r), a + b, a' + b', r);
  }

  lemma PowCong(a: nat, k: nat, a': int, k': int, r: nat)
    requires r > 0 && Cong(a, a', r) && Cong(k, k', r)
    ensures Cong(Pow(a, k, r), a' * k', r)
  {
    CongMul(a, a', k, k', r);
    CongMod(a * k, r);
    CongTrans(Pow(a, k, r), a * k, a' * k', r);
  }

  /** `get_sigma`: the signature of one row. */
  method GetSigma(s: Setup, idx: nat, mi: seq<nat>, pk: nat) returns (sigma: nat)
    requires s.r > 1 && |mi| == |s.u| >= 1
    ensures sigma < s.r && Cong(sigma, (RowSum(s.u, mi, |mi|) + s.hash(idx)) * pk, s.r)
  {
    var r := s.r;
    sigma := Pow(s.u[0], mi[0], r);
    CongMod(s.u[0] * mi[0], r);
    assert RowSum(s.u, mi, 1) == RowSum(s.u, mi, 0) + s.u[0] * mi[0];
    for j := 1 to |mi|
      invariant sigma < r && Cong(sigma, RowSum(s.u, mi, j), r)
    {
      CongMod(s.u[j] * mi[j], r);
      MulCong(sigma, Pow(s.u[j], mi[j], r), RowSum(s.u, mi, j), s.u[j] * mi[j], r);
      sigma := Mul(sigma, Pow(s.u[j], mi[j], r), r);
    }
    CongRefl(s.hash(idx), r);
    MulCong(sigma, s.hash(idx), RowSum(s.u, mi, |mi|), s.hash(idx), r);
    sigma := Mul(sigma, s.hash(idx), r);
    CongRefl(pk, r);
    PowCong(sigma, pk, RowSum(s.u, mi, |mi|) + s.hash(idx), pk, r);
    sigma := Pow(sigma, pk, r);
  }

  /** Number of rows of a file of a given length. */
  function RowCount(length: nat, sectors: nat): (n: nat)
    requires sectors >= 1
    ensures length <= n * (SECTOR_BYTES * sectors) && (n == 0 || (n - 1) * (SECTOR_BYTES * sectors) < length)
  {
    var w := SECTOR_BYTES * sectors;
    var n := length / w;
    RowCountBounds(length, w);
    if length % w != 0 then n + 1 else n
  }

  lemma RowCountBounds(length: nat, w: nat)
    requires w >= 1
    ensures length == length / w * w + length % w && length % w < w
    ensures (length / w + 1) * w == length / w * w + w
    ensures length / w >= 1 ==> (length / w - 1) * w == length / w * w - w
  {
  }

  /** `get_sigmas`: chunks of the file, four workers per chunk. Row `i` ends up signed from its own
      sectors, for every row, whatever the remainders of the two divisions. */
  method GetSigmas(s: Setup, file: seq<Byte>, pk: nat) returns (sigmas: array<nat>)
    requires s.r > 1 && |s.u| >= 1
    ensures sigmas.Length == RowCount(|file|, |s.u|)
    ensures SignedUpTo(s, pk, file, sigmas[..], sigmas.Length)
  {
    var sectors := |s.u|;
    var n := RowCount(|file|, sectors);
    sigmas := new nat[n];
    var i := 0;
    while i < n
      invariant i <= n
      invariant SignedUpTo(s, pk, file, sigmas[..], i)
    {
      var inChunk := if n - i < PER_CHUNK then n - i else PER_CHUNK;
      var buffer := GetData(file, i * (SECTOR_BYTES * sectors), SECTOR_BYTES * sectors * PER_CHUNK);
      SignChunk(s, file, pk, sigmas, i, inChunk, buffer);
      i := i + inChunk;
    }
  }

  /** The first `n` signatures are in place. */
  ghost predicate SignedUpTo(s: Setup, pk: nat, file: seq<Byte>, sigmas: seq<nat>, n: nat)
    requires s.r > 1 && n <= |sigmas|
  {
    forall x :: 0 <= x < n ==> sigmas[x] < s.r && Cong(sigmas[x], SigmaExponent(s, pk, file, x), s.r)
  }

  /** One chunk: worker `w` signs `signatures_per_worker` rows, the last worker the remainder too. */
  method SignChunk(s: Setup, file: seq<Byte>, pk: nat, sigmas: array<nat>, i: nat, inChunk: nat, buffer: seq<Byte>)
    requires s.r > 1 && |s.u| >= 1 && i + inChunk <= sigmas.Length && inChunk <= PER_CHUNK
    requires buffer == Padded(file, i * (SECTOR_BYTES * |s.u|), SECTOR_BYTES * |s.u| * PER_CHUNK)
    requires SignedUpTo(s, pk, file, sigmas[..], i)
    modifies sigmas
    ensures SignedUpTo(s, pk, file, sigmas[..], i + inChunk)
  {
    var perWorker := inChunk / THREADS;
    var done: nat := 0;
    AllDue(inChunk);
    for w := 0 to THREADS
      invariant done <= inChunk && StillDue(w, perWorker) <= inChunk - done
      invariant w == THREADS ==> done == inChunk
      invariant SignedUpTo(s, pk, file, sigmas[..], i + done)
    {
      var signatures: nat := if w == THREADS - 1 then inChunk - done else perWorker;
      assert StillDue(w, perWorker) == perWorker + StillDue(w + 1, perWorker);
      SignRows(s, file, pk, sigmas, i, done, signatures, buffer);
      done := done + signatures;
    }
  }

  /** What the workers from `w` on sign at least. */
  function StillDue(w: nat, perWorker: nat): nat
    decreases THREADS - w
  {
    if w >= THREADS then 0 else perWorker + StillDue(w + 1, perWorker)
  }

  lemma AllDue(inChunk: nat)
    ensures StillDue(0, inChunk / THREADS) <= inChunk
  {
    var n := inChunk / THREADS;
    assert StillDue(3, n) == n;
    assert StillDue(1, n) == n + StillDue(2, n);
  }

  /** The rows of one worker. */
  method SignRows(
    s: Setup, file: seq<Byte>, pk: nat, sigmas: array<nat>, i: nat, idx: nat, signatures: nat, buffer: seq<Byte>)
    requires s.r > 1 && |s.u| >= 1 && i + idx + signatures <= sigmas.Length && idx + signatures <= PER_CHUNK
    requires buffer == Padded(file, i * (SECTOR_BYTES * |s.u|), SECTOR_BYTES * |s.u| * PER_CHUNK)
    requires SignedUpTo(s, pk, file, sigmas[..], i + idx)
    modifies sigmas
    ensures SignedUpTo(s, pk, file, sigmas[..], i + idx + signatures)
  {
    for k := 0 to signatures
      invariant SignedUpTo(s, pk, file, sigmas[..], i + idx + k)
    {
      var row := ReadRow(file, buffer, |s.u|, i, idx + k);
      var sigma := GetSigma(s, i + idx + k, row, pk);
      ghost var before := sigmas[..];
      sigmas[i + idx + k] := sigma;
      assert sigmas[..] == before[i + idx + k := sigma];
    }
  }

  /** The sectors a worker imports for its row, `offset` bytes into the chunk. */
  method ReadRow(file: seq<Byte>, buffer: seq<Byte>, sectors: nat, i: nat, k: nat) returns (row: seq<nat>)
    requires k < PER_CHUNK
    requires buffer == Padded(file, i * (SECTOR_BYTES * sectors), SECTOR_BYTES * sectors * PER_CHUNK)
    ensures row == SignedRow(file, sectors, i + k)
  {
    row := [];
    for j := 0 to sectors
      invariant |row| == j
      invariant forall t :: 0 <= t < j ==> row[t] == Signed(file, sectors, i + k, t)
    {
      var offset := k * (SECTOR_BYTES * sectors) + SECTOR_BYTES * j;
      SectorOffset(sectors, i, k, j);
      NumberOfPadded(file, i * (SECTOR_BYTES * sectors), SECTOR_BYTES * sectors * PER_CHUNK, offset, SECTOR_BYTES);
      row := row + [NumberAt(buffer, offset, SECTOR_BYTES)];
    }
  }

  lemma SectorOffset(sectors: nat, i: nat, k: nat, j: nat)
    requires j < sectors && k < PER_CHUNK
    ensures k * (SECTOR_BYTES * sectors) + SECTOR_BYTES * j + SECTOR_BYTES <= SECTOR_BYTES * sectors * PER_CHUNK
    ensures i * (SECTOR_BYTES * sectors) + (k * (SECTOR_BYTES * sectors) + SECTOR_BYTES * j)
      == SECTOR_BYTES * (sectors * (i + k) + j)
  {
    var w := SECTOR_BYTES * sectors;
    RowOffset(w, k);
    assert i * w + k * w == (i + k) * w;
    assert (i + k) * w == SECTOR_BYTES * (sectors * (i + k));
  }

  lemma RowOffset(w: nat, k: nat)
    requires k < PER_CHUNK
    ensures k * w + w <= w * PER_CHUNK
  {
    MulMonotone(k + 1, PER_CHUNK, w);
    assert (k + 1) * w == k * w + w;
  }

  // ---------------------------------------------------------------- the proof

  /** Sum over the first `n` queries of `v[k] * m(indices[k], j)`. */
  function MuSum(file: seq<Byte>, sectors: nat, indices: seq<nat>, v: seq<nat>, j: nat, n: nat): nat
    requires n <= |indices| && n <= |v|
  {
    if n == 0 then 0
    else MuSum(file, sectors, indices, v, j, n - 1) + v[n - 1] * Proved(file, sectors, indices[n - 1], j)
  }

  /** The first `n` of the `mu` are the sums they should be. */
  ghost predicate MuUpTo(file: seq<Byte>, sectors: nat, indices: seq<nat>, v: seq<nat>, r: nat, mu: seq<nat>, n: nat)
    requires r > 1 && |v| == |indices| && n <= |mu|
  {
    forall j :: 0 <= j < n ==> mu[j] < r && Cong(mu[j], MuSum(file, sectors, indices, v, j, |v|), r)
  }

  /** `compute_mu`: one field element per sector. */
  method ComputeMu(file: seq<Byte>, sectors: nat, indices: seq<nat>, v: seq<nat>, r: nat) returns (mu: seq<nat>)
    requires r > 1 && |v| == |indices|
    ensures |mu| == sectors
    ensures MuUpTo(file, sectors, indices, v, r, mu, sectors)
  {
    mu := [];
    for j := 0 to sectors
      invariant |mu| == j
      invariant MuUpTo(file, sectors, indices, v, r, mu, j)
    {
      var sum := MuAt(file, sectors, indices, v, j, r);
      mu := mu + [sum];
    }
  }

  /** The inner loop of `compute_mu`. */
  method MuAt(file: seq<Byte>, sectors: nat, indices: seq<nat>, v: seq<nat>, j: nat, r: nat) returns (sum: nat)
    requires r > 1 && |v| == |indices|
    ensures sum < r && Cong(sum, MuSum(file, sectors, indices, v, j, |v|), r)
  {
    sum := 0;
    CongRefl(0, r);
    for i := 0 to |v|
      invariant sum < r && Cong(sum, MuSum(file, sectors, indices, v, j, i), r)
    {
      var m := GetM(file, indices[i], j, sectors);
      CongMod(v[i] * m, r);
      MulCong(sum, Pow(v[i], m, r), MuSum(file, sectors, indices, v, j, i), v[i] * m, r);
      sum := Mul(sum, Pow(v[i], m, r), r);
    }
  }

  /** Sum over the first `n` queries of `v[k]` times the exponent of the queried signature. */
  function SigmaSum(s: Setup, pk: nat, file: seq<Byte>, indices: seq<nat>, v: seq<nat>, n: nat): nat
    requires n <= |indices| && n <= |v|
  {
    if n == 0 then 0
    else SigmaSum(s, pk, file, indices, v, n - 1) + SigmaExponent(s, pk, file, indices[n - 1]) * v[n - 1]
  }

  /** `compute_sigma`: the aggregate of the queried signatures. */
  method ComputeSigma(
    s: Setup, ghost pk: nat, ghost file: seq<Byte>, sigmas: seq<nat>, indices: seq<nat>, v: seq<nat>)
    returns (sigma: nat)
    requires s.r > 1 && |v| == |indices| && forall k :: 0 <= k < |indices| ==> indices[k] < |sigmas|
    requires SignedUpTo(s, pk, file, sigmas, |sigmas|)
    ensures sigma < s.r && Cong(sigma, SigmaSum(s, pk, file, indices, v, |v|), s.r)
  {
    sigma := 0;
    CongRefl(0, s.r);
    for i := 0 to |v|
      invariant sigma < s.r && Cong(sigma, SigmaSum(s, pk, file, indices, v, i), s.r)
    {
      CongRefl(v[i], s.r);
      var e := sigmas[indices[i]];
      PowCong(e, v[i], SigmaExponent(s, pk, file, indices[i]), v[i], s.r);
      MulCong(
        sigma, Pow(e, v[i], s.r), SigmaSum(s, pk, file, indices, v, i), SigmaExponent(s, pk, file, indices[i]) * v[i],
        s.r);
      sigma := Mul(sigma, Pow(e, v[i], s.r), s.r);
    }
  }

  function HashSum(s: Setup, indices: seq<nat>, v: seq<nat>, n: nat): nat
    requires n <= |indices| && n <= |v|
  {
    if n == 0 then 0 else HashSum(s, indices, v, n - 1) + s.hash(indices[n - 1]) * v[n - 1]
  }

  /** `verify`: zero when the two pairings agree. */
  method Verify(s: Setup, sigma: nat, indices: seq<nat>, v: seq<nat>, mu: seq<nat>, pubk: nat) returns (res: nat)
    requires s.r > 1 && |v| == |indices| && |mu| == |s.u|
    ensures res == 0 <==> Cong(sigma * s.generator, (HashSum(s, indices, v, |v|) + RowSum(s.u, mu, |mu|)) * pubk, s.r)
  {
    var r := s.r;
    var res1 := Pairing(sigma, s.generator, r);
    var multi1 := 0;
    CongRefl(0, r);
    for i := 0 to |v|
      invariant Cong(multi1, HashSum(s, indices, v, i), r)
    {
      CongMod(s.hash(indices[i]) * v[i], r);
      MulCong(multi1, Pow(s.hash(indices[i]), v[i], r), HashSum(s, indices, v, i), s.hash(indices[i]) * v[i], r);
      multi1 := Mul(multi1, Pow(s.hash(indices[i]), v[i], r), r);
    }
    var multi2 := 0;
    for i := 0 to |mu|
      invariant Cong(multi2, RowSum(s.u, mu, i), r)
    {
      CongMod(s.u[i] * mu[i], r);
      MulCong(multi2, Pow(s.u[i], mu[i], r), RowSum(s.u, mu, i), s.u[i] * mu[i], r);
      multi2 := Mul(multi2, Pow(s.u[i], mu[i], r), r);
    }
    var left2 := Mul(multi1, multi2, r);
    MulCong(multi1, multi2, HashSum(s, indices, v, |v|), RowSum(s.u, mu, |mu|), r);
    CongRefl(pubk, r);
    var res2 := Pairing(left2, pubk, r);
    var total := HashSum(s, indices, v, |v|) + RowSum(s.u, mu, |mu|);
    CongMul(left2, total, pubk, pubk, r);
    CongIsMod(left2 * pubk, total * pubk, r);
    CongIsMod(sigma * s.generator, total * pubk, r);
    res := if res1 == res2 then 0 else 1;
  }

  // ---------------------------------------------------------------- exchanging the two sums

  /** Sum over the queries of `v[k]` times the difference, sector by sector, between what was
      signed and what is proved. */
  function DriftSum(s: Setup, file: seq<Byte>, indices: seq<nat>, v: seq<nat>, n: nat): int
    requires n <= |indices| && n <= |v|
  {
    if n == 0 then 0
    else
      var i := indices[n - 1];
      DriftSum(s, file, indices, v, n - 1) +
      v[n - 1] * (RowSum(s.u, SignedRow(file, |s.u|, i), |s.u|) - RowSum(s.u, ProvedRow(file, |s.u|, i), |s.u|))
  }

  /** Sum over the queries of `v[k]` times the proved row sum. */
  function ProvedSum(s: Setup, file: seq<Byte>, indices: seq<nat>, v: seq<nat>, n: nat): nat
    requires n <= |indices| && n <= |v|
  {
    if n == 0 then 0
    else ProvedSum(s, file, indices, v, n - 1) + v[n - 1] * RowSum(s.u, ProvedRow(file, |s.u|, indices[n - 1]), |s.u|)
  }

  function MuRow(file: seq<Byte>, sectors: nat, indices: seq<nat>, v: seq<nat>, n: nat): (m: seq<nat>)
    requires n <= |indices| && n <= |v|
    ensures |m| == sectors
  {
    seq(sectors, j requires 0 <= j < sectors => MuSum(file, sectors, indices, v, j, n))
  }

  /** One more query adds `v` times its row to the sum over sectors. */
  lemma {:induction false} AddQuery(u: seq<nat>, a: seq<nat>, row: seq<nat>, b: seq<nat>, v: nat, n: nat)
    requires n <= |u| && |a| == |row| == |b| && n <= |a|
    requires forall j :: 0 <= j < n ==> b[j] == a[j] + v * row[j]
    ensures RowSum(u, b, n) == RowSum(u, a, n) + v * RowSum(u, row, n)
    decreases n
  {
    if n > 0 {
      AddQuery(u, a, row, b, v, n - 1);
      var j := n - 1;
      assert u[j] * (a[j] + v * row[j]) == u[j] * a[j] + v * (u[j] * row[j]);
      assert v * (RowSum(u, row, n - 1) + u[j] * row[j]) == v * RowSum(u, row, n - 1) + v * (u[j] * row[j]);
    }
  }

  /** The product over sectors of `u[j]^mu[j]` is the product over queries of the proved rows. */
  lemma {:induction false} ExchangeSums(s: Setup, file: seq<Byte>, indices: seq<nat>, v: seq<nat>, n: nat)
    requires n <= |indices| && n <= |v|
    ensures RowSum(s.u, MuRow(file, |s.u|, indices, v, n), |s.u|) == ProvedSum(s, file, indices, v, n)
    decreases n
  {
    var sectors := |s.u|;
    if n == 0 {
      ZeroRow(s.u, MuRow(file, sectors, indices, v, 0), sectors);
    } else {
      ExchangeSums(s, file, indices, v, n - 1);
      AddQuery(s.u, MuRow(file, sectors, indices, v, n - 1), ProvedRow(file, sectors, indices[n - 1]),
               MuRow(file, sectors, indices, v, n), v[n - 1], sectors);
    }
  }

  lemma {:induction false} ZeroRow(u: seq<nat>, row: seq<nat>, n: nat)
    requires n <= |u| && n <= |row| && forall j :: 0 <= j < n ==> row[j] == 0
    ensures RowSum(u, row, n) == 0
    decreases n
  {
    if n > 0 {
      ZeroRow(u, row, n - 1);
    }
  }

  /** The aggregate signature, with the key taken out. */
  lemma {:induction false} SigmaFactors(s: Setup, pk: nat, file: seq<Byte>, indices: seq<nat>, v: seq<nat>, n: nat)
    requires n <= |indices| && n <= |v|
    ensures SigmaSum(s, pk, file, indices, v, n)
         == (HashSum(s, indices, v, n) + ProvedSum(s, file, indices, v, n) + DriftSum(s, file, indices, v, n)) * pk
    decreases n
  {
    if n > 0 {
      SigmaFactors(s, pk, file, indices, v, n - 1);
      var i, c := indices[n - 1], v[n - 1];
      FactorStep(
        HashSum(s, indices, v, n - 1) + ProvedSum(s, file, indices, v, n - 1) + DriftSum(s, file, indices, v, n - 1),
        RowSum(s.u, SignedRow(file, |s.u|, i), |s.u|), RowSum(s.u, ProvedRow(file, |s.u|, i), |s.u|), s.hash(i), c, pk);
    }
  }

  lemma FactorStep(t: int, signed: int, proved: int, h: int, c: int, pk: int)
    ensures t * pk + (signed + h) * pk * c == (t + h * c + c * proved + c * (signed - proved)) * pk
  {
    assert (signed + h) * pk * c == ((signed + h) * c) * pk;
    assert (signed + h) * c == h * c + c * proved + c * (signed - proved);
  }

  /** Congruent `mu` give a congruent sum over sectors. */
  lemma {:induction false} RowSumCong(u: seq<nat>, a: seq<nat>, b: seq<nat>, n: nat, r: nat)
    requires r > 0 && n <= |u| && n <= |a| && n <= |b| && forall j :: 0 <= j < n ==> Cong(a[j], b[j], r)
    ensures Cong(RowSum(u, a, n), RowSum(u, b, n), r)
    decreases n
  {
    if n == 0 {
      CongRefl(0, r);
    } else {
      RowSumCong(u, a, b, n - 1, r);
      CongRefl(u[n - 1], r);
      CongMul(u[n - 1], u[n - 1], a[n - 1], b[n - 1], r);
      CongAdd(RowSum(u, a, n - 1), RowSum(u, b, n - 1), u[n - 1] * a[n - 1], u[n - 1] * b[n - 1], r);
    }
  }

  /** The pairing equation for an honest proof: it holds exactly when the difference between what
      was signed and what `get_m` read, weighted by the query and the key, vanishes. */
  lemma PairingEquation(
    s: Setup, pk: nat, file: seq<Byte>, indices: seq<nat>, v: seq<nat>, sigma: nat, mu: seq<nat>, pubk: nat)
    requires s.r > 1 && |v| == |indices| && |mu| == |s.u|
    requires Cong(sigma, SigmaSum(s, pk, file, indices, v, |v|), s.r)
    requires MuUpTo(file, |s.u|, indices, v, s.r, mu, |mu|)
    requires Cong(pubk, s.generator * pk, s.r)
    ensures Cong(sigma * s.generator, (HashSum(s, indices, v, |v|) + RowSum(s.u, mu, |mu|)) * pubk, s.r)
       <==> Cong(DriftSum(s, file, indices, v, |v|) * pk * s.generator, 0, s.r)
  {
    var r, n, g := s.r, |v|, s.generator;
    var h, m, d := HashSum(s, indices, v, n), ProvedSum(s, file, indices, v, n), DriftSum(s, file, indices, v, n);
    SigmaFactors(s, pk, file, indices, v, n);
    CongRefl(g, r);
    CongMul(sigma, (h + m + d) * pk, g, g, r);
    DriftApart(h + m, d, pk, g);
    VerifierSide(s, pk, file, indices, v, mu, pubk);
    CompareSides(sigma * g, (h + RowSum(s.u, mu, |mu|)) * pubk, (h + m) * (g * pk), d * pk * g, r);
  }

  /** The side of the equation that the verifier computes from mu. */
  lemma VerifierSide(
    s: Setup, pk: nat, file: seq<Byte>, indices: seq<nat>, v: seq<nat>, mu: seq<nat>, pubk: nat)
    requires s.r > 1 && |v| == |indices| && |mu| == |s.u|
    requires MuUpTo(file, |s.u|, indices, v, s.r, mu, |mu|) && Cong(pubk, s.generator * pk, s.r)
    ensures var h, m := HashSum(s, indices, v, |v|), ProvedSum(s, file, indices, v, |v|);
      Cong((h + RowSum(s.u, mu, |mu|)) * pubk, (h + m) * (s.generator * pk), s.r)
  {
    var r, n := s.r, |v|;
    var h, m := HashSum(s, indices, v, n), ProvedSum(s, file, indices, v, n);
    ExchangeSums(s, file, indices, v, n);
    RowSumCong(s.u, mu, MuRow(file, |s.u|, indices, v, n), |mu|, r);
    CongRefl(h, r);
    CongAdd(h, h, RowSum(s.u, mu, |mu|), m, r);
    CongMul(h + RowSum(s.u, mu, |mu|), h + m, pubk, s.generator * pk, r);
  }

  lemma DriftApart(t: int, d: int, pk: int, g: int)
    ensures (t + d) * pk * g == t * (g * pk) + d * pk * g
  {
    assert (t + d) * pk * g == t * pk * g + d * pk * g;
    assert t * pk * g == t * (g * pk);
  }

  lemma CompareSides(a: int, b: int, t: int, d: int, r: nat)
    requires r > 0 && Cong(a, t + d, r) && Cong(b, t, r)
    ensures Cong(a, b, r) <==> Cong(d, 0, r)
  {
    CongSym(b, t, r);
    CongSub(a, t + d, b, t, r);
    if Cong(a, b, r) {
      CongRefl(b, r);
      CongSub(a, b, b, b, r);
      CongSym(a - b, d, r);
      CongTrans(d, a - b, 0, r);
    }
    if Cong(d, 0, r) {
      CongTrans(a - b, d, 0, r);
      CongRefl(b, r);
      CongAdd(a - b, 0, b, b, r);
    }
  }

  // ---------------------------------------------------------------- what an accepted proof shows

  /** Sum over the queries of `v[k]` times the row sum that was signed. */
  function SignedSum(s: Setup, file: seq<Byte>, indices: seq<nat>, v: seq<nat>, n: nat): nat
    requires n <= |indices| && n <= |v|
  {
    if n == 0 then 0
    else SignedSum(s, file, indices, v, n - 1) + v[n - 1] * RowSum(s.u, SignedRow(file, |s.u|, indices[n - 1]), |s.u|)
  }

  lemma {:induction false} SigmaIsSigned(s: Setup, pk: nat, file: seq<Byte>, indices: seq<nat>, v: seq<nat>, n: nat)
    requires n <= |indices| && n <= |v|
    ensures SigmaSum(s, pk, file, indices, v, n) == (HashSum(s, indices, v, n) + SignedSum(s, file, indices, v, n)) * pk
    decreases n
  {
    if n > 0 {
      SigmaIsSigned(s, pk, file, indices, v, n - 1);
      var i, c := indices[n - 1], v[n - 1];
      var row := RowSum(s.u, SignedRow(file, |s.u|, i), |s.u|);
      FactorStep(HashSum(s, indices, v, n - 1) + SignedSum(s, file, indices, v, n - 1), row, row, s.hash(i), c, pk);
      assert c * (row - row) == 0;
    }
  }

  /** With the aggregate of the author's signatures, the verifier accepts exactly those `mu`, honest or not, that
      combine to what the signed rows combine to. */
  lemma AcceptedIffSignedRows(
    s: Setup, pk: nat, file: seq<Byte>, indices: seq<nat>, v: seq<nat>, sigma: nat, mu: seq<nat>, pubk: nat)
    requires IsPrime(s.r) && pk % s.r != 0 && s.generator % s.r != 0 && |v| == |indices| && |mu| == |s.u|
    requires Cong(sigma, SigmaSum(s, pk, file, indices, v, |v|), s.r) && Cong(pubk, s.generator * pk, s.r)
    ensures Cong(sigma * s.generator, (HashSum(s, indices, v, |v|) + RowSum(s.u, mu, |mu|)) * pubk, s.r)
       <==> Cong(RowSum(s.u, mu, |mu|), SignedSum(s, file, indices, v, |v|), s.r)
  {
    var r, g := s.r, s.generator;
    var h, m, t := HashSum(s, indices, v, |v|), RowSum(s.u, mu, |mu|), SignedSum(s, file, indices, v, |v|);
    SigmaIsSigned(s, pk, file, indices, v, |v|);
    CongScale(sigma, (h + t) * pk, g, r);
    DriftApart(h + t, 0, pk, g);
    CongScale(pubk, g * pk, h + m, r);
    CongBoth(sigma * g, (h + t) * (g * pk), (h + m) * pubk, (h + m) * (g * pk), r);
    NonzeroProduct(g, pk, r);
    SameFactor(h, m, t, g * pk, r);
  }

  lemma SameFactor(h: int, m: int, t: int, w: int, r: nat)
    requires IsPrime(r) && w % r != 0
    ensures Cong((h + t) * w, (h + m) * w, r) <==> Cong(m, t, r)
  {
    CongRefl(h, r);
    if Cong(m, t, r) {
      CongSym(m, t, r);
      CongAdd(h, h, t, m, r);
      CongScale(h + t, h + m, w, r);
    }
    if Cong((h + t) * w, (h + m) * w, r) {
      Swapped(h + t, w);
      Swapped(h + m, w);
      CancelNonzero(w, h + t, h + m, r);
      CongSub(h + t, h + m, h, h, r);
      CongSym(t, m, r);
    }
  }

  // ---------------------------------------------------------------- honest proofs verify

  /** The drift, weighted by the query and the key, vanishes. */
  ghost predicate Accepted(s: Setup, file: seq<Byte>, indices: seq<nat>, v: seq<nat>, pk: nat)
    requires s.r > 0 && |v| == |indices|
  {
    Cong(DriftSum(s, file, indices, v, |v|) * pk * s.generator, 0, s.r)
  }

  /** Every queried row lies in the part of the file that 32-bit positions reach. */
  predicate InReach(sectors: nat, indices: seq<nat>) {
    forall k :: 0 <= k < |indices| ==> SECTOR_BYTES * (sectors * (indices[k] + 1)) <= TWO_32
  }

  lemma {:induction false} NoDriftInReach(s: Setup, file: seq<Byte>, indices: seq<nat>, v: seq<nat>, n: nat)
    requires n <= |indices| && n <= |v| && InReach(|s.u|, indices)
    ensures DriftSum(s, file, indices, v, n) == 0
    decreases n
  {
    if n > 0 {
      NoDriftInReach(s, file, indices, v, n - 1);
      RowInReach(s, file, indices[n - 1]);
      var row := RowSum(s.u, SignedRow(file, |s.u|, indices[n - 1]), |s.u|);
      assert v[n - 1] * (row - row) == 0;
    }
  }

  lemma RowInReach(s: Setup, file: seq<Byte>, i: nat)
    requires SECTOR_BYTES * (|s.u| * (i + 1)) <= TWO_32
    ensures SignedRow(file, |s.u|, i) == ProvedRow(file, |s.u|, i)
  {
    assert |s.u| * (i + 1) == |s.u| * i + |s.u|;
    forall j | 0 <= j < |s.u|
      ensures Signed(file, |s.u|, i, j) == Proved(file, |s.u|, i, j)
    {
      SameSector(file, |s.u|, i, j);
    }
  }

  /** `generate_query_from_seed`: with fewer than 16 rows all are asked, otherwise 16 pseudo-random ones. */
  function QueryIndices(n: nat, random: nat -> nat): (indices: seq<nat>)
    ensures |indices| == (if n > 16 then 16 else n) && forall k :: 0 <= k < |indices| ==> indices[k] < n
  {
    var q := if n > 16 then 16 else n;
    if q < 16 then seq(q, i requires 0 <= i < q => i) else seq(q, i requires 0 <= i < q => random(i) % n)
  }

  /** An author's signatures, a seeder's proof and a miner's verification, end to end: the proof is
      accepted for any file, key, query and coefficients as long as the rows asked for are within
      the reach of 32-bit positions, and in general exactly when the drift vanishes. */
  method SignProveVerify(s: Setup, file: seq<Byte>, pk: nat, random: nat -> nat, v: seq<nat>)
    returns (res: nat, indices: seq<nat>)
    requires ValidSetup(s) && |v| == |QueryIndices(RowCount(|file|, |s.u|), random)|
    ensures indices == QueryIndices(RowCount(|file|, |s.u|), random)
    ensures res == 0 <==> Accepted(s, file, indices, v, pk)
    ensures InReach(|s.u|, indices) ==> res == 0
  {
    var sigmas := GetSigmas(s, file, pk);
    var pubk := Pow(s.generator, pk, s.r);
    CongMod(s.generator * pk, s.r);
    indices := QueryIndices(sigmas.Length, random);
    var mu := ComputeMu(file, |s.u|, indices, v, s.r);
    var sigma := ComputeSigma(s, pk, file, sigmas[..], indices, v);
    PairingEquation(s, pk, file, indices, v, sigma, mu, pubk);
    res := Verify(s, sigma, indices, v, mu, pubk);
    HonestInReach(s, file, indices, v, pk);
  }

  lemma HonestInReach(s: Setup, file: seq<Byte>, indices: seq<nat>, v: seq<nat>, pk: nat)
    requires s.r > 1 && |v| == |indices|
    ensures InReach(|s.u|, indices) ==> Cong(DriftSum(s, file, indices, v, |v|) * pk * s.generator, 0, s.r)
  {
    if InReach(|s.u|, indices) {
      NoDriftInReach(s, file, indices, v, |v|);
      CongRefl(0, s.r);
    }
  }

  /** A file whose rows, padding included, end within 4 GiB is in reach whatever is asked. */
  lemma SmallFileInReach(length: nat, sectors: nat, random: nat -> nat)
    requires sectors >= 1 && RowCount(length, sectors) * (SECTOR_BYTES * sectors) <= TWO_32
    ensures InReach(sectors, QueryIndices(RowCount(length, sectors), random))
  {
    var n := RowCount(length, sectors);
    var indices := QueryIndices(n, random);
    forall k | 0 <= k < |indices|
      ensures SECTOR_BYTES * (sectors * (indices[k] + 1)) <= TWO_32
    {
      IndexInReach(indices[k], n, sectors);
    }
  }

  lemma IndexInReach(i: nat, n: nat, sectors: nat)
    requires i < n && n * (SECTOR_BYTES * sectors) <= TWO_32
    ensures SECTOR_BYTES * (sectors * (i + 1)) <= TWO_32
  {
    var w := SECTOR_BYTES * sectors;
    MulMonotone(i + 1, n, w);
    assert SECTOR_BYTES * (sectors * (i + 1)) == (i + 1) * w;
  }
}
