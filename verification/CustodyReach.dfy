/** Which rows of a file honest custody proofs can be given for: exactly those that 32-bit positions
    reach. */
module CustodyReach {
  import opened ModularArithmetic
  import opened Division
  import opened CustodyProof

  // ---------------------------------------------------------------- a file with one byte set

  function OneByte(length: nat, p: nat): (f: seq<Byte>)
    ensures |f| == length
  {
    seq<Byte>(length, i requires 0 <= i < length => if i == p then 1 else 0)
  }

  lemma {:induction false} NumberElsewhere(length: nat, p: nat, pos: nat, n: nat)
    requires p < pos || pos + n <= p
    ensures NumberAt(OneByte(length, p), pos, n) == 0
    decreases n
  {
    if n > 0 {
      NumberElsewhere(length, p, pos, n - 1);
    }
  }

  lemma {:induction false} NumberAtByte(length: nat, p: nat, n: nat)
    requires p < length && n >= 1
    ensures NumberAt(OneByte(length, p), p, n) == Power256(n - 1)
    decreases n
  {
    if n == 1 {
      assert NumberAt(OneByte(length, p), p, 0) == 0;
    } else {
      NumberAtByte(length, p, n - 1);
    }
  }

  lemma {:induction false} Power256Nonzero(n: nat, r: nat)
    requires IsPrime(r) && r != 2
    ensures Power256(n) % r != 0
    decreases n
  {
    if n > 0 {
      ModOf(0, 2, r, 2);
      NonzeroProduct(2, 2, r);
      NonzeroProduct(4, 4, r);
      NonzeroProduct(16, 16, r);
      Power256Nonzero(n - 1, r);
      NonzeroProduct(256, Power256(n - 1), r);
    } else {
      ModOf(0, 1, r, 1);
    }
  }

  // ---------------------------------------------------------------- one sector and one query at a time

  function Unit(n: nat, j: nat): (u: seq<nat>)
    ensures |u| == n && forall i :: 0 <= i < n ==> u[i] == if i == j then 1 else 0
  {
    seq<nat>(n, i requires 0 <= i < n => if i == j then 1 else 0)
  }

  lemma {:induction false} RowSumOfUnit(n: nat, j: nat, row: seq<nat>, m: nat)
    requires j < n && |row| == n && m <= n
    ensures RowSum(Unit(n, j), row, m) == if j < m then row[j] else 0
    decreases m
  {
    if m > 0 {
      RowSumOfUnit(n, j, row, m - 1);
    }
  }

  lemma {:induction false} DriftOfUnit(s: Setup, file: seq<Byte>, indices: seq<nat>, k: nat, n: nat)
    requires k < |indices| && n <= |indices|
    ensures DriftSum(s, file, indices, Unit(|indices|, k), n) ==
      if k < n then
        RowSum(s.u, SignedRow(file, |s.u|, indices[k]), |s.u|) - RowSum(s.u, ProvedRow(file, |s.u|, indices[k]), |s.u|)
      else 0
    decreases n
  {
    if n > 0 {
      DriftOfUnit(s, file, indices, k, n - 1);
    }
  }

  /** With one sector and one query counting, the drift is the difference of that sector. */
  lemma {:induction false} DriftOfSector(
    r: nat, g: nat, hash: nat -> nat, file: seq<Byte>, sectors: nat, indices: seq<nat>, j: nat, k: nat)
    requires j < sectors && k < |indices|
    ensures DriftSum(Setup(r, g, Unit(sectors, j), hash), file, indices, Unit(|indices|, k), |indices|) ==
      Signed(file, sectors, indices[k], j) - Proved(file, sectors, indices[k], j)
  {
    var s := Setup(r, g, Unit(sectors, j), hash);
    DriftOfUnit(s, file, indices, k, |indices|);
    RowSumOfUnit(sectors, j, SignedRow(file, sectors, indices[k]), sectors);
    RowSumOfUnit(sectors, j, ProvedRow(file, sectors, indices[k]), sectors);
  }

  /** The first sector of row `i` that 32-bit positions do not reach is read at the wrong place: a file
      with one byte set tells the two places apart. */
  lemma {:induction false} SectorOutOfReach(length: nat, sectors: nat, i: nat) returns (j: nat, p: nat)
    requires sectors >= 1 && i < RowCount(length, sectors) && SECTOR_BYTES * (sectors * (i + 1)) > TWO_32
    ensures j < sectors && p < length
    ensures var f := OneByte(length, p); var d := Signed(f, sectors, i, j) - Proved(f, sectors, i, j);
      d == Power256(15) || d + Power256(15) == 0
  {
    RowStartsInside(length, sectors, i);
    var first := sectors * i;
    assert sectors * (i + 1) == first + sectors;
    if SECTOR_BYTES * first >= TWO_32 {
      j, p := 0, SECTOR_BYTES * first;
      ReadElsewhere(length, first, p);
      NumberAtByte(length, p, SECTOR_BYTES);
    } else {
      j, p := TWO_32 / SECTOR_BYTES - first, 0;
      assert SECTOR_BYTES * (first + j) == TWO_32;
      ReadsStart(first + j);
      NumberAtByte(length, 0, SECTOR_BYTES);
      NumberElsewhere(length, 0, TWO_32, SECTOR_BYTES);
    }
  }

  lemma RowStartsInside(length: nat, sectors: nat, i: nat)
    requires sectors >= 1 && i < RowCount(length, sectors)
    ensures SECTOR_BYTES * (sectors * i) < length
  {
    var n, w := RowCount(length, sectors), SECTOR_BYTES * sectors;
    MulMonotone(i, n - 1, w);
    assert i * w == SECTOR_BYTES * (sectors * i);
  }

  lemma ReadElsewhere(length: nat, x: nat, p: nat)
    requires p == SECTOR_BYTES * x >= TWO_32
    ensures NumberAt(OneByte(length, p), SECTOR_BYTES * (x % TWO_32) % TWO_32, SECTOR_BYTES) == 0
  {
    var q := SECTOR_BYTES * (x % TWO_32) % TWO_32;
    assert q + SECTOR_BYTES <= TWO_32;
    NumberElsewhere(length, p, q, SECTOR_BYTES);
  }

  lemma ReadsStart(x: nat)
    requires SECTOR_BYTES * x == TWO_32
    ensures SECTOR_BYTES * (x % TWO_32) % TWO_32 == 0
  {
  }

  /** For every query of a row out of reach there are a file of that length, public elements and
      coefficients with which the honest proof is refused. */
  lemma {:induction false} OutOfReachIsRefused(
    r: nat, g: nat, hash: nat -> nat, pk: nat, length: nat, sectors: nat, indices: seq<nat>, k: nat)
    returns (file: seq<Byte>, u: seq<nat>, v: seq<nat>)
    requires IsPrime(r) && r != 2 && g % r != 0 && pk % r != 0 && sectors >= 1
    requires k < |indices| && indices[k] < RowCount(length, sectors)
    requires SECTOR_BYTES * (sectors * (indices[k] + 1)) > TWO_32
    ensures |file| == length && |u| == sectors && |v| == |indices|
    ensures !Accepted(Setup(r, g, u, hash), file, indices, v, pk)
  {
    var j, p := SectorOutOfReach(length, sectors, indices[k]);
    file, u, v := OneByte(length, p), Unit(sectors, j), Unit(|indices|, k);
    DriftOfSector(r, g, hash, file, sectors, indices, j, k);
    DriftIsNonzero(r, g, pk, DriftSum(Setup(r, g, u, hash), file, indices, v, |v|));
  }

  lemma {:induction false} DriftIsNonzero(r: nat, g: nat, pk: nat, d: int)
    requires IsPrime(r) && r != 2 && g % r != 0 && pk % r != 0 && (d == Power256(15) || d + Power256(15) == 0)
    ensures !Cong(d * pk * g, 0, r)
  {
    var m := Power256(15);
    Power256Nonzero(15, r);
    NonzeroProduct(m, pk, r);
    NonzeroProduct(m * pk, g, r);
    CongIsMod(m * pk * g, 0, r);
    ModOf(0, 0, r, 0);
    if d != m {
      Opposite(d, m, pk, g);
      NegatedCong(m * pk * g, r);
    }
  }

  lemma Opposite(d: int, m: int, a: int, b: int)
    requires d + m == 0
    ensures d * a * b == 0 - m * a * b
  {
    assert d == 0 - m;
    assert (0 - m) * a == 0 - m * a;
    assert (0 - m * a) * b == 0 - m * a * b;
  }

  lemma NegatedCong(x: int, r: nat)
    requires r > 0 && !Cong(x, 0, r)
    ensures !Cong(0 - x, 0, r)
  {
    if Cong(0 - x, 0, r) {
      CongRefl(0, r);
      CongSub(0, 0, 0 - x, 0, r);
    }
  }

  /** Honest proofs for the queried rows are accepted for every file of that length, all public elements and all
      coefficients exactly when 32-bit positions reach all of these rows. */
  lemma {:induction false} AlwaysAcceptedIff(
    r: nat, g: nat, hash: nat -> nat, pk: nat, length: nat, sectors: nat, indices: seq<nat>)
    requires IsPrime(r) && r != 2 && g % r != 0 && pk % r != 0 && sectors >= 1
    requires forall k :: 0 <= k < |indices| ==> indices[k] < RowCount(length, sectors)
    ensures (forall file: seq<Byte>, u: seq<nat>, v: seq<nat> ::
        |file| == length && |u| == sectors && |v| == |indices| ==> Accepted(Setup(r, g, u, hash), file, indices, v, pk))
      <==> InReach(sectors, indices)
  {
    if InReach(sectors, indices) {
      forall file: seq<Byte>, u: seq<nat>, v: seq<nat> | |file| == length && |u| == sectors && |v| == |indices|
        ensures Accepted(Setup(r, g, u, hash), file, indices, v, pk)
      {
        HonestInReach(Setup(r, g, u, hash), file, indices, v, pk);
      }
    } else {
      var k :| 0 <= k < |indices| && SECTOR_BYTES * (sectors * (indices[k] + 1)) > TWO_32;
      var file, u, v := OutOfReachIsRefused(r, g, hash, pk, length, sectors, indices, k);
    }
  }

  /** Every query of a file is in reach exactly when its rows, padding included, end within 4 GiB. */
  lemma {:induction false} EveryQueryInReachIff(length: nat, sectors: nat)
    requires sectors >= 1
    ensures (forall random: nat -> nat :: InReach(sectors, QueryIndices(RowCount(length, sectors), random)))
      <==> RowCount(length, sectors) * (SECTOR_BYTES * sectors) <= TWO_32
  {
    var n := RowCount(length, sectors);
    if n * (SECTOR_BYTES * sectors) <= TWO_32 {
      forall random: nat -> nat ensures InReach(sectors, QueryIndices(n, random)) {
        SmallFileInReach(length, sectors, random);
      }
    } else {
      var random := LastRowAsked(n, sectors);
    }
  }

  /** Some query asks for the last row. */
  lemma {:induction false} LastRowAsked(n: nat, sectors: nat) returns (random: nat -> nat)
    requires n * (SECTOR_BYTES * sectors) > TWO_32
    ensures !InReach(sectors, QueryIndices(n, random))
  {
    assert n >= 1;
    var last: nat := n - 1;
    random := _ => last;
    ModOf(0, last, n, last);
    var indices := QueryIndices(n, random);
    assert indices[|indices| - 1] == last;
    assert SECTOR_BYTES * (sectors * (last + 1)) == n * (SECTOR_BYTES * sectors);
  }

  /** A file of exactly 4 GiB in the 20 sectors a content uses: its last row is padded, and any query of that
      row can be refused. */
  lemma {:induction false} Exactly4GiBIsRefused(r: nat, g: nat, hash: nat -> nat, pk: nat, indices: seq<nat>, k: nat)
    returns (file: seq<Byte>, u: seq<nat>, v: seq<nat>)
    requires IsPrime(r) && r != 2 && g % r != 0 && pk % r != 0 && k < |indices| && indices[k] == 13421772
    ensures |file| == TWO_32 && |u| == 20 && |v| == |indices| && indices[k] < RowCount(|file|, 20)
    ensures !Accepted(Setup(r, g, u, hash), file, indices, v, pk)
  {
    assert 13421772 < RowCount(TWO_32, 20);
    file, u, v := OutOfReachIsRefused(r, g, hash, pk, TWO_32, 20, indices, k);
  }
}
