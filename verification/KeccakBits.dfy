/** Keccak-p[1600, 24] on bits, written from section 3.2 of FIPS 202, with an explicit inverse.
    This is the reference that the word arithmetic of KeccakWords is proved to compute. */
module KeccakBits {
  import opened Powers

  type Lane = l: seq<bool> | |l| == 64 witness seq(64, _ => false)
  type Sheet = p: seq<Lane> | |p| == 5 witness seq(5, _ => seq(64, _ => false))

  /** A[x, y, z] is a[x][y][z]. */
  type StateArray = a: seq<Sheet> | |a| == 5 witness seq(5, _ => seq(5, _ => seq(64, _ => false)))

  function Xor(a: bool, b: bool): bool { a != b }

  /** A[x, y, z] with every coordinate taken modulo its range. */
  function At(a: StateArray, x: int, y: int, z: int): bool { a[x % 5][y % 5][z % 64] }

  lemma AtWithin(a: StateArray, x: nat, y: nat, z: nat)
    requires x < 5 && y < 5 && z < 64
    ensures At(a, x, y, z) == a[x][y][z]
  {
  }

  /** Column parity C[x, z]. */
  function Parity(a: StateArray, x: int, z: int): bool {
    Xor(Xor(Xor(Xor(At(a, x, 0, z), At(a, x, 1, z)), At(a, x, 2, z)), At(a, x, 3, z)), At(a, x, 4, z))
  }

  /** The theta effect D[x, z], generalised to columns s apart and a rotation by r;
      section 3.2.1 is the case s = r = 1. */
  function Effect(a: StateArray, s: int, r: int, x: int, z: int): bool {
    Xor(Parity(a, x - s, z), Parity(a, x + s, z - r))
  }

  function ThetaBy(a: StateArray, s: int, r: int): StateArray {
    seq(5, x requires 0 <= x < 5 => seq(5, y requires 0 <= y < 5 => seq(64, z requires 0 <= z < 64 =>
      Xor(a[x][y][z], Effect(a, s, r, x, z)))))
  }

  function Theta(a: StateArray): StateArray { ThetaBy(a, 1, 1) }

  /** Table 2 of FIPS 202 modulo 64, at index x + 5 * y. */
  const RHO_OFFSETS: seq<nat> := [
    0, 1, 62, 28, 27,
    36, 44, 6, 55, 20,
    3, 10, 43, 25, 39,
    41, 45, 15, 21, 8,
    18, 2, 61, 56, 14]

  function Offset(x: nat, y: nat): nat
    requires x < 5 && y < 5
  {
    RHO_OFFSETS[x + 5 * y]
  }

  function Rho(a: StateArray): StateArray {
    seq(5, x requires 0 <= x < 5 => seq(5, y requires 0 <= y < 5 => seq(64, z requires 0 <= z < 64 =>
      a[x][y][(z - Offset(x, y)) % 64])))
  }

  function InverseRho(a: StateArray): StateArray {
    seq(5, x requires 0 <= x < 5 => seq(5, y requires 0 <= y < 5 => seq(64, z requires 0 <= z < 64 =>
      a[x][y][(z + Offset(x, y)) % 64])))
  }

  function Pi(a: StateArray): StateArray {
    seq(5, x requires 0 <= x < 5 => seq(5, y requires 0 <= y < 5 => a[(x + 3 * y) % 5][x]))
  }

  function InversePi(a: StateArray): StateArray {
    seq(5, x requires 0 <= x < 5 => seq(5, y requires 0 <= y < 5 => a[y][(2 * x + 3 * y) % 5]))
  }

  function ChiBit(p: bool, q: bool, r: bool): bool { Xor(p, !q && r) }

  function ChiBitAt(a: StateArray, x: nat, y: nat, z: nat): bool
    requires x < 5 && y < 5 && z < 64
  {
    ChiBit(a[x][y][z], a[(x + 1) % 5][y][z], a[(x + 2) % 5][y][z])
  }

  function Chi(a: StateArray): StateArray {
    seq(5, x requires 0 <= x < 5 => seq(5, y requires 0 <= y < 5 => seq(64, z requires 0 <= z < 64 =>
      ChiBitAt(a, x, y, z))))
  }

  function InverseChi(a: StateArray): StateArray { Chi(Chi(Chi(a))) }

  /** The shift register of algorithm 5 of FIPS 202 after t steps; bit k of the word is R[k]. */
  function Lfsr(t: nat): bv8 {
    if t == 0 then 1 else LfsrStep(Lfsr(t - 1))
  }

  function LfsrStep(r: bv8): bv8 { (r << 1) ^ (if r & 0x80 != 0 then 0x71 else 0) }

  function RoundBit(t: nat): bool { Lfsr(t) & 1 == 1 }

  /** Algorithm 6 of FIPS 202: bit 2^j - 1 of RC is rc(j + 7 * round), all others are 0. */
  function RoundConstantBit(round: nat, z: nat): bool {
    if z == 0 then RoundBit(7 * round)
    else if z == 1 then RoundBit(7 * round + 1)
    else if z == 3 then RoundBit(7 * round + 2)
    else if z == 7 then RoundBit(7 * round + 3)
    else if z == 15 then RoundBit(7 * round + 4)
    else if z == 31 then RoundBit(7 * round + 5)
    else if z == 63 then RoundBit(7 * round + 6)
    else false
  }

  function Iota(a: StateArray, round: nat): StateArray {
    seq(5, x requires 0 <= x < 5 => seq(5, y requires 0 <= y < 5 => seq(64, z requires 0 <= z < 64 =>
      Xor(a[x][y][z], x == 0 && y == 0 && RoundConstantBit(round, z)))))
  }

  function Round(a: StateArray, round: nat): StateArray { Iota(Chi(Pi(Rho(Theta(a)))), round) }

  /** Rounds from, from + 1, ..., 23. */
  function RoundsFrom(a: StateArray, from: nat): StateArray
    requires from <= 24
    decreases 24 - from
  {
    if from == 24 then a else RoundsFrom(Round(a, from), from + 1)
  }

  function KeccakF(a: StateArray): StateArray { RoundsFrom(a, 0) }

  // ---- theta has order 192 ----

  lemma StateEquality(a: StateArray, b: StateArray)
    requires forall x, y, z :: 0 <= x < 5 && 0 <= y < 5 && 0 <= z < 64 ==> a[x][y][z] == b[x][y][z]
    ensures a == b
  {
    forall x | 0 <= x < 5 ensures a[x] == b[x] {
      forall y | 0 <= y < 5 ensures a[x][y] == b[x][y] {
      }
    }
  }

  lemma AtMod(a: StateArray, x: int, y: int, z: int, dx: int, dz: int)
    ensures At(a, x % 5 + dx, y, z % 64 + dz) == At(a, x + dx, y, z + dz)
  {
    assert (x % 5 + dx) % 5 == (x + dx) % 5;
    assert (z % 64 + dz) % 64 == (z + dz) % 64;
  }

  lemma ParityMod(a: StateArray, x: int, z: int, dx: int, dz: int)
    ensures Parity(a, x % 5 + dx, z % 64 + dz) == Parity(a, x + dx, z + dz)
  {
    AtMod(a, x, 0, z, dx, dz);
    AtMod(a, x, 1, z, dx, dz);
    AtMod(a, x, 2, z, dx, dz);
    AtMod(a, x, 3, z, dx, dz);
    AtMod(a, x, 4, z, dx, dz);
  }

  lemma EffectMod(a: StateArray, s: int, r: int, x: int, z: int)
    ensures Effect(a, s, r, x % 5, z % 64) == Effect(a, s, r, x, z)
  {
    ParityMod(a, x, z, -s, 0);
    ParityMod(a, x, z, s, -r);
  }

  lemma ThetaByAt(a: StateArray, s: int, r: int, x: int, y: int, z: int)
    ensures At(ThetaBy(a, s, r), x, y, z) == Xor(At(a, x, y, z), Effect(a, s, r, x, z))
  {
    hide Effect;
    var (i, j, k) := (x % 5, y % 5, z % 64);
    assert ThetaBy(a, s, r)[i][j][k] == Xor(a[i][j][k], Effect(a, s, r, i, k));
    EffectMod(a, s, r, x, z);
  }

  /** Each of the five bits of a column is flipped by the same effect, so its parity is flipped too. */
  lemma ThetaByParity(a: StateArray, s: int, r: int, x: int, z: int)
    ensures Parity(ThetaBy(a, s, r), x, z) == Xor(Parity(a, x, z), Effect(a, s, r, x, z))
  {
    ThetaByAt(a, s, r, x, 0, z);
    ThetaByAt(a, s, r, x, 1, z);
    ThetaByAt(a, s, r, x, 2, z);
    ThetaByAt(a, s, r, x, 3, z);
    ThetaByAt(a, s, r, x, 4, z);
  }

  /** Over GF(2) the cross terms C[x, z - r] cancel. */
  lemma DoubledEffect(a: StateArray, s: int, r: int, x: int, z: int)
    ensures Xor(Effect(a, s, r, x, z), Effect(ThetaBy(a, s, r), s, r, x, z)) == Effect(a, 2 * s, 2 * r, x, z)
  {
    hide Parity;
    ThetaByParity(a, s, r, x - s, z);
    ThetaByParity(a, s, r, x + s, z - r);
    assert x - s - s == x - 2 * s && x + s + s == x + 2 * s && z - r - r == z - 2 * r;
    assert x - s + s == x && x + s - s == x;
  }

  /** Applying theta twice doubles both distances. */
  lemma ThetaDoubling(a: StateArray, s: int, r: int)
    ensures ThetaBy(ThetaBy(a, s, r), s, r) == ThetaBy(a, 2 * s, 2 * r)
  {
    hide Effect;
    var b := ThetaBy(a, s, r);
    forall x, y, z | 0 <= x < 5 && 0 <= y < 5 && 0 <= z < 64
      ensures ThetaBy(b, s, r)[x][y][z] == ThetaBy(a, 2 * s, 2 * r)[x][y][z]
    {
      DoubledEffect(a, s, r, x, z);
    }
    StateEquality(ThetaBy(b, s, r), ThetaBy(a, 2 * s, 2 * r));
  }

  function ThetaTimes(a: StateArray, n: nat): StateArray {
    if n == 0 then a else Theta(ThetaTimes(a, n - 1))
  }

  lemma {:induction false} ThetaTimesSum(a: StateArray, m: nat, n: nat)
    ensures ThetaTimes(ThetaTimes(a, m), n) == ThetaTimes(a, m + n)
  {
    hide Theta;
    if n > 0 {
      ThetaTimesSum(a, m, n - 1);
    }
  }

  lemma {:induction false} ThetaPowers(a: StateArray, j: nat)
    ensures ThetaTimes(a, Pow2(j)) == ThetaBy(a, Pow2(j), Pow2(j))
    decreases j
  {
    hide ThetaBy;
    if j == 0 {
      assert ThetaTimes(a, 1) == Theta(ThetaTimes(a, 0));
    } else {
      var h := Pow2(j - 1);
      ThetaPowers(a, j - 1);
      ThetaPowers(ThetaTimes(a, h), j - 1);
      ThetaTimesSum(a, h, h);
      ThetaDoubling(a, h, h);
    }
  }

  lemma ParityPeriod(a: StateArray, x: int, z: int, p: int, q: int)
    ensures Parity(a, x + 5 * p, z + 64 * q) == Parity(a, x, z)
  {
    assert (x + 5 * p) % 5 == x % 5 && (z + 64 * q) % 64 == z % 64;
  }

  /** A rotation by 64 is no rotation, and 64 columns are one column back. */
  lemma Effect64(a: StateArray, x: int, z: int)
    ensures Effect(a, 64, 64, x, z) == Xor(Parity(a, x + 1, z), Parity(a, x - 1, z))
  {
    hide Parity;
    ParityPeriod(a, x + 1, z, -13, 0);
    ParityPeriod(a, x - 1, z, 13, -1);
  }

  lemma Effect128(a: StateArray, x: int, z: int)
    ensures Effect(a, 128, 128, x, z) == Xor(Parity(a, x + 2, z), Parity(a, x - 2, z))
  {
    hide Parity;
    ParityPeriod(a, x + 2, z, -26, 0);
    ParityPeriod(a, x - 2, z, 26, -2);
  }

  lemma EffectsCancel(a: StateArray, x: int, z: int)
    ensures Effect(a, 64, 64, x, z) == Effect(ThetaBy(a, 64, 64), 128, 128, x, z)
  {
    hide Parity, ThetaBy, Effect;
    Effect64(a, x, z);
    Effect128(ThetaBy(a, 64, 64), x, z);
    ThetaByParity(a, 64, 64, x + 2, z);
    ThetaByParity(a, 64, 64, x - 2, z);
    Effect64(a, x + 2, z);
    Effect64(a, x - 2, z);
    ParityPeriod(a, x - 3, z, 1, 0);
    ParityPeriod(a, x - 2, z, 1, 0);
  }

  lemma ThetaOrder(a: StateArray)
    ensures ThetaTimes(a, 192) == a
  {
    hide Effect;
    assert Pow2(6) == 64 && Pow2(7) == 128;
    var b := ThetaTimes(a, 64);
    ThetaPowers(a, 6);
    ThetaPowers(b, 7);
    ThetaTimesSum(a, 64, 128);
    forall x, y, z | 0 <= x < 5 && 0 <= y < 5 && 0 <= z < 64 ensures ThetaBy(b, 128, 128)[x][y][z] == a[x][y][z] {
      EffectsCancel(a, x, z);
    }
    StateEquality(ThetaBy(b, 128, 128), a);
  }

  function InverseTheta(a: StateArray): StateArray { ThetaTimes(a, 191) }

  lemma ThetaInverse(a: StateArray)
    ensures InverseTheta(Theta(a)) == a && Theta(InverseTheta(a)) == a
  {
    hide Theta;
    ThetaOrder(a);
    ThetaTimesSum(a, 1, 191);
    assert ThetaTimes(a, 1) == Theta(ThetaTimes(a, 0));
  }

  // ---- rho, pi, chi, iota ----

  lemma RotationUndone(z: int, r: int)
    requires 0 <= z < 64
    ensures ((z + r) % 64 - r) % 64 == z
  {
  }

  lemma RhoInverse(a: StateArray)
    ensures InverseRho(Rho(a)) == a && Rho(InverseRho(a)) == a
  {
    hide Offset;
    forall x, y, z | 0 <= x < 5 && 0 <= y < 5 && 0 <= z < 64
      ensures InverseRho(Rho(a))[x][y][z] == a[x][y][z]
    {
      RotationUndone(z, Offset(x, y));
    }
    StateEquality(InverseRho(Rho(a)), a);
    forall x, y, z | 0 <= x < 5 && 0 <= y < 5 && 0 <= z < 64
      ensures Rho(InverseRho(a))[x][y][z] == a[x][y][z]
    {
      var r: int := Offset(x, y);
      RotationUndone(z, -r);
    }
    StateEquality(Rho(InverseRho(a)), a);
  }

  lemma PiColumn(x: int, y: int)
    requires 0 <= x < 5
    ensures (y + 3 * ((2 * x + 3 * y) % 5)) % 5 == x
  {
    var k := (2 * x + 3 * y) / 5;
    assert y + 3 * ((2 * x + 3 * y) % 5) == 5 * (2 * y + x - 3 * k) + x;
  }

  lemma PiRow(x: int, y: int)
    requires 0 <= y < 5
    ensures (2 * ((x + 3 * y) % 5) + 3 * x) % 5 == y
  {
    var k := (x + 3 * y) / 5;
    assert 2 * ((x + 3 * y) % 5) + 3 * x == 5 * (x + y - 2 * k) + y;
  }

  lemma PiCoordinates(x: int, y: int)
    requires 0 <= x < 5 && 0 <= y < 5
    ensures (y + 3 * ((2 * x + 3 * y) % 5)) % 5 == x
    ensures (2 * ((x + 3 * y) % 5) + 3 * x) % 5 == y
  {
    PiColumn(x, y);
    PiRow(x, y);
  }

  lemma PiInverse(a: StateArray)
    ensures InversePi(Pi(a)) == a && Pi(InversePi(a)) == a
  {
    forall x, y, z | 0 <= x < 5 && 0 <= y < 5 && 0 <= z < 64
      ensures InversePi(Pi(a))[x][y][z] == a[x][y][z] && Pi(InversePi(a))[x][y][z] == a[x][y][z]
    {
      PiCoordinates(x, y);
    }
    StateEquality(InversePi(Pi(a)), a);
    StateEquality(Pi(InversePi(a)), a);
  }

  /** The five bits that chi mixes: one row y at one position z. */
  datatype Row = Row(b0: bool, b1: bool, b2: bool, b3: bool, b4: bool)

  function RowOf(a: StateArray, y: nat, z: nat): Row
    requires y < 5 && z < 64
  {
    Row(a[0][y][z], a[1][y][z], a[2][y][z], a[3][y][z], a[4][y][z])
  }

  function ChiOfRow(r: Row): Row {
    Row(ChiBit(r.b0, r.b1, r.b2), ChiBit(r.b1, r.b2, r.b3), ChiBit(r.b2, r.b3, r.b4), ChiBit(r.b3, r.b4, r.b0),
        ChiBit(r.b4, r.b0, r.b1))
  }

  /** chi has order 4 on every row of five bits. */
  lemma ChiRowOrder(r: Row)
    ensures ChiOfRow(ChiOfRow(ChiOfRow(ChiOfRow(r)))) == r
  {
  }

  lemma ChiAt(a: StateArray, x: nat, y: nat, z: nat)
    requires x < 5 && y < 5 && z < 64
    ensures Chi(a)[x][y][z] == ChiBitAt(a, x, y, z)
  {
    hide ChiBitAt;
  }

  lemma ChiRow(a: StateArray, y: nat, z: nat)
    requires y < 5 && z < 64
    ensures RowOf(Chi(a), y, z) == ChiOfRow(RowOf(a, y, z))
  {
    hide Chi, ChiBit;
    ChiAt(a, 0, y, z);
    ChiAt(a, 1, y, z);
    ChiAt(a, 2, y, z);
    ChiAt(a, 3, y, z);
    ChiAt(a, 4, y, z);
  }

  lemma SameRow(a: StateArray, b: StateArray, x: nat, y: nat, z: nat)
    requires x < 5 && y < 5 && z < 64 && RowOf(a, y, z) == RowOf(b, y, z)
    ensures a[x][y][z] == b[x][y][z]
  {
  }

  lemma ChiRowInverse(a: StateArray, y: nat, z: nat)
    requires y < 5 && z < 64
    ensures RowOf(Chi(Chi(Chi(Chi(a)))), y, z) == RowOf(a, y, z)
  {
    hide Chi, ChiOfRow, RowOf;
    ChiRow(a, y, z);
    ChiRow(Chi(a), y, z);
    ChiRow(Chi(Chi(a)), y, z);
    ChiRow(Chi(Chi(Chi(a))), y, z);
    ChiRowOrder(RowOf(a, y, z));
  }

  lemma ChiInverse(a: StateArray)
    ensures InverseChi(Chi(a)) == a && Chi(InverseChi(a)) == a
  {
    hide Chi, RowOf;
    var d := Chi(Chi(Chi(Chi(a))));
    forall x, y, z | 0 <= x < 5 && 0 <= y < 5 && 0 <= z < 64 ensures d[x][y][z] == a[x][y][z] {
      ChiRowInverse(a, y, z);
      SameRow(d, a, x, y, z);
    }
    StateEquality(d, a);
  }

  lemma IotaInverse(a: StateArray, round: nat)
    ensures Iota(Iota(a, round), round) == a
  {
    StateEquality(Iota(Iota(a, round), round), a);
  }

  // ---- the permutation ----

  function InverseRound(a: StateArray, round: nat): StateArray {
    InverseTheta(InverseRho(InversePi(InverseChi(Iota(a, round)))))
  }

  lemma RoundInverse(a: StateArray, round: nat)
    ensures InverseRound(Round(a, round), round) == a && Round(InverseRound(a, round), round) == a
  {
    hide Iota, InverseChi, Chi, Pi, InversePi, Rho, InverseRho, Theta, InverseTheta;
    IotaInverse(Chi(Pi(Rho(Theta(a)))), round);
    ChiInverse(Pi(Rho(Theta(a))));
    PiInverse(Rho(Theta(a)));
    RhoInverse(Theta(a));
    ThetaInverse(a);
    var e := InverseChi(Iota(a, round));
    ChiInverse(Iota(a, round));
    PiInverse(e);
    RhoInverse(InversePi(e));
    ThetaInverse(InverseRho(InversePi(e)));
    IotaInverse(a, round);
  }

  /** Undoes rounds 23, 22, ..., from. */
  function InverseRoundsFrom(a: StateArray, from: nat): StateArray
    requires from <= 24
    decreases 24 - from
  {
    if from == 24 then a else InverseRound(InverseRoundsFrom(a, from + 1), from)
  }

  function InverseKeccakF(a: StateArray): StateArray { InverseRoundsFrom(a, 0) }

  lemma {:induction false} RoundsInverse(a: StateArray, from: nat)
    requires from <= 24
    ensures InverseRoundsFrom(RoundsFrom(a, from), from) == a
    ensures RoundsFrom(InverseRoundsFrom(a, from), from) == a
    decreases 24 - from
  {
    hide Round, InverseRound;
    if from < 24 {
      RoundsInverse(Round(a, from), from + 1);
      RoundInverse(a, from);
      RoundsInverse(a, from + 1);
      RoundInverse(InverseRoundsFrom(a, from + 1), from);
    }
  }

  /** Keccak-f[1600] is a bijection: InverseKeccakF undoes it on both sides, for every state. */
  lemma KeccakFIsBijective(a: StateArray)
    ensures InverseKeccakF(KeccakF(a)) == a && KeccakF(InverseKeccakF(a)) == a
  {
    hide Round, InverseRound;
    RoundsInverse(a, 0);
  }

  // ---- the offsets table comes from the walk of section 3.2.2 ----

  /** The lane reached after t steps of the walk that starts at (1, 0). */
  function Walk(t: nat): (p: (nat, nat))
    ensures p.0 < 5 && p.1 < 5
  {
    if t == 0 then (1, 0) else WalkStep(Walk(t - 1))
  }

  function WalkStep(p: (nat, nat)): (q: (nat, nat))
    requires p.0 < 5 && p.1 < 5
    ensures q.0 < 5 && q.1 < 5
  {
    (p.1, (2 * p.0 + 3 * p.1) % 5)
  }

  lemma WalkTo(t: nat, p: (nat, nat))
    requires p.0 < 5 && p.1 < 5 && Walk(t) == p
    ensures Walk(t + 1) == WalkStep(p)
  {
  }

  predicate OffsetMatchesWalk(t: nat) {
    Offset(Walk(t).0, Walk(t).1) == ((t + 1) * (t + 2) / 2) % 64
  }

  /** The lanes in the order the walk visits them. */
  const WALK_ORDER: seq<(nat, nat)> := [
    (1, 0), (0, 2), (2, 1), (1, 2), (2, 3), (3, 3),
    (3, 0), (0, 1), (1, 3), (3, 1), (1, 4), (4, 4),
    (4, 0), (0, 3), (3, 4), (4, 3), (3, 2), (2, 2),
    (2, 0), (0, 4), (4, 2), (2, 4), (4, 1), (1, 1)]

  /** When the walk visits the lane at index x + 5 * y; it never visits (0, 0). */
  const WALK_TIMES: seq<nat> := [
    24, 0, 18, 6, 12,
    7, 23, 2, 9, 22,
    1, 3, 17, 16, 20,
    13, 8, 4, 5, 15,
    19, 10, 21, 14, 11]

  predicate VisitIs(t: nat) { t < 24 && Walk(t) == WALK_ORDER[t] && OffsetMatchesWalk(t) }

  lemma VisitsFrom0()
    ensures Walk(2) == (2, 1)
    ensures VisitIs(0) && VisitIs(1)
  {
    assert Walk(0) == (1, 0);
    hide Walk;
    WalkTo(0, (1, 0));
    WalkTo(1, (0, 2));
  }

  lemma VisitsFrom2()
    requires Walk(2) == (2, 1)
    ensures Walk(4) == (2, 3)
    ensures VisitIs(2) && VisitIs(3)
  {
    hide Walk;
    WalkTo(2, (2, 1));
    WalkTo(3, (1, 2));
  }

  lemma VisitsFrom4()
    requires Walk(4) == (2, 3)
    ensures Walk(6) == (3, 0)
    ensures VisitIs(4) && VisitIs(5)
  {
    hide Walk;
    WalkTo(4, (2, 3));
    WalkTo(5, (3, 3));
  }

  lemma VisitsFrom6()
    requires Walk(6) == (3, 0)
    ensures Walk(8) == (1, 3)
    ensures VisitIs(6) && VisitIs(7)
  {
    hide Walk;
    WalkTo(6, (3, 0));
    WalkTo(7, (0, 1));
  }

  lemma VisitsFrom8()
    requires Walk(8) == (1, 3)
    ensures Walk(10) == (1, 4)
    ensures VisitIs(8) && VisitIs(9)
  {
    hide Walk;
    WalkTo(8, (1, 3));
    WalkTo(9, (3, 1));
  }

  lemma VisitsFrom10()
    requires Walk(10) == (1, 4)
    ensures Walk(12) == (4, 0)
    ensures VisitIs(10) && VisitIs(11)
  {
    hide Walk;
    WalkTo(10, (1, 4));
    WalkTo(11, (4, 4));
  }

  lemma VisitsFrom12()
    requires Walk(12) == (4, 0)
    ensures Walk(14) == (3, 4)
    ensures VisitIs(12) && VisitIs(13)
  {
    hide Walk;
    WalkTo(12, (4, 0));
    WalkTo(13, (0, 3));
  }

  lemma VisitsFrom14()
    requires Walk(14) == (3, 4)
    ensures Walk(16) == (3, 2)
    ensures VisitIs(14) && VisitIs(15)
  {
    hide Walk;
    WalkTo(14, (3, 4));
    WalkTo(15, (4, 3));
  }

  lemma VisitsFrom16()
    requires Walk(16) == (3, 2)
    ensures Walk(18) == (2, 0)
    ensures VisitIs(16) && VisitIs(17)
  {
    hide Walk;
    WalkTo(16, (3, 2));
    WalkTo(17, (2, 2));
  }

  lemma VisitsFrom18()
    requires Walk(18) == (2, 0)
    ensures Walk(20) == (4, 2)
    ensures VisitIs(18) && VisitIs(19)
  {
    hide Walk;
    WalkTo(18, (2, 0));
    WalkTo(19, (0, 4));
  }

  lemma VisitsFrom20()
    requires Walk(20) == (4, 2)
    ensures Walk(22) == (4, 1)
    ensures VisitIs(20) && VisitIs(21)
  {
    hide Walk;
    WalkTo(20, (4, 2));
    WalkTo(21, (2, 4));
  }

  lemma VisitsFrom22()
    requires Walk(22) == (4, 1)
    ensures VisitIs(22) && VisitIs(23)
  {
    hide Walk;
    WalkTo(22, (4, 1));
  }

  lemma VisitsKnown(t: nat)
    requires t < 24
    ensures VisitIs(t)
  {
    hide VisitIs, Walk;
    VisitsFrom0();
    VisitsFrom2();
    VisitsFrom4();
    VisitsFrom6();
    VisitsFrom8();
    VisitsFrom10();
    VisitsFrom12();
    VisitsFrom14();
    VisitsFrom16();
    VisitsFrom18();
    VisitsFrom20();
    VisitsFrom22();
  }

  lemma VisitTime(x: nat, y: nat)
    requires x < 5 && y < 5 && (x, y) != (0, 0)
    ensures WALK_TIMES[x + 5 * y] < 24 && WALK_ORDER[WALK_TIMES[x + 5 * y]] == (x, y)
  {
    if
    case y == 0 =>
    case y == 1 =>
    case y == 2 =>
    case y == 3 =>
    case y == 4 =>
  }

  /** The rotation table is the one algorithm 2 of FIPS 202 computes: lane (0, 0) is not rotated, and every other
      lane is visited at some step t < 24 of the walk and rotated by (t + 1)(t + 2)/2 modulo 64. */
  lemma RhoOffsetsFollowWalk(x: nat, y: nat)
    requires x < 5 && y < 5
    ensures (x, y) == (0, 0) ==> Offset(x, y) == 0
    ensures (x, y) != (0, 0) ==>
              exists t: nat :: t < 24 && Walk(t) == (x, y) && Offset(x, y) == ((t + 1) * (t + 2) / 2) % 64
  {
    if (x, y) != (0, 0) {
      VisitTime(x, y);
      var t := WALK_TIMES[x + 5 * y];
      VisitsKnown(t);
      hide Walk, Offset;
      assert Walk(t) == (x, y);
    }
  }
}
