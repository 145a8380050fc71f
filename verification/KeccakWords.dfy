/** The 64-bit word form of Keccak-f[1600] in client/src/support/EthereumHash.cpp: the in-place
    permutation, the functions it computes, and the proof that those are the bit mappings of
    KeccakBits lane by lane. */
module KeccakWords {
  import B = KeccakBits

  type Words = w: seq<bv64> | |w| == 25 witness seq(25, _ => 0)

  type Shift = n: bv64 | n < 64

  /** At index x + 5 * y. */
  const ROTATION_OFFSETS: seq<nat> := [
    0, 1, 62, 28, 27,
    36, 44, 6, 55, 20,
    3, 10, 43, 25, 39,
    41, 45, 15, 21, 8,
    18, 2, 61, 56, 14]

  const ROUND_CONSTANTS: seq<bv64> := [
    0x0000000000000001, 0x0000000000008082, 0x800000000000808a,
    0x8000000080008000, 0x000000000000808b, 0x0000000080000001,
    0x8000000080008081, 0x8000000000008009, 0x000000000000008a,
    0x0000000000000088, 0x0000000080008009, 0x000000008000000a,
    0x000000008000808b, 0x800000000000008b, 0x8000000000008089,
    0x8000000000008003, 0x8000000000008002, 0x8000000000000080,
    0x000000000000800a, 0x800000008000000a, 0x8000000080008081,
    0x8000000000008080, 0x0000000080000001, 0x8000000080008008]

  // The word operations are named so that proofs about states need not look inside them.

  function ShiftLeft(v: bv64, n: Shift): bv64 { v << n }

  function ShiftRight(v: bv64, n: Shift): bv64 { v >> n }

  function Or(a: bv64, b: bv64): bv64 { a | b }

  function Xor(a: bv64, b: bv64): bv64 { a ^ b }

  function RotateLeft(value: bv64, shift: Shift): bv64 {
    if shift == 0 then value else Or(ShiftLeft(value, shift), ShiftRight(value, 64 - shift))
  }

  /** The lane at column x and row y. */
  function Lane(x: int, y: int): (i: int)
    requires 0 <= x < 5 && 0 <= y < 5
    ensures 0 <= i < 25
  {
    x + 5 * y
  }

  /** z modulo 64 as a word index. */
  function Position(z: nat): bv6 { if z == 0 then 0 else Position(z - 1) + 1 }

  /** The table entry as a shift amount. */
  function RotationOffset(x: nat, y: nat): Shift
    requires x < 5 && y < 5
  {
    Position(ROTATION_OFFSETS[Lane(x, y)]) as bv64
  }

  /** The state whose lane at (x, y) is f(x, y). */
  function Tabulate(f: (nat, nat) -> bv64): Words {
    [f(0, 0), f(1, 0), f(2, 0), f(3, 0), f(4, 0),
     f(0, 1), f(1, 1), f(2, 1), f(3, 1), f(4, 1),
     f(0, 2), f(1, 2), f(2, 2), f(3, 2), f(4, 2),
     f(0, 3), f(1, 3), f(2, 3), f(3, 3), f(4, 3),
     f(0, 4), f(1, 4), f(2, 4), f(3, 4), f(4, 4)]
  }

  lemma TabulateAt(f: (nat, nat) -> bv64)
    ensures forall x: nat, y: nat :: x < 5 && y < 5 ==> Tabulate(f)[Lane(x, y)] == f(x, y)
  {
  }

  lemma WordsEqual(s: Words, t: Words)
    requires forall x, y :: 0 <= x < 5 && 0 <= y < 5 ==> s[Lane(x, y)] == t[Lane(x, y)]
    ensures s == t
  {
    forall i | 0 <= i < 25 ensures s[i] == t[i] {
      assert i == Lane(i % 5, i / 5);
    }
  }

  // ---- the words of one round ----

  function ColumnParity(s: Words, x: nat): bv64
    requires x < 5
  {
    Xor(Xor(Xor(Xor(s[x], s[x + 5]), s[x + 10]), s[x + 15]), s[x + 20])
  }

  function ThetaWord(s: Words, x: nat): bv64
    requires x < 5
  {
    Xor(ColumnParity(s, (x + 4) % 5), RotateLeft(ColumnParity(s, (x + 1) % 5), 1))
  }

  function ThetaAt(s: Words, x: nat, y: nat): bv64
    requires x < 5 && y < 5
  {
    Xor(s[Lane(x, y)], ThetaWord(s, x))
  }

  /** The word that rho and pi together move to (x, y). */
  function RhoPiAt(s: Words, x: nat, y: nat): bv64
    requires x < 5 && y < 5
  {
    RotateLeft(s[Lane((x + 3 * y) % 5, x)], RotationOffset((x + 3 * y) % 5, x))
  }

  function ChiWord(p: bv64, q: bv64, r: bv64): bv64 { p ^ (!q & r) }

  function ChiAt(s: Words, x: nat, y: nat): bv64
    requires x < 5 && y < 5
  {
    ChiWord(s[Lane(x, y)], s[Lane((x + 1) % 5, y)], s[Lane((x + 2) % 5, y)])
  }

  function Theta(s: Words): Words { Tabulate((x: nat, y: nat) => if x < 5 && y < 5 then ThetaAt(s, x, y) else 0) }

  function RhoPi(s: Words): Words { Tabulate((x: nat, y: nat) => if x < 5 && y < 5 then RhoPiAt(s, x, y) else 0) }

  function Chi(s: Words): Words { Tabulate((x: nat, y: nat) => if x < 5 && y < 5 then ChiAt(s, x, y) else 0) }

  function Iota(s: Words, round: nat): Words
    requires round < 24
  {
    s[0 := Xor(s[0], ROUND_CONSTANTS[round])]
  }

  function Round(s: Words, round: nat): Words
    requires round < 24
  {
    Iota(Chi(RhoPi(Theta(s))), round)
  }

  /** Rounds from, from + 1, ..., 23. */
  function RoundsFrom(s: Words, from: nat): Words
    requires from <= 24
    decreases 24 - from
  {
    if from == 24 then s else RoundsFrom(Round(s, from), from + 1)
  }

  function KeccakF(s: Words): Words { RoundsFrom(s, 0) }

  lemma ColumnParityIs(s: Words, x: nat)
    requires x < 5
    ensures ColumnParity(s, x) == Xor(Xor(Xor(Xor(s[x], s[x + 5]), s[x + 10]), s[x + 15]), s[x + 20])
  {
  }

  lemma ChiAtIs(s: Words, x: nat, y: nat)
    requires x < 5 && y < 5
    ensures ChiAt(s, x, y) == ChiWord(s[Lane(x, y)], s[Lane((x + 1) % 5, y)], s[Lane((x + 2) % 5, y)])
  {
  }

  lemma ThetaStep(s: Words, x: nat, y: nat)
    requires x < 5 && y < 5
    ensures Theta(s)[Lane(x, y)] == ThetaAt(s, x, y)
  {
    hide Tabulate, ThetaAt;
    TabulateAt((x: nat, y: nat) => if x < 5 && y < 5 then ThetaAt(s, x, y) else 0);
  }

  lemma RhoPiStep(s: Words, x: nat, y: nat)
    requires x < 5 && y < 5
    ensures RhoPi(s)[Lane(x, y)] == RhoPiAt(s, x, y)
  {
    hide Tabulate, RhoPiAt;
    TabulateAt((x: nat, y: nat) => if x < 5 && y < 5 then RhoPiAt(s, x, y) else 0);
  }

  lemma ChiStep(s: Words, x: nat, y: nat)
    requires x < 5 && y < 5
    ensures Chi(s)[Lane(x, y)] == ChiAt(s, x, y)
  {
    hide Tabulate, ChiAt;
    TabulateAt((x: nat, y: nat) => if x < 5 && y < 5 then ChiAt(s, x, y) else 0);
  }

  // ---- the in-place permutation ----

  method KeccakPermutation(state: array<bv64>)
    requires state.Length == 25
    modifies state
    ensures state[..] == KeccakF(old(state[..]))
  {
    hide Round;
    for round := 0 to 24
      invariant RoundsFrom(state[..], round) == KeccakF(old(state[..]))
    {
      RoundInPlace(state, round);
    }
  }

  /** The body of the round loop. */
  method RoundInPlace(state: array<bv64>, round: nat)
    requires state.Length == 25 && round < 24
    modifies state
    ensures state[..] == Round(old(state[..]), round)
  {
    hide Theta, RhoPi, Chi, Xor;
    ThetaInPlace(state);
    var rotated := new bv64[25];
    RhoPiInto(state, rotated);
    ChiFrom(rotated, state);
    state[0] := Xor(state[0], ROUND_CONSTANTS[round]);
  }

  method ThetaInPlace(state: array<bv64>)
    requires state.Length == 25
    modifies state
    ensures state[..] == Theta(old(state[..]))
  {
    hide Xor, RotateLeft, Theta, ColumnParity;
    ghost var s: Words := state[..];
    var columnParity := new bv64[5];
    for x := 0 to 5
      invariant forall j :: 0 <= j < x ==> columnParity[j] == ColumnParity(s, j)
      invariant state[..] == s
    {
      ColumnParityIs(s, x);
      columnParity[x] := Xor(Xor(Xor(Xor(state[x], state[x + 5]), state[x + 10]), state[x + 15]), state[x + 20]);
    }
    var theta := new bv64[5];
    for x := 0 to 5
      invariant forall j :: 0 <= j < 5 ==> columnParity[j] == ColumnParity(s, j)
      invariant forall j :: 0 <= j < x ==> theta[j] == ThetaWord(s, j)
      invariant state[..] == s
    {
      theta[x] := Xor(columnParity[(x + 4) % 5], RotateLeft(columnParity[(x + 1) % 5], 1));
    }
    AddThetaWords(state, theta, s);
  }

  /** The loops that add theta[x] to every lane of column x. */
  method AddThetaWords(state: array<bv64>, theta: array<bv64>, ghost s: Words)
    requires state.Length == 25 && theta.Length == 5 && state != theta && state[..] == s
    requires forall j :: 0 <= j < 5 ==> theta[j] == ThetaWord(s, j)
    modifies state
    ensures state[..] == Theta(s)
  {
    hide Xor, Theta, ThetaWord;
    for x := 0 to 5
      invariant forall u, v :: 0 <= u < 5 && 0 <= v < 5 ==>
        state[Lane(u, v)] == (if u < x then ThetaAt(s, u, v) else s[Lane(u, v)])
    {
      for y := 0 to 5
        invariant forall u, v :: 0 <= u < 5 && 0 <= v < 5 ==>
          state[Lane(u, v)] == (if u < x || (u == x && v < y) then ThetaAt(s, u, v) else s[Lane(u, v)])
      {
        state[Lane(x, y)] := Xor(state[Lane(x, y)], theta[x]);
      }
    }
    forall x, y | 0 <= x < 5 && 0 <= y < 5 ensures state[Lane(x, y)] == Theta(s)[Lane(x, y)] {
      ThetaStep(s, x, y);
    }
    WordsEqual(state[..], Theta(s));
  }

  /** The row to which pi moves (x, y); the column is y. */
  function PiRow(x: int, y: int): (r: int)
    requires 0 <= x < 5 && 0 <= y < 5
    ensures 0 <= r < 5
  {
    (2 * x + 3 * y) % 5
  }

  lemma PiRowFacts(x: int, y: int)
    requires 0 <= x < 5 && 0 <= y < 5
    ensures forall u :: 0 <= u < 5 && PiRow(u, y) == PiRow(x, y) ==> u == x
    ensures PiRow((x + 3 * y) % 5, x) == y
  {
    forall u | 0 <= u < 5 && PiRow(u, y) == PiRow(x, y) ensures u == x {
      B.PiCoordinates(u, y);
      B.PiCoordinates(x, y);
    }
    B.PiCoordinates(x, y);
  }

  method RhoPiInto(state: array<bv64>, rotated: array<bv64>)
    requires state.Length == 25 && rotated.Length == 25 && state != rotated
    modifies rotated
    ensures rotated[..] == RhoPi(state[..])
  {
    hide RotateLeft, RhoPi, RotationOffset, PiRow;
    for x := 0 to 5
      invariant forall u, v :: 0 <= u < x && 0 <= v < 5 ==>
        rotated[Lane(v, PiRow(u, v))] == RotateLeft(state[Lane(u, v)], RotationOffset(u, v))
    {
      for y := 0 to 5
        invariant forall u, v :: 0 <= u <= x && 0 <= v < 5 && (u < x || v < y) ==>
          rotated[Lane(v, PiRow(u, v))] == RotateLeft(state[Lane(u, v)], RotationOffset(u, v))
      {
        PiRowFacts(x, y);
        rotated[Lane(y, PiRow(x, y))] := RotateLeft(state[Lane(x, y)], RotationOffset(x, y));
      }
    }
    RhoPiDone(state[..], rotated[..]);
  }

  lemma RhoPiDone(s: Words, t: Words)
    requires forall u, v :: 0 <= u < 5 && 0 <= v < 5 ==>
      t[Lane(v, PiRow(u, v))] == RotateLeft(s[Lane(u, v)], RotationOffset(u, v))
    ensures t == RhoPi(s)
  {
    hide RhoPi, RhoPiAt;
    forall x, y | 0 <= x < 5 && 0 <= y < 5 ensures t[Lane(x, y)] == RhoPi(s)[Lane(x, y)] {
      RhoPiStep(s, x, y);
      RhoPiArrives(s, t, x, y);
    }
    WordsEqual(t, RhoPi(s));
  }

  lemma RhoPiArrives(s: Words, t: Words, x: int, y: int)
    requires 0 <= x < 5 && 0 <= y < 5
    requires forall u, v :: 0 <= u < 5 && 0 <= v < 5 ==>
      t[Lane(v, PiRow(u, v))] == RotateLeft(s[Lane(u, v)], RotationOffset(u, v))
    ensures t[Lane(x, y)] == RhoPiAt(s, x, y)
  {
    hide RotateLeft, RotationOffset, PiRow;
    PiRowFacts(x, y);
    var u := (x + 3 * y) % 5;
    assert t[Lane(x, PiRow(u, x))] == RotateLeft(s[Lane(u, x)], RotationOffset(u, x));
  }

  method ChiFrom(rotated: array<bv64>, state: array<bv64>)
    requires state.Length == 25 && rotated.Length == 25 && state != rotated
    modifies state
    ensures state[..] == Chi(rotated[..])
  {
    hide ChiWord, Chi, ChiAt;
    for x := 0 to 5
      invariant forall u, v :: 0 <= u < x && 0 <= v < 5 ==> state[Lane(u, v)] == ChiAt(rotated[..], u, v)
    {
      for y := 0 to 5
        invariant forall u, v :: 0 <= u <= x && 0 <= v < 5 && (u < x || v < y) ==>
                                   state[Lane(u, v)] == ChiAt(rotated[..], u, v)
      {
        ChiAtIs(rotated[..], x, y);
        state[Lane(x, y)] := ChiWord(rotated[Lane(x, y)], rotated[Lane((x + 1) % 5, y)], rotated[Lane((x + 2) % 5, y)]);
      }
    }
    forall x, y | 0 <= x < 5 && 0 <= y < 5 ensures state[Lane(x, y)] == Chi(rotated[..])[Lane(x, y)] {
      ChiStep(rotated[..], x, y);
    }
    WordsEqual(state[..], Chi(rotated[..]));
  }

  // ---- words as lanes of bits ----

  function Tail(v: bv64, z: bv6): bv64 { v >> z }

  /** Bit z of a word; bit 0 is the least significant. */
  predicate Bit(v: bv64, z: bv6) { (v >> z) & 1 == 1 }

  function LaneOf(v: bv64): B.Lane { seq(64, z requires 0 <= z < 64 => Bit(v, Position(z))) }

  function BitsOf(s: Words): B.StateArray {
    seq(5, x requires 0 <= x < 5 => seq(5, y requires 0 <= y < 5 => LaneOf(s[Lane(x, y)])))
  }

  lemma {:induction false} PositionSum(m: nat, n: nat)
    ensures Position(m + n) == Position(m) + Position(n)
  {
    if n > 0 {
      PositionSum(m, n - 1);
    }
  }

  lemma PositionWraps()
    ensures Position(64) == 0
  {
    assert Position(1) == 1;
    PositionSum(1, 1);
    PositionSum(2, 2);
    PositionSum(4, 4);
    PositionSum(8, 8);
    PositionSum(16, 16);
    PositionSum(32, 32);
  }

  lemma {:induction false} PositionModulo(z: nat)
    ensures Position(z % 64) == Position(z)
    decreases z
  {
    hide Position;
    if z >= 64 {
      PositionModulo(z - 64);
      PositionWraps();
      PositionSum(z - 64, 64);
    }
  }

  lemma {:induction false} PositionDifference(z: nat, n: nat)
    requires z < 64 && n < 64
    ensures Position((z - n) % 64) == Position(z) - Position(n)
  {
    hide Position;
    if n <= z {
      PositionSum(z - n, n);
    } else {
      PositionSum(z - n + 64, n);
      PositionSum(z, 64);
      PositionWraps();
    }
  }

  lemma {:induction false} PositionValue(z: nat)
    requires z < 64
    ensures Position(z) as nat == z
  {
    if z > 0 {
      PositionValue(z - 1);
    }
  }

  lemma {:induction false} PositionOnto(w: bv6) returns (z: nat)
    ensures z < 64 && Position(z) == w
    decreases w
  {
    if w == 0 {
      z := 0;
    } else {
      z := PositionOnto(w - 1);
      PositionValue(z);
      z := z + 1;
    }
  }

  // -- rotation --

  lemma OrBit(v: bv64, w: bv64, z: bv6)
    ensures Bit(v | w, z) == (Bit(v, z) || Bit(w, z))
  {
  }

  lemma EitherBit(v: bv64, w: bv64, z: bv6)
    ensures Bit(Or(v, w), z) == (Bit(v, z) || Bit(w, z))
  {
    hide Bit;
    OrBit(v, w, z);
  }

  lemma LeftBitBelow8(v: bv64, n: Shift, z: bv6)
    requires n < 8
    ensures Bit(v << n, z) == (n <= z as bv64 && Bit(v, z - n as bv6))
  {
  }

  lemma LeftBitBelow16(v: bv64, n: Shift, z: bv6)
    requires 8 <= n < 16
    ensures Bit(v << n, z) == (n <= z as bv64 && Bit(v, z - n as bv6))
  {
  }

  lemma LeftBitBelow32(v: bv64, n: Shift, z: bv6)
    requires 16 <= n < 32
    ensures Bit(v << n, z) == (n <= z as bv64 && Bit(v, z - n as bv6))
  {
  }

  lemma LeftBitFrom32(v: bv64, n: Shift, z: bv6)
    requires 32 <= n
    ensures Bit(v << n, z) == (n <= z as bv64 && Bit(v, z - n as bv6))
  {
  }

  lemma RightBitBelow16(v: bv64, n: Shift, z: bv6)
    requires 0 < n < 16
    ensures Bit(v >> n, z) == (z as bv64 < 64 - n && Bit(v, z + n as bv6))
  {
  }

  lemma RightBitBelow32(v: bv64, n: Shift, z: bv6)
    requires 16 <= n < 32
    ensures Bit(v >> n, z) == (z as bv64 < 64 - n && Bit(v, z + n as bv6))
  {
  }

  lemma RightBitFrom32(v: bv64, n: Shift, z: bv6)
    requires 32 <= n
    ensures Bit(v >> n, z) == (z as bv64 < 64 - n && Bit(v, z + n as bv6))
  {
  }

  lemma LeftBit(v: bv64, n: Shift, z: bv6)
    ensures Bit(ShiftLeft(v, n), z) == (n <= z as bv64 && Bit(v, z - n as bv6))
  {
    hide Bit;
    if
    case n < 8 => LeftBitBelow8(v, n, z);
    case 8 <= n < 16 => LeftBitBelow16(v, n, z);
    case 16 <= n < 32 => LeftBitBelow32(v, n, z);
    case 32 <= n => LeftBitFrom32(v, n, z);
  }

  lemma RightBit(v: bv64, n: Shift, z: bv6)
    requires 0 < n
    ensures Bit(ShiftRight(v, n), z) == (z as bv64 < 64 - n && Bit(v, z + n as bv6))
  {
    hide Bit;
    if
    case n < 16 => RightBitBelow16(v, n, z);
    case 16 <= n < 32 => RightBitBelow32(v, n, z);
    case 32 <= n => RightBitFrom32(v, n, z);
  }

  lemma EitherShift(v: bv64, n: Shift, z: bv6, left: bool, right: bool)
    requires 0 < n
    requires left == (n <= z as bv64 && Bit(v, z - n as bv6))
    requires right == (z as bv64 < n && Bit(v, z + (64 - n) as bv6))
    ensures (left || right) == Bit(v, z - n as bv6)
  {
    hide Bit;
    assert z + (64 - n) as bv6 == z - n as bv6;
  }

  /** Rotating a word left by n moves bit z - n to bit z. */
  lemma RotatedBit(v: bv64, n: Shift, z: bv6)
    ensures Bit(RotateLeft(v, n), z) == Bit(v, z - n as bv6)
  {
    hide Bit, ShiftLeft, ShiftRight, Or;
    if n != 0 {
      EitherBit(ShiftLeft(v, n), ShiftRight(v, 64 - n), z);
      LeftBit(v, n, z);
      RightBit(v, 64 - n, z);
      EitherShift(v, n, z, Bit(ShiftLeft(v, n), z), Bit(ShiftRight(v, 64 - n), z));
    }
  }

  lemma {:induction false} RotatedLane(v: bv64, n: Shift, r: nat, z: nat)
    requires r < 64 && Position(r) == n as bv6 && z < 64
    ensures LaneOf(RotateLeft(v, n))[z] == LaneOf(v)[(z - r) % 64]
  {
    hide Bit, RotateLeft, Position;
    RotatedBit(v, n, Position(z));
    PositionDifference(z, r);
  }

  // -- a word is determined by its bits --

  lemma TailStepBelow16(a: bv64, k: bv6)
    requires k < 16
    ensures Tail(a, k + 1) == Tail(Tail(a, k), 1)
  {
  }

  lemma TailStepBelow32(a: bv64, k: bv6)
    requires 16 <= k < 32
    ensures Tail(a, k + 1) == Tail(Tail(a, k), 1)
  {
  }

  lemma TailStepFrom32(a: bv64, k: bv6)
    requires 32 <= k < 63
    ensures Tail(a, k + 1) == Tail(Tail(a, k), 1)
  {
  }

  lemma TailTop(a: bv64)
    ensures Tail(Tail(a, 63), 1) == 0 && Tail(a, 0) == a
  {
  }

  lemma BitOfTail(a: bv64, k: bv6)
    ensures Bit(a, k) == (Tail(a, k) & 1 == 1)
  {
  }

  lemma SameWord(x: bv64, y: bv64)
    requires (x & 1 == 1) == (y & 1 == 1) && Tail(x, 1) == Tail(y, 1)
    ensures x == y
  {
  }

  lemma SameTails(a: bv64, b: bv64, k: bv6)
    requires forall z: bv6 :: Bit(a, z) == Bit(b, z)
    ensures Tail(a, k) == Tail(b, k)
    decreases 63 - k
  {
    hide Tail, Bit;
    if {
      case k < 16 => SameTails(a, b, k + 1); TailStepBelow16(a, k); TailStepBelow16(b, k);
      case 16 <= k < 32 => SameTails(a, b, k + 1); TailStepBelow32(a, k); TailStepBelow32(b, k);
      case 32 <= k < 63 => SameTails(a, b, k + 1); TailStepFrom32(a, k); TailStepFrom32(b, k);
      case k == 63 => TailTop(a); TailTop(b);
    }
    assert Bit(a, k) == Bit(b, k);
    BitOfTail(a, k);
    BitOfTail(b, k);
    SameWord(Tail(a, k), Tail(b, k));
  }

  lemma LaneInjective(a: bv64, b: bv64)
    requires LaneOf(a) == LaneOf(b)
    ensures a == b
  {
    hide Tail, Bit, Position;
    forall w: bv6 ensures Bit(a, w) == Bit(b, w) {
      var z := PositionOnto(w);
      assert LaneOf(a)[z] == LaneOf(b)[z];
    }
    SameTails(a, b, 0);
    TailTop(a);
    TailTop(b);
  }

  lemma StateInjective(s: Words, t: Words)
    requires BitsOf(s) == BitsOf(t)
    ensures s == t
  {
    hide LaneOf;
    forall x, y | 0 <= x < 5 && 0 <= y < 5 ensures s[Lane(x, y)] == t[Lane(x, y)] {
      assert BitsOf(s)[x][y] == BitsOf(t)[x][y];
      LaneInjective(s[Lane(x, y)], t[Lane(x, y)]);
    }
    WordsEqual(s, t);
  }

  // -- the step mappings --

  lemma WordXorBit(v: bv64, w: bv64, z: bv6)
    ensures Bit(v ^ w, z) == (Bit(v, z) != Bit(w, z))
  {
  }

  lemma XorBit(v: bv64, w: bv64, z: bv6)
    ensures Bit(Xor(v, w), z) == B.Xor(Bit(v, z), Bit(w, z))
  {
    hide Bit;
    WordXorBit(v, w, z);
  }

  lemma AndNotBit(q: bv64, r: bv64, z: bv6)
    ensures Bit(!q & r, z) == (!Bit(q, z) && Bit(r, z))
  {
  }

  lemma ChiBit(p: bv64, q: bv64, r: bv64, z: bv6)
    ensures Bit(ChiWord(p, q, r), z) == B.ChiBit(Bit(p, z), Bit(q, z), Bit(r, z))
  {
    hide Bit;
    AndNotBit(q, r, z);
    WordXorBit(p, !q & r, z);
  }

  lemma {:induction false} LaneBit(v: bv64, z: nat)
    requires z < 64
    ensures LaneOf(v)[z] == Bit(v, Position(z))
  {
    hide Bit, Position;
  }

  lemma BitsLane(s: Words, x: nat, y: nat)
    requires x < 5 && y < 5
    ensures BitsOf(s)[x][y] == LaneOf(s[Lane(x, y)])
  {
    hide LaneOf, Lane;
  }

  lemma {:induction false} StateBit(s: Words, x: nat, y: nat, z: nat)
    requires x < 5 && y < 5 && z < 64
    ensures BitsOf(s)[x][y][z] == Bit(s[Lane(x, y)], Position(z))
    ensures B.At(BitsOf(s), x, y, z) == Bit(s[Lane(x, y)], Position(z))
  {
    hide Bit, Position, BitsOf, LaneOf, Lane, B.At;
    B.AtWithin(BitsOf(s), x, y, z);
    BitsLane(s, x, y);
    LaneBit(s[Lane(x, y)], z);
  }

  lemma {:induction false} ParityBit(s: Words, x: nat, z: nat)
    requires x < 5 && z < 64
    ensures LaneOf(ColumnParity(s, x))[z] == B.Parity(BitsOf(s), x, z)
  {
    hide Bit, Xor, Position, BitsOf, B.At;
    var w := Position(z);
    XorBit(s[x], s[x + 5], w);
    XorBit(Xor(s[x], s[x + 5]), s[x + 10], w);
    XorBit(Xor(Xor(s[x], s[x + 5]), s[x + 10]), s[x + 15], w);
    XorBit(Xor(Xor(Xor(s[x], s[x + 5]), s[x + 10]), s[x + 15]), s[x + 20], w);
    StateBit(s, x, 0, z);
    StateBit(s, x, 1, z);
    StateBit(s, x, 2, z);
    StateBit(s, x, 3, z);
    StateBit(s, x, 4, z);
  }

  lemma {:induction false} ThetaWordBit(s: Words, x: nat, z: nat)
    requires x < 5 && z < 64
    ensures LaneOf(ThetaWord(s, x))[z] == B.Effect(BitsOf(s), 1, 1, x, z)
  {
    hide Bit, Xor, RotateLeft, ColumnParity, BitsOf, B.Parity;
    var (u, v) := ((x + 4) % 5, (x + 1) % 5);
    XorBit(ColumnParity(s, u), RotateLeft(ColumnParity(s, v), 1), Position(z));
    assert Position(1) == 1;
    RotatedLane(ColumnParity(s, v), 1, 1, z);
    ParityBit(s, u, z);
    ParityBit(s, v, (z - 1) % 64);
    B.ParityMod(BitsOf(s), x - 1, z, 0, 0);
    B.ParityMod(BitsOf(s), x + 1, z - 1, 0, 0);
    assert u == (x - 1) % 5;
  }

  lemma BitsEqual(s: Words, a: B.StateArray)
    requires forall x, y, z :: 0 <= x < 5 && 0 <= y < 5 && 0 <= z < 64 ==> LaneOf(s[Lane(x, y)])[z] == a[x][y][z]
    ensures BitsOf(s) == a
  {
    hide LaneOf;
    B.StateEquality(BitsOf(s), a);
  }

  lemma {:induction false} ThetaBitsAt(s: Words, x: nat, y: nat, z: nat)
    requires x < 5 && y < 5 && z < 64
    ensures LaneOf(Theta(s)[Lane(x, y)])[z] == B.Theta(BitsOf(s))[x][y][z]
  {
    hide Bit, Xor, ThetaWord, Theta, B.Effect, Position;
    ThetaStep(s, x, y);
    XorBit(s[Lane(x, y)], ThetaWord(s, x), Position(z));
    ThetaWordBit(s, x, z);
  }

  lemma ThetaBits(s: Words)
    ensures BitsOf(Theta(s)) == B.Theta(BitsOf(s))
  {
    hide Theta, Lane, B.Theta, LaneOf, BitsOf;
    forall x, y, z | 0 <= x < 5 && 0 <= y < 5 && 0 <= z < 64
      ensures LaneOf(Theta(s)[Lane(x, y)])[z] == B.Theta(BitsOf(s))[x][y][z]
    {
      ThetaBitsAt(s, x, y, z);
    }
    BitsEqual(Theta(s), B.Theta(BitsOf(s)));
  }

  lemma {:induction false} RhoPiBitsAt(s: Words, x: nat, y: nat, z: nat)
    requires x < 5 && y < 5 && z < 64
    ensures LaneOf(RhoPi(s)[Lane(x, y)])[z] == B.Pi(B.Rho(BitsOf(s)))[x][y][z]
  {
    hide Bit, LaneOf, RotateLeft, RhoPi, Position;
    RhoPiStep(s, x, y);
    var u := (x + 3 * y) % 5;
    var r := ROTATION_OFFSETS[Lane(u, x)];
    assert r == B.Offset(u, x);
    RotatedLane(s[Lane(u, x)], RotationOffset(u, x), r, z);
    assert BitsOf(s)[u][x] == LaneOf(s[Lane(u, x)]);
    assert B.Rho(BitsOf(s))[u][x][z] == LaneOf(s[Lane(u, x)])[(z - r) % 64];
  }

  lemma RhoPiBits(s: Words)
    ensures BitsOf(RhoPi(s)) == B.Pi(B.Rho(BitsOf(s)))
  {
    hide RhoPi, Lane, B.Pi, B.Rho, LaneOf, BitsOf;
    forall x, y, z | 0 <= x < 5 && 0 <= y < 5 && 0 <= z < 64
      ensures LaneOf(RhoPi(s)[Lane(x, y)])[z] == B.Pi(B.Rho(BitsOf(s)))[x][y][z]
    {
      RhoPiBitsAt(s, x, y, z);
    }
    BitsEqual(RhoPi(s), B.Pi(B.Rho(BitsOf(s))));
  }

  lemma {:induction false} ChiBitsAt(s: Words, x: nat, y: nat, z: nat)
    requires x < 5 && y < 5 && z < 64
    ensures LaneOf(ChiAt(s, x, y))[z] == B.Chi(BitsOf(s))[x][y][z]
  {
    hide Bit, ChiWord, B.ChiBit, Position, LaneOf, BitsOf, B.Chi, Lane;
    ChiBit(s[Lane(x, y)], s[Lane((x + 1) % 5, y)], s[Lane((x + 2) % 5, y)], Position(z));
    LaneBit(ChiAt(s, x, y), z);
    B.ChiAt(BitsOf(s), x, y, z);
    StateBit(s, x, y, z);
    StateBit(s, (x + 1) % 5, y, z);
    StateBit(s, (x + 2) % 5, y, z);
  }

  lemma ChiBits(s: Words)
    ensures BitsOf(Chi(s)) == B.Chi(BitsOf(s))
  {
    hide Chi, Lane, B.Chi, LaneOf, BitsOf;
    forall x, y, z | 0 <= x < 5 && 0 <= y < 5 && 0 <= z < 64
      ensures LaneOf(Chi(s)[Lane(x, y)])[z] == B.Chi(BitsOf(s))[x][y][z]
    {
      ChiStep(s, x, y);
      ChiBitsAt(s, x, y, z);
    }
    BitsEqual(Chi(s), B.Chi(BitsOf(s)));
  }

  // -- round constants --

  /** The round constant whose bits 0, 1, 3, 7, 15, 31, 63 are the seven bits that the shift register
      puts out from r on. */
  function SparseWord(r: bv8): bv64 {
    var r1 := B.LfsrStep(r);
    var r2 := B.LfsrStep(r1);
    var r3 := B.LfsrStep(r2);
    var r4 := B.LfsrStep(r3);
    var r5 := B.LfsrStep(r4);
    var r6 := B.LfsrStep(r5);
    SevenBits(r & 1 == 1, r1 & 1 == 1, r2 & 1 == 1, r3 & 1 == 1, r4 & 1 == 1, r5 & 1 == 1, r6 & 1 == 1)
  }

  function SevenBits(b0: bool, b1: bool, b2: bool, b3: bool, b4: bool, b5: bool, b6: bool): bv64 {
    (if b0 then 0x1 else 0) | (if b1 then 0x2 else 0) | (if b2 then 0x8 else 0) | (if b3 then 0x80 else 0) |
    (if b4 then 0x8000 else 0) | (if b5 then 0x8000_0000 else 0) | (if b6 then 0x8000_0000_0000_0000 else 0)
  }

  lemma SevenBitsAt(b0: bool, b1: bool, b2: bool, b3: bool, b4: bool, b5: bool, b6: bool, z: bv6)
    ensures Bit(SevenBits(b0, b1, b2, b3, b4, b5, b6), z) ==
      ((z == 0 && b0) || (z == 1 && b1) || (z == 3 && b2) || (z == 7 && b3) ||
       (z == 15 && b4) || (z == 31 && b5) || (z == 63 && b6))
  {
  }

  function SevenSteps(r: bv8): bv8 {
    B.LfsrStep(B.LfsrStep(B.LfsrStep(B.LfsrStep(B.LfsrStep(B.LfsrStep(B.LfsrStep(r)))))))
  }

  /** The shift register at the start of a round. */
  function RegisterAt(round: nat): bv8 {
    if round == 0 then 1 else SevenSteps(RegisterAt(round - 1))
  }

  lemma {:induction false} LfsrNext(t: nat)
    ensures B.Lfsr(t + 1) == B.LfsrStep(B.Lfsr(t))
  {
    hide B.LfsrStep;
  }

  lemma {:induction false} LfsrAfterSeven(t: nat)
    ensures B.Lfsr(t + 7) == SevenSteps(B.Lfsr(t))
    ensures B.Lfsr(t + 1) == B.LfsrStep(B.Lfsr(t)) && B.Lfsr(t + 2) == B.LfsrStep(B.Lfsr(t + 1))
    ensures B.Lfsr(t + 3) == B.LfsrStep(B.Lfsr(t + 2)) && B.Lfsr(t + 4) == B.LfsrStep(B.Lfsr(t + 3))
    ensures B.Lfsr(t + 5) == B.LfsrStep(B.Lfsr(t + 4)) && B.Lfsr(t + 6) == B.LfsrStep(B.Lfsr(t + 5))
  {
    hide B.LfsrStep, B.Lfsr;
    LfsrNext(t);
    LfsrNext(t + 1);
    LfsrNext(t + 2);
    LfsrNext(t + 3);
    LfsrNext(t + 4);
    LfsrNext(t + 5);
    LfsrNext(t + 6);
  }

  lemma {:induction false} RegisterIsLfsr(round: nat)
    ensures RegisterAt(round) == B.Lfsr(7 * round)
  {
    hide SevenSteps;
    if round > 0 {
      RegisterIsLfsr(round - 1);
      LfsrAfterSeven(7 * round - 7);
    }
  }

  lemma {:induction false} SparseWordIs(t: nat)
    ensures SparseWord(B.Lfsr(t)) ==
      SevenBits(B.RoundBit(t), B.RoundBit(t + 1), B.RoundBit(t + 2), B.RoundBit(t + 3),
                B.RoundBit(t + 4), B.RoundBit(t + 5), B.RoundBit(t + 6))
  {
    hide B.LfsrStep, B.Lfsr, SevenBits;
    LfsrAfterSeven(t);
  }

  lemma {:induction false} SparseWordBit(round: nat, z: nat)
    requires z < 64
    ensures LaneOf(SparseWord(RegisterAt(round)))[z] == B.RoundConstantBit(round, z)
  {
    hide Bit, SparseWord, SevenBits, RegisterAt, Position, B.RoundBit, B.Lfsr;
    RegisterIsLfsr(round);
    var t := 7 * round;
    SparseWordIs(t);
    PositionValue(z);
    SevenBitsAt(B.RoundBit(t), B.RoundBit(t + 1), B.RoundBit(t + 2), B.RoundBit(t + 3),
                B.RoundBit(t + 4), B.RoundBit(t + 5), B.RoundBit(t + 6), Position(z));
  }

  predicate ConstantMatches(round: nat)
    requires round < 24
  {
    ROUND_CONSTANTS[round] == SparseWord(RegisterAt(round))
  }

  lemma RegisterStep(round: nat, r: bv8)
    requires round < 23 && RegisterAt(round) == r
    ensures RegisterAt(round + 1) == SevenSteps(r)
  {
  }

  lemma ConstantsFrom0()
    ensures RegisterAt(2) == 0xd8
    ensures ConstantMatches(0) && ConstantMatches(1)
  {
    assert RegisterAt(0) == 1;
    hide RegisterAt;
    RegisterStep(0, 0x1);
    RegisterStep(1, 0x80);
  }

  lemma ConstantsFrom2()
    requires RegisterAt(2) == 0xd8
    ensures RegisterAt(4) == 0xdf
    ensures ConstantMatches(2) && ConstantMatches(3)
  {
    hide RegisterAt;
    RegisterStep(2, 0xd8);
    RegisterStep(3, 0x1a);
  }

  lemma ConstantsFrom4()
    requires RegisterAt(4) == 0xdf
    ensures RegisterAt(6) == 0x35
    ensures ConstantMatches(4) && ConstantMatches(5)
  {
    hide RegisterAt;
    RegisterStep(4, 0xdf);
    RegisterStep(5, 0x9);
  }

  lemma ConstantsFrom6()
    requires RegisterAt(6) == 0x35
    ensures RegisterAt(8) == 0xca
    ensures ConstantMatches(6) && ConstantMatches(7)
  {
    hide RegisterAt;
    RegisterStep(6, 0x35);
    RegisterStep(7, 0x4f);
  }

  lemma ConstantsFrom8()
    requires RegisterAt(8) == 0xca
    ensures RegisterAt(10) == 0x41
    ensures ConstantMatches(8) && ConstantMatches(9)
  {
    hide RegisterAt;
    RegisterStep(8, 0xca);
    RegisterStep(9, 0x70);
  }

  lemma ConstantsFrom10()
    requires RegisterAt(10) == 0x41
    ensures RegisterAt(12) == 0xd5
    ensures ConstantMatches(10) && ConstantMatches(11)
  {
    hide RegisterAt;
    RegisterStep(10, 0x41);
    RegisterStep(11, 0xec);
  }

  lemma ConstantsFrom12()
    requires RegisterAt(12) == 0xd5
    ensures RegisterAt(14) == 0x63
    ensures ConstantMatches(12) && ConstantMatches(13)
  {
    hide RegisterAt;
    RegisterStep(12, 0xd5);
    RegisterStep(13, 0xcd);
  }

  lemma ConstantsFrom14()
    requires RegisterAt(14) == 0x63
    ensures RegisterAt(16) == 0xaa
    ensures ConstantMatches(14) && ConstantMatches(15)
  {
    hide RegisterAt;
    RegisterStep(14, 0x63);
    RegisterStep(15, 0xab);
  }

  lemma ConstantsFrom16()
    requires RegisterAt(16) == 0xaa
    ensures RegisterAt(18) == 0xf2
    ensures ConstantMatches(16) && ConstantMatches(17)
  {
    hide RegisterAt;
    RegisterStep(16, 0xaa);
    RegisterStep(17, 0x2a);
  }

  lemma ConstantsFrom18()
    requires RegisterAt(18) == 0xf2
    ensures RegisterAt(20) == 0x37
    ensures ConstantMatches(18) && ConstantMatches(19)
  {
    hide RegisterAt;
    RegisterStep(18, 0xf2);
    RegisterStep(19, 0xe8);
  }

  lemma ConstantsFrom20()
    requires RegisterAt(20) == 0x37
    ensures RegisterAt(22) == 0xb
    ensures ConstantMatches(20) && ConstantMatches(21)
  {
    hide RegisterAt;
    RegisterStep(20, 0x37);
    RegisterStep(21, 0x3e);
  }

  lemma ConstantsFrom22()
    requires RegisterAt(22) == 0xb
    ensures ConstantMatches(22) && ConstantMatches(23)
  {
    hide RegisterAt;
    RegisterStep(22, 0xb);
  }

  /** Every entry of the table is the round constant that the shift register of FIPS 202 generates. */
  lemma {:induction false} RoundConstantsFollowLfsr(round: nat, z: nat)
    requires round < 24 && z < 64
    ensures LaneOf(ROUND_CONSTANTS[round])[z] == B.RoundConstantBit(round, z)
  {
    hide RegisterAt, ConstantMatches;
    ConstantsFrom0();
    ConstantsFrom2();
    ConstantsFrom4();
    ConstantsFrom6();
    ConstantsFrom8();
    ConstantsFrom10();
    ConstantsFrom12();
    ConstantsFrom14();
    ConstantsFrom16();
    ConstantsFrom18();
    ConstantsFrom20();
    ConstantsFrom22();
    ConstantMeans(round);
    hide SparseWord, B.RoundConstantBit, LaneOf;
    SparseWordBit(round, z);
  }

  lemma ConstantMeans(round: nat)
    requires round < 24 && ConstantMatches(round)
    ensures ROUND_CONSTANTS[round] == SparseWord(RegisterAt(round))
  {
  }

  lemma {:induction false} IotaBitsAt(s: Words, round: nat, x: nat, y: nat, z: nat)
    requires round < 24 && x < 5 && y < 5 && z < 64
    ensures LaneOf(Iota(s, round)[Lane(x, y)])[z] == B.Iota(BitsOf(s), round)[x][y][z]
  {
    hide Bit, Xor, B.RoundConstantBit, Position;
    XorBit(s[0], ROUND_CONSTANTS[round], Position(z));
    RoundConstantsFollowLfsr(round, z);
  }

  lemma {:induction false} IotaBits(s: Words, round: nat)
    requires round < 24
    ensures BitsOf(Iota(s, round)) == B.Iota(BitsOf(s), round)
  {
    hide Iota, LaneOf, BitsOf, B.Iota, Lane;
    forall x, y, z | 0 <= x < 5 && 0 <= y < 5 && 0 <= z < 64
      ensures LaneOf(Iota(s, round)[Lane(x, y)])[z] == B.Iota(BitsOf(s), round)[x][y][z]
    {
      IotaBitsAt(s, round, x, y, z);
    }
    BitsEqual(Iota(s, round), B.Iota(BitsOf(s), round));
  }

  // -- the permutation --

  lemma {:induction false} RoundBits(s: Words, round: nat)
    requires round < 24
    ensures BitsOf(Round(s, round)) == B.Round(BitsOf(s), round)
  {
    hide Theta, RhoPi, Chi, Iota, BitsOf, B.Theta, B.Rho, B.Pi, B.Chi, B.Iota;
    ThetaBits(s);
    RhoPiBits(Theta(s));
    ChiBits(RhoPi(Theta(s)));
    IotaBits(Chi(RhoPi(Theta(s))), round);
  }

  lemma {:induction false} RoundsBits(s: Words, from: nat)
    requires from <= 24
    ensures BitsOf(RoundsFrom(s, from)) == B.RoundsFrom(BitsOf(s), from)
    decreases 24 - from
  {
    hide Round, BitsOf, B.Round;
    if from < 24 {
      RoundBits(s, from);
      RoundsBits(Round(s, from), from + 1);
    }
  }

  /** The word permutation is Keccak-f[1600] of FIPS 202 on the bits of the lanes. */
  lemma KeccakFBits(s: Words)
    ensures BitsOf(KeccakF(s)) == B.KeccakF(BitsOf(s))
  {
    hide Round, BitsOf, B.Round;
    RoundsBits(s, 0);
  }

  /** Two different states never permute to the same state. */
  lemma KeccakFInjective(s: Words, t: Words)
    requires KeccakF(s) == KeccakF(t)
    ensures s == t
  {
    hide KeccakF, BitsOf, B.KeccakF, B.InverseKeccakF;
    KeccakFBits(s);
    KeccakFBits(t);
    B.KeccakFIsBijective(BitsOf(s));
    B.KeccakFIsBijective(BitsOf(t));
    StateInjective(s, t);
  }
}
