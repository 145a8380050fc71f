/** keccak256 of client/src/support/EthereumHash.cpp: padding, absorbing and squeezing over bytes and
    words, against the sponge of section 4 of FIPS 202 over bits. */
module KeccakSponge {
  import B = KeccakBits
  import W = KeccakWords
  import opened Wrappers

  const RATE_BYTES: nat := 136
  const RATE_BITS: nat := 1088
  const STATE_BITS: nat := 1600

  // ---- the sponge over bits ----

  function ZeroBits(n: nat): (s: seq<bool>)
    ensures |s| == n
  {
    seq(n, _ => false)
  }

  /** pad10*1(x, m) of section 5.1. */
  function Pad10Star1(x: nat, m: nat): seq<bool>
    requires x > 0
  {
    [true] + ZeroBits((-(m as int) - 2) % x) + [true]
  }

  type StateString = s: seq<bool> | |s| == 1600 witness seq(1600, _ => false)

  /** Section 3.1.3: S[64 (5 y + x) + z] is A[x, y, z]. */
  function StringOf(a: B.StateArray): StateString {
    seq(1600, i requires 0 <= i < 1600 => a[i / 64 % 5][i / 64 / 5][i % 64])
  }

  /** Section 3.1.2. */
  function ArrayOf(s: StateString): B.StateArray {
    seq(5, x requires 0 <= x < 5 => seq(5, y requires 0 <= y < 5 => seq(64, z requires 0 <= z < 64 =>
      s[64 * (x + 5 * y) + z])))
  }

  function KeccakF(s: StateString): StateString { StringOf(B.KeccakF(ArrayOf(s))) }

  function XorStrings(s: seq<bool>, t: seq<bool>): (r: seq<bool>)
    requires |s| == |t|
    ensures |r| == |s|
  {
    seq(|s|, i requires 0 <= i < |s| => B.Xor(s[i], t[i]))
  }

  /** The absorbing loop of algorithm 8 with rate 1088. */
  function Absorb(s: StateString, p: seq<bool>): StateString
    decreases |p|
  {
    if |p| < RATE_BITS then s
    else Absorb(KeccakF(XorStrings(s, p[..RATE_BITS] + ZeroBits(STATE_BITS - RATE_BITS))), p[RATE_BITS..])
  }

  /** The first 256 bits squeezed out of the already padded string p. */
  function SpongePadded(p: seq<bool>): seq<bool> { Absorb(ZeroBits(1600), p)[..256] }

  /** SPONGE[Keccak-f[1600], pad10*1, 1088](n, 256). */
  function Sponge(n: seq<bool>): seq<bool> { SpongePadded(n + Pad10Star1(RATE_BITS, |n|)) }

  // ---- bytes and words ----

  /** The bits of a byte, least significant first. */
  function ByteBits(b: bv8): (s: seq<bool>)
    ensures |s| == 8
  {
    [b & 0x01 != 0, b & 0x02 != 0, b & 0x04 != 0, b & 0x08 != 0,
     b & 0x10 != 0, b & 0x20 != 0, b & 0x40 != 0, b & 0x80 != 0]
  }

  function BitsOfBytes(p: seq<bv8>): (s: seq<bool>)
    ensures |s| == 8 * |p|
  {
    seq(8 * |p|, i requires 0 <= i < 8 * |p| => ByteBits(p[i / 8])[i % 8])
  }

  /** 8 * index as a shift amount. */
  function ByteShift(index: nat): W.Shift
    requires index < 8
  {
    if index == 0 then 0 else if index == 1 then 8 else if index == 2 then 16 else if index == 3 then 24
    else if index == 4 then 32 else if index == 5 then 40 else if index == 6 then 48 else 56
  }

  function PlaceByte(b: bv8, n: W.Shift): bv64 { (b as bv64) << n }

  function ByteAt(v: bv64, n: W.Shift): bv8 { ((v >> n) & 0xff) as bv8 }

  function OrBytes(a: bv8, b: bv8): bv8 { a | b }

  /** value with byte b or-ed into byte position index. */
  function PutByte(value: bv64, b: bv8, index: nat): bv64
    requires index < 8
  {
    value | PlaceByte(b, ByteShift(index))
  }

  /** The word whose first bytes, least significant first, are b; the others are 0. */
  function WordFrom(b: seq<bv8>): bv64
    requires |b| <= 8
  {
    if |b| == 0 then 0 else PutByte(WordFrom(b[..|b| - 1]), b[|b| - 1], |b| - 1)
  }

  function WordByte(v: bv64, index: nat): bv8
    requires index < 8
  {
    ByteAt(v, ByteShift(index))
  }

  function WordBytes(v: bv64): (s: seq<bv8>)
    ensures |s| == 8
  {
    seq(8, index requires 0 <= index < 8 => WordByte(v, index))
  }

  method ReadLittleEndianWord(block: seq<bv8>, offset: nat) returns (value: bv64)
    requires offset + 8 <= |block|
    ensures value == WordFrom(block[offset..offset + 8])
  {
    hide PutByte;
    value := 0;
    for index := 0 to 8
      invariant value == WordFrom(block[offset..offset + index])
    {
      ghost var longer := block[offset..offset + index + 1];
      assert longer[..|longer| - 1] == block[offset..offset + index];
      value := PutByte(value, block[offset + index], index);
    }
  }

  method AppendLittleEndianWord(output: seq<bv8>, value: bv64) returns (appended: seq<bv8>)
    ensures appended == output + WordBytes(value)
  {
    hide WordByte;
    appended := output;
    for index := 0 to 8
      invariant appended == output + WordBytes(value)[..index]
    {
      appended := appended + [WordByte(value, index)];
    }
  }

  // ---- keccak256 ----

  function ZeroBytes(n: nat): (s: seq<bv8>)
    ensures |s| == n
  {
    seq(n, _ => 0)
  }

  /** What the padding loop appends to an input of n bytes. */
  function Padding(n: nat): seq<bv8> { [0x01] + ZeroBytes((134 - n) % 136) + [0x80] }

  function Pad(input: seq<bv8>): seq<bv8> { input + Padding(|input|) }

  /** The block added lane by lane to the first 17 words. */
  function AddBlock(s: W.Words, block: seq<bv8>): W.Words
    requires |block| == 136
  {
    seq(25, i requires 0 <= i < 25 => if i < 17 then W.Xor(s[i], WordFrom(block[8 * i..8 * i + 8])) else s[i])
  }

  function AbsorbBytes(s: W.Words, p: seq<bv8>): W.Words
    decreases |p|
  {
    if |p| < 136 then s else AbsorbBytes(W.KeccakF(AddBlock(s, p[..136])), p[136..])
  }

  function ZeroWords(): W.Words { seq(25, _ => 0) }

  function FinalState(input: seq<bv8>): W.Words { AbsorbBytes(ZeroWords(), Pad(input)) }

  function Digest(input: seq<bv8>): seq<bv8> {
    Squeezed(FinalState(input), 4)
  }

  method PadInput(input: seq<bv8>) returns (padded: seq<bv8>)
    ensures padded == Pad(input)
  {
    padded := input + [0x01];
    ghost var zeros: nat := 0;
    while |padded| % RATE_BYTES != RATE_BYTES - 1
      invariant padded == input + [0x01] + ZeroBytes(zeros)
      invariant zeros <= (134 - |input|) % 136
      decreases (134 - |input|) % 136 - zeros
    {
      padded := padded + [0x00];
      zeros := zeros + 1;
    }
    padded := padded + [0x80];
  }

  lemma SliceOfSlice(bytes: seq<bv8>, offset: nat, length: nat, i: nat)
    requires offset + length <= |bytes| && i + 8 <= length
    ensures bytes[offset + i..offset + i + 8] == bytes[offset..offset + length][i..i + 8]
  {
    var window := bytes[offset..offset + length];
    var part, same := bytes[offset + i..offset + i + 8], window[i..i + 8];
    forall k | 0 <= k < 8 ensures part[k] == same[k] {
      assert window[i + k] == bytes[offset + i + k];
    }
  }

  /** The lane loop of the absorbing loop. */
  method AddBlockInPlace(state: array<bv64>, padded: seq<bv8>, offset: nat)
    requires state.Length == 25 && offset + 136 <= |padded|
    modifies state
    ensures state[..] == AddBlock(old(state[..]), padded[offset..offset + 136])
  {
    hide WordFrom, W.Xor;
    ghost var s: W.Words := state[..];
    ghost var block := padded[offset..offset + 136];
    for lane := 0 to 17
      invariant forall i :: 0 <= i < lane ==> state[i] == AddBlock(s, block)[i]
      invariant forall i :: lane <= i < 25 ==> state[i] == s[i]
    {
      var word := ReadLittleEndianWord(padded, offset + lane * 8);
      SliceOfSlice(padded, offset, 136, 8 * lane);
      state[lane] := W.Xor(state[lane], word);
    }
  }

  method Keccak256(input: seq<bv8>) returns (output: seq<bv8>)
    ensures output == Digest(input)
  {
    hide AddBlock, W.KeccakF, WordBytes;
    var state := new bv64[25](_ => 0);
    var padded := PadInput(input);
    PadLength(input);
    var offset := 0;
    assert state[..] == ZeroWords();
    assert padded[0..] == padded;
    while offset < |padded|
      invariant 0 <= offset <= |padded| && offset % 136 == 0
      invariant AbsorbBytes(state[..], padded[offset..]) == FinalState(input)
    {
      ghost var rest := padded[offset..];
      assert rest[..136] == padded[offset..offset + 136] && rest[136..] == padded[offset + 136..];
      AddBlockInPlace(state, padded, offset);
      W.KeccakPermutation(state);
      offset := offset + RATE_BYTES;
    }
    output := Squeeze(state);
  }

  method Squeeze(state: array<bv64>) returns (output: seq<bv8>)
    requires state.Length == 25
    ensures output == Squeezed(state[..], 4)
  {
    hide WordBytes;
    output := [];
    var lane := 0;
    while |output| < 32
      invariant 0 <= lane <= 4 && |output| == 8 * lane
      invariant output == Squeezed(state[..], lane)
      decreases 32 - |output|
    {
      var word := AppendLittleEndianWord([], state[lane]);
      output := output + word[..if 8 < 32 - |output| then 8 else 32 - |output|];
      lane := lane + 1;
    }
  }

  function Squeezed(s: W.Words, lanes: nat): seq<bv8>
    requires lanes <= 25
  {
    if lanes == 0 then [] else Squeezed(s, lanes - 1) + WordBytes(s[lanes - 1])
  }

  // ---- words and bytes hold the same bits ----

  lemma OrByte(v: bv64, w: bv64, n: W.Shift)
    ensures ByteAt(v | w, n) == OrBytes(ByteAt(v, n), ByteAt(w, n))
  {
  }

  lemma PlacedByte(b: bv8, n: W.Shift, m: W.Shift)
    requires n & 7 == 0 && m & 7 == 0
    ensures ByteAt(PlaceByte(b, n), m) == if m == n then b else 0
  {
  }

  lemma ByteShifts(index: nat, j: nat)
    requires index < 8 && j < 8
    ensures ByteShift(index) & 7 == 0 && (ByteShift(index) == ByteShift(j) <==> index == j)
  {
  }

  lemma PutByteKeeps(v: bv64, b: bv8, index: nat, j: nat)
    requires index < 8 && j < 8
    ensures WordByte(PutByte(v, b, index), j) == OrBytes(WordByte(v, j), if j == index then b else 0)
  {
    hide ByteShift, ByteAt, PlaceByte, OrBytes;
    ByteShifts(index, j);
    ByteShifts(j, index);
    OrByte(v, PlaceByte(b, ByteShift(index)), ByteShift(j));
    PlacedByte(b, ByteShift(index), ByteShift(j));
  }

  lemma OrWithZero(a: bv8)
    ensures OrBytes(a, 0) == a && OrBytes(0, a) == a
  {
  }

  lemma {:induction false} WordFromBytes(b: seq<bv8>, j: nat)
    requires |b| <= 8 && j < 8
    ensures WordByte(WordFrom(b), j) == if j < |b| then b[j] else 0
  {
    hide WordByte, PutByte, OrBytes;
    if |b| == 0 {
      ZeroWordByte(j);
    } else {
      var init := b[..|b| - 1];
      WordFromBytes(init, j);
      PutByteKeeps(WordFrom(init), b[|b| - 1], |b| - 1, j);
      OrWithZero(WordByte(WordFrom(init), j));
      OrWithZero(b[|b| - 1]);
    }
  }

  lemma ZeroWordByte(j: nat)
    requires j < 8
    ensures WordByte(0, j) == 0
  {
  }

  lemma BytesDetermineWord(b: seq<bv8>)
    requires |b| == 8
    ensures WordBytes(WordFrom(b)) == b
  {
    hide WordByte, WordFrom;
    forall j | 0 <= j < 8 ensures WordBytes(WordFrom(b))[j] == b[j] {
      WordFromBytes(b, j);
    }
  }

  function BytePosition(k: nat): bv6
    requires k < 8
  {
    if k == 0 then 0 else if k == 1 then 8 else if k == 2 then 16 else if k == 3 then 24
    else if k == 4 then 32 else if k == 5 then 40 else if k == 6 then 48 else 56
  }

  lemma {:induction false} BytePositions(k: nat)
    requires k < 8
    ensures W.Position(8 * k) == BytePosition(k)
  {
    if k > 0 {
      BytePositions(k - 1);
      W.PositionSum(8 * k - 8, 8);
      assert W.Position(8) == 8;
    }
  }

  lemma ByteBitsOfWord(v: bv64, k: nat)
    requires k < 8
    ensures ByteBits(WordByte(v, k)) == [
      W.Bit(v, BytePosition(k)), W.Bit(v, BytePosition(k) + 1),
      W.Bit(v, BytePosition(k) + 2), W.Bit(v, BytePosition(k) + 3),
      W.Bit(v, BytePosition(k) + 4), W.Bit(v, BytePosition(k) + 5),
      W.Bit(v, BytePosition(k) + 6), W.Bit(v, BytePosition(k) + 7)]
  {
    if
    case k == 0 =>
    case k == 1 =>
    case k == 2 =>
    case k == 3 =>
    case k == 4 =>
    case k == 5 =>
    case k == 6 =>
    case k == 7 =>
  }

  lemma {:induction false} PositionInByte(k: nat, j: nat)
    requires k < 8 && j < 8
    ensures W.Position(8 * k + j) == BytePosition(k) + SmallPosition(j)
  {
    hide BytePosition;
    BytePositions(k);
    W.PositionSum(8 * k, j);
    SmallPositions(j);
  }

  function SmallPosition(j: nat): bv6
    requires j < 8
  {
    if j == 0 then 0 else if j == 1 then 1 else if j == 2 then 2 else if j == 3 then 3
    else if j == 4 then 4 else if j == 5 then 5 else if j == 6 then 6 else 7
  }

  lemma {:induction false} SmallPositions(j: nat)
    requires j < 8
    ensures W.Position(j) == SmallPosition(j)
  {
    assert W.Position(3) == 3;
    assert W.Position(5) == 5;
  }

  lemma {:induction false} ByteBitAt(v: bv64, k: nat, j: nat)
    requires k < 8 && j < 8
    ensures ByteBits(WordByte(v, k))[j] == W.Bit(v, BytePosition(k) + SmallPosition(j))
  {
    hide W.Bit, ByteBits, WordByte, W.Position, BytePosition;
    ByteBitsOfWord(v, k);
  }

  /** Bit j of byte k of a word is bit 8 k + j of its lane. */
  lemma {:induction false} LaneBytes(v: bv64, k: nat, j: nat)
    requires k < 8 && j < 8
    ensures W.LaneOf(v)[8 * k + j] == ByteBits(WordByte(v, k))[j]
  {
    hide W.Bit, ByteBits, WordByte, W.Position, BytePosition, SmallPosition;
    ByteBitAt(v, k, j);
    PositionInByte(k, j);
  }

  // ---- blocks and states hold the same bits ----

  /** The 1600-bit string a 25-word state stands for. */
  function BitString(s: W.Words): StateString { StringOf(W.BitsOf(s)) }

  lemma ArrayOfString(a: B.StateArray)
    ensures ArrayOf(StringOf(a)) == a
  {
    var b := ArrayOf(StringOf(a));
    forall x, y, z | 0 <= x < 5 && 0 <= y < 5 && 0 <= z < 64 ensures a[x][y][z] == b[x][y][z] {
      var i := 64 * (x + 5 * y) + z;
      assert i / 64 == x + 5 * y && i % 64 == z;
    }
    B.StateEquality(a, b);
  }

  lemma BitStringAt(s: W.Words, i: nat)
    requires i < 1600
    ensures BitString(s)[i] == W.LaneOf(s[i / 64])[i % 64]
  {
    hide W.LaneOf;
    assert i / 64 % 5 + 5 * (i / 64 / 5) == i / 64;
  }

  lemma {:induction false} XoredLane(v: bv64, w: bv64, z: nat)
    requires z < 64
    ensures W.LaneOf(W.Xor(v, w))[z] == B.Xor(W.LaneOf(v)[z], W.LaneOf(w)[z])
  {
    hide W.Position, W.Xor, W.Bit;
    W.XorBit(v, w, W.Position(z));
  }

  lemma {:induction false} WordFromBit(b: seq<bv8>, z: nat)
    requires |b| == 8 && z < 64
    ensures W.LaneOf(WordFrom(b))[z] == ByteBits(b[z / 8])[z % 8]
  {
    hide W.LaneOf, WordFrom, ByteBits, WordByte;
    LaneBytes(WordFrom(b), z / 8, z % 8);
    WordFromBytes(b, z / 8);
  }

  lemma {:induction false} AddedBlockBit(s: W.Words, block: seq<bv8>, i: nat)
    requires |block| == 136 && i < 1600
    ensures BitString(AddBlock(s, block))[i]
      == B.Xor(BitString(s)[i], (BitsOfBytes(block) + ZeroBits(512))[i])
  {
    hide BitString, W.LaneOf, WordFrom, W.Xor, ByteBits;
    var l := i / 64;
    BitStringAt(s, i);
    BitStringAt(AddBlock(s, block), i);
    if l < 17 {
      var word := block[8 * l..8 * l + 8];
      XoredLane(s[l], WordFrom(word), i % 64);
      WordFromBit(word, i % 64);
      assert word[i % 64 / 8] == block[i / 8];
      assert i % 64 % 8 == i % 8;
    }
  }

  /** Adding a block lane by lane is the bitwise sum with the block extended by the capacity's zeros. */
  lemma AddedBlock(s: W.Words, block: seq<bv8>)
    requires |block| == 136
    ensures BitString(AddBlock(s, block)) == XorStrings(BitString(s), BitsOfBytes(block) + ZeroBits(512))
  {
    hide BitString, AddBlock, BitsOfBytes;
    forall i | 0 <= i < 1600
      ensures BitString(AddBlock(s, block))[i] == B.Xor(BitString(s)[i], (BitsOfBytes(block) + ZeroBits(512))[i])
    {
      AddedBlockBit(s, block, i);
    }
  }

  lemma BitsOfConcatenation(p: seq<bv8>, q: seq<bv8>)
    ensures BitsOfBytes(p + q) == BitsOfBytes(p) + BitsOfBytes(q)
  {
    hide ByteBits;
    forall i | 0 <= i < 8 * |p + q| ensures BitsOfBytes(p + q)[i] == (BitsOfBytes(p) + BitsOfBytes(q))[i] {
      if i >= 8 * |p| {
        assert (i - 8 * |p|) / 8 == i / 8 - |p| && (i - 8 * |p|) % 8 == i % 8;
      }
    }
  }

  /** Absorbing bytes into words is absorbing their bits into the state string. */
  lemma {:induction false} AbsorbedBits(s: W.Words, p: seq<bv8>)
    ensures BitString(AbsorbBytes(s, p)) == Absorb(BitString(s), BitsOfBytes(p))
    decreases |p|
  {
    hide BitString, AddBlock, BitsOfBytes, W.KeccakF, XorStrings, KeccakF;
    if |p| >= 136 {
      var block, rest := p[..136], p[136..];
      assert p == block + rest;
      BitsOfConcatenation(block, rest);
      assert BitsOfBytes(p)[..1088] == BitsOfBytes(block) && BitsOfBytes(p)[1088..] == BitsOfBytes(rest);
      AddedBlock(s, block);
      PermutedBits(AddBlock(s, block));
      AbsorbedBits(W.KeccakF(AddBlock(s, block)), rest);
    }
  }

  lemma PermutedBits(s: W.Words)
    ensures BitString(W.KeccakF(s)) == KeccakF(BitString(s))
  {
    hide W.BitsOf, StringOf, ArrayOf, W.KeccakF, B.KeccakF;
    W.KeccakFBits(s);
    ArrayOfString(W.BitsOf(s));
  }

  lemma {:induction false} SqueezedAt(s: W.Words, lanes: nat, k: nat)
    requires lanes <= 25 && k < 8 * lanes
    ensures |Squeezed(s, lanes)| == 8 * lanes
    ensures Squeezed(s, lanes)[k] == WordByte(s[k / 8], k % 8)
  {
    hide WordByte;
    SqueezedLength(s, lanes - 1);
    if k < 8 * (lanes - 1) {
      SqueezedAt(s, lanes - 1, k);
    }
  }

  lemma {:induction false} SqueezedLength(s: W.Words, lanes: nat)
    requires lanes <= 25
    ensures |Squeezed(s, lanes)| == 8 * lanes
  {
    if lanes > 0 {
      SqueezedLength(s, lanes - 1);
    }
  }

  /** The bytes squeezed out are the first bits of the state. */
  lemma SqueezedBits(s: W.Words)
    ensures |Squeezed(s, 4)| == 32
    ensures BitsOfBytes(Squeezed(s, 4)) == BitString(s)[..256]
  {
    hide BitString, Squeezed, W.LaneOf, ByteBits, WordByte;
    SqueezedLength(s, 4);
    forall i | 0 <= i < 256 ensures BitsOfBytes(Squeezed(s, 4))[i] == BitString(s)[i] {
      BitStringAt(s, i);
      SqueezedAt(s, 4, i / 8);
      LaneBytes(s[i / 64], i % 64 / 8, i % 8);
      assert i / 8 / 8 == i / 64 && i / 8 % 8 == i % 64 / 8;
      assert 8 * (i % 64 / 8) + i % 8 == i % 64;
    }
  }

  lemma {:induction false} ZeroBitsOfWord(z: nat)
    requires z < 64
    ensures !W.LaneOf(0)[z]
  {
    assert ByteBits(0)[z % 8] == false;
    LaneBytes(0, z / 8, z % 8);
    ZeroWordByte(z / 8);
    assert 8 * (z / 8) + z % 8 == z;
  }

  lemma ZeroState()
    ensures BitString(ZeroWords()) == ZeroBits(1600)
  {
    hide BitString, W.LaneOf;
    forall i | 0 <= i < 1600 ensures BitString(ZeroWords())[i] == false {
      BitStringAt(ZeroWords(), i);
      ZeroBitsOfWord(i % 64);
    }
  }

  /** The digest of every input is the sponge of the padded input's bits. */
  lemma DigestIsSponge(input: seq<bv8>)
    ensures |Digest(input)| == 32
    ensures BitsOfBytes(Digest(input)) == SpongePadded(BitsOfBytes(Pad(input)))
  {
    hide BitString, Squeezed, AbsorbBytes, Absorb, BitsOfBytes, Pad;
    ZeroState();
    AbsorbedBits(ZeroWords(), Pad(input));
    SqueezedBits(FinalState(input));
  }

  // ---- padding ----

  lemma PadLength(input: seq<bv8>)
    ensures |Pad(input)| % 136 == 0 && |Pad(input)| > |input|
  {
    var n: int := |input|;
    assert (n + 2 + (134 - n) % 136) % 136 == 0;
  }

  /** How many zero bits pad10*1 puts between its ones, in terms of the zero bytes the code appends. */
  lemma StandardZeroBits(n: nat)
    ensures n % 136 != 135 ==> (-(8 * n) - 2) % 1088 == 8 * ((134 - n) % 136) + 14
    ensures n % 136 == 135 ==> (-(8 * n) - 2) % 1088 == 6 && (134 - n) % 136 == 135
  {
    var q, r := n / 136, n % 136;
    assert n == 136 * q + r;
    if r == 135 {
      assert -(8 * n) - 2 == 1088 * (-q - 1) + 6;
      assert 134 - n == 136 * (-q - 1) + 135;
    } else {
      assert -(8 * n) - 2 == 1088 * (-q - 1) + (8 * (134 - r) + 14);
      assert 134 - n == 136 * (-q) + (134 - r);
    }
  }

  lemma PaddingBit(n: nat, i: nat)
    requires i < 8 * |Padding(n)|
    ensures BitsOfBytes(Padding(n))[i] == (i == 0 || i == 8 * |Padding(n)| - 1)
  {
    var b := Padding(n)[i / 8];
    if i / 8 == 0 {
      assert b == 0x01;
    } else if i / 8 == |Padding(n)| - 1 {
      assert b == 0x80;
    } else {
      assert b == 0x00;
    }
  }

  /** The padding is pad10*1 of the standard for every input length except 135 modulo 136, where it is
      a whole block longer. */
  lemma PaddingIsStandard(n: nat)
    ensures BitsOfBytes(Padding(n)) == Pad10Star1(RATE_BITS, 8 * n) <==> n % 136 != 135
    ensures n % 136 == 135 ==> 8 * |Padding(n)| == |Pad10Star1(RATE_BITS, 8 * n)| + RATE_BITS
  {
    hide BitsOfBytes, Padding;
    StandardZeroBits(n);
    PaddingSize(n);
    if n % 136 != 135 {
      forall i | 0 <= i < 8 * |Padding(n)|
        ensures BitsOfBytes(Padding(n))[i] == Pad10Star1(RATE_BITS, 8 * n)[i]
      {
        PaddingBit(n, i);
      }
    }
  }

  lemma PaddingSize(n: nat)
    ensures |Padding(n)| == 2 + (134 - n) % 136
  {
  }

  /** keccak256 is SPONGE[Keccak-f[1600], pad10*1, 1088] of FIPS 202 (no domain suffix) wherever the
      padding agrees, and the sponge over one more block where it does not. */
  lemma DigestIsStandard(input: seq<bv8>)
    requires |input| % 136 != 135
    ensures BitsOfBytes(Digest(input)) == Sponge(BitsOfBytes(input))
  {
    hide BitsOfBytes, Digest, SpongePadded, Padding, Pad10Star1;
    DigestIsSponge(input);
    BitsOfConcatenation(input, Padding(|input|));
    PaddingIsStandard(|input|);
  }

  // ---- the padding can be undone ----

  function WithoutTrailingZeros(p: seq<bv8>): seq<bv8> {
    if p != [] && p[|p| - 1] == 0x00 then WithoutTrailingZeros(p[..|p| - 1]) else p
  }

  /** The input a padded string came from. */
  function Unpad(padded: seq<bv8>): Option<seq<bv8>> {
    if padded == [] || padded[|padded| - 1] != 0x80 then None
    else
      var body := WithoutTrailingZeros(padded[..|padded| - 1]);
      if body == [] || body[|body| - 1] != 0x01 then None else Some(body[..|body| - 1])
  }

  lemma {:induction false} TrailingZeros(p: seq<bv8>, zeros: nat)
    requires p != [] && p[|p| - 1] != 0x00
    ensures WithoutTrailingZeros(p + ZeroBytes(zeros)) == p
  {
    if zeros == 0 {
      assert p + ZeroBytes(zeros) == p;
    } else {
      TrailingZeros(p, zeros - 1);
      var longer := p + ZeroBytes(zeros);
      assert longer[..|longer| - 1] == p + ZeroBytes(zeros - 1);
    }
  }

  lemma PaddingUndone(input: seq<bv8>)
    ensures Unpad(Pad(input)) == Some(input)
  {
    var zeros := (134 - |input|) % 136;
    var body := input + [0x01];
    var padded := Pad(input);
    assert padded[..|padded| - 1] == body + ZeroBytes(zeros);
    TrailingZeros(body, zeros);
  }

  // ---- the last block is absorbed without loss ----

  lemma XorCancels(v: bv64, w: bv64, u: bv64)
    requires W.Xor(v, w) == W.Xor(v, u)
    ensures w == u
  {
    assert v ^ (v ^ w) == w && v ^ (v ^ u) == u;
  }

  lemma AddBlockInjective(s: W.Words, a: seq<bv8>, b: seq<bv8>)
    requires |a| == 136 && |b| == 136
    requires AddBlock(s, a) == AddBlock(s, b)
    ensures a == b
  {
    hide W.Xor, WordFrom, WordBytes;
    forall k | 0 <= k < 136 ensures a[k] == b[k] {
      var l := k / 8;
      assert AddBlock(s, a)[l] == AddBlock(s, b)[l];
      var wa, wb := a[8 * l..8 * l + 8], b[8 * l..8 * l + 8];
      XorCancels(s[l], WordFrom(wa), WordFrom(wb));
      BytesDetermineWord(wa);
      BytesDetermineWord(wb);
      assert a[k] == wa[k % 8] && b[k] == wb[k % 8];
    }
  }

  lemma {:induction false} AbsorbedInOrder(s: W.Words, p: seq<bv8>, q: seq<bv8>)
    requires |p| % 136 == 0
    ensures AbsorbBytes(s, p + q) == AbsorbBytes(AbsorbBytes(s, p), q)
    decreases |p|
  {
    hide AddBlock, W.KeccakF;
    if p == [] {
      assert p + q == q;
    } else {
      assert (p + q)[..136] == p[..136] && (p + q)[136..] == p[136..] + q;
      AbsorbedInOrder(W.KeccakF(AddBlock(s, p[..136])), p[136..], q);
    }
  }

  lemma PadAfterBlocks(blocks: seq<bv8>, a: seq<bv8>)
    requires |blocks| % 136 == 0
    ensures Pad(blocks + a) == blocks + Pad(a)
  {
    var n: int, m: int := |a|, |blocks|;
    assert (134 - (m + n)) % 136 == (134 - n) % 136;
    assert blocks + a + Padding(|blocks + a|) == blocks + (a + Padding(|a|));
  }

  /** Inputs that agree on their whole blocks and have at most 134 bytes after them reach different full
      states unless they are equal; with no whole blocks these are the inputs of at most 134 bytes. */
  lemma LastBlockIsKept(blocks: seq<bv8>, a: seq<bv8>, b: seq<bv8>)
    requires |blocks| % 136 == 0 && |a| <= 134 && |b| <= 134
    requires FinalState(blocks + a) == FinalState(blocks + b)
    ensures a == b
  {
    hide Pad, Unpad, AddBlock, W.KeccakF;
    var s := AbsorbBytes(ZeroWords(), blocks);
    SingleBlock(s, blocks, a);
    SingleBlock(s, blocks, b);
    W.KeccakFInjective(AddBlock(s, Pad(a)), AddBlock(s, Pad(b)));
    AddBlockInjective(s, Pad(a), Pad(b));
    PaddingUndone(a);
    PaddingUndone(b);
  }

  lemma SingleBlock(s: W.Words, blocks: seq<bv8>, a: seq<bv8>)
    requires |blocks| % 136 == 0 && |a| <= 134 && s == AbsorbBytes(ZeroWords(), blocks)
    ensures |Pad(a)| == 136
    ensures FinalState(blocks + a) == W.KeccakF(AddBlock(s, Pad(a)))
  {
    hide AddBlock, W.KeccakF, Pad;
    PadAfterBlocks(blocks, a);
    AbsorbedInOrder(ZeroWords(), blocks, Pad(a));
    ShortPad(a);
    assert Pad(a)[..136] == Pad(a);
  }

  lemma ShortPad(a: seq<bv8>)
    requires |a| <= 134
    ensures |Pad(a)| == 136
  {
  }
}
