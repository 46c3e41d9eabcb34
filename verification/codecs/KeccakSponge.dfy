/** The sponge around the permutation: padding, absorption by lanes, and the first 32 bytes out. */
module KeccakSponge {
  import opened Bytes
  import opened Binary
  import opened IntBits
  import opened LittleEndian
  import opened KeccakSpec
  import opened Keccak

  // ---- the specification on bit strings: section 4 and the conversions of appendix B.1 of FIPS 202 ----

  const RATE := 1088

  function BitsOf(data: Bytes): (bits: seq<bool>)
    ensures |bits| == 8 * |data|
  {
    if data == [] then [] else ByteBits(data[0]) + BitsOf(data[1..])
  }

  function ByteBits(b: byte): (bits: seq<bool>)
    ensures |bits| == 8
  {
    [Bit(b, 0), Bit(b, 1), Bit(b, 2), Bit(b, 3), Bit(b, 4), Bit(b, 5), Bit(b, 6), Bit(b, 7)]
  }

  function Falses(n: nat): (bits: seq<bool>)
    ensures |bits| == n
  {
    if n == 0 then [] else [false] + Falses(n - 1)
  }

  /** pad10*1 of section 5.1 for a message of m bits. */
  function Pad101(m: int): seq<bool> {
    [true] + Falses((-m - 2) % RATE) + [true]
  }

  function BlockBit(block: seq<bool>, k: int): bool {
    0 <= k < |block| && block[k]
  }

  function Absorb(a: Bits, block: seq<bool>): Bits {
    (x, y, z) => a(x, y, z) != BlockBit(block, 64 * (5 * y + x) + z)
  }

  function Sponge(p: seq<bool>, a: Bits): Bits
    decreases |p|
  {
    if |p| < RATE then a else Sponge(p[RATE..], Rounds(Absorb(a, p[..RATE]), 24))
  }

  function Zero(): Bits {
    (x, y, z) => false
  }

  function StringBit(a: Bits, k: nat): bool {
    a(k / 64 % 5, k / 64 / 5, k % 64)
  }

  /** The bytes spell the first bits of the state's string. */
  predicate Spells(out: Bytes, a: Bits) {
    forall k :: 0 <= k < 8 * |out| ==> BitsOf(out)[k] == StringBit(a, k)
  }

  // ---- padding ----

  function ZeroBytes(n: nat): (z: Bytes)
    ensures |z| == n
  {
    if n == 0 then [] else [0] + ZeroBytes(n - 1)
  }

  /** The source's padding: one byte 0x81, or 0x01, zeros and 0x80. */
  function PadBytes(n: nat): (p: Bytes)
    ensures |p| == 136 - n % 136
  {
    var pad := 136 - n % 136;
    if pad == 1 then [0x81] else [0x01] + ZeroBytes(pad - 2) + [0x80]
  }

  lemma {:induction false} BitsOfConcat(a: Bytes, b: Bytes)
    ensures BitsOf(a + b) == BitsOf(a) + BitsOf(b)
  {
    hide ByteBits;
    if a == [] {
      assert a + b == b;
    } else {
      BitsOfConcat(a[1..], b);
      assert (a + b)[1..] == a[1..] + b;
      assert BitsOf(a + b) == ByteBits(a[0]) + (BitsOf(a[1..]) + BitsOf(b));
    }
  }

  lemma {:induction false} FalsesConcat(m: nat, n: nat)
    ensures Falses(m) + Falses(n) == Falses(m + n)
  {
    if m > 0 {
      FalsesConcat(m - 1, n);
    }
  }

  lemma {:induction false} ZeroBytesBits(n: nat)
    ensures BitsOf(ZeroBytes(n)) == Falses(8 * n)
  {
    if n > 0 {
      ZeroBytesBits(n - 1);
      ZeroByteBits();
      FalsesConcat(8, 8 * (n - 1));
      assert ZeroBytes(n)[1..] == ZeroBytes(n - 1);
    }
  }

  lemma ZeroByteBits()
    ensures ByteBits(0) == Falses(8)
  {
    SevenFalses();
    assert Falses(8) == [false] + Falses(7);
  }

  lemma SevenFalses()
    ensures Falses(7) == [false, false, false, false, false, false, false]
    ensures Falses(6) == [false, false, false, false, false, false]
  {
    assert Falses(2) == [false, false];
    assert Falses(4) == [false, false] + Falses(2);
    assert Falses(6) == [false, false] + Falses(4);
  }

  lemma EndBytesBits()
    ensures BitsOf([0x81]) == [true] + Falses(6) + [true]
    ensures BitsOf([0x01]) == [true] + Falses(7)
    ensures BitsOf([0x80]) == Falses(7) + [true]
  {
    SevenFalses();
    SingleBits(0x81);
    SingleBits(0x01);
    SingleBits(0x80);
    BitsOfEnds();
  }

  lemma SingleBits(b: byte)
    ensures BitsOf([b]) == ByteBits(b)
  {
    assert [b][1..] == [];
  }

  lemma BitsOfEnds()
    ensures ByteBits(0x81) == [true, false, false, false, false, false, false, true]
    ensures ByteBits(0x01) == [true, false, false, false, false, false, false, false]
    ensures ByteBits(0x80) == [false, false, false, false, false, false, false, true]
  {
    HighNibble(0x81);
    HighNibble(0x01);
    HighNibble(0x80);
  }

  lemma {:induction false} HighNibble(b: byte)
    ensures Bit(b, 2) == Bit(b / 4, 0) && Bit(b, 3) == Bit(b / 4, 1) && Bit(b, 4) == Bit(b / 16, 0)
    ensures Bit(b, 5) == Bit(b / 16, 1) && Bit(b, 6) == Bit(b / 64, 0) && Bit(b, 7) == Bit(b / 64, 1)
  {
    hide Bit;
    TwoDown(b, 0);
    TwoDown(b, 1);
    TwoDown(b, 2);
    TwoDown(b, 3);
    TwoDown(b, 4);
    TwoDown(b, 5);
    TwoDown(b / 4, 0);
    TwoDown(b / 4, 1);
    TwoDown(b / 4, 2);
    TwoDown(b / 4, 3);
    TwoDown(b / 16, 0);
    TwoDown(b / 16, 1);
  }

  lemma TwoDown(n: nat, i: nat)
    ensures Bit(n, i + 2) == Bit(n / 4, i)
  {
    assert Bit(n, i + 2) == Bit(n / 2, i + 1);
    assert n / 4 == n / 2 / 2;
  }

  /** The padding bytes are pad10*1 for the rate, and the padded message fills whole blocks. */
  lemma {:induction false} PaddingIsPad101(data: Bytes)
    ensures BitsOf(data + PadBytes(|data|)) == BitsOf(data) + Pad101(8 * |data|)
    ensures |data + PadBytes(|data|)| % 136 == 0
  {
    hide BitsOf, PadBytes, Falses;
    var n := |data|;
    BitsOfConcat(data, PadBytes(n));
    PadLength(n);
    PadBits(n);
    assert Pad101(8 * n) == [true] + Falses(8 * (136 - n % 136) - 2) + [true];
  }

  lemma PadBits(n: nat)
    ensures BitsOf(PadBytes(n)) == [true] + Falses(8 * (136 - n % 136) - 2) + [true]
  {
    hide BitsOf, Falses, ZeroBytes;
    var pad := 136 - n % 136;
    EndBytesBits();
    if pad > 1 {
      var zeros := ZeroBytes(pad - 2);
      BitsOfConcat([0x01] + zeros, [0x80]);
      BitsOfConcat([0x01], zeros);
      ZeroBytesBits(pad - 2);
      FalsesConcat(7, 8 * (pad - 2));
      FalsesConcat(7 + 8 * (pad - 2), 7);
      Glue(Falses(7), Falses(8 * (pad - 2)), Falses(7));
    }
  }

  lemma Glue(a: seq<bool>, b: seq<bool>, c: seq<bool>)
    ensures [true] + a + b + (c + [true]) == [true] + (a + b + c) + [true]
  {
  }

  lemma PadLength(n: nat)
    ensures (-(8 * n) - 2) % RATE == 8 * (136 - n % 136) - 2
    ensures (n + (136 - n % 136)) % 136 == 0
  {
    var q := n / 136;
    assert n == 136 * q + n % 136;
    assert -(8 * n) - 2 == RATE * (-q - 1) + (8 * (136 - n % 136) - 2);
  }

  lemma {:induction false} ZeroBytesAt(n: nat, i: nat)
    requires i < n
    ensures ZeroBytes(n)[i] == 0
  {
    if i > 0 {
      ZeroBytesAt(n - 1, i - 1);
    }
  }

  /** The byte after the message is odd, and the bytes after it are even. */
  lemma PadByteAt(n: nat, i: nat)
    requires i < 136 - n % 136
    ensures PadBytes(n)[i] % 2 == if i == 0 then 1 else 0
  {
    if 0 < i < 136 - n % 136 - 1 {
      ZeroBytesAt(136 - n % 136 - 2, i - 1);
    }
  }

  /** No two messages pad to the same blocks. */
  lemma PaddingInjective(a: Bytes, b: Bytes)
    requires a + PadBytes(|a|) == b + PadBytes(|b|)
    ensures a == b
  {
    hide PadBytes;
    if |a| < |b| {
      LongerDiffers(a, b);
    } else if |b| < |a| {
      LongerDiffers(b, a);
    }
    assert a == (a + PadBytes(|a|))[..|a|];
    assert b == (b + PadBytes(|b|))[..|b|];
  }

  lemma LongerDiffers(a: Bytes, b: Bytes)
    requires |a| < |b|
    ensures a + PadBytes(|a|) != b + PadBytes(|b|)
  {
    hide PadBytes;
    var p, q := a + PadBytes(|a|), b + PadBytes(|b|);
    PadByteAt(|b|, 0);
    assert q[|b|] == PadBytes(|b|)[0];
    if |p| == |q| {
      PadByteAt(|a|, |b| - |a|);
      assert p[|b|] == PadBytes(|a|)[|b| - |a|];
    }
  }

  // ---- absorption ----

  /** A number whose low k bits are one part and whose high bits are the other. */
  lemma {:induction false} JoinedBit(low: nat, high: nat, k: nat, i: nat)
    requires low < Pow2(k)
    ensures Bit(low + high * Pow2(k), i) == if i < k then Bit(low, i) else Bit(high, i - k)
    decreases k
  {
    if k == 0 {
      assert low == 0;
    } else {
      var n := low + high * Pow2(k);
      assert high * Pow2(k) == 2 * (high * Pow2(k - 1));
      assert n / 2 == low / 2 + high * Pow2(k - 1) && n % 2 == low % 2;
      if i > 0 {
        JoinedBit(low / 2, high, k - 1, i - 1);
      }
    }
  }

  lemma {:induction false} LittleEndianBits(b: Bytes)
    ensures 0 <= ValueLE(b) < Pow2(8 * |b|)
    ensures forall i: nat :: i < 8 * |b| ==> Bit(ValueLE(b), i) == BitsOf(b)[i]
  {
    hide Bit, ByteBits;
    if b != [] {
      LittleEndianBits(b[1..]);
      var v := ValueLE(b[1..]);
      ByteShift(8 * |b| - 8);
      forall i: nat | i < 8 * |b|
        ensures Bit(ValueLE(b), i) == BitsOf(b)[i]
      {
        JoinedBit(b[0], v, 8, i);
        ByteBitsAt(b[0], i);
      }
    }
  }

  lemma ByteShift(k: nat)
    ensures Pow2(8) == 256 && Pow2(k + 8) == 256 * Pow2(k)
  {
    SmallPowers();
    assert Pow2(8) == 2 * Pow2(7);
    PowersMultiply(8, k);
  }

  lemma ByteBitsAt(b: byte, i: nat)
    ensures i < 8 ==> ByteBits(b)[i] == Bit(b, i)
  {
    hide Bit;
  }

  lemma {:induction false} SliceBits(block: Bytes, start: nat, word: Bytes, z: nat, k: nat)
    requires start + 8 <= |block| && word == block[start..start + 8] && z < 64 && k == 8 * start + z
    ensures BitsOf(word)[z] == BitsOf(block)[k]
  {
    hide BitsOf;
    JoinSlices(block, start);
    BitsInside(block, block[..start], word, block[start + 8..], z, k);
  }

  lemma JoinSlices(block: Bytes, start: nat)
    requires start + 8 <= |block|
    ensures block == block[..start] + (block[start..start + 8] + block[start + 8..])
  {
    assert block[start..] == block[start..start + 8] + block[start + 8..];
  }

  lemma {:induction false} BitsInside(block: Bytes, before: Bytes, word: Bytes, after: Bytes, z: nat, k: nat)
    requires block == before + (word + after)
    requires z < 8 * |word| && k == 8 * |before| + z
    ensures BitsOf(word)[z] == BitsOf(block)[k]
  {
    hide BitsOf;
    BitsOfConcat(word, after);
    BitsOfConcat(before, word + after);
  }

  /** What the block adds to each lane. */
  function Input(block: Bytes): Bits {
    (x, y, z) => BlockBit(BitsOf(block), 64 * (5 * y + x) + z)
  }

  lemma InputBit(block: Bytes, x: int, y: int, z: int)
    ensures Input(block)(x, y, z) == BlockBit(BitsOf(block), 64 * (5 * y + x) + z)
  {
    hide BitsOf, BlockBit;
  }

  lemma WordHolds(block: Bytes, i: nat)
    requires |block| == 136 && i < 17
    ensures LaneHolds(ValueLE(block[8 * i..8 * i + 8]), Input(block), i % 5, i / 5)
  {
    hide BitsOf, ValueLE, Bit, Pow2;
    var word := block[8 * i..8 * i + 8];
    LittleEndianBits(word);
    forall z: nat | z < 64
      ensures Bit(ValueLE(word), z) == Input(block)(i % 5, i / 5, z)
    {
      SliceBits(block, 8 * i, word, z, 64 * i + z);
      InputBit(block, i % 5, i / 5, z);
    }
  }

  lemma AbsorbHolds(lane: int, a: Bits, block: Bytes, i: nat)
    requires |block| == 136 && i < 17 && LaneHolds(lane, a, i % 5, i / 5)
    ensures IsLane(lane) && IsLane(ValueLE(block[8 * i..8 * i + 8]))
    ensures LaneHolds(Xor(lane, ValueLE(block[8 * i..8 * i + 8])), Absorb(a, BitsOf(block)), i % 5, i / 5)
  {
    hide BitsOf, ValueLE, Bit, Pow2, BlockBit, Xor;
    WordHolds(block, i);
    XorHolds(lane, a, i % 5, i / 5, ValueLE(block[8 * i..8 * i + 8]), Input(block), i % 5, i / 5,
      Absorb(a, BitsOf(block)), i % 5, i / 5);
  }

  lemma CapacityStays(lane: int, a: Bits, block: Bytes, x: int, y: int)
    requires |block| == 136 && 5 * y + x >= 17 && LaneHolds(lane, a, x, y)
    ensures LaneHolds(lane, Absorb(a, BitsOf(block)), x, y)
  {
    hide BitsOf, Bit, Pow2;
  }

  ghost predicate Absorbing(state: array2<int>, a: Bits, block: Bytes, i: nat)
    requires Square(state)
    reads state
  {
    forall x, y :: 0 <= x < 5 && 0 <= y < 5 ==>
      LaneHolds(state[x, y], if 5 * y + x < i then Absorb(a, BitsOf(block)) else a, x, y)
  }

  method AbsorbBlock(state: array2<int>, block: Bytes, ghost a: Bits)
    requires Square(state) && Holds(state, a) && |block| == 136
    modifies state
    ensures Holds(state, Absorb(a, BitsOf(block)))
  {
    hide LaneHolds, Absorb, BitsOf, ValueLE, Xor;
    for i := 0 to 17
      invariant Absorbing(state, a, block, i)
    {
      AbsorbHolds(state[i % 5, i / 5], a, block, i);
      state[i % 5, i / 5] := Xor(state[i % 5, i / 5], ValueLE(block[8 * i..8 * i + 8]));
    }
    forall x, y | 0 <= x < 5 && 0 <= y < 5
      ensures LaneHolds(state[x, y], Absorb(a, BitsOf(block)), x, y)
    {
      if 5 * y + x >= 17 {
        CapacityStays(state[x, y], a, block, x, y);
      }
    }
  }

  // ---- the digest ----

  /** int.to_bytes(k, "little"), for a number that fits. */
  function LowBytes(n: nat, k: nat): (b: Bytes)
    ensures |b| == k
  {
    if k == 0 then [] else [n % 256] + LowBytes(n / 256, k - 1)
  }

  lemma {:induction false} LowBytesValue(n: nat, k: nat)
    requires n < Pow2(8 * k)
    ensures ValueLE(LowBytes(n, k)) == n
  {
    hide Pow2;
    if k == 0 {
      SmallPowers();
    } else {
      ByteShift(8 * (k - 1));
      LowBytesValue(n / 256, k - 1);
      assert LowBytes(n, k)[1..] == LowBytes(n / 256, k - 1);
    }
  }

  lemma SpellsLane(out: Bytes, a: Bits, lane: int, x: int, y: int)
    requires 0 <= x < 5 && 0 <= y < 5 && |out| == 8 * (5 * y + x)
    requires Spells(out, a) && LaneHolds(lane, a, x, y)
    ensures IsLane(lane) && Spells(out + LowBytes(lane, 8), a)
  {
    hide BitsOf, LowBytes, ValueLE, Bit, Pow2;
    var word := LowBytes(lane, 8);
    LowBytesValue(lane, 8);
    LittleEndianBits(word);
    BitsOfConcat(out, word);
    var start := 64 * (5 * y + x);
    forall k | start <= k < start + 64
      ensures BitsOf(out + word)[k] == StringBit(a, k)
    {
      assert BitsOf(out + word)[k] == BitsOf(word)[k - start] == a(x, y, k - start);
      assert k / 64 == 5 * y + x && k % 64 == k - start;
    }
  }

  lemma SpellsPrefix(out: Bytes, a: Bits, n: nat)
    requires Spells(out, a) && n <= |out|
    ensures Spells(out[..n], a)
  {
    hide BitsOf;
    assert out == out[..n] + out[n..];
    BitsOfConcat(out[..n], out[n..]);
  }

  method Squeeze(state: array2<int>, ghost a: Bits) returns (digest: Bytes)
    requires Square(state) && Holds(state, a)
    ensures |digest| == 32 && Spells(digest, a)
  {
    hide LaneHolds, Spells, LowBytes;
    var out: Bytes := [];
    NothingSpelled(a);
    for y := 0 to 5
      invariant |out| == 40 * y && Spells(out, a)
    {
      for x := 0 to 5
        invariant |out| == 8 * (5 * y + x) && Spells(out, a)
      {
        SpellsLane(out, a, state[x, y], x, y);
        out := out + LowBytes(state[x, y], 8);
      }
    }
    SpellsPrefix(out, a, 32);
    digest := out[..32];
  }

  lemma NothingSpelled(a: Bits)
    ensures Spells([], a)
  {
  }

  /** The first 256 bits of the sponge over the padded message. */
  method Keccak256(data: Bytes) returns (digest: Bytes)
    ensures |digest| == 32 && Spells(digest, Sponge(BitsOf(data) + Pad101(8 * |data|), Zero()))
  {
    hide Holds, Absorb, Rounds, BitsOf, PadBytes, Pad101, Spells, Sponge;
    var state := new int[5, 5]((x, y) => 0);
    ZeroHolds(state);
    var padded := data + PadBytes(|data|);
    PaddingIsPad101(data);
    ghost var a := Zero();
    var blocks := |padded| / 136;
    for b := 0 to blocks
      invariant Holds(state, a)
      invariant Sponge(BitsOf(padded), Zero()) == Sponge(BitsOf(padded[136 * b..]), a)
    {
      var block := padded[136 * b..136 * b + 136];
      NextBlock(padded[136 * b..], a);
      assert padded[136 * b..][..136] == block && padded[136 * b..][136..] == padded[136 * (b + 1)..];
      AbsorbBlock(state, block, a);
      Permute(state, Absorb(a, BitsOf(block)));
      a := Rounds(Absorb(a, BitsOf(block)), 24);
    }
    assert padded[136 * blocks..] == [];
    NoBlock(a);
    digest := Squeeze(state, a);
  }

  lemma ZeroHolds(state: array2<int>)
    requires Square(state) && forall x, y :: 0 <= x < 5 && 0 <= y < 5 ==> state[x, y] == 0
    ensures Holds(state, Zero())
  {
    hide Bit, Pow2;
    SmallPowers();
    forall z: nat
      ensures !Bit(0, z)
    {
      ZeroBit(z);
    }
  }

  lemma {:induction false} NextBlock(rest: Bytes, a: Bits)
    requires |rest| >= 136
    ensures Sponge(BitsOf(rest), a) == Sponge(BitsOf(rest[136..]), Rounds(Absorb(a, BitsOf(rest[..136])), 24))
  {
    hide BitsOf, Rounds, Absorb;
    assert rest == rest[..136] + rest[136..];
    BitsOfConcat(rest[..136], rest[136..]);
    var bits := BitsOf(rest);
    assert bits[..RATE] == BitsOf(rest[..136]) && bits[RATE..] == BitsOf(rest[136..]);
  }

  lemma NoBlock(a: Bits)
    ensures Sponge(BitsOf([]), a) == a
  {
  }
}
