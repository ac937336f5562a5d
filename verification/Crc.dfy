/** CRC-16/ARC as utils.c computes it, and what it detects.

    Words are natural numbers: `& 1` is `% 2`, `>> 1` is `/ 2` and `^` is Xor. The register never leaves 16 bits. */
module Crc {
  import opened Registers
  import opened Words

  const BYTE_BITS := 8

  // ----- The program -----

  /** One turn of the inner loop. */
  function Shift(crc: nat): nat {
    if crc % 2 == 1 then Xor(crc / 2, 0xA001) else crc / 2
  }

  /** One turn of the outer loop. */
  function Feed(crc: nat, b: Byte): nat { Iterate<nat>(Shift, Xor(crc, b), BYTE_BITS) }

  /** The register after the data, starting from `crc`. */
  function CrcFrom(crc: nat, data: seq<Byte>): nat { Fold<nat, Byte>(Feed, crc, data) }

  function Crc(data: seq<Byte>): nat { CrcFrom(0, data) }

  /** The length is a 16-bit number in the program. */
  method Crc16Arc(data: seq<Byte>, len: nat) returns (crc: nat)
    requires len <= |data| && len < 0x1_0000
    ensures crc == Crc(data[..len]) && crc < 0x1_0000
  {
    crc := 0;
    var p, j := 0, len;
    while j > 0
      invariant 0 <= j <= len && p == len - j && crc < 0x1_0000
      invariant CrcFrom(crc, data[p..len]) == Crc(data[..len])
    {
      assert data[p..len][1..] == data[p + 1..len];
      XorInRange(crc, data[p]);
      crc := EightShifts(Xor(crc, data[p]));
      p := p + 1;
      j := j - 1;
    }
  }

  /** The inner loop. */
  method EightShifts(start: nat) returns (crc: nat)
    requires start < 0x1_0000
    ensures crc == Iterate<nat>(Shift, start, BYTE_BITS) && crc < 0x1_0000
  {
    crc := start;
    var i := 0;
    ghost var end := Iterate<nat>(Shift, start, BYTE_BITS);
    while i < BYTE_BITS
      invariant 0 <= i <= BYTE_BITS && crc < 0x1_0000
      invariant Iterate<nat>(Shift, crc, BYTE_BITS - i) == end
    {
      ghost var next := Shift(crc);
      ShiftInRange(crc);
      IterateUnfold<nat>(Shift, crc, BYTE_BITS - i);
      if crc % 2 == 1 {
        crc := Xor(crc / 2, 0xA001);
      } else {
        crc := crc / 2;
      }
      assert crc == next;
      i := i + 1;
    }
  }

  lemma ShiftInRange(x: nat)
    requires x < 0x1_0000
    ensures Shift(x) < 0x1_0000
  {
    XorInRange(x / 2, 0xA001);
  }

  // ----- Linearity -----

  function XorData(a: seq<Byte>, b: seq<Byte>): seq<Byte>
    requires |a| == |b|
  {
    Zip(XorBytes, a, b)
  }

  function XorBytes(a: Byte, b: Byte): Byte {
    PowersOfTwo();
    XorBelow(a, b, 8);
    Xor(a, b)
  }

  function Feedback(b: bool): nat { if b then 0xA001 else 0 }

  lemma ShiftForm(x: nat)
    ensures Shift(x) == Xor(x / 2, Feedback(x % 2 == 1))
  {
    XorZero(x / 2);
  }

  lemma FeedbackIsAdditive(p: bool, q: bool)
    ensures Feedback(p != q) == Xor(Feedback(p), Feedback(q))
  {
    XorSelf(Feedback(p));
    XorZero(Feedback(p));
    XorZero(Feedback(q));
  }

  lemma ShiftIsAdditive(x: nat, y: nat)
    ensures Shift(Xor(x, y)) == Xor(Shift(x), Shift(y))
  {
    XorParts(x, y);
    ShiftForm(x);
    ShiftForm(y);
    ShiftForm(Xor(x, y));
    FeedbackIsAdditive(x % 2 == 1, y % 2 == 1);
    XorRegroups(x / 2, y / 2, Feedback(x % 2 == 1), Feedback(y % 2 == 1));
  }

  lemma FeedIsLinear(x: nat, y: nat, a: Byte, b: Byte)
    ensures Feed(Xor(x, y), XorBytes(a, b)) == Xor(Feed(x, a), Feed(y, b))
  {
    forall u: nat, v: nat ensures Shift(Xor(u, v)) == Xor(Shift(u), Shift(v)) {
      ShiftIsAdditive(u, v);
    }
    XorRegroups(x, y, a, b);
    IterateIsAdditive<nat>(Shift, Xor, Xor(x, a), Xor(y, b), BYTE_BITS);
  }

  /** The register is linear in the initial value and the data together. */
  lemma CrcFromIsLinear(x: nat, y: nat, a: seq<Byte>, b: seq<Byte>)
    requires |a| == |b|
    ensures CrcFrom(Xor(x, y), XorData(a, b)) == Xor(CrcFrom(x, a), CrcFrom(y, b))
  {
    forall u: nat, v: nat, p: Byte, q: Byte
      ensures Feed(Xor(u, v), XorBytes(p, q)) == Xor(Feed(u, p), Feed(v, q))
    {
      FeedIsLinear(u, v, p, q);
    }
    FoldIsLinear<nat, Byte>(Feed, Xor, XorBytes, x, y, a, b);
  }

  /** The CRC of the exclusive or of two messages of equal length is the exclusive or of their CRCs. */
  lemma CrcIsLinear(a: seq<Byte>, b: seq<Byte>)
    requires |a| == |b|
    ensures Crc(XorData(a, b)) == Xor(Crc(a), Crc(b))
  {
    CrcFromIsLinear(0, 0, a, b);
  }

  // ----- Concatenation -----

  lemma CrcComposes(crc: nat, a: seq<Byte>, b: seq<Byte>)
    ensures CrcFrom(crc, a + b) == CrcFrom(CrcFrom(crc, a), b)
  {
    FoldConcat<nat, Byte>(Feed, crc, a, b);
  }

  function Half(x: nat): nat { x / 2 }

  lemma EqualBitsCancel(c: nat, b: nat)
    requires c % 2 == b % 2
    ensures Shift(Xor(c, b)) == Xor(c / 2, b / 2)
  {
    XorParts(c, b);
  }

  lemma {:induction false} LowPart(h: nat, l: nat, n: nat)
    ensures Lows<nat, bool>(LowBit, Half, Doubled(h, n) + l, n) == Lows<nat, bool>(LowBit, Half, l, n)
    ensures l < Pow2(n) ==> Iterate<nat>(Half, Doubled(h, n) + l, n) == h
    decreases n
  {
    if n > 0 {
      DoubledHalf(h, l, n);
      LowPart(h, l / 2, n - 1);
    }
  }

  lemma ShiftCancels()
    ensures Cancels<nat, bool>(Shift, Xor, LowBit, Half)
  {
    forall c: nat, b: nat | LowBit(c) == LowBit(b) ensures Shift(Xor(c, b)) == Xor(Half(c), Half(b)) {
      EqualBitsCancel(c, b);
    }
  }

  lemma LowBitsLeave(c: nat, h: nat, l: nat, n: nat)
    requires Lows<nat, bool>(LowBit, Half, c, n) == Lows<nat, bool>(LowBit, Half, l, n)
    requires Iterate<nat>(Half, c, n) == h && l < Pow2(n)
    ensures Iterate<nat>(Shift, Xor(c, l), n) == h
  {
    assert Iterate<nat>(Half, l, n) == 0 by {
      HalvesVanish(l, n);
    }
    assert Xor(h, 0) == h by {
      XorZero(h);
    }
    ShiftCancels();
    LowsLeave<nat, bool>(Shift, Xor, LowBit, Half, c, l, h, 0, n);
  }

  lemma LowPartLeaves(c: nat, h: nat, l: nat, n: nat)
    requires c == Doubled(h, n) + l && l < Pow2(n)
    ensures Iterate<nat>(Shift, Xor(c, l), n) == h
  {
    LowPart(h, l, n);
    LowBitsLeave(c, h, l, n);
  }

  lemma FeedLowByte(crc: nat)
    ensures Feed(crc, crc % 256) == crc / 256
  {
    PowersOfTwo();
    DoubledEight(crc / 256);
    LowPartLeaves(crc, crc / 256, crc % 256, BYTE_BITS);
  }

  lemma HighByte(crc: nat)
    requires crc < 0x1_0000
    ensures (crc / 256) % 256 == crc / 256 && crc / 256 / 256 == 0
  {
  }

  /** Feeding a register its own two bytes clears it. */
  lemma FeedOwnBytes(crc: nat)
    requires crc < 0x1_0000
    ensures Feed(Feed(crc, crc % 256), crc / 256) == 0
  {
    FeedLowByte(crc);
    HighByte(crc);
    FeedLowByte(crc / 256);
  }

  lemma {:induction false} IterateInRange(x: nat, n: nat)
    requires x < 0x1_0000
    ensures Iterate<nat>(Shift, x, n) < 0x1_0000
    decreases n
  {
    if n > 0 {
      ShiftInRange(x);
      IterateInRange(Shift(x), n - 1);
    }
  }

  lemma {:induction false} CrcInRange(crc: nat, data: seq<Byte>)
    requires crc < 0x1_0000
    ensures CrcFrom(crc, data) < 0x1_0000
    decreases |data|
  {
    if data != [] {
      XorInRange(crc, data[0]);
      IterateInRange(Xor(crc, data[0]), BYTE_BITS);
      CrcInRange(Feed(crc, data[0]), data[1..]);
    }
  }

  lemma CrcOfTwo(crc: nat, a: Byte, b: Byte)
    ensures CrcFrom(crc, [a, b]) == Feed(Feed(crc, a), b)
  {
    assert [a, b][1..] == [b];
    assert Fold<nat, Byte>(Feed, Feed(crc, a), [b]) == Fold<nat, Byte>(Feed, Feed(Feed(crc, a), b), []);
  }

  /** The two bytes of a CRC, low byte first. */
  function Seal(crc: nat): seq<Byte>
    requires crc < 0x1_0000
  {
    [crc % 256, crc / 256]
  }

  /** A message followed by its own CRC, low byte first, has CRC 0. */
  lemma CrcOfSealedMessageIsZero(data: seq<Byte>)
    ensures Crc(data) < 0x1_0000 && Crc(data + Seal(Crc(data))) == 0
  {
    var crc := Crc(data);
    CrcInRange(0, data);
    CrcComposes(0, data, Seal(crc));
    CrcOfTwo(crc, crc % 256, crc / 256);
    FeedOwnBytes(crc);
  }

  // ----- Bit by bit -----

  predicate LowBit(x: nat) { x % 2 == 1 }

  function BitValue(b: bool): nat { if b then 1 else 0 }

  /** The register fed a single bit. */
  function FeedBit(crc: nat, b: bool): nat { Shift(Xor(crc, BitValue(b))) }

  function BitsOf(b: Byte): seq<bool> { Lows<nat, bool>(LowBit, Half, b, BYTE_BITS) }

  /** The bits of a message in the order the register takes them in: least significant first. */
  function Bits(data: seq<Byte>): (s: seq<bool>)
    ensures |s| == 8 * |data|
  {
    if data == [] then [] else BitsOf(data[0]) + Bits(data[1..])
  }

  /** Mixing in one bit leaves the rest of the register alone. */
  lemma MixBit(x: nat, bit: bool)
    ensures Xor(x, BitValue(bit)) / 2 == x / 2
    ensures Xor(x, BitValue(bit)) % 2 == 1 <==> (x % 2 == 1) != bit
  {
    XorZero(x / 2);
    if bit {
      XorParts(x, 1);
    } else {
      XorZero(x);
    }
  }

  lemma PeelBit(c: nat, b: nat)
    ensures Shift(Xor(c, b)) == Xor(FeedBit(c, LowBit(b)), Half(b))
  {
    MixBit(c, LowBit(b));
    XorParts(c, b);
    ShiftForm(Xor(c, b));
    ShiftForm(Xor(c, BitValue(LowBit(b))));
    XorSwaps(c / 2, b / 2, Feedback((c % 2 == 1) != LowBit(b)));
  }

  lemma {:induction false} HalvesVanish(x: nat, n: nat)
    requires x < Pow2(n)
    ensures Iterate<nat>(Half, x, n) == 0
    decreases n
  {
    if n > 0 {
      HalvesVanish(x / 2, n - 1);
    }
  }

  /** Shifting a byte in whole is shifting its bits in one at a time. */
  lemma FeedIsSerial(crc: nat, b: Byte)
    ensures Feed(crc, b) == Fold<nat, bool>(FeedBit, crc, BitsOf(b))
  {
    forall c: nat, d: nat ensures Shift(Xor(c, d)) == Xor(FeedBit(c, LowBit(d)), Half(d)) {
      PeelBit(c, d);
    }
    StepsAreSerial<nat, bool>(Shift, Xor, FeedBit, LowBit, Half, crc, b, BYTE_BITS);
    PowersOfTwo();
    HalvesVanish(b, BYTE_BITS);
    XorZero(Fold<nat, bool>(FeedBit, crc, BitsOf(b)));
  }

  /** The byte-wise CRC is the bit-serial one. */
  lemma {:induction false} CrcIsSerial(crc: nat, data: seq<Byte>)
    ensures CrcFrom(crc, data) == Fold<nat, bool>(FeedBit, crc, Bits(data))
    decreases |data|
  {
    if data != [] {
      FeedIsSerial(crc, data[0]);
      CrcIsSerial(Feed(crc, data[0]), data[1..]);
      FoldConcat<nat, bool>(FeedBit, crc, BitsOf(data[0]), Bits(data[1..]));
    }
  }

  // ----- Bursts -----

  predicate Differ(a: bool, b: bool) { a != b }

  lemma FeedBitIsLinear(x: nat, y: nat, a: bool, b: bool)
    ensures FeedBit(Xor(x, y), Differ(a, b)) == Xor(FeedBit(x, a), FeedBit(y, b))
  {
    assert BitValue(Differ(a, b)) == Xor(BitValue(a), BitValue(b));
    XorRegroups(x, y, BitValue(a), BitValue(b));
    ShiftIsAdditive(Xor(x, BitValue(a)), Xor(y, BitValue(b)));
  }

  lemma FeedDifferences(a: seq<bool>, b: seq<bool>)
    requires |a| == |b|
    ensures Fold<nat, bool>(FeedBit, 0, Zip(Differ, a, b))
         == Xor(Fold<nat, bool>(FeedBit, 0, a), Fold<nat, bool>(FeedBit, 0, b))
  {
    forall x: nat, y: nat, p, q ensures FeedBit(Xor(x, y), Differ(p, q)) == Xor(FeedBit(x, p), FeedBit(y, q)) {
      FeedBitIsLinear(x, y, p, q);
    }
    FoldIsLinear<nat, bool>(FeedBit, Xor, Differ, 0, 0, a, b);
  }

  /** A one shifted out sets the top bit. */
  lemma FeedbackSetsTopBit(x: nat)
    requires x < 0x8000
    ensures Xor(x, 0xA001) >= 0x8000
  {
    TopBit(x, 0xA001, 15);
  }

  /** The register before a shift step: the top bit tells whether a one was shifted out. */
  function Unshift(y: nat): nat { if y >= 0x8000 then 2 * Xor(y, 0xA001) + 1 else 2 * y }

  lemma XorTwice(x: nat, y: nat)
    ensures Xor(Xor(x, y), y) == x
  {
    XorSwaps(x, y, y);
    XorRegroups(x, 0, y, y);
    XorSelf(y);
    XorZero(x);
    XorZero(y);
  }

  lemma {:induction false} TopBitsCancel(x: nat, y: nat, k: nat)
    requires Pow2(k) <= x < Pow2(k + 1) && Pow2(k) <= y < Pow2(k + 1)
    ensures Xor(x, y) < Pow2(k)
  {
    if k > 0 {
      TopBitsCancel(x / 2, y / 2, k - 1);
      XorParts(x, y);
    } else {
      XorSelf(1);
    }
  }

  lemma FeedbackCancels(y: nat)
    requires 0x8000 <= y < 0x1_0000
    ensures Xor(y, 0xA001) < 0x8000 && Xor(Xor(y, 0xA001), 0xA001) == y
  {
    PowersOfTwo();
    TopBitsCancel(y, 0xA001, 15);
    XorTwice(y, 0xA001);
  }

  lemma HalfOf(h: nat)
    ensures (2 * h + 1) / 2 == h && (2 * h + 1) % 2 == 1 && (2 * h) / 2 == h && (2 * h) % 2 == 0
  {
  }

  lemma ShiftBy(x: nat, h: nat)
    requires x / 2 == h
    ensures Shift(x) == if x % 2 == 1 then Xor(h, 0xA001) else h
  {
  }

  lemma ShiftDoubled(h: nat)
    ensures Shift(2 * h + 1) == Xor(h, 0xA001) && Shift(2 * h) == h
  {
    HalfOf(h);
    ShiftBy(2 * h + 1, h);
    ShiftBy(2 * h, h);
  }

  lemma UnshiftTop(y: nat, h: nat)
    requires y >= 0x8000 && Xor(y, 0xA001) == h
    ensures Unshift(y) == 2 * h + 1
  {
  }

  function ThereAndBack(x: nat): nat { Unshift(Shift(x)) }

  lemma ThereAndBackDoubled(h: nat)
    requires h < 0x8000
    ensures ThereAndBack(2 * h + 1) == 2 * h + 1 && ThereAndBack(2 * h) == 2 * h
  {
    ShiftDoubled(h);
    FeedbackSetsTopBit(h);
    XorTwice(h, 0xA001);
    UnshiftTop(Xor(h, 0xA001), h);
  }

  ghost predicate KeepsDoubled(f: nat -> nat) {
    forall h: nat :: h < 0x8000 ==> f(2 * h + 1) == 2 * h + 1 && f(2 * h) == 2 * h
  }

  lemma ThereAndBackKeeps()
    ensures KeepsDoubled(ThereAndBack)
  {
    forall h: nat | h < 0x8000 ensures ThereAndBack(2 * h + 1) == 2 * h + 1 && ThereAndBack(2 * h) == 2 * h {
      ThereAndBackDoubled(h);
    }
  }

  lemma KeepsAll(f: nat -> nat, x: nat)
    requires KeepsDoubled(f) && x < 0x1_0000
    ensures f(x) == x
  {
    var h := x / 2;
    assert f(2 * h + 1) == 2 * h + 1 && f(2 * h) == 2 * h;
    assert x == 2 * h || x == 2 * h + 1;
  }

  lemma UnshiftAfterShift(x: nat)
    requires x < 0x1_0000
    ensures ThereAndBack(x) == x
  {
    ThereAndBackKeeps();
    KeepsAll(ThereAndBack, x);
  }

  lemma ShiftAfterUnshift(y: nat)
    requires y < 0x1_0000
    ensures Unshift(y) < 0x1_0000 && Shift(Unshift(y)) == y
  {
    if y >= 0x8000 {
      FeedbackCancels(y);
      UnshiftTop(y, Xor(y, 0xA001));
      ShiftDoubled(Xor(y, 0xA001));
    } else {
      ShiftDoubled(y);
    }
  }

  /** The shift step is a bijection on 16-bit registers, and Unshift is its inverse. */
  lemma ShiftIsBijection(x: nat)
    requires x < 0x1_0000
    ensures Shift(x) < 0x1_0000 && ThereAndBack(x) == x
    ensures Unshift(x) < 0x1_0000 && Shift(Unshift(x)) == x
  {
    ShiftInRange(x);
    UnshiftAfterShift(x);
    ShiftAfterUnshift(x);
  }

  /** Two registers that shift to the same one are the same. */
  lemma ShiftIsInjective(x: nat, y: nat)
    requires x < 0x1_0000 && y < 0x1_0000 && Shift(x) == Shift(y)
    ensures x == y
  {
    ShiftIsBijection(x);
    ShiftIsBijection(y);
    assert ThereAndBack(x) == ThereAndBack(y);
  }

  /** What a step leaves in n - 1 bits was in at most n before. */
  lemma ShiftBackwards(x: nat, bit: bool, n: nat)
    requires x < 0x1_0000 && 0 < n <= 16 && FeedBit(x, bit) < Pow2(n - 1)
    ensures x < Pow2(n)
  {
    MixBit(x, bit);
    Pow2Grows(n - 1, 15);
    PowersOfTwo();
    FeedbackSetsTopBit(x / 2);
  }

  lemma ZeroBackwards(x: nat)
    requires x < 0x1_0000 && FeedBit(x, false) == 0
    ensures x == 0
  {
    XorZero(x);
    FeedbackSetsTopBit(x / 2);
  }

  lemma FeedBitInRange(x: nat, bit: bool)
    requires x < 0x1_0000
    ensures FeedBit(x, bit) < 0x1_0000
  {
    XorInRange(x, BitValue(bit));
    XorInRange(Xor(x, BitValue(bit)) / 2, 0xA001);
  }

  /** A register that ends at 0, fed only zeros after its next n <= 15 bits, holds at most n bits. */
  lemma {:induction false} ClearedByFewBits(x: nat, bits: seq<bool>, n: nat)
    requires x < 0x1_0000 && n <= 15
    requires Fold<nat, bool>(FeedBit, x, bits) == 0 && forall i :: n <= i < |bits| ==> !bits[i]
    ensures x < Pow2(n)
    decreases |bits|
  {
    if bits == [] {
      Pow2Grows(0, n);
    } else {
      var next := FeedBit(x, bits[0]);
      FeedBitInRange(x, bits[0]);
      ClearedByFewBits(next, bits[1..], if n == 0 then 0 else n - 1);
      if n == 0 {
        ZeroBackwards(x);
      } else {
        ShiftBackwards(x, bits[0], n);
      }
    }
  }

  lemma FirstBit()
    ensures FeedBit(0, true) == 0xA001 && FeedBit(0, false) == 0
  {
    XorZero(1);
    XorZero(0xA001);
  }

  /** From an empty register, a burst of bits inside 16 consecutive places never leaves it empty. */
  lemma {:induction false} BurstLeavesTrace(d: seq<bool>, p: nat)
    requires (exists i :: 0 <= i < |d| && d[i]) && forall i :: 0 <= i < |d| && d[i] ==> p <= i < p + 16
    ensures Fold<nat, bool>(FeedBit, 0, d) != 0
    decreases |d|
  {
    FirstBit();
    if d[0] {
      if Fold<nat, bool>(FeedBit, 0xA001, d[1..]) == 0 {
        PowersOfTwo();
        ClearedByFewBits(0xA001, d[1..], 15);
      }
    } else {
      var i :| 0 <= i < |d| && d[i];
      assert d[1..][i - 1];
      assert forall k :: 0 <= k < |d[1..]| && d[1..][k] ==> d[k + 1];
      BurstLeavesTrace(d[1..], if p == 0 then 0 else p - 1);
    }
  }

  lemma NumberFromBits(x: nat, y: nat, n: nat)
    requires x < Pow2(n) && y < Pow2(n) && Lows<nat, bool>(LowBit, Half, x, n) == Lows<nat, bool>(LowBit, Half, y, n)
    ensures x == y
  {
    forall u: nat, v: nat | LowBit(u) == LowBit(v) && Half(u) == Half(v) ensures u == v {
    }
    HalvesVanish(x, n);
    HalvesVanish(y, n);
    LowsDetermine<nat, bool>(LowBit, Half, x, y, n);
  }

  lemma ByteFromBits(x: Byte, y: Byte)
    requires BitsOf(x) == BitsOf(y)
    ensures x == y
  {
    PowersOfTwo();
    NumberFromBits(x, y, BYTE_BITS);
  }

  lemma {:induction false} MessageFromBits(a: seq<Byte>, b: seq<Byte>)
    requires |a| == |b| && Bits(a) == Bits(b)
    ensures a == b
  {
    if a != [] {
      assert Bits(a)[..8] == BitsOf(a[0]) && Bits(b)[..8] == BitsOf(b[0]);
      assert Bits(a)[8..] == Bits(a[1..]) && Bits(b)[8..] == Bits(b[1..]);
      ByteFromBits(a[0], b[0]);
      MessageFromBits(a[1..], b[1..]);
      assert a == [a[0]] + a[1..] && b == [b[0]] + b[1..];
    }
  }

  /** Two different messages of equal length that differ only inside 16 consecutive bits have different CRCs. */
  lemma BurstIsDetected(a: seq<Byte>, b: seq<Byte>, p: nat)
    requires |a| == |b| && a != b
    requires forall i :: 0 <= i < 8 * |a| && Bits(a)[i] != Bits(b)[i] ==> p <= i < p + 16
    ensures Crc(a) != Crc(b)
  {
    var d := Zip(Differ, Bits(a), Bits(b));
    if forall i :: 0 <= i < |d| ==> !d[i] {
      assert forall i :: 0 <= i < |d| ==> d[i] == Differ(Bits(a)[i], Bits(b)[i]);
      MessageFromBits(a, b);
    }
    BurstLeavesTrace(d, p);
    CrcIsSerial(0, a);
    CrcIsSerial(0, b);
    FeedDifferences(Bits(a), Bits(b));
    XorSelf(Crc(a));
  }
}
