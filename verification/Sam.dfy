/** Sign-and-magnitude conversion of utils.c, for integers of any width and for the memory it works on.

    A w-bit integer is given by its two's complement pattern, a number below 2^w. The program computes in a type
    at least that wide and stores the low w bits, which is the same thing. */
module Sam {
  import opened Words
  import Hex

  // ----- Bit operators -----

  function And(x: nat, y: nat): nat {
    if x == 0 || y == 0 then 0 else 2 * And(x / 2, y / 2) + if x % 2 == 1 && y % 2 == 1 then 1 else 0
  }

  function Ones(w: nat): nat { Pow2(w) - 1 }

  lemma {:induction false} AndOnes(x: nat, w: nat)
    requires x < Pow2(w)
    ensures And(x, Ones(w)) == x == And(Ones(w), x)
    decreases w
  {
    if w > 0 {
      HalfBelow(x, Pow2(w - 1));
      AndOnes(x / 2, w - 1);
      assert Ones(w) == 2 * Ones(w - 1) + 1;
    }
  }

  lemma {:induction false} OrSelf(x: nat)
    ensures Or(x, x) == x
  {
    if x > 0 {
      OrSelf(x / 2);
    }
  }

  lemma {:induction false} XorOnes(x: nat, w: nat)
    requires x < Pow2(w)
    ensures Xor(x, Ones(w)) == Ones(w) - x
    decreases w
  {
    if w > 0 {
      HalfBelow(x, Pow2(w - 1));
      XorOnes(x / 2, w - 1);
      assert Ones(w) == 2 * Ones(w - 1) + 1;
    }
  }

  lemma {:induction false} AndTop(x: nat, k: nat)
    requires x < Pow2(k + 1)
    ensures And(x, Pow2(k)) == if x >= Pow2(k) then Pow2(k) else 0
    decreases k
  {
    if k > 0 {
      HalfBelow(x, Pow2(k));
      AndTop(x / 2, k - 1);
    } else {
      assert Pow2(1) == 2 * Pow2(0);
    }
  }

  lemma {:induction false} OrTop(m: nat, k: nat)
    requires m < Pow2(k)
    ensures Or(m, Pow2(k)) == m + Pow2(k)
    decreases k
  {
    if k > 0 {
      HalfBelow(m, Pow2(k - 1));
      OrTop(m / 2, k - 1);
    }
  }

  // ----- The conversions -----

  /** The sign of v in every bit: all zeros or all ones. */
  function SignFill(v: nat, w: nat): nat
    requires w > 0
  {
    if v >= Pow2(w - 1) then Ones(w) else 0
  }

  /** The magnitude, got by adding the sign's fill and flipping the bits it covers, under the sign bit. */
  function ToSam(v: nat, w: nat): nat
    requires w > 0
  {
    var s := SignFill(v, w);
    Or(Xor((v + s) % Pow2(w), s), And(v, Pow2(w - 1)))
  }

  /** A pattern without the sign bit is left alone; in one with it the magnitude is subtracted from the sign bit. */
  function FromSam(v: nat, w: nat): nat
    requires w > 0
  {
    var s := SignFill(v, w);
    Or(And(Ones(w) - s, v), And((And(v, Pow2(w - 1)) + Pow2(w) - v) % Pow2(w), s))
  }

  /** The integer a two's complement pattern stands for. */
  function Signed(v: nat, w: nat): int
    requires w > 0
  {
    if v < Pow2(w - 1) then v else v - Pow2(w)
  }

  /** The integer a sign-and-magnitude pattern stands for. */
  function SamValue(v: nat, w: nat): int
    requires w > 0
  {
    if v < Pow2(w - 1) then v else -(v - Pow2(w - 1))
  }

  lemma ModOnce(x: nat, m: nat)
    requires m > 0 && x < 2 * m
    ensures x % m == if x < m then x else x - m
  {
    if x >= m {
      assert x == m + (x - m);
    }
  }

  lemma ToSamIs(v: nat, w: nat)
    requires w > 0 && v < Pow2(w)
    ensures ToSam(v, w) ==
      if v < Pow2(w - 1) then v else if v == Pow2(w - 1) then Pow2(w - 1) else Pow2(w - 1) + (Pow2(w) - v)
  {
    AndTop(v, w - 1);
    if v < Pow2(w - 1) {
      ModOnce(v, Pow2(w));
      XorZero(v);
      OrZero(v);
    } else {
      NegativeToSam(v, w);
    }
  }

  lemma NegativeToSam(v: nat, w: nat)
    requires w > 0 && Pow2(w - 1) <= v < Pow2(w)
    ensures ToSam(v, w) == if v == Pow2(w - 1) then Pow2(w - 1) else Pow2(w - 1) + (Pow2(w) - v)
  {
    var top, m, ones := Pow2(w - 1), Pow2(w), Ones(w);
    var magnitude, sign := Xor((v + ones) % m, ones), And(v, top);
    assert magnitude == m - v by {
      ModOnce(v + ones, m);
      XorOnes(v - 1, w);
    }
    assert sign == top by {
      AndTop(v, w - 1);
    }
    assert Or(magnitude, sign) == if v == top then top else top + (m - v) by {
      if v == top {
        OrSelf(top);
      } else {
        OrTop(m - v, w - 1);
      }
    }
  }

  lemma FromSamIs(v: nat, w: nat)
    requires w > 0 && v < Pow2(w)
    ensures FromSam(v, w) ==
      if v < Pow2(w - 1) then v else if v == Pow2(w - 1) then 0 else Pow2(w) - (v - Pow2(w - 1))
  {
    var top, m, s := Pow2(w - 1), Pow2(w), SignFill(v, w);
    var kept, negated := And(Ones(w) - s, v), (And(v, top) + m - v) % m;
    assert And(v, top) == if v >= top then top else 0 by {
      AndTop(v, w - 1);
    }
    ModOnce(And(v, top) + m - v, m);
    if v < top {
      assert kept == v by {
        AndOnes(v, w);
      }
      OrZero(v);
    } else {
      assert And(negated, s) == negated by {
        AndOnes(negated, w);
      }
      OrZero(negated);
    }
  }

  /** The conversion keeps the value of every integer but the smallest, which has no sign-and-magnitude pattern. */
  lemma ToSamKeepsValue(v: nat, w: nat)
    requires w > 0 && v < Pow2(w)
    ensures ToSam(v, w) < Pow2(w)
    ensures SamValue(ToSam(v, w), w) == Signed(v, w) <==> v != Pow2(w - 1)
  {
    ToSamIs(v, w);
    assert Pow2(w) == 2 * Pow2(w - 1);
    Pow2Grows(0, w - 1);
  }

  /** And back: every pattern keeps its value, negative zero becoming plain zero. */
  lemma FromSamKeepsValue(v: nat, w: nat)
    requires w > 0 && v < Pow2(w)
    ensures FromSam(v, w) < Pow2(w) && Signed(FromSam(v, w), w) == SamValue(v, w)
  {
    FromSamIs(v, w);
    assert Pow2(w) == 2 * Pow2(w - 1);
  }

  /** from(to(v)) = v exactly for every v except the minimum. */
  lemma FromInvertsTo(v: nat, w: nat)
    requires w > 0 && v < Pow2(w)
    ensures ToSam(v, w) < Pow2(w)
    ensures FromSam(ToSam(v, w), w) == v <==> v != Pow2(w - 1)
  {
    ToSamKeepsValue(v, w);
    ToSamIs(v, w);
    FromSamIs(ToSam(v, w), w);
    Pow2Grows(0, w - 1);
  }

  /** to(from(v)) = v exactly for every pattern except negative zero. */
  lemma ToInvertsFrom(v: nat, w: nat)
    requires w > 0 && v < Pow2(w)
    ensures ToSam(FromSam(v, w), w) == v <==> v != Pow2(w - 1)
  {
    FromSamKeepsValue(v, w);
    FromSamIs(v, w);
    ToSamIs(FromSam(v, w), w);
    Pow2Grows(0, w - 1);
  }

  // ----- In memory -----

  function HostBytes(v: nat, n: nat, bigEndian: bool): seq<Byte> {
    if bigEndian then BigEndianBytes(v, n) else Hex.Reverse(BigEndianBytes(v, n))
  }

  function BigEndianBytes(v: nat, n: nat): (b: seq<Byte>)
    ensures |b| == n
    decreases n
  {
    if n == 0 then [] else BigEndianBytes(v / 256, n - 1) + [v % 256]
  }

  /** 2^(8 n). */
  function Range(n: nat): nat { Pow2(8 * n) }

  lemma RangeGrows(n: nat)
    requires n > 0
    ensures Range(n) == 256 * Range(n - 1)
  {
    var k := 8 * (n - 1);
    assert Pow2(k + 8) == 2 * Pow2(k + 7) && Pow2(k + 7) == 2 * Pow2(k + 6) && Pow2(k + 6) == 2 * Pow2(k + 5);
    assert Pow2(k + 5) == 2 * Pow2(k + 4) && Pow2(k + 4) == 2 * Pow2(k + 3) && Pow2(k + 3) == 2 * Pow2(k + 2);
    assert Pow2(k + 2) == 2 * Pow2(k + 1) && Pow2(k + 1) == 2 * Pow2(k);
  }

  lemma {:induction false} BytesOfValue(b: seq<Byte>)
    ensures Hex.BigEndianValue(b) < Range(|b|) && BigEndianBytes(Hex.BigEndianValue(b), |b|) == b
  {
    if b != [] {
      BytesOfValue(b[..|b| - 1]);
      RangeGrows(|b|);
    }
  }

  lemma {:induction false} ValueOfBytes(v: nat, n: nat)
    requires v < Range(n)
    ensures Hex.BigEndianValue(BigEndianBytes(v, n)) == v
    decreases n
  {
    if n > 0 {
      RangeGrows(n);
      ValueOfBytes(v / 256, n - 1);
      assert BigEndianBytes(v, n)[..n - 1] == BigEndianBytes(v / 256, n - 1);
    }
  }

  /** What is stored in the host's order is read back. */
  lemma HostRoundTrip(v: nat, n: nat, bigEndian: bool)
    requires v < Range(n)
    ensures Hex.HostValue(HostBytes(v, n, bigEndian), bigEndian) == v
  {
    ValueOfBytes(v, n);
    Hex.ReversedValue(BigEndianBytes(v, n));
  }

  predicate Supported(size: nat) { size == 1 || size == 2 || size == 4 || size == 8 }

  /** uint16_to_le and its siblings: the bytes are reversed on a little-endian host. */
  function Swapped(b: seq<Byte>, bigEndian: bool): seq<Byte> {
    if bigEndian then b else Hex.Reverse(b)
  }

  method SwapBytes(mem: array<Byte>, size: nat, bigEndian: bool)
    requires size <= mem.Length
    modifies mem
    ensures mem[..] == Swapped(old(mem[..size]), bigEndian) + old(mem[size..])
  {
    if !bigEndian {
      var was := mem[..];
      for i := 0 to size
        invariant forall k :: 0 <= k < i ==> mem[k] == was[size - 1 - k]
        invariant forall k :: i <= k < mem.Length ==> mem[k] == was[k]
      {
        mem[i] := was[size - 1 - i];
      }
    }
  }

  method Store(mem: array<Byte>, b: seq<Byte>)
    requires |b| <= mem.Length
    modifies mem
    ensures mem[..] == b + old(mem[|b|..])
  {
    for i := 0 to |b|
      invariant forall k :: 0 <= k < i ==> mem[k] == b[k]
      invariant forall k :: i <= k < mem.Length ==> mem[k] == old(mem[k])
    {
      mem[i] := b[i];
    }
  }

  /** The bytes after converting the integer of the host in them and swapping. */
  function Written(b: seq<Byte>, convert: nat -> nat, bigEndian: bool): seq<Byte> {
    Swapped(HostBytes(convert(Hex.HostValue(b, bigEndian)), |b|, bigEndian), bigEndian)
  }

  /** The bytes after swapping and converting what is then in them. */
  function Received(b: seq<Byte>, convert: nat -> nat, bigEndian: bool): seq<Byte> {
    HostBytes(convert(Hex.HostValue(Swapped(b, bigEndian), bigEndian)), |b|, bigEndian)
  }

  function To(size: nat): nat -> nat
    requires size > 0
  {
    v => ToSam(v, 8 * size)
  }

  function From(size: nat): nat -> nat
    requires size > 0
  {
    v => FromSam(v, 8 * size)
  }

  /** Other sizes are left alone. */
  method ConvertToBeSam(mem: array<Byte>, size: nat, bigEndian: bool)
    requires size <= mem.Length
    modifies mem
    ensures mem[..] == if size in {1, 2, 4, 8}
                       then Written(old(mem[..size]), To(size), bigEndian) + old(mem[size..]) else old(mem[..])
  {
    if !Supported(size) {
      return;
    }
    var v := Hex.HostValue(mem[..size], bigEndian);
    Store(mem, HostBytes(ToSam(v, 8 * size), size, bigEndian));
    assert mem[size..] == old(mem[size..]);
    SwapBytes(mem, size, bigEndian);
  }

  method ConvertFromBeSam(mem: array<Byte>, size: nat, bigEndian: bool)
    requires size <= mem.Length
    modifies mem
    ensures mem[..] == if size in {1, 2, 4, 8}
                       then Received(old(mem[..size]), From(size), bigEndian) + old(mem[size..]) else old(mem[..])
  {
    if !Supported(size) {
      return;
    }
    SwapBytes(mem, size, bigEndian);
    assert mem[..size] == Swapped(old(mem[..size]), bigEndian);
    var v := Hex.HostValue(mem[..size], bigEndian);
    Store(mem, HostBytes(FromSam(v, 8 * size), size, bigEndian));
  }

  /** On the wire there is the converted integer, most significant byte first, whichever host wrote it. */
  lemma WrittenIs(v: nat, n: nat, convert: nat -> nat, bigEndian: bool)
    requires v < Range(n)
    ensures Written(HostBytes(v, n, bigEndian), convert, bigEndian) == BigEndianBytes(convert(v), n)
  {
    HostRoundTrip(v, n, bigEndian);
    var b := BigEndianBytes(convert(v), n);
    assert Hex.Reverse(Hex.Reverse(b)) == b;
  }

  /** And any host takes from the wire the converted integer. */
  lemma ReceivedIs(q: nat, n: nat, convert: nat -> nat, bigEndian: bool)
    requires q < Range(n)
    ensures Received(BigEndianBytes(q, n), convert, bigEndian) == HostBytes(convert(q), n, bigEndian)
  {
    assert Swapped(BigEndianBytes(q, n), bigEndian) == HostBytes(q, n, bigEndian);
    HostRoundTrip(q, n, bigEndian);
  }

  /** The two conversions in sequence, on hosts of any byte order, are the conversions of the integers in sequence. */
  lemma WrittenThenReceived(v: nat, n: nat, to: nat -> nat, from: nat -> nat, writer: bool, reader: bool)
    requires v < Range(n) && to(v) < Range(n) && from(to(v)) < Range(n)
    ensures Hex.HostValue(Received(Written(HostBytes(v, n, writer), to, writer), from, reader), reader) == from(to(v))
  {
    WrittenIs(v, n, to, writer);
    ReceivedIs(to(v), n, from, reader);
    HostRoundTrip(from(to(v)), n, reader);
  }

  lemma BytesDetermineValue(a: nat, b: nat, n: nat)
    requires a < Range(n) && b < Range(n)
    ensures BigEndianBytes(a, n) == BigEndianBytes(b, n) <==> a == b
  {
    ValueOfBytes(a, n);
    ValueOfBytes(b, n);
  }

  lemma ReceivedThenWritten(q: nat, n: nat, to: nat -> nat, from: nat -> nat, bigEndian: bool)
    requires q < Range(n) && from(q) < Range(n) && to(from(q)) < Range(n)
    ensures var wire := BigEndianBytes(q, n);
            Written(Received(wire, from, bigEndian), to, bigEndian) == wire <==> to(from(q)) == q
  {
    ReceivedIs(q, n, from, bigEndian);
    WrittenIs(from(q), n, to, bigEndian);
    BytesDetermineValue(to(from(q)), q, n);
  }

  lemma ConversionsOf(v: nat, n: nat)
    requires n > 0 && v < Range(n)
    ensures To(n)(v) < Range(n) && From(n)(v) < Range(n)
    ensures From(n)(To(n)(v)) < Range(n) && To(n)(From(n)(v)) < Range(n)
    ensures From(n)(To(n)(v)) == v <==> v != Pow2(8 * n - 1)
    ensures To(n)(From(n)(v)) == v <==> v != Pow2(8 * n - 1)
  {
    var w := 8 * n;
    ToSamKeepsValue(v, w);
    FromSamKeepsValue(v, w);
    FromSamKeepsValue(ToSam(v, w), w);
    ToSamKeepsValue(FromSam(v, w), w);
    FromInvertsTo(v, w);
    ToInvertsFrom(v, w);
  }

  /** What one host writes any host reads back as the same integer, unless it is the smallest one. */
  lemma WireRoundTrip(v: nat, n: nat, writer: bool, reader: bool)
    requires n > 0 && v < Range(n)
    ensures Hex.HostValue(Received(Written(HostBytes(v, n, writer), To(n), writer), From(n), reader), reader) == v
       <==> v != Pow2(8 * n - 1)
  {
    ConversionsOf(v, n);
    WrittenThenReceived(v, n, To(n), From(n), writer, reader);
  }

  /** Reading a pattern and writing it back puts the same bytes on the wire, unless it is negative zero. */
  lemma ReadAndWriteBack(q: nat, n: nat, bigEndian: bool)
    requires n > 0 && q < Range(n)
    ensures var wire := BigEndianBytes(q, n);
            Written(Received(wire, From(n), bigEndian), To(n), bigEndian) == wire <==> q != Pow2(8 * n - 1)
  {
    ConversionsOf(q, n);
    ReceivedThenWritten(q, n, To(n), From(n), bigEndian);
  }
}
