/** Hexadecimal text of utils.c, and the downlink frame mqtt.c builds with it. */
module Hex {
  import opened Options
  import opened Sequences
  import opened Words

  predicate IsHexDigit(c: char) {
    '0' <= c <= '9' || 'a' <= c <= 'f' || 'A' <= c <= 'F'
  }

  predicate AllHex(s: string) {
    forall i :: 0 <= i < |s| ==> IsHexDigit(s[i])
  }

  /** Meant for hexadecimal digits; total so that it can be used under a quantifier. */
  function DigitValue(c: char): (d: int)
    ensures 0 <= d < 16
  {
    if '0' <= c <= '9' then c as int - '0' as int
    else if 'A' <= c <= 'F' then c as int - 'A' as int + 10
    else if 'a' <= c <= 'f' then c as int - 'a' as int + 10
    else 0
  }

  function LowerDigit(d: int): (c: char)
    requires 0 <= d < 16
    ensures IsHexDigit(c) && DigitValue(c) == d
  {
    if d < 10 then '0' + d as char else 'a' + (d - 10) as char
  }

  function UpperDigit(d: int): (c: char)
    requires 0 <= d < 16
    ensures IsHexDigit(c) && DigitValue(c) == d
  {
    if d < 10 then '0' + d as char else 'A' + (d - 10) as char
  }

  /** The digits are the usual ones, in the case asked for, and are read in either. */
  lemma DigitsAre(d: int)
    requires 0 <= d < 16
    ensures LowerDigit(d) == "0123456789abcdef"[d] && UpperDigit(d) == "0123456789ABCDEF"[d]
    ensures DigitValue("0123456789abcdef"[d]) == d == DigitValue("0123456789ABCDEF"[d])
  {
  }

  function Upper(s: string): string {
    seq(|s|, i requires 0 <= i < |s| => if 'a' <= s[i] <= 'f' then 'A' + (s[i] - 'a') else s[i])
  }

  function Reverse<T>(s: seq<T>): seq<T> {
    seq(|s|, i requires 0 <= i < |s| => s[|s| - 1 - i])
  }

  // ----- hex_to_bytes and bytes_to_hex -----

  /** The byte `sscanf` reads with "%02x" from the two digits at position p. */
  function ByteAt(s: string, p: int): Byte
    requires 0 <= p < |s| - 1
  {
    16 * DigitValue(s[p]) + DigitValue(s[p + 1])
  }

  function FromHex(s: string): seq<Byte> {
    if |s| < 2 then [] else [ByteAt(s, 0)] + FromHex(s[2..])
  }

  function ToHex(bytes: seq<Byte>): string {
    if bytes == [] then "" else [UpperDigit(bytes[0] / 16), UpperDigit(bytes[0] % 16)] + ToHex(bytes[1..])
  }

  /** The bytes in the order asked for. */
  function Ordered(bytes: seq<Byte>, reverse: bool): seq<Byte> {
    if reverse then Reverse(bytes) else bytes
  }

  lemma {:induction false} FromHexLength(s: string)
    ensures |FromHex(s)| == |s| / 2
  {
    if |s| >= 2 {
      FromHexLength(s[2..]);
    }
  }

  lemma {:induction false} FromHexSnoc(s: string, c: char, d: char)
    requires |s| % 2 == 0
    ensures FromHex(s + [c, d]) == FromHex(s) + [16 * DigitValue(c) + DigitValue(d)]
  {
    if s == "" {
      assert s + [c, d] == [c, d] && [c, d][2..] == "";
    } else {
      FromHexSnoc(s[2..], c, d);
      assert (s + [c, d])[2..] == s[2..] + [c, d];
      assert ByteAt(s + [c, d], 0) == ByteAt(s, 0);
    }
  }

  lemma FromHexUpTo(s: string, p: nat)
    requires p <= |s| - 2 && p % 2 == 0
    ensures FromHex(s[..p + 2]) == FromHex(s[..p]) + [ByteAt(s, p)]
  {
    FromHexSnoc(s[..p], s[p], s[p + 1]);
    assert s[..p + 2] == s[..p] + [s[p], s[p + 1]];
  }

  lemma {:induction false} ToHexSnoc(bytes: seq<Byte>, b: Byte)
    ensures ToHex(bytes + [b]) == ToHex(bytes) + [UpperDigit(b / 16), UpperDigit(b % 16)]
  {
    if bytes != [] {
      ToHexSnoc(bytes[1..], b);
      assert (bytes + [b])[1..] == bytes[1..] + [b];
    }
  }

  /** The memory from the target on, after reading `len` digits into it. Backwards, `len` digits are read from the end;
      forwards the loop runs to the end of the string and never looks at `len`. */
  function MemoryAfter(s: string, len: nat, reverse: bool, was: seq<Byte>): (now: seq<Byte>)
    requires len <= |s| && (if reverse then len else |s|) / 2 <= |was|
    ensures |now| == |was|
  {
    FromHexLength(s);
    FromHexLength(s[..len]);
    if reverse then Reverse(FromHex(s[..len])) + was[len / 2..] else FromHex(s) + was[|s| / 2..]
  }

  /** Odd lengths are refused. `bytes` is the memory from the target on, which may reach beyond the target: what the
      program writes there is part of the contract. */
  method HexToBytesN(hexstr: string, len: nat, bytes: array<Byte>, reverse: bool) returns (ok: bool)
    requires AllHex(hexstr) && len <= |hexstr| && (if reverse then len else |hexstr|) / 2 <= bytes.Length
    requires !reverse && len % 2 == 0 ==> |hexstr| % 2 == 0
    modifies bytes
    ensures ok <==> len % 2 == 0
    ensures bytes[..] == if ok then MemoryAfter(hexstr, len, reverse, old(bytes[..])) else old(bytes[..])
  {
    if len % 2 != 0 {
      return false;
    }
    if reverse {
      ReadBackwards(hexstr, len, bytes);
    } else {
      ReadForwards(hexstr, bytes);
    }
    return true;
  }

  method ReadBackwards(hexstr: string, len: nat, bytes: array<Byte>)
    requires AllHex(hexstr) && len <= |hexstr| && len % 2 == 0 && len / 2 <= bytes.Length
    modifies bytes
    ensures bytes[..] == Reverse(FromHex(hexstr[..len])) + old(bytes[..])[len / 2..]
  {
    var i, ptr := 0, len - 2;
    ghost var all := Reverse(FromHex(hexstr[..len]));
    ReverseLength(hexstr[..len]);
    while len / 2 - i != 0
      invariant 0 <= i <= len / 2 && ptr == len - 2 - 2 * i
      invariant IsRest(hexstr, ptr + 2, all, i)
      invariant forall k :: 0 <= k < i ==> bytes[k] == all[k]
      invariant forall k :: i <= k < bytes.Length ==> bytes[k] == old(bytes[k])
    {
      RestShrinks(hexstr, ptr, all, i);
      bytes[i] := ByteAt(hexstr, ptr);
      i := i + 1;
      ptr := ptr - 2;
    }
  }

  /** What the first p digits give, backwards, is what is left of it all from place i on. */
  ghost predicate IsRest(s: string, p: int, all: seq<Byte>, i: nat)
  {
    0 <= p <= |s| && i <= |all| && Reverse(FromHex(s[..p])) == all[i..]
  }

  lemma RestShrinks(s: string, p: int, all: seq<Byte>, i: nat)
    requires 0 <= p <= |s| - 2 && p % 2 == 0 && IsRest(s, p + 2, all, i)
    ensures i < |all| && all[i] == ByteAt(s, p) && IsRest(s, p, all, i + 1)
  {
    FromHexBackwards(s, p);
    assert all[i..][1..] == all[i + 1..];
  }

  method ReadForwards(hexstr: string, bytes: array<Byte>)
    requires AllHex(hexstr) && |hexstr| % 2 == 0 && |hexstr| / 2 <= bytes.Length
    modifies bytes
    ensures bytes[..] == FromHex(hexstr) + old(bytes[..])[|hexstr| / 2..]
  {
    var i, ptr := 0, 0;
    ghost var was := bytes[..];
    FromHexLength(hexstr);
    assert hexstr[..0] == "" && FromHex("") == [];
    while ptr != |hexstr|
      invariant 0 <= ptr <= |hexstr| && ptr == 2 * i
      invariant ReadUpTo(hexstr, ptr, i, bytes[..], was)
    {
      ForwardStep(hexstr, ptr, i, was);
      ghost var now := bytes[..];
      bytes[i] := ByteAt(hexstr, ptr);
      Changed(bytes[..], now, i, ByteAt(hexstr, ptr));
      i := i + 1;
      ptr := ptr + 2;
    }
    assert hexstr[..ptr] == hexstr;
  }

  /** The first p digits are in i bytes, and behind them nothing has changed. */
  ghost predicate ReadUpTo(s: string, p: nat, i: nat, now: seq<Byte>, was: seq<Byte>)
    requires p <= |s|
  {
    |FromHex(s[..p])| == i <= |was| && now == FromHex(s[..p]) + was[i..]
  }

  lemma Changed(b: seq<Byte>, now: seq<Byte>, i: nat, x: Byte)
    requires i < |b| == |now| && b[i] == x && forall k :: 0 <= k < |b| && k != i ==> b[k] == now[k]
    ensures b == now[i := x]
  {
  }

  lemma ForwardStep(s: string, p: nat, i: nat, was: seq<Byte>)
    requires p <= |s| - 2 && p % 2 == 0 && |FromHex(s[..p])| == i < |was|
    ensures |FromHex(s[..p + 2])| == i + 1
    ensures (FromHex(s[..p]) + was[i..])[i := ByteAt(s, p)] == FromHex(s[..p + 2]) + was[i + 1..]
  {
    FromHexUpTo(s, p);
    PutNext(FromHex(s[..p]), was, ByteAt(s, p));
  }

  lemma PutNext(done: seq<Byte>, was: seq<Byte>, b: Byte)
    requires |done| < |was|
    ensures (done + was[|done|..])[|done| := b] == (done + [b]) + was[|done| + 1..]
  {
  }

  lemma ReverseLength(s: string)
    ensures |Reverse(FromHex(s))| == |s| / 2
  {
    FromHexLength(s);
  }

  lemma FromHexBackwards(s: string, p: nat)
    requires p <= |s| - 2 && p % 2 == 0
    ensures Reverse(FromHex(s[..p + 2])) == [ByteAt(s, p)] + Reverse(FromHex(s[..p]))
  {
    FromHexUpTo(s, p);
    ReverseSnoc(FromHex(s[..p]), ByteAt(s, p));
  }

  lemma ReverseSnoc<T>(s: seq<T>, x: T)
    ensures Reverse(s + [x]) == [x] + Reverse(s)
  {
  }

  method HexToBytes(hexstr: string, bytes: array<Byte>, reverse: bool) returns (ok: bool)
    requires AllHex(hexstr) && |hexstr| / 2 <= bytes.Length
    modifies bytes
    ensures ok <==> |hexstr| % 2 == 0
    ensures bytes[..] ==
      if ok then Ordered(FromHex(hexstr), reverse) + old(bytes[..])[|hexstr| / 2..] else old(bytes[..])
  {
    assert hexstr[..|hexstr|] == hexstr;
    ok := HexToBytesN(hexstr, |hexstr|, bytes, reverse);
  }

  /** Appends to what `str` already holds, as strcat does. */
  method BytesToHex(bytes: seq<Byte>, str: string, reverse: bool) returns (out: string)
    ensures out == str + ToHex(Ordered(bytes, reverse))
  {
    out := str;
    ghost var all := Ordered(bytes, reverse);
    for i := 0 to |bytes|
      invariant out == str + ToHex(all[..i])
    {
      var b := bytes[if reverse then |bytes| - 1 - i else i];
      ToHexSnoc(all[..i], b);
      assert all[..i + 1] == all[..i] + [b];
      out := out + [UpperDigit(b / 16), UpperDigit(b % 16)];
    }
    assert all[..|bytes|] == all;
  }

  lemma {:induction false} FromHexOfToHex(bytes: seq<Byte>)
    ensures AllHex(ToHex(bytes)) && |ToHex(bytes)| == 2 * |bytes| && FromHex(ToHex(bytes)) == bytes
  {
    if bytes != [] {
      FromHexOfToHex(bytes[1..]);
      assert ToHex(bytes)[2..] == ToHex(bytes[1..]);
    }
  }

  lemma {:induction false} ToHexOfFromHex(s: string)
    requires AllHex(s) && |s| % 2 == 0
    ensures ToHex(FromHex(s)) == Upper(s)
  {
    if s != "" {
      ToHexOfFromHex(s[2..]);
      UpperByte(s[0], s[1]);
      UpperSplit(s);
      ToHexCons(ByteAt(s, 0), FromHex(s[2..]));
    }
  }

  lemma ToHexCons(b: Byte, rest: seq<Byte>)
    ensures ToHex([b] + rest) == [UpperDigit(b / 16), UpperDigit(b % 16)] + ToHex(rest)
  {
    assert ([b] + rest)[1..] == rest;
  }

  lemma UpperSplit(s: string)
    requires |s| >= 2
    ensures Upper(s) == Upper([s[0], s[1]]) + Upper(s[2..])
  {
  }

  lemma UpperByte(c: char, d: char)
    requires IsHexDigit(c) && IsHexDigit(d)
    ensures var b := 16 * DigitValue(c) + DigitValue(d);
            [UpperDigit(b / 16), UpperDigit(b % 16)] == Upper([c, d])
  {
    UpperDigitOf(c);
    UpperDigitOf(d);
  }

  lemma UpperDigitOf(c: char)
    requires IsHexDigit(c)
    ensures UpperDigit(DigitValue(c)) == if 'a' <= c <= 'f' then 'A' + (c - 'a') else c
  {
  }

  lemma OrderedTwice(bytes: seq<Byte>, reverse: bool)
    ensures Ordered(Ordered(bytes, reverse), reverse) == bytes
  {
    assert Reverse(Reverse(bytes)) == bytes;
  }

  /** Bytes printed and read in the same order come back, whatever their number. */
  lemma FromHexInvertsToHex(bytes: seq<Byte>, reverse: bool)
    ensures var s := ToHex(Ordered(bytes, reverse));
            AllHex(s) && |s| == 2 * |bytes| && Ordered(FromHex(s), reverse) == bytes
  {
    FromHexOfToHex(Ordered(bytes, reverse));
    OrderedTwice(bytes, reverse);
  }

  /** Text of even length read and printed in the same order comes back in upper case. */
  lemma ToHexInvertsFromHex(s: string, reverse: bool)
    requires AllHex(s) && |s| % 2 == 0
    ensures ToHex(Ordered(Ordered(FromHex(s), reverse), reverse)) == Upper(s)
  {
    OrderedTwice(FromHex(s), reverse);
    ToHexOfFromHex(s);
  }

  // ----- Addresses -----

  /** The number a string of hexadecimal digits stands for. */
  function HexValue(s: string): nat {
    if s == "" then 0 else 16 * HexValue(s[..|s| - 1]) + DigitValue(s[|s| - 1])
  }

  function BigEndianValue(bytes: seq<Byte>): nat {
    if bytes == [] then 0 else 256 * BigEndianValue(bytes[..|bytes| - 1]) + bytes[|bytes| - 1]
  }

  function LittleEndianValue(bytes: seq<Byte>): nat {
    if bytes == [] then 0 else bytes[0] + 256 * LittleEndianValue(bytes[1..])
  }

  /** The integer a host reads from memory. */
  function HostValue(bytes: seq<Byte>, bigEndian: bool): nat {
    if bigEndian then BigEndianValue(bytes) else LittleEndianValue(bytes)
  }

  lemma {:induction false} ReversedValue(bytes: seq<Byte>)
    ensures LittleEndianValue(Reverse(bytes)) == BigEndianValue(bytes)
  {
    if bytes != [] {
      var front := bytes[..|bytes| - 1];
      ReversedValue(front);
      assert Reverse(bytes)[1..] == Reverse(front);
    }
  }

  lemma {:induction false} ForwardValue(s: string)
    requires |s| % 2 == 0
    ensures BigEndianValue(FromHex(s)) == HexValue(s)
  {
    if s != "" {
      var p := |s| - 2;
      ForwardValue(s[..p]);
      FromHexUpTo(s, p);
      assert s[..p + 2] == s && s[..p + 1][..p] == s[..p];
    }
  }

  lemma {:induction false} FromHexConcat(a: string, b: string)
    requires |a| % 2 == 0
    ensures FromHex(a + b) == FromHex(a) + FromHex(b)
  {
    if a == "" {
      assert a + b == b;
    } else {
      FromHexConcat(a[2..], b);
      TailOfBoth(a, b);
      assert ByteAt(a + b, 0) == ByteAt(a, 0);
      Associate([ByteAt(a, 0)], FromHex(a[2..]), FromHex(b));
    }
  }

  lemma TailOfBoth(a: string, b: string)
    requires |a| >= 2
    ensures (a + b)[2..] == a[2..] + b
  {
  }

  /** Read forwards, a field of `len` digits gets the bytes of the whole string: those of the field exactly when the
      string ends with it. */
  lemma ForwardIgnoresLength(s: string, len: nat)
    requires len <= |s| && len % 2 == 0 && |s| % 2 == 0
    ensures FromHex(s) == FromHex(s[..len]) + FromHex(s[len..])
    ensures FromHex(s) == FromHex(s[..len]) <==> len == |s|
  {
    assert s[..len] + s[len..] == s;
    FromHexConcat(s[..len], s[len..]);
    FromHexLength(s);
    FromHexLength(s[..len]);
    FromHexLength(s[len..]);
  }

  /** A field of `len` digits read into a target of `len / 2` bytes, in the order that suits the host: the target
      holds the field's number on every host. Behind the target nothing is written on a little-endian host, and the
      bytes of the rest of the string on a big-endian one. */
  lemma FieldIsRead(s: string, len: nat, bigEndian: bool, was: seq<Byte>)
    requires len <= |s| && len % 2 == 0 && |s| % 2 == 0 && |s| / 2 <= |was|
    ensures var now := MemoryAfter(s, len, !bigEndian, was);
            && |now| == |was|
            && HostValue(now[..len / 2], bigEndian) == HexValue(s[..len])
            && now[len / 2..] == if bigEndian then FromHex(s[len..]) + was[|s| / 2..] else was[len / 2..]
  {
    FromHexLength(s[..len]);
    FromHexLength(s[len..]);
    ForwardIgnoresLength(s, len);
    AddressIndependentOfHost(s[..len], bigEndian);
    var now := MemoryAfter(s, len, !bigEndian, was);
    assert now[..len / 2] == Ordered(FromHex(s[..len]), !bigEndian);
  }

  /** So a big-endian host writes (|s| - len) / 2 bytes too many; whatever is there before, all is well exactly when
      the string ends with the field. */
  lemma FieldKeepsNeighbours(s: string, len: nat, size: nat)
    requires len <= |s| && len % 2 == 0 && |s| % 2 == 0 && |s| / 2 <= size
    ensures (forall was: seq<Byte> :: |was| == size ==> MemoryAfter(s, len, false, was)[len / 2..] == was[len / 2..])
       <==> len == |s|
  {
    FromHexLength(s);
    if len == |s| {
      forall was: seq<Byte> | |was| == size ensures MemoryAfter(s, len, false, was)[len / 2..] == was[len / 2..] {
      }
    } else {
      var n := len / 2;
      var other: Byte := if FromHex(s)[n] == 0 then 1 else 0;
      var was: seq<Byte> := Repeat(other, size);
      assert MemoryAfter(s, len, false, was)[n..][0] == FromHex(s)[n];
      assert was[n..][0] == other;
    }
  }

  function Repeat(b: Byte, n: nat): (bytes: seq<Byte>)
    ensures |bytes| == n && forall i :: 0 <= i < n ==> bytes[i] == b
  {
    if n == 0 then [] else [b] + Repeat(b, n - 1)
  }

  /** Parsing with `reverse_order = !is_big_endian()` yields the same integer on hosts of either byte order:
      the one the digits denote. */
  lemma AddressIndependentOfHost(s: string, bigEndian: bool)
    requires |s| % 2 == 0
    ensures HostValue(Ordered(FromHex(s), !bigEndian), bigEndian) == HexValue(s)
  {
    ForwardValue(s);
    ReversedValue(FromHex(s));
  }

  /** `printf` with "%x": no padding, lower case. */
  function PrintHex(n: nat): (s: string)
    ensures AllHex(s) && s != ""
  {
    if n < 16 then [LowerDigit(n)] else PrintHex(n / 16) + [LowerDigit(n % 16)]
  }

  function Pow16(k: nat): nat { if k == 0 then 1 else 16 * Pow16(k - 1) }

  lemma {:induction false} PrintHexReadsBack(n: nat)
    ensures HexValue(PrintHex(n)) == n
  {
    var s := PrintHex(n);
    if n < 16 {
      assert s[..0] == "";
    } else {
      PrintHexReadsBack(n / 16);
      assert s[..|s| - 1] == PrintHex(n / 16);
    }
  }

  lemma {:induction false} PrintHexLength(n: nat, k: nat)
    requires k >= 1
    ensures |PrintHex(n)| <= k <==> n < Pow16(k)
  {
    if n >= 16 && k > 1 {
      PrintHexLength(n / 16, k - 1);
    } else if k == 1 {
      assert Pow16(1) == 16 * Pow16(0);
    } else {
      Pow16Grows(k);
    }
  }

  lemma {:induction false} Pow16Grows(k: nat)
    requires k >= 1
    ensures Pow16(k) >= 16
  {
    if k > 1 {
      Pow16Grows(k - 1);
    }
  }

  /** It is printed without leading zeros and with small letters. */
  lemma {:induction false} PrintHexLooks(n: nat)
    ensures n > 0 ==> PrintHex(n)[0] != '0'
    ensures forall k :: 0 <= k < |PrintHex(n)| ==> PrintHex(n)[k] in "0123456789abcdef"
  {
    DigitsAre(n % 16);
    assert LowerDigit(n % 16) in "0123456789abcdef";
    if n >= 16 {
      PrintHexLooks(n / 16);
    }
  }

  // ----- The downlink frame -----

  const ADDRESS_DIGITS := 16

  /** The frame mqtt.c queues: command 'I', the address without padding, the payload. */
  function IndFrame(addr: nat, payload: string): string {
    "I" + PrintHex(addr) + payload
  }

  /** A reader that takes the address to be 16 digits, as mqtt.c itself does with every line of the gate. */
  function ReadIndFrame(frame: string): Option<(nat, string)> {
    if |frame| >= 1 + ADDRESS_DIGITS && frame[0] == 'I' && AllHex(frame[1..1 + ADDRESS_DIGITS])
    then Some((HexValue(frame[1..1 + ADDRESS_DIGITS]), frame[1 + ADDRESS_DIGITS..]))
    else None
  }

  /** The frame reads back exactly for the addresses that need all 16 digits. */
  lemma FrameReadsBackIffLongAddress(addr: nat, payload: string)
    requires addr < Pow16(16)
    ensures ReadIndFrame(IndFrame(addr, payload)) == Some((addr, payload)) <==> addr >= Pow16(15)
  {
    PrintHexLength(addr, 16);
    PrintHexLength(addr, 15);
    var f, hex := IndFrame(addr, payload), PrintHex(addr);
    if addr >= Pow16(15) {
      assert f[1..17] == hex && f[17..] == payload;
      PrintHexReadsBack(addr);
    } else if |f| >= 17 {
      assert |f[17..]| < |payload|;
    }
  }

  /** Below that the frame is ambiguous: a leading digit of the payload may as well belong to the address. */
  lemma ShortAddressIsAmbiguous(addr: nat, digit: int, rest: string)
    requires 0 < addr < Pow16(15) && 0 <= digit < 16
    ensures 16 * addr + digit < Pow16(16)
    ensures IndFrame(addr, [LowerDigit(digit)] + rest) == IndFrame(16 * addr + digit, rest)
  {
    var hex, d := PrintHex(addr), [LowerDigit(digit)];
    assert (16 * addr + digit) / 16 == addr && (16 * addr + digit) % 16 == digit;
    assert PrintHex(16 * addr + digit) == hex + d;
    assert "I" + hex + (d + rest) == "I" + (hex + d) + rest;
    assert Pow16(16) == 16 * Pow16(15);
  }
}
