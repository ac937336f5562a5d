/** How the meter modules take numbers out of a command text and write bytes. Text behind the end reads as empty. */
module MeterText {
  import opened Decimal
  import opened Hex
  import opened JsonText
  import opened Sequences
  import opened Words

  /** Conversion to uint8_t. */
  function ByteOf(x: int): Byte { x % 256 }

  datatype Parsed = Parsed(value: int, rest: string)

  /** `strtol` in base ten: white space, a sign, digits; without digits the value is 0 and nothing is consumed. */
  function StrToL(s: string): Parsed {
    var t := SkipSpace(s);
    var u := SkipSign(t);
    var n := Span(u);
    var value: int := ReadDec(u[..n]);
    if n == 0 then Parsed(0, s) else Parsed(if StartsWith(t, '-') then -value else value, u[n..])
  }

  /** The pointer moved over one character, whatever it is. */
  function SkipOne(s: string): string { if s == "" then "" else s[1..] }

  lemma StrToLReads(digits: string, rest: string)
    requires AllDigits(digits) && digits != "" && (rest == "" || !IsDigit(rest[0]))
    ensures StrToL(digits + rest) == Parsed(ReadDec(digits), rest)
  {
    var s := digits + rest;
    assert s[0] == digits[0];
    SpanOf(digits, rest);
    assert s[..|digits|] == digits && s[|digits|..] == rest;
  }

  lemma DigitsAhead(digits: string, rest: string)
    requires AllDigits(digits) && digits != "" && (rest == "" || !IsDigit(rest[0]))
    ensures var s := digits + rest;
            s != "" && IsDigit(s[0]) && Span(s) == |digits| && s[..|digits|] == digits && s[|digits|..] == rest
  {
    SpanOf(digits, rest);
    assert (digits + rest)[0] == digits[0];
  }

  /** A minus in front is read too. */
  lemma NegativeReads(digits: string, rest: string)
    requires AllDigits(digits) && digits != "" && (rest == "" || !IsDigit(rest[0]))
    ensures StrToL("-" + (digits + rest)) == Parsed(-(ReadDec(digits) as int), rest)
  {
    DigitsAhead(digits, rest);
    assert ("-" + (digits + rest))[1..] == digits + rest;
  }

  /** And so is white space. */
  lemma SpacedReads(digits: string, rest: string)
    requires AllDigits(digits) && digits != "" && (rest == "" || !IsDigit(rest[0]))
    ensures StrToL(" " + (digits + rest)) == Parsed(ReadDec(digits), rest)
  {
    DigitsAhead(digits, rest);
    assert (" " + (digits + rest))[1..] == digits + rest;
    assert SkipSpace(digits + rest) == digits + rest;
  }

  /** A field printed with "%02d" or "%d" and the character after it. */
  lemma FieldReads(n: nat, width: nat, rest: string)
    requires rest == "" || !IsDigit(rest[0])
    ensures StrToL(Pad(n, width) + rest) == Parsed(n, rest)
  {
    PadReadsBack(n, width);
    StrToLReads(Pad(n, width), rest);
  }

  lemma NumberReads(n: nat, rest: string)
    requires rest == "" || !IsDigit(rest[0])
    ensures StrToL(PrintDec(n) + rest) == Parsed(n, rest)
  {
    PrintDecReadsBack(n);
    StrToLReads(PrintDec(n), rest);
  }

  /** "%02x". */
  function HexByte(b: Byte): (s: string)
    ensures |s| == 2
  {
    [LowerDigit(b / 16), LowerDigit(b % 16)]
  }

  function HexText(bytes: seq<Byte>): string {
    if bytes == [] then "" else HexByte(bytes[0]) + HexText(bytes[1..])
  }

  lemma FromHexCons(b: Byte, rest: string)
    ensures FromHex(HexByte(b) + rest) == [b] + FromHex(rest)
  {
    assert (HexByte(b) + rest)[2..] == rest;
  }

  /** The bytes are what the text says. */
  lemma {:induction false} HexTextReadsBack(bytes: seq<Byte>)
    ensures FromHex(HexText(bytes)) == bytes
  {
    if bytes != [] {
      HexTextReadsBack(bytes[1..]);
      FromHexCons(bytes[0], HexText(bytes[1..]));
    }
  }

  lemma {:induction false} HexTextConcat(a: seq<Byte>, b: seq<Byte>)
    ensures HexText(a + b) == HexText(a) + HexText(b)
  {
    if a == [] {
      assert a + b == b;
    } else {
      HexTextConcat(a[1..], b);
      assert (a + b)[1..] == a[1..] + b;
      Associate(HexByte(a[0]), HexText(a[1..]), HexText(b));
    }
  }
}
