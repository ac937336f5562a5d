/** Fixed-point printing of utils.c, read back exactly. */
module FixedPoint {
  import opened Decimal
  import opened Options
  import opened JsonText

  const INT_MIN := -0x8000_0000
  const INT_MAX := 0x7FFF_FFFF

  function Abs(x: int): nat { if x < 0 then -x else x }

  /** C's division and remainder, which truncate towards zero. */
  function Quotient(a: int, b: int): int
    requires b > 0
  {
    if a < 0 then -(-a / b) else a / b
  }

  function Remainder(a: int, b: int): int
    requires b > 0
  {
    a - b * Quotient(a, b)
  }

  /** Sign, integer part, point and `precision` fraction digits ("%00d" prints one). */
  function Fixed(d: int, precision: nat): string {
    var text := PrintDec(Whole(d, precision)) + "." + Pad(Part(d, precision), precision);
    if d < 0 then "-" + text else text
  }

  function Whole(d: int, precision: nat): nat { Over(Abs(d), Pow10(precision)) }

  function Part(d: int, precision: nat): nat { Abs(d) % Pow10(precision) }

  function Over(a: nat, b: nat): nat
    requires b > 0
  {
    a / b
  }

  lemma TruncatedParts(d: int, m: int)
    requires m > 0
    ensures Abs(Quotient(d, m)) == Abs(d) / m && Abs(Remainder(d, m)) == Abs(d) % m
  {
    if d < 0 {
      assert -d == m * (-d / m) + -d % m;
      assert m * -(-d / m) == -(m * (-d / m));
    } else {
      assert d == m * (d / m) + d % m;
    }
  }

  /** Ten fraction digits or more do not fit the program's divider and format. */
  method IntToFloatStr(decimal: int, precision: nat) returns (buf: string)
    requires INT_MIN <= decimal <= INT_MAX && precision <= 9
    requires precision == 0 ==> decimal != INT_MIN
    ensures buf == Fixed(decimal, precision)
  {
    var divider := 1;
    var format := "";
    if decimal < 0 {
      format := format + "-";
    }
    for i := 0 to precision
      invariant divider == Pow10(i)
    {
      divider := divider * 10;
    }
    TruncatedParts(decimal, divider);
    buf := PrintDec(Abs(Quotient(decimal, divider))) + "." + Pad(Abs(Remainder(decimal, divider)), precision);
    buf := format + buf;
    assert "" + buf == buf;
  }

  /** A reader of [-]digits.digits: the sign, the integer part and the fraction digits. */
  function ReadFixed(s: string): Option<(bool, nat, string)> {
    var negative := s != "" && s[0] == '-';
    var t := if negative then s[1..] else s;
    var n := Span(t);
    if n == 0 || n == |t| || t[n] != '.' || Span(t[n + 1..]) == 0 || Span(t[n + 1..]) != |t| - n - 1 then None
    else Some((negative, ReadDec(t[..n]), t[n + 1..]))
  }

  lemma PointIsRead(digits: string, fraction: string)
    requires AllDigits(digits) && digits != "" && AllDigits(fraction) && fraction != ""
    ensures ReadFixed(digits + "." + fraction) == Some((false, ReadDec(digits), fraction))
  {
    var s, n := digits + "." + fraction, |digits|;
    assert s == digits + ("." + fraction);
    SpanOf(digits, "." + fraction);
    SpanOf(fraction, "");
    assert fraction + "" == fraction;
    assert s[..n] == digits && s[n + 1..] == fraction;
  }

  lemma UnsignedReadsBack(whole: nat, fraction: string)
    requires AllDigits(fraction) && fraction != ""
    ensures ReadFixed(PrintDec(whole) + "." + fraction) == Some((false, whole, fraction))
  {
    PointIsRead(PrintDec(whole), fraction);
    PrintDecReadsBack(whole);
  }

  lemma SignedReadsBack(whole: nat, fraction: string)
    requires AllDigits(fraction) && fraction != ""
    ensures ReadFixed("-" + (PrintDec(whole) + "." + fraction)) == Some((true, whole, fraction))
  {
    var t := PrintDec(whole) + "." + fraction;
    UnsignedReadsBack(whole, fraction);
    assert ("-" + t)[1..] == t;
  }

  lemma WholeAndPart(d: int, precision: nat)
    ensures Whole(d, precision) * Pow10(precision) + Part(d, precision) == Abs(d)
    ensures Part(d, precision) < Pow10(precision)
  {
  }

  lemma FractionWidth(part: nat, precision: nat)
    requires part < Pow10(precision)
    ensures |Pad(part, precision)| == if precision == 0 then 1 else precision
    ensures ReadDec(Pad(part, precision)) == part
  {
    PadReadsBack(part, precision);
    if precision == 0 {
      assert PrintDec(0) == "0";
    }
  }

  /** Reading the text and scaling it up again gives the integer, the sign included when the integer part is 0. */
  lemma FixedReadsBack(d: int, precision: nat)
    ensures var fraction := Pad(Part(d, precision), precision);
            && ReadFixed(Fixed(d, precision)) == Some((d < 0, Whole(d, precision), fraction))
            && |fraction| == (if precision == 0 then 1 else precision)
            && Whole(d, precision) * Pow10(precision) + ReadDec(fraction) == Abs(d)
  {
    WholeAndPart(d, precision);
    FractionWidth(Part(d, precision), precision);
    if d < 0 {
      SignedReadsBack(Whole(d, precision), Pad(Part(d, precision), precision));
    } else {
      UnsignedReadsBack(Whole(d, precision), Pad(Part(d, precision), precision));
    }
  }

  lemma PointNumber(whole: nat, fraction: string)
    requires AllDigits(fraction) && fraction != ""
    ensures var t := PrintDec(whole) + "." + fraction;
            && Span(t) == |PrintDec(whole)| && t[Span(t)..] == "." + fraction
            && IsJsonNumber(t) && IsDecimalFloat(t) && IsDigit(t[0]) && (t[0] == '0' ==> t[1] == '.')
  {
    var w, t := PrintDec(whole), PrintDec(whole) + "." + fraction;
    assert t == w + ("." + fraction) && t[|w|..] == "." + fraction && ("." + fraction)[1..] == fraction;
    SpanOf(w, "." + fraction);
    SpanOf(fraction, "");
    assert fraction + "" == fraction && fraction[|fraction|..] == "";
    if w[0] == '0' {
      assert w == "0";
    }
  }

  /** The text is a number of JSON (section 6 of RFC 8259), and building a message leaves it without quotes. */
  lemma FixedIsJsonNumber(d: int, precision: nat)
    ensures IsJsonNumber(Fixed(d, precision)) && !NeedsQuotes(Fixed(d, precision))
  {
    var t := PrintDec(Whole(d, precision)) + "." + Pad(Part(d, precision), precision);
    PointNumber(Whole(d, precision), Pad(Part(d, precision), precision));
    if d < 0 {
      assert ("-" + t)[1..] == t;
      assert SkipSign(SkipSpace("-" + t)) == t;
    } else {
      assert SkipSign(SkipSpace(t)) == t;
    }
  }
}
