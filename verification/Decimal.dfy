/** Decimal text as `printf` writes it and `strtol` reads it. */
module Decimal {
  predicate IsDigit(c: char) { '0' <= c <= '9' }

  predicate AllDigits(s: string) { forall i :: 0 <= i < |s| ==> IsDigit(s[i]) }

  function DigitValue(c: char): (d: int)
    ensures 0 <= d < 10
  {
    if IsDigit(c) then c as int - '0' as int else 0
  }

  function Digit(d: int): (c: char)
    requires 0 <= d < 10
    ensures IsDigit(c) && DigitValue(c) == d
    ensures c == '0' <==> d == 0
  {
    '0' + d as char
  }

  /** The digits are the usual ones. */
  lemma DigitsAre(d: int)
    requires 0 <= d < 10
    ensures Digit(d) == "0123456789"[d] && DigitValue("0123456789"[d]) == d
  {
  }

  /** "%d" of a natural number. */
  function PrintDec(n: nat): (s: string)
    ensures s != "" && AllDigits(s)
    ensures s[0] == '0' ==> n == 0
  {
    if n < 10 then [Digit(n)] else PrintDec(n / 10) + [Digit(n % 10)]
  }

  /** "%d". */
  function PrintInt(i: int): string { if i < 0 then "-" + PrintDec(-i) else PrintDec(i) }

  function ReadDec(s: string): nat {
    if s == "" then 0 else 10 * ReadDec(s[..|s| - 1]) + DigitValue(s[|s| - 1])
  }

  function Zeros(n: nat): (s: string)
    ensures |s| == n && AllDigits(s)
  {
    seq(n, _ => '0')
  }

  /** "%0wd" of a natural number. */
  function Pad(n: nat, w: nat): (s: string)
    ensures AllDigits(s) && |s| >= w && s != ""
  {
    var s := PrintDec(n);
    if |s| < w then Zeros(w - |s|) + s else s
  }

  function Pow10(k: nat): (p: nat)
    ensures p > 0
  {
    if k == 0 then 1 else 10 * Pow10(k - 1)
  }

  lemma {:induction false} PrintDecReadsBack(n: nat)
    ensures ReadDec(PrintDec(n)) == n
  {
    var s := PrintDec(n);
    if n < 10 {
      assert s[..0] == "";
    } else {
      PrintDecReadsBack(n / 10);
      assert s[..|s| - 1] == PrintDec(n / 10);
    }
  }

  lemma {:induction false} PrintDecLength(n: nat, k: nat)
    requires k >= 1
    ensures |PrintDec(n)| <= k <==> n < Pow10(k)
  {
    if n >= 10 && k > 1 {
      PrintDecLength(n / 10, k - 1);
    } else if k > 1 {
      Pow10AtLeastTen(k);
    } else {
      assert Pow10(1) == 10 * Pow10(0);
    }
  }

  lemma {:induction false} Pow10AtLeastTen(k: nat)
    requires k >= 1
    ensures Pow10(k) >= 10
  {
    if k > 1 {
      Pow10AtLeastTen(k - 1);
    }
  }

  lemma {:induction false} LeadingZeros(n: nat, s: string)
    ensures ReadDec(Zeros(n) + s) == ReadDec(s)
    decreases n + |s|
  {
    if s != "" {
      LeadingZeros(n, s[..|s| - 1]);
      assert (Zeros(n) + s)[..n + |s| - 1] == Zeros(n) + s[..|s| - 1];
    } else if n > 0 {
      LeadingZeros(n - 1, "");
      assert Zeros(n) + "" == Zeros(n) && Zeros(n - 1) + "" == Zeros(n - 1);
      assert Zeros(n)[..n - 1] == Zeros(n - 1);
    }
  }

  /** A padded number reads back, and has exactly the width asked for when it fits. */
  lemma PadReadsBack(n: nat, w: nat)
    ensures ReadDec(Pad(n, w)) == n
    ensures w >= 1 && n < Pow10(w) ==> |Pad(n, w)| == w
  {
    PrintDecReadsBack(n);
    if |PrintDec(n)| < w {
      LeadingZeros(w - |PrintDec(n)|, PrintDec(n));
    }
    if w >= 1 {
      PrintDecLength(n, w);
    }
  }

  /** How many digits a string starts with. */
  function Span(s: string): (n: nat)
    ensures n <= |s| && AllDigits(s[..n])
    ensures n < |s| ==> !IsDigit(s[n])
  {
    if s == "" || !IsDigit(s[0]) then 0
    else
      var n := Span(s[1..]);
      assert s[..n + 1] == [s[0]] + s[1..][..n];
      n + 1
  }

  lemma {:induction false} SpanOf(digits: string, rest: string)
    requires AllDigits(digits) && (rest == "" || !IsDigit(rest[0]))
    ensures Span(digits + rest) == |digits|
  {
    if digits == "" {
      assert digits + rest == rest;
    } else {
      SpanOf(digits[1..], rest);
      assert (digits + rest)[1..] == digits[1..] + rest;
    }
  }
}
