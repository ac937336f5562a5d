/** The texts that matter to the JSON printer: numbers of JSON, and what `strtof` accepts to the last character. */
module JsonText {
  import opened Decimal
  import Hex

  predicate IsSpace(c: char) { c == ' ' || ('\t' <= c <= '\r') }

  predicate StartsWith(s: string, c: char) { s != "" && s[0] == c }

  /** Nothing, or an exponent. */
  predicate IsExponent(s: string, mark: char, capital: char) {
    s == "" ||
    ((s[0] == mark || s[0] == capital) && IsDigits(SkipSign(s[1..])))
  }

  predicate IsDigits(s: string) { s != "" && Span(s) == |s| }

  function SkipSign(s: string): string {
    if StartsWith(s, '-') || StartsWith(s, '+') then s[1..] else s
  }

  /** The grammar of section 6 of RFC 8259. */
  predicate IsJsonNumber(s: string) {
    var t := if StartsWith(s, '-') then s[1..] else s;
    var n := Span(t);
    && n > 0
    && (t[0] == '0' ==> n == 1)
    && (var u := t[n..];
        if StartsWith(u, '.')
        then var m := Span(u[1..]); m > 0 && IsExponent(u[1..][m..], 'e', 'E')
        else IsExponent(u, 'e', 'E'))
  }

  function SkipSpace(s: string): string { if s != "" && IsSpace(s[0]) then SkipSpace(s[1..]) else s }

  lemma {:induction false} SkipSpaceShortens(s: string)
    ensures |SkipSpace(s)| <= |s|
  {
    if s != "" && IsSpace(s[0]) {
      SkipSpaceShortens(s[1..]);
    }
  }

  function Lower(s: string): string {
    seq(|s|, i requires 0 <= i < |s| => if 'A' <= s[i] <= 'Z' then 'a' + (s[i] - 'A') else s[i])
  }

  function HexSpan(s: string): (n: nat)
    ensures n <= |s| && forall i :: 0 <= i < n ==> Hex.IsHexDigit(s[i])
  {
    if s == "" || !Hex.IsHexDigit(s[0]) then 0 else 1 + HexSpan(s[1..])
  }

  predicate IsDecimalFloat(s: string) {
    var n := Span(s);
    var u := s[n..];
    if StartsWith(u, '.')
    then var m := Span(u[1..]); n + m > 0 && IsExponent(u[1..][m..], 'e', 'E')
    else n > 0 && IsExponent(u, 'e', 'E')
  }

  predicate IsHexFloat(s: string) {
    && |s| > 2 && s[0] == '0' && (s[1] == 'x' || s[1] == 'X')
    && (var t := s[2..];
        var n := HexSpan(t);
        var u := t[n..];
        if StartsWith(u, '.')
        then var m := HexSpan(u[1..]); n + m > 0 && IsExponent(u[1..][m..], 'p', 'P')
        else n > 0 && IsExponent(u, 'p', 'P'))
  }

  predicate IsWordChar(c: char) { IsDigit(c) || 'a' <= c <= 'z' || 'A' <= c <= 'Z' || c == '_' }

  /** inf, infinity, nan and nan(...) in any case. */
  predicate IsFloatWord(s: string) {
    || Lower(s) == "inf" || Lower(s) == "infinity" || Lower(s) == "nan"
    || (&& |s| >= 5 && Lower(s[..3]) == "nan" && s[3] == '(' && s[|s| - 1] == ')'
        && forall i :: 4 <= i < |s| - 1 ==> IsWordChar(s[i]))
  }

  /** `strtof` leaves its end pointer at the end of the string, as it also does for the empty string. */
  predicate ReadsAsFloat(s: string) {
    s == "" ||
    (var t := SkipSign(SkipSpace(s)); IsDecimalFloat(t) || IsHexFloat(t) || IsFloatWord(t))
  }

  predicate Enclosed(s: string, open: char, close: char) {
    s != "" && s[0] == open && s[|s| - 1] == close
  }

  /** The three tests of the printer, the last one overriding the others. */
  predicate NeedsQuotes(s: string) {
    if |s| > 1 && s[0] == '0' && s[1] != '.' then true
    else !ReadsAsFloat(s) && !Enclosed(s, '{', '}') && !Enclosed(s, '[', ']')
  }

  // ----- What a number can be made of -----

  /** Characters that end neither a bare token nor a string. */
  predicate IsBare(c: char) {
    c != ',' && c != '}' && c != ']' && c != '{' && c != '[' && c != '"' && c != '\\' && c != ':' && !IsSpace(c)
  }

  predicate AllBare(s: string) { forall i :: 0 <= i < |s| ==> IsBare(s[i]) }

  lemma DigitsAreBare(s: string, n: nat)
    requires n <= |s| && (forall i :: 0 <= i < n ==> Hex.IsHexDigit(s[i])) && AllBare(s[n..])
    ensures AllBare(s)
  {
    forall i | 0 <= i < |s| ensures IsBare(s[i]) {
      if i >= n {
        assert s[i] == s[n..][i - n];
      }
    }
  }

  lemma SpanIsHex(s: string)
    ensures forall i :: 0 <= i < Span(s) ==> Hex.IsHexDigit(s[i])
  {
    forall i | 0 <= i < Span(s) ensures Hex.IsHexDigit(s[i]) {
      assert s[i] == s[..Span(s)][i];
    }
  }

  lemma TailIsBare(s: string)
    requires s != "" && IsBare(s[0]) && AllBare(s[1..])
    ensures AllBare(s)
  {
    assert s == [s[0]] + s[1..];
  }

  lemma SkipSignBare(s: string)
    requires AllBare(SkipSign(s))
    ensures AllBare(s)
  {
    if SkipSign(s) != s {
      TailIsBare(s);
    }
  }

  lemma ExponentIsBare(s: string, mark: char, capital: char)
    requires IsExponent(s, mark, capital) && IsBare(mark) && IsBare(capital)
    ensures AllBare(s)
  {
    if s != "" {
      var t := SkipSign(s[1..]);
      SpanIsHex(t);
      assert t[|t|..] == "";
      DigitsAreBare(t, |t|);
      SkipSignBare(s[1..]);
      TailIsBare(s);
    }
  }

  lemma DecimalFloatIsBare(s: string)
    requires IsDecimalFloat(s)
    ensures AllBare(s)
  {
    var n := Span(s);
    var u := s[n..];
    SpanIsHex(s);
    if StartsWith(u, '.') {
      var m := Span(u[1..]);
      ExponentIsBare(u[1..][m..], 'e', 'E');
      SpanIsHex(u[1..]);
      DigitsAreBare(u[1..], m);
      TailIsBare(u);
    } else {
      ExponentIsBare(u, 'e', 'E');
    }
    DigitsAreBare(s, n);
  }

  lemma HexFloatIsBare(s: string)
    requires IsHexFloat(s)
    ensures AllBare(s)
  {
    var t := s[2..];
    var n := HexSpan(t);
    var u := t[n..];
    if StartsWith(u, '.') {
      var m := HexSpan(u[1..]);
      ExponentIsBare(u[1..][m..], 'p', 'P');
      DigitsAreBare(u[1..], m);
      TailIsBare(u);
    } else {
      ExponentIsBare(u, 'p', 'P');
    }
    DigitsAreBare(t, n);
    assert s == [s[0], s[1]] + t;
  }

  lemma LowerIsBare(s: string)
    requires AllBare(Lower(s))
    ensures AllBare(s)
  {
    forall i | 0 <= i < |s| ensures IsBare(s[i]) {
      assert IsBare(Lower(s)[i]);
    }
  }

  lemma FloatWordIsBare(s: string)
    requires IsFloatWord(s)
    ensures AllBare(s)
  {
    if Lower(s) == "inf" || Lower(s) == "infinity" || Lower(s) == "nan" {
      LowerIsBare(s);
    } else {
      LowerIsBare(s[..3]);
      forall i | 0 <= i < |s| ensures IsBare(s[i]) {
        if i < 3 {
          assert s[i] == s[..3][i];
        }
      }
    }
  }

  /** A text taken for a number that does not start with white space has no character that ends a token. */
  lemma FloatIsBare(s: string)
    requires s != "" && ReadsAsFloat(s) && !IsSpace(s[0])
    ensures AllBare(s)
  {
    var t := SkipSign(s);
    if IsDecimalFloat(t) {
      DecimalFloatIsBare(t);
    } else if IsHexFloat(t) {
      HexFloatIsBare(t);
    } else {
      FloatWordIsBare(t);
    }
    SkipSignBare(s);
  }

  // ----- Which of them are numbers of JSON -----

  function WithoutMinus(s: string): string { if StartsWith(s, '-') then s[1..] else s }

  /** A digit first, after a zero at most a point or an exponent, and a digit after every point. */
  predicate DigitsInOrder(t: string) {
    && t != "" && IsDigit(t[0])
    && (t[0] == '0' && |t| > 1 ==> t[1] == '.' || t[1] == 'e' || t[1] == 'E')
    && forall i :: 0 <= i < |t| && t[i] == '.' ==> i + 1 < |t| && IsDigit(t[i + 1])
  }

  /** Digits, then perhaps a point and more digits, then perhaps an exponent. */
  predicate IsFraction(t: string) {
    var n := Span(t);
    var u := t[n..];
    n > 0 && (IsExponent(u, 'e', 'E')
              || (StartsWith(u, '.') && IsExponent(u[1..][Span(u[1..])..], 'e', 'E')))
  }

  lemma NoPointInDigits(s: string)
    requires IsDigits(s)
    ensures forall i :: 0 <= i < |s| ==> s[i] != '.'
  {
    assert s[..Span(s)] == s;
  }

  lemma NoPointInExponent(s: string)
    requires IsExponent(s, 'e', 'E')
    ensures forall i :: 0 <= i < |s| ==> s[i] != '.'
  {
    if s != "" {
      var t := SkipSign(s[1..]);
      NoPointInDigits(t);
      forall i | 0 <= i < |s| ensures s[i] != '.' {
        if i >= |s| - |t| {
          assert s[i] == t[i - (|s| - |t|)];
        }
      }
    }
  }

  lemma SpanChars(s: string, i: nat)
    requires i < Span(s)
    ensures IsDigit(s[i])
  {
    assert s[..Span(s)][i] == s[i];
  }

  /** With a point behind the first digits there is no other. */
  lemma PointPlace(t: string, i: nat)
    requires IsFraction(t) && StartsWith(t[Span(t)..], '.') && i < |t| && i != Span(t)
    ensures t[i] != '.'
  {
    var n := Span(t);
    var v := t[n + 1..];
    assert t[n..][1..] == v;
    if i < n {
      SpanChars(t, i);
    } else {
      assert t[i] == v[i - n - 1];
      NoPointBehind(v, i - n - 1);
    }
  }

  lemma NoPointBehind(v: string, i: nat)
    requires IsExponent(v[Span(v)..], 'e', 'E') && i < |v|
    ensures v[i] != '.'
  {
    if i < Span(v) {
      SpanChars(v, i);
    } else {
      NoPointInTail(v, Span(v), i);
    }
  }

  lemma NoPointInTail(v: string, m: nat, i: nat)
    requires m <= i < |v| && IsExponent(v[m..], 'e', 'E')
    ensures v[i] != '.'
  {
    NoPointInExponent(v[m..]);
    assert v[i] == v[m..][i - m];
  }

  /** Then every point has a digit behind it exactly when that one has. */
  lemma OnlyPoint(t: string)
    requires IsFraction(t) && StartsWith(t[Span(t)..], '.')
    ensures (forall i :: 0 <= i < |t| && t[i] == '.' ==> i + 1 < |t| && IsDigit(t[i + 1]))
       <==> Span(t[Span(t)..][1..]) > 0
  {
    var n := Span(t);
    var v := t[n + 1..];
    assert t[n..][1..] == v && t[n] == t[n..][0];
    forall i | 0 <= i < |t| && i != n ensures t[i] != '.' {
      PointPlace(t, i);
    }
    if v != "" {
      assert v[0] == t[n + 1];
      assert IsDigit(v[0]) <==> Span(v) > 0;
    }
  }

  lemma NoPoint(t: string)
    requires IsFraction(t) && !StartsWith(t[Span(t)..], '.')
    ensures forall i :: 0 <= i < |t| ==> t[i] != '.'
  {
    forall i | 0 <= i < |t| ensures t[i] != '.' {
      NoPointBehind(t, i);
    }
  }

  /** A zero is alone in front exactly when what follows it is a point, an exponent or nothing. */
  lemma LeadingZero(t: string)
    requires IsFraction(t)
    ensures (t[0] == '0' ==> Span(t) == 1)
       <==> (t[0] == '0' && |t| > 1 ==> t[1] == '.' || t[1] == 'e' || t[1] == 'E')
  {
    if |t| > 1 {
      if Span(t) > 1 {
        SpanChars(t, 1);
      } else {
        assert t[1..][0] == t[1];
      }
    }
  }

  lemma FractionIsJson(t: string)
    requires IsFraction(t)
    ensures IsDigit(t[0]) && (IsJsonNumber(t) <==> DigitsInOrder(t))
    ensures !StartsWith(t, '-')
  {
    SpanChars(t, 0);
    LeadingZero(t);
    if StartsWith(t[Span(t)..], '.') {
      OnlyPoint(t);
    } else {
      NoPoint(t);
    }
  }

  /** Neither a hexadecimal number nor a word has its digits in order. */
  lemma OtherFloats(t: string)
    requires (IsHexFloat(t) || IsFloatWord(t)) && !IsDecimalFloat(t)
    ensures !DigitsInOrder(t)
  {
    if IsFloatWord(t) && !IsHexFloat(t) {
      assert Lower(t)[0] == (if 'A' <= t[0] <= 'Z' then 'a' + (t[0] - 'A') else t[0]) by {
        assert t != "";
      }
      if |t| >= 5 && Lower(t[..3]) == "nan" {
        assert Lower(t[..3])[0] == 'n' && t[..3][0] == t[0];
      }
    }
  }

  lemma JsonNumberIsFraction(t: string)
    requires IsJsonNumber(t) && !StartsWith(t, '-')
    ensures IsFraction(t)
  {
  }

  lemma DecimalIsFraction(t: string)
    requires IsDecimalFloat(t) && t != "" && IsDigit(t[0])
    ensures IsFraction(t)
  {
  }

  /** What strtof reads to the end, after an optional minus. */
  predicate IsFloatBody(t: string) { IsDecimalFloat(t) || IsHexFloat(t) || IsFloatWord(t) }

  lemma BodyIsJson(t: string)
    requires IsFloatBody(t) && !StartsWith(t, '-')
    ensures IsJsonNumber(t) <==> DigitsInOrder(t)
  {
    if IsFraction(t) {
      FractionIsJson(t);
    } else if IsJsonNumber(t) {
      JsonNumberIsFraction(t);
    } else if DigitsInOrder(t) {
      if IsDecimalFloat(t) {
        DecimalIsFraction(t);
      } else {
        OtherFloats(t);
      }
    }
  }

  /** A value left without quotes that is no object or array is a number of JSON exactly when, after an optional
      minus, its digits are in order. */
  lemma UnquotedIsJsonNumber(s: string)
    requires !NeedsQuotes(s) && !Enclosed(s, '{', '}') && !Enclosed(s, '[', ']')
    ensures IsJsonNumber(s) <==> DigitsInOrder(WithoutMinus(s))
  {
    var t := WithoutMinus(s);
    if s != "" {
      if DigitsInOrder(t) || IsJsonNumber(s) {
        StartsWithDigit(s);
        BodyIsJson(t);
      }
    }
  }

  lemma StartsWithDigit(s: string)
    requires s != "" && ReadsAsFloat(s) && (DigitsInOrder(WithoutMinus(s)) || IsJsonNumber(s))
    ensures !StartsWith(WithoutMinus(s), '-') && IsFloatBody(WithoutMinus(s))
  {
    var t := WithoutMinus(s);
    if IsJsonNumber(s) {
      SpanChars(t, 0);
    }
    assert IsDigit(t[0]);
    assert SkipSign(SkipSpace(s)) == t;
  }

  /** A zero with an exponent right behind it. */
  predicate ZeroWithExponent(s: string) { |s| > 1 && s[0] == '0' && (s[1] == 'e' || s[1] == 'E') }

  lemma JsonNumberIsFloat(s: string)
    requires IsJsonNumber(s)
    ensures s != "" && ReadsAsFloat(s) && !Enclosed(s, '{', '}') && !Enclosed(s, '[', ']')
  {
    var t := WithoutMinus(s);
    SpanChars(t, 0);
    assert IsDigit(t[0]);
    JsonNumberIsFraction(t);
    assert IsDecimalFloat(t);
    assert SkipSign(SkipSpace(s)) == t;
  }

  /** A number of JSON gets quotes exactly when it is a zero with an exponent. */
  lemma QuotedJsonNumber(s: string)
    requires IsJsonNumber(s)
    ensures NeedsQuotes(s) <==> ZeroWithExponent(s)
  {
    JsonNumberIsFloat(s);
    if |s| > 1 && s[0] == '0' {
      assert Span(s) == 1;
      assert s[1] == s[1..][0];
    }
  }

  lemma HexIsFloat()
    ensures HexSpan("1f") == 2 && IsHexFloat("0x1f")
  {
    assert "1f"[1..] == "f" && "f"[1..] == "" && HexSpan("f") == 1;
    assert "0x1f"[2..] == "1f" && "1f"[2..] == "";
  }

  lemma HexIsNotJson()
    ensures !NeedsQuotes("-0x1f") && !IsJsonNumber("-0x1f")
  {
    HexIsFloat();
    assert "-0x1f"[1..] == "0x1f";
    SpanOf("0", "x1f");
    assert "0" + "x1f" == "0x1f" && "0x1f"[1..] == "x1f";
  }

  /** Some that are not: a zero behind a minus, a word, a hexadecimal number, and nothing. */
  lemma BareButNotJson()
    ensures !NeedsQuotes("-05") && !IsJsonNumber("-05")
    ensures !NeedsQuotes("nan") && !IsJsonNumber("nan")
    ensures !NeedsQuotes("-0x1f") && !IsJsonNumber("-0x1f")
    ensures !NeedsQuotes("") && !IsJsonNumber("")
  {
    HexIsNotJson();
    SpanOf("05", "");
    assert "05" + "" == "05" && "05"[2..] == "";
    assert "-05"[1..] == "05";
    assert Lower("nan") == "nan";
  }
}
