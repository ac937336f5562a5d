/** A reader of the messages of MqttMessage.dfy, and that it gets back what was put in. */
module MessageReader {
  import opened Decimal
  import opened JsonText
  import opened MqttMessage
  import opened Options
  import opened Sequences

  /** How much of section 7 and section 3 of RFC 8259 the reader insists on: nothing between quotes but what is no
      control character, and no token but a number of section 6 or one of three words. */
  datatype Grammar = Lenient | Json {
    predicate AllowsText(s: string) { Json? ==> forall i :: 0 <= i < |s| ==> s[i] >= ' ' }

    predicate AllowsToken(s: string) {
      Json? ==> IsJsonNumber(s) || s == "true" || s == "false" || s == "null"
    }
  }

  /** White space of section 2 of RFC 8259, which is less than `strtof` skips. */
  predicate IsBlank(c: char) { c == ' ' || c == '\t' || c == '\n' || c == '\r' }

  /** What has been read, and the text after it. */
  datatype Read<T> = Read(value: T, rest: string)

  /** The characters up to the closing quote; escapes are not understood. */
  function ReadQuoted(s: string): (r: Option<Read<string>>)
    ensures r.Some? ==> |r.value.rest| < |s|
  {
    if s == "" || s[0] == '\\' then None
    else if s[0] == '"' then Some(Read("", s[1..]))
    else match ReadQuoted(s[1..])
      case None => None
      case Some(r) => Some(Read([s[0]] + r.value, r.rest))
  }

  function ReadString(g: Grammar, s: string): (r: Option<Read<string>>)
    ensures r.Some? ==> |r.value.rest| < |s|
  {
    if StartsWith(s, '"') then
      var r := ReadQuoted(s[1..]);
      if r.Some? && g.AllowsText(r.value.value) then r else None
    else None
  }

  /** How far a bare token goes. */
  function BareSpan(s: string): (n: nat)
    ensures n <= |s|
  {
    if s == "" || !IsBare(s[0]) then 0 else 1 + BareSpan(s[1..])
  }

  /** A quoted string or a bare token. */
  function ReadScalar(g: Grammar, s: string): (r: Option<Read<string>>)
    ensures r.Some? ==> |r.value.rest| < |s|
  {
    if StartsWith(s, '"') then ReadString(g, s)
    else
      var n := BareSpan(s);
      if n == 0 || !g.AllowsToken(s[..n]) then None else Some(Read(s[..n], s[n..]))
  }

  function SkipTo(s: string): (t: string)
    ensures |t| <= |s|
  {
    if s != "" && IsBlank(s[0]) then SkipTo(s[1..]) else s
  }

  /** A character after optional white space; what follows it, white space skipped. */
  function Expect(s: string, c: char): (r: Option<string>)
    ensures r.Some? ==> |r.value| < |s|
  {
    var t := SkipTo(s);
    if StartsWith(t, c) then Some(SkipTo(t[1..])) else None
  }

  /** One member of an object. */
  function ReadPair(g: Grammar, s: string): (r: Option<Read<Pair>>)
    ensures r.Some? ==> |r.value.rest| < |s|
  {
    match ReadString(g, s)
    case None => None
    case Some(name) =>
      match Expect(name.rest, ':')
      case None => None
      case Some(t) =>
        match ReadScalar(g, t)
        case None => None
        case Some(value) => Some(Read(Pair(name.value, value.value), value.rest))
  }

  /** The members of an object and its closing brace. */
  function ReadPairs(g: Grammar, s: string): (r: Option<Read<seq<Pair>>>)
    ensures r.Some? ==> |r.value.rest| < |s|
    decreases |s|
  {
    match ReadPair(g, s)
    case None => None
    case Some(first) =>
      match Expect(first.rest, ',')
      case Some(t) =>
        (match ReadPairs(g, t)
         case None => None
         case Some(others) => Some(Read([first.value] + others.value, others.rest)))
      case None =>
        match Expect(first.rest, '}')
        case None => None
        case Some(t) => Some(Read([first.value], t))
  }

  /** An object whose members are scalars (section 4 of RFC 8259). */
  function ReadObject(g: Grammar, s: string): Option<Read<seq<Pair>>> {
    match Expect(s, '{')
    case None => None
    case Some(t) =>
      match Expect(t, '}')
      case Some(u) => Some(Read([], u))
      case None => ReadPairs(g, t)
  }

  /** A member whose value is such an object. */
  function ReadSection(g: Grammar, s: string, name: string): Option<Read<seq<Pair>>> {
    match ReadString(g, s)
    case None => None
    case Some(key) =>
      if key.value != name then None
      else
        match Expect(key.rest, ':')
        case None => None
        case Some(t) => ReadObject(g, t)
  }

  /** A whole message: its data and its status. */
  function ReadMessage(g: Grammar, s: string): Option<(seq<Pair>, seq<Pair>)> {
    match Expect(s, '{')
    case None => None
    case Some(t) =>
      match ReadSection(g, t, "data")
      case None => None
      case Some(data) =>
        match Expect(data.rest, ',')
        case None => None
        case Some(u) =>
          match ReadSection(g, u, "status")
          case None => None
          case Some(status) =>
            if Expect(status.rest, '}') == Some("") then Some((data.value, status.value)) else None
  }

  // ----- Reading back -----

  predicate Clean(s: string) { forall i :: 0 <= i < |s| ==> s[i] != '"' && s[i] != '\\' }

  /** What can stand between quotes. */
  predicate Fine(g: Grammar, s: string) { Clean(s) && g.AllowsText(s) }

  /** A value the message can carry: not empty, no quote or backslash, no object or array, no number after white
      space. */
  predicate Scalar(s: string) {
    && s != "" && Clean(s)
    && !Enclosed(s, '{', '}') && !Enclosed(s, '[', ']')
    && !(IsSpace(s[0]) && ReadsAsFloat(s))
  }

  /** A value that is safe in its quotes, or is a bare token. */
  predicate Plain(g: Grammar, rule: Rule, s: string) {
    if rule(s) then Fine(g, s) else s != "" && AllBare(s) && g.AllowsToken(s)
  }

  lemma ScalarsArePlain(s: string)
    ensures Scalar(s) <==> Plain(Lenient, NeedsQuotes, s)
  {
    if s != "" && !NeedsQuotes(s) {
      if !IsSpace(s[0]) && ReadsAsFloat(s) {
        FloatIsBare(s);
      } else {
        assert !IsBare(s[0]);
      }
    }
  }

  predicate PlainPair(g: Grammar, rule: Rule, pair: Pair) { Fine(g, pair.name) && Plain(g, rule, pair.value) }

  predicate AllPlain(g: Grammar, rule: Rule, pairs: seq<Pair>) {
    forall i :: 0 <= i < |pairs| ==> PlainPair(g, rule, pairs[i])
  }

  /** Names without quotes and backslashes, values that are scalars. */
  predicate AllScalar(pairs: seq<Pair>) {
    forall i :: 0 <= i < |pairs| ==> Clean(pairs[i].name) && Scalar(pairs[i].value)
  }

  lemma AllScalarsArePlain(pairs: seq<Pair>)
    ensures AllScalar(pairs) <==> AllPlain(Lenient, NeedsQuotes, pairs)
  {
    forall i | 0 <= i < |pairs| ensures Scalar(pairs[i].value) <==> Plain(Lenient, NeedsQuotes, pairs[i].value) {
      ScalarsArePlain(pairs[i].value);
    }
  }

  lemma {:induction false} QuotedReadsBack(s: string, rest: string)
    requires Clean(s)
    ensures ReadQuoted(s + ("\"" + rest)) == Some(Read(s, rest))
  {
    var text := s + ("\"" + rest);
    if s == "" {
      assert text == "\"" + rest && text[1..] == rest;
    } else {
      QuotedReadsBack(s[1..], rest);
      assert text[1..] == s[1..] + ("\"" + rest);
      assert [s[0]] + s[1..] == s;
    }
  }

  lemma StringReadsBack(g: Grammar, s: string, rest: string)
    requires Fine(g, s)
    ensures ReadString(g, Quoted(s) + rest) == Some(Read(s, rest))
    ensures (Quoted(s) + rest)[0] == '"'
  {
    QuotedReadsBack(s, rest);
    assert (Quoted(s) + rest)[1..] == s + ("\"" + rest);
  }

  lemma {:induction false} BareSpanOf(s: string, rest: string)
    requires AllBare(s) && (rest == "" || !IsBare(rest[0]))
    ensures BareSpan(s + rest) == |s|
  {
    if s == "" {
      assert s + rest == rest;
    } else {
      BareSpanOf(s[1..], rest);
      assert (s + rest)[1..] == s[1..] + rest;
    }
  }

  lemma BareReadsBack(g: Grammar, s: string, rest: string)
    requires s != "" && AllBare(s) && g.AllowsToken(s) && rest != "" && !IsBare(rest[0])
    ensures ReadScalar(g, s + rest) == Some(Read(s, rest))
  {
    BareSpanOf(s, rest);
    assert (s + rest)[0] == s[0] && IsBare(s[0]);
    assert (s + rest)[..|s|] == s && (s + rest)[|s|..] == rest;
  }

  /** With or without quotes, a plain value is read back. */
  lemma ScalarReadsBack(g: Grammar, rule: Rule, s: string, rest: string)
    requires Plain(g, rule, s) && rest != "" && !IsBare(rest[0])
    ensures ReadScalar(g, ValueText(rule, s) + rest) == Some(Read(s, rest))
    ensures !IsSpace((ValueText(rule, s) + rest)[0])
  {
    if rule(s) {
      StringReadsBack(g, s, rest);
    } else {
      BareReadsBack(g, s, rest);
    }
  }

  lemma NoSpace(s: string)
    requires s == "" || !IsSpace(s[0])
    ensures SkipTo(s) == s
  {
  }

  lemma SkipOneSpace(s: string)
    ensures SkipTo([' '] + s) == SkipTo(s)
  {
    assert ([' '] + s)[1..] == s;
  }

  lemma Mark(c: char, rest: string)
    requires !IsSpace(c)
    ensures Expect([c] + rest, c) == Some(SkipTo(rest))
  {
    assert ([c] + rest)[1..] == rest;
  }

  lemma ExpectAfterSpace(s: string, c: char)
    ensures Expect([' '] + s, c) == Expect(s, c)
  {
    SkipOneSpace(s);
  }

  /** Punctuation with a single space on either side. */
  lemma Punctuation(c: char, rest: string)
    requires !IsSpace(c) && (rest == "" || !IsSpace(rest[0]))
    ensures Expect([c] + rest, c) == Some(rest)
    ensures Expect([c, ' '] + rest, c) == Some(rest)
    ensures Expect([' ', c] + rest, c) == Some(rest)
    ensures Expect([' ', c, ' '] + rest, c) == Some(rest)
  {
    NoSpace(rest);
    Mark(c, rest);
    Mark(c, [' '] + rest);
    SkipOneSpace(rest);
    ExpectAfterSpace([c] + rest, c);
    ExpectAfterSpace([c] + ([' '] + rest), c);
    assert [c, ' '] + rest == [c] + ([' '] + rest);
    assert [' ', c] + rest == [' '] + ([c] + rest);
    assert [' ', c, ' '] + rest == [' '] + ([c] + ([' '] + rest));
  }

  lemma OtherMark(c: char, d: char, rest: string)
    requires !IsSpace(c) && c != d
    ensures Expect([' ', c] + rest, d) == None
  {
    ExpectAfterSpace([c] + rest, d);
    assert [' ', c] + rest == [' '] + ([c] + rest);
  }

  /** A member whose value is followed by something that ends it. */
  lemma MemberReadsBack(g: Grammar, name: string, separator: string, value: string, text: string, rest: string)
    requires Fine(g, name) && (separator == ": " || separator == " : ")
    requires ReadScalar(g, text + rest) == Some(Read(value, rest)) && text != "" && !IsSpace(text[0])
    ensures ReadPair(g, Quoted(name) + (separator + (text + rest))) == Some(Read(Pair(name, value), rest))
    ensures (Quoted(name) + (separator + (text + rest)))[0] == '"'
  {
    var after := text + rest;
    assert after[0] == text[0];
    Punctuation(':', after);
    assert ": " + after == [':', ' '] + after && " : " + after == [' ', ':', ' '] + after;
    StringReadsBack(g, name, separator + after);
  }

  lemma PairReadsBack(g: Grammar, rule: Rule, pair: Pair, rest: string)
    requires PlainPair(g, rule, pair) && rest != "" && !IsBare(rest[0])
    ensures ReadPair(g, PairText(rule, pair) + rest) == Some(Read(pair, rest))
    ensures (PairText(rule, pair) + rest)[0] == '"'
  {
    var text := ValueText(rule, pair.value);
    ScalarReadsBack(g, rule, pair.value, rest);
    assert text != "" && text[0] == (text + rest)[0];
    MemberReadsBack(g, pair.name, ": ", pair.value, text, rest);
    Associate(Quoted(pair.name), ": " + text, rest);
    Associate(": ", text, rest);
  }

  /** What a list reads as, given how its tail reads. */
  function Prepend(first: Pair, others: Option<Read<seq<Pair>>>): Option<Read<seq<Pair>>> {
    match others
    case None => None
    case Some(r) => Some(Read([first] + r.value, r.rest))
  }

  /** A member and then the rest of the list. */
  lemma ListContinues(g: Grammar, member: string, pair: Pair, rest: string)
    requires ReadPair(g, member + (", " + rest)) == Some(Read(pair, ", " + rest)) && rest != "" && !IsSpace(rest[0])
    ensures ReadPairs(g, member + (", " + rest)) == Prepend(pair, ReadPairs(g, rest))
  {
    Punctuation(',', rest);
    assert ", " + rest == [',', ' '] + rest;
  }

  /** A member and then the brace that ends the list. */
  lemma ListEnds(g: Grammar, member: string, pair: Pair, rest: string)
    requires ReadPair(g, member + (" }" + rest)) == Some(Read(pair, " }" + rest)) && (rest == "" || !IsSpace(rest[0]))
    ensures ReadPairs(g, member + (" }" + rest)) == Some(Read([pair], rest))
  {
    Punctuation('}', rest);
    OtherMark('}', ',', rest);
    assert " }" + rest == [' ', '}'] + rest;
  }

  /** A pair, a comma and the rest of the list. */
  lemma PairContinues(g: Grammar, rule: Rule, pair: Pair, rest: string)
    requires PlainPair(g, rule, pair) && rest != "" && !IsSpace(rest[0])
    ensures var s := PairText(rule, pair) + (", " + rest);
            ReadPairs(g, s) == Prepend(pair, ReadPairs(g, rest)) && s[0] == '"'
  {
    PairReadsBack(g, rule, pair, ", " + rest);
    ListContinues(g, PairText(rule, pair), pair, rest);
  }

  lemma LastPairReadsBack(g: Grammar, rule: Rule, pair: Pair, rest: string)
    requires PlainPair(g, rule, pair) && (rest == "" || !IsSpace(rest[0]))
    ensures var s := PairText(rule, pair) + (" }" + rest);
            ReadPairs(g, s) == Some(Read([pair], rest)) && s[0] == '"'
  {
    PairReadsBack(g, rule, pair, " }" + rest);
    ListEnds(g, PairText(rule, pair), pair, rest);
  }

  lemma PairsTextFrom(rule: Rule, pairs: seq<Pair>, end: string)
    requires |pairs| > 1
    ensures PairsText(rule, pairs) + end == PairText(rule, pairs[0]) + (", " + (PairsText(rule, pairs[1..]) + end))
  {
    Regroup(PairText(rule, pairs[0]), ", ", PairsText(rule, pairs[1..]), end);
  }

  lemma MorePairsReadBack(g: Grammar, rule: Rule, first: Pair, others: seq<Pair>, text: string, rest: string)
    requires PlainPair(g, rule, first)
    requires ReadPairs(g, text) == Some(Read(others, rest)) && text != "" && !IsSpace(text[0])
    ensures var s := PairText(rule, first) + (", " + text);
            ReadPairs(g, s) == Some(Read([first] + others, rest)) && s[0] == '"'
  {
    PairContinues(g, rule, first, text);
  }

  /** A list that is read as these pairs. */
  predicate ReadsAs(g: Grammar, text: string, pairs: seq<Pair>, rest: string) {
    ReadPairs(g, text) == Some(Read(pairs, rest)) && StartsWith(text, '"')
  }

  lemma PairsReadBackStep(g: Grammar, rule: Rule, pairs: seq<Pair>, end: string, rest: string)
    requires |pairs| > 1 && PlainPair(g, rule, pairs[0])
    requires ReadsAs(g, PairsText(rule, pairs[1..]) + end, pairs[1..], rest)
    ensures ReadsAs(g, PairsText(rule, pairs) + end, pairs, rest)
  {
    MorePairsReadBack(g, rule, pairs[0], pairs[1..], PairsText(rule, pairs[1..]) + end, rest);
    PairsTextFrom(rule, pairs, end);
    assert [pairs[0]] + pairs[1..] == pairs;
  }

  /** A separated list of pairs and the brace that ends it. */
  lemma {:induction false} PairsReadBack(g: Grammar, rule: Rule, pairs: seq<Pair>, rest: string)
    requires pairs != [] && AllPlain(g, rule, pairs) && (rest == "" || !IsSpace(rest[0]))
    ensures ReadsAs(g, PairsText(rule, pairs) + (" }" + rest), pairs, rest)
  {
    if |pairs| == 1 {
      LastPairReadsBack(g, rule, pairs[0], rest);
      assert pairs == [pairs[0]];
    } else {
      PairsReadBack(g, rule, pairs[1..], rest);
      PairsReadBackStep(g, rule, pairs, " }" + rest, rest);
    }
  }

  /** Before a comma the pair is either not read or read up to the comma. */
  predicate LandsBefore(g: Grammar, rule: Rule, pair: Pair, rest: string) {
    var r := ReadPair(g, PairText(rule, pair) + (", " + rest));
    r.Some? ==> r.value.rest == ", " + rest
  }

  ghost predicate AllLand(g: Grammar, rule: Rule, pairs: seq<Pair>) {
    forall i, rest :: 0 <= i < |pairs| ==> LandsBefore(g, rule, pairs[i], rest)
  }

  lemma LandingContinues(g: Grammar, rule: Rule, pair: Pair, rest: string)
    requires LandsBefore(g, rule, pair, rest) && rest != "" && !IsSpace(rest[0]) && ReadPairs(g, rest) == None
    ensures ReadPairs(g, PairText(rule, pair) + (", " + rest)) == None
  {
    var r := ReadPair(g, PairText(rule, pair) + (", " + rest));
    if r.Some? {
      ListContinues(g, PairText(rule, pair), r.value.value, rest);
    }
  }

  lemma PairsStartWithQuote(rule: Rule, pairs: seq<Pair>, rest: string)
    requires pairs != []
    ensures (PairsText(rule, pairs) + rest)[0] == '"'
  {
    assert PairText(rule, pairs[0])[0] == '"';
  }

  /** A list of pairs that runs into a member whose value is an object is not read. */
  lemma {:induction false} PairsRunOn(g: Grammar, rule: Rule, pairs: seq<Pair>, next: string)
    requires pairs != [] && AllLand(g, rule, pairs)
    requires next != "" && next[0] == '"' && ReadPair(g, next) == None
    ensures ReadPairs(g, PairsText(rule, pairs) + (", " + next)) == None
  {
    var end := ", " + next;
    if |pairs| == 1 {
      assert ReadPairs(g, next) == None;
      LandingContinues(g, rule, pairs[0], next);
    } else {
      PairsRunOn(g, rule, pairs[1..], next);
      PairsStartWithQuote(rule, pairs[1..], end);
      LandingContinues(g, rule, pairs[0], PairsText(rule, pairs[1..]) + end);
      PairsTextFrom(rule, pairs, end);
    }
  }

  lemma ObjectIsNoScalar(g: Grammar, name: string, obj: string)
    requires Fine(g, name) && obj != "" && obj[0] == '{'
    ensures ReadPair(g, Quoted(name) + (": " + obj)) == None
  {
    Punctuation(':', obj);
    assert ": " + obj == [':', ' '] + obj;
    StringReadsBack(g, name, ": " + obj);
  }

  /** What the status tells: each value under its own name. */
  function StatusPairs(status: Status, addr: string, date: string): seq<Pair> {
    [Pair("devEUI", addr), Pair("rssi", PrintInt(status.rssi)), Pair("temperature", PrintInt(status.temperature)),
     Pair("battery", PrintInt(status.battery)), Pair("date", date)]
  }

  lemma StatusIsPairs(status: Status, addr: string, date: string)
    ensures [Pair("devEUI", addr)] + (IntPairs(StatusNumbers(status)) + [Pair("date", date)])
         == StatusPairs(status, addr, date)
  {
    var a, b, c := ("rssi", status.rssi), ("temperature", status.temperature), ("battery", status.battery);
    assert [a, b, c][1..] == [b, c] && [b, c][1..] == [c] && [c][1..] == [];
    IntPairsOf(a, [b, c]);
    IntPairsOf(b, [c]);
    IntPairsOf(c, []);
  }

  lemma IntPairsOf(first: (string, int), others: seq<(string, int)>)
    ensures IntPairs([first] + others) == [Pair(first.0, PrintInt(first.1))] + IntPairs(others)
  {
    assert ([first] + others)[1..] == others;
  }

  lemma IntIsBare(i: int)
    ensures PrintInt(i) != "" && AllBare(PrintInt(i)) && IsJsonNumber(PrintInt(i))
  {
    var digits := PrintDec(if i < 0 then -i else i);
    SpanOf(digits, "");
    assert digits + "" == digits;
    assert |digits| > 1 ==> digits[0] != '0' by {
      ManyDigits(if i < 0 then -i else i);
    }
  }

  lemma ManyDigits(n: nat)
    ensures |PrintDec(n)| > 1 ==> PrintDec(n)[0] != '0'
  {
  }

  function IntPairs(numbers: seq<(string, int)>): seq<Pair> {
    if numbers == [] then [] else [Pair(numbers[0].0, PrintInt(numbers[0].1))] + IntPairs(numbers[1..])
  }

  lemma DateReadsBack(g: Grammar, date: string)
    requires Fine(g, date)
    ensures ReadPairs(g, DateMember(date)) == Some(Read([Pair("date", date)], "}")) && DateMember(date)[0] == '"'
  {
    var end := " }" + "}";
    StringReadsBack(g, date, end);
    MemberReadsBack(g, "date", ": ", date, Quoted(date), end);
    var member := Quoted("date") + (": " + Quoted(date));
    Associate(Quoted("date"), ": " + Quoted(date), end);
    Associate(": ", Quoted(date), end);
    assert DateMember(date) == member + end;
    ListEnds(g, member, Pair("date", date), "}");
  }

  /** A member, a comma and the rest of the list. */
  lemma MemberContinues(g: Grammar, name: string, separator: string, value: string, text: string, tail: string)
    requires Fine(g, name) && (separator == ": " || separator == " : ")
    requires ReadScalar(g, text + (", " + tail)) == Some(Read(value, ", " + tail)) && text != "" && !IsSpace(text[0])
    requires tail != "" && !IsSpace(tail[0])
    ensures ReadPairs(g, Quoted(name) + (separator + (text + (", " + tail))))
         == Prepend(Pair(name, value), ReadPairs(g, tail))
    ensures (Quoted(name) + (separator + (text + (", " + tail))))[0] == '"'
  {
    var rest := ", " + tail;
    MemberReadsBack(g, name, separator, value, text, rest);
    Associate(Quoted(name), separator + text, rest);
    Associate(separator, text, rest);
    ListContinues(g, Quoted(name) + (separator + text), Pair(name, value), tail);
  }

  lemma IntContinues(g: Grammar, name: string, i: int, tail: string, others: Read<seq<Pair>>)
    requires Fine(g, name) && tail != "" && !IsSpace(tail[0]) && ReadPairs(g, tail) == Some(others)
    ensures var s := IntMember(name, i, tail);
            && ReadPairs(g, s) == Some(Read([Pair(name, PrintInt(i))] + others.value, others.rest))
            && s != "" && s[0] == '"'
  {
    IntIsBare(i);
    BareReadsBack(g, PrintInt(i), ", " + tail);
    MemberContinues(g, name, ": ", PrintInt(i), PrintInt(i), tail);
  }

  /** Whatever a text reads as, more integer members before it read as more pairs. */
  lemma {:induction false} IntsReadBack(g: Grammar, numbers: seq<(string, int)>, rest: string, others: Read<seq<Pair>>)
    requires forall i :: 0 <= i < |numbers| ==> Fine(g, numbers[i].0)
    requires ReadPairs(g, rest) == Some(others) && rest != "" && !IsSpace(rest[0])
    ensures ReadPairs(g, IntMembers(numbers, rest)) == Some(Read(IntPairs(numbers) + others.value, others.rest))
    ensures IntMembers(numbers, rest) != "" && !IsSpace(IntMembers(numbers, rest)[0])
  {
    if numbers == [] {
      assert IntPairs(numbers) + others.value == others.value;
    } else {
      IntsReadBack(g, numbers[1..], rest, others);
      var read := Read(IntPairs(numbers[1..]) + others.value, others.rest);
      IntContinues(g, numbers[0].0, numbers[0].1, IntMembers(numbers[1..], rest), read);
      IntPairsContinue(numbers, others.value);
    }
  }

  lemma IntPairsContinue(numbers: seq<(string, int)>, more: seq<Pair>)
    requires numbers != []
    ensures [Pair(numbers[0].0, PrintInt(numbers[0].1))] + (IntPairs(numbers[1..]) + more) == IntPairs(numbers) + more
  {
    Associate([Pair(numbers[0].0, PrintInt(numbers[0].1))], IntPairs(numbers[1..]), more);
  }

  lemma MembersRead(g: Grammar, status: Status, addr: string, date: string)
    requires Fine(g, addr) && Fine(g, date)
    ensures ReadsAs(g, StatusMembers(status, addr, date),
                    [Pair("devEUI", addr)] + (IntPairs(StatusNumbers(status)) + [Pair("date", date)]), "}")
  {
    DateReadsBack(g, date);
    NamesAreFine(g, status);
    MembersReadWith(g, addr, StatusNumbers(status), DateMember(date), Read([Pair("date", date)], "}"));
  }

  lemma NamesAreFine(g: Grammar, status: Status)
    ensures forall i :: 0 <= i < |StatusNumbers(status)| ==> Fine(g, StatusNumbers(status)[i].0)
  {
  }

  lemma MembersReadWith(g: Grammar, addr: string, numbers: seq<(string, int)>, last: string, others: Read<seq<Pair>>)
    requires Fine(g, addr) && forall i :: 0 <= i < |numbers| ==> Fine(g, numbers[i].0)
    requires ReadPairs(g, last) == Some(others) && last != "" && !IsSpace(last[0])
    ensures ReadsAs(g, Quoted("devEUI") + (" : " + (Quoted(addr) + (", " + IntMembers(numbers, last)))),
                    [Pair("devEUI", addr)] + (IntPairs(numbers) + others.value), others.rest)
  {
    IntsReadBack(g, numbers, last, others);
    AddressReadsBack(g, addr, IntMembers(numbers, last));
  }

  /** The members of the status are read as each value under its own name. */
  lemma StatusReadsBack(g: Grammar, status: Status, addr: string, date: string)
    requires Fine(g, addr) && Fine(g, date)
    ensures ReadsAs(g, StatusMembers(status, addr, date), StatusPairs(status, addr, date), "}")
  {
    MembersRead(g, status, addr, date);
    StatusIsPairs(status, addr, date);
  }

  lemma AddressReadsBack(g: Grammar, addr: string, tail: string)
    requires Fine(g, addr) && tail != "" && !IsSpace(tail[0])
    ensures var s := Quoted("devEUI") + (" : " + (Quoted(addr) + (", " + tail)));
            ReadPairs(g, s) == Prepend(Pair("devEUI", addr), ReadPairs(g, tail)) && s[0] == '"'
  {
    StringReadsBack(g, addr, ", " + tail);
    MemberContinues(g, "devEUI", " : ", addr, Quoted(addr), tail);
  }

  /** An object after its name. */
  lemma SectionReads(g: Grammar, name: string, members: string)
    requires Fine(g, name) && members != "" && !IsSpace(members[0]) && members[0] != '}'
    ensures ReadSection(g, Quoted(name) + (": " + ("{ " + members)), name) == ReadPairs(g, members)
  {
    var obj := "{ " + members;
    StringReadsBack(g, name, ": " + obj);
    Punctuation(':', obj);
    assert ": " + obj == [':', ' '] + obj;
    Punctuation('{', members);
    assert obj == ['{', ' '] + members;
    NoSpace(members);
  }

  /** A comma and a section that is read as these pairs. */
  predicate FollowsAs(g: Grammar, s: string, name: string, pairs: seq<Pair>, rest: string) {
    StartsWith(s, ',') && Expect(s, ',').Some? && ReadSection(g, Expect(s, ',').value, name) == Some(Read(pairs, rest))
  }

  lemma NextSectionReads(g: Grammar, name: string, members: string, pairs: seq<Pair>, rest: string)
    requires Fine(g, name) && ReadsAs(g, members, pairs, rest)
    ensures FollowsAs(g, ", " + (Quoted(name) + (": " + ("{ " + members))), name, pairs, rest)
  {
    var section := Quoted(name) + (": " + ("{ " + members));
    SectionReads(g, name, members);
    Punctuation(',', section);
    assert ", " + section == [',', ' '] + section;
  }

  lemma StatusSectionReads(g: Grammar, status: Status, addr: string, date: string, members: string, pairs: seq<Pair>)
    requires members == StatusMembers(status, addr, date) && ReadsAs(g, members, pairs, "}")
    ensures FollowsAs(g, StatusText(status, addr, date), "status", pairs, "}")
  {
    NextSectionReads(g, "status", members, pairs, "}");
  }

  lemma MessageOpens(body: string)
    ensures Expect(HEAD + body, '{') == Some(Quoted("data") + (": " + ("{ " + body)))
  {
    var section := Quoted("data") + (": " + ("{ " + body));
    Punctuation('{', section);
    assert HEAD == "{ " + (Quoted("data") + ": { ");
    assert section == (Quoted("data") + ": { ") + body;
    assert HEAD + body == ['{', ' '] + section;
  }

  /** An object with nothing but white space in it. */
  lemma EmptyObjectReads(g: Grammar, rest: string)
    requires rest == "" || !IsSpace(rest[0])
    ensures ReadObject(g, "{ " + (" }" + rest)) == Some(Read([], rest))
  {
    var end := ['}'] + rest;
    var inner := [' '] + ([' '] + end);
    assert "{ " + (" }" + rest) == ['{'] + inner;
    Mark('{', inner);
    SkipOneSpace([' '] + end);
    SkipOneSpace(end);
    NoSpace(end);
    Punctuation('}', rest);
  }

  lemma EmptySectionReads(g: Grammar, rest: string)
    requires rest == "" || !IsSpace(rest[0])
    ensures ReadSection(g, Quoted("data") + (": " + ("{ " + (" }" + rest))), "data") == Some(Read([], rest))
  {
    var obj := "{ " + (" }" + rest);
    StringReadsBack(g, "data", ": " + obj);
    Punctuation(':', obj);
    assert ": " + obj == [':', ' '] + obj;
    EmptyObjectReads(g, rest);
  }

  /** The two sections of a message, one after the other. */
  lemma SectionsRead(g: Grammar, members: string, end: string, data: seq<Pair>, section: string, status: seq<Pair>)
    requires ReadSection(g, Quoted("data") + (": " + ("{ " + members)), "data") == Some(Read(data, end))
    requires Expect(end, ',') == Some(section) && ReadSection(g, section, "status") == Some(Read(status, "}"))
    ensures ReadMessage(g, HEAD + members) == Some((data, status))
  {
    MessageOpens(members);
    Punctuation('}', "");
    assert "}" == ['}'] + "";
  }

  lemma PairsSectionReads(g: Grammar, name: string, rule: Rule, pairs: seq<Pair>, end: string)
    requires Fine(g, name) && pairs != [] && AllPlain(g, rule, pairs) && end != "" && !IsSpace(end[0])
    ensures ReadSection(g, Quoted(name) + (": " + ("{ " + (PairsText(rule, pairs) + (" }" + end)))), name)
         == Some(Read(pairs, end))
  {
    PairsReadBack(g, rule, pairs, end);
    SectionReads(g, name, PairsText(rule, pairs) + (" }" + end));
  }

  lemma DataSectionReads(g: Grammar, rule: Rule, pairs: seq<Pair>, end: string)
    requires AllPlain(g, rule, pairs) && end != "" && !IsSpace(end[0])
    ensures ReadSection(g, Quoted("data") + (": " + ("{ " + (PairsText(rule, pairs) + (" }" + end)))), "data")
         == Some(Read(pairs, end))
  {
    if pairs == [] {
      assert "" + (" }" + end) == " }" + end;
      EmptySectionReads(g, end);
    } else {
      PairsSectionReads(g, "data", rule, pairs, end);
    }
  }

  // ----- Pairs that are not read back -----

  lemma {:induction false} NoQuoteAhead(s: string, rest: string)
    requires Clean(s) && !StartsWith(SkipTo(rest), '"')
    ensures !StartsWith(SkipTo(s + rest), '"')
  {
    if s == "" {
      assert s + rest == rest;
    } else if IsBlank(s[0]) {
      NoQuoteAhead(s[1..], rest);
      assert (s + rest)[1..] == s[1..] + rest;
    } else {
      assert (s + rest)[0] == s[0];
    }
  }

  lemma {:induction false} BareSpanIsBare(s: string)
    ensures AllBare(s[..BareSpan(s)])
  {
    if s != "" && IsBare(s[0]) {
      BareSpanIsBare(s[1..]);
      assert s[..BareSpan(s)] == [s[0]] + s[1..][..BareSpan(s[1..])];
    }
  }

  /** A string that is read has no quote or backslash in it. */
  lemma {:induction false} ReadQuotedIsClean(s: string)
    ensures ReadQuoted(s).Some? ==> Clean(ReadQuoted(s).value.value)
  {
    if s != "" && s[0] != '\\' && s[0] != '"' {
      ReadQuotedIsClean(s[1..]);
    }
  }

  lemma ReadStringIsClean(g: Grammar, s: string)
    ensures ReadString(g, s).Some? ==> Clean(ReadString(g, s).value.value)
  {
    if StartsWith(s, '"') {
      ReadQuotedIsClean(s[1..]);
    }
  }

  /** A member, given how its value reads. */
  lemma MemberReads(g: Grammar, name: string, t: string)
    requires Fine(g, name)
    ensures ReadPair(g, Quoted(name) + (": " + t)) ==
      match ReadScalar(g, SkipTo(t))
      case None => None
      case Some(r) => Some(Read(Pair(name, r.value), r.rest))
  {
    StringReadsBack(g, name, ": " + t);
    assert ": " + t == [':'] + ([' '] + t);
    Mark(':', [' '] + t);
    SkipOneSpace(t);
  }

  lemma PairTextIs(rule: Rule, pair: Pair, rest: string)
    ensures PairText(rule, pair) + rest == Quoted(pair.name) + (": " + (ValueText(rule, pair.value) + rest))
  {
    Associate(Quoted(pair.name), ": " + ValueText(rule, pair.value), rest);
    Associate(": ", ValueText(rule, pair.value), rest);
  }

  /** Whatever is read for a value that is not plain, it is not that value. */
  lemma ValueMisread(g: Grammar, rule: Rule, value: string, rest: string)
    requires !Plain(g, rule, value) && !StartsWith(SkipTo(rest), '"')
    ensures var r := ReadScalar(g, SkipTo(ValueText(rule, value) + rest)); r.Some? ==> r.value.value != value
  {
    var t := SkipTo(ValueText(rule, value) + rest);
    ReadStringIsClean(g, t);
    BareSpanIsBare(t);
    if rule(value) {
      assert (Quoted(value) + rest)[0] == '"';
    } else if Fine(g, value) {
      NoQuoteAhead(value, rest);
    }
  }

  lemma PairMisread(g: Grammar, rule: Rule, pair: Pair, rest: string)
    requires !PlainPair(g, rule, pair) && !StartsWith(SkipTo(rest), '"')
    ensures var r := ReadPair(g, PairText(rule, pair) + rest); r.Some? ==> r.value.value != pair
  {
    var t := ValueText(rule, pair.value) + rest;
    PairTextIs(rule, pair, rest);
    if Fine(g, pair.name) {
      MemberReads(g, pair.name, t);
      ValueMisread(g, rule, pair.value, rest);
    } else {
      ReadStringIsClean(g, Quoted(pair.name) + (": " + t));
    }
  }

  /** A list that, if it is read at all, does not begin with these pairs. */
  predicate Misread(g: Grammar, text: string, pairs: seq<Pair>) {
    var r := ReadPairs(g, text);
    r.Some? ==> !(pairs <= r.value.value)
  }

  lemma FirstPairCounts(g: Grammar, s: string, pairs: seq<Pair>)
    requires pairs != [] && (ReadPair(g, s).Some? ==> ReadPair(g, s).value.value != pairs[0])
    ensures Misread(g, s, pairs)
  {
    if ReadPairs(g, s).Some? {
      assert ReadPairs(g, s).value.value[0] == ReadPair(g, s).value.value;
    }
  }

  lemma FirstMisread(g: Grammar, rule: Rule, pairs: seq<Pair>, end: string)
    requires pairs != [] && !PlainPair(g, rule, pairs[0]) && !StartsWith(SkipTo(end), '"')
    ensures Misread(g, PairsText(rule, pairs) + end, pairs)
  {
    if |pairs| == 1 {
      PairMisread(g, rule, pairs[0], end);
    } else {
      PairsTextFrom(rule, pairs, end);
      PairMisread(g, rule, pairs[0], ", " + (PairsText(rule, pairs[1..]) + end));
    }
    FirstPairCounts(g, PairsText(rule, pairs) + end, pairs);
  }

  lemma {:induction false} PairsMisread(g: Grammar, rule: Rule, pairs: seq<Pair>, end: string)
    requires pairs != [] && !AllPlain(g, rule, pairs) && !StartsWith(SkipTo(end), '"')
    ensures Misread(g, PairsText(rule, pairs) + end, pairs)
  {
    if !PlainPair(g, rule, pairs[0]) {
      FirstMisread(g, rule, pairs, end);
    } else {
      PairsMisread(g, rule, pairs[1..], end);
      PairsStartWithQuote(rule, pairs[1..], end);
      PairsTextFrom(rule, pairs, end);
      MisreadAfter(g, rule, pairs, PairsText(rule, pairs[1..]) + end);
    }
  }

  lemma MisreadAfter(g: Grammar, rule: Rule, pairs: seq<Pair>, tail: string)
    requires pairs != [] && PlainPair(g, rule, pairs[0]) && Misread(g, tail, pairs[1..])
    requires tail != "" && !IsSpace(tail[0])
    ensures Misread(g, PairText(rule, pairs[0]) + (", " + tail), pairs)
  {
    PairContinues(g, rule, pairs[0], tail);
    if ReadPairs(g, tail).Some? {
      var others := ReadPairs(g, tail).value.value;
      PrefixOfRest([pairs[0]] + others, pairs);
      assert ([pairs[0]] + others)[1..] == others;
    }
  }

  lemma PrefixOfRest(read: seq<Pair>, pairs: seq<Pair>)
    requires pairs != [] && read != []
    ensures pairs <= read ==> pairs[1..] <= read[1..]
  {
  }

  /** Then no message with that text has these pairs in front. */
  lemma DataMisread(g: Grammar, rule: Rule, pairs: seq<Pair>, end: string)
    requires !AllPlain(g, rule, pairs) && !StartsWith(SkipTo(end), '"')
    ensures var r := ReadMessage(g, HEAD + (PairsText(rule, pairs) + end)); r.Some? ==> !(pairs <= r.value.0)
  {
    var members := PairsText(rule, pairs) + end;
    PairsMisread(g, rule, pairs, end);
    PairsStartWithQuote(rule, pairs, end);
    MessageOpens(members);
    SectionReads(g, "data", members);
  }

  // ----- Messages -----

  /** The message built from an array of `size` slots into which pairs were added. */
  function MessageOf(size: nat, added: seq<Pair>, status: Status, addr: string, date: string): string {
    MessageText(AddedAll(Blanks(size), added), status, addr, date)
  }

  lemma PartialText(size: nat, added: seq<Pair>, status: Status, addr: string, date: string)
    requires |added| < size && forall i :: 0 <= i < |added| ==> added[i].name != ""
    ensures MessageOf(size, added, status, addr, date)
         == HEAD + (PairsText(NeedsQuotes, added) + (" }" + StatusText(status, addr, date)))
  {
    FilledInOrder(added, size);
  }

  lemma PlainReadsBack(g: Grammar, pairs: seq<Pair>, status: Status, addr: string, date: string)
    requires AllPlain(g, NeedsQuotes, pairs) && Fine(g, addr) && Fine(g, date)
    ensures ReadMessage(g, HEAD + (PairsText(NeedsQuotes, pairs) + (" }" + StatusText(status, addr, date))))
         == Some((pairs, StatusPairs(status, addr, date)))
  {
    var end := StatusText(status, addr, date);
    StatusReadsBack(g, status, addr, date);
    StatusSectionReads(g, status, addr, date, StatusMembers(status, addr, date), StatusPairs(status, addr, date));
    DataSectionReads(g, NeedsQuotes, pairs, end);
    var data, members := PairsText(NeedsQuotes, pairs) + (" }" + end), StatusPairs(status, addr, date);
    SectionsRead(g, data, end, pairs, Expect(end, ',').value, members);
  }

  lemma BraceAhead(end: string)
    ensures !StartsWith(SkipTo(" }" + end), '"')
  {
    assert " }" + end == [' '] + (['}'] + end);
    SkipOneSpace(['}'] + end);
  }

  lemma PartialReadsBack(g: Grammar, size: nat, added: seq<Pair>, status: Status, addr: string, date: string)
    requires |added| < size && (forall i :: 0 <= i < |added| ==> added[i].name != "") && Fine(g, addr) && Fine(g, date)
    ensures ReadMessage(g, MessageOf(size, added, status, addr, date)) == Some((added, StatusPairs(status, addr, date)))
       <==> AllPlain(g, NeedsQuotes, added)
  {
    PartialText(size, added, status, addr, date);
    if AllPlain(g, NeedsQuotes, added) {
      PlainReadsBack(g, added, status, addr, date);
    } else {
      BraceAhead(StatusText(status, addr, date));
      DataMisread(g, NeedsQuotes, added, " }" + StatusText(status, addr, date));
    }
  }

  lemma FullText(size: nat, added: seq<Pair>, status: Status, addr: string, date: string)
    requires |added| >= size && forall i :: 0 <= i < |added| ==> added[i].name != ""
    ensures MessageOf(size, added, status, addr, date)
         == HEAD + (PairsText(NeedsQuotes, added[..size]) + StatusText(status, addr, date))
  {
    FilledInOrder(added, size);
    assert "" + StatusText(status, addr, date) == StatusText(status, addr, date);
  }

  lemma RunOnDoesNotRead(g: Grammar, rule: Rule, pairs: seq<Pair>, obj: string)
    requires pairs != [] && AllLand(g, rule, pairs) && obj != "" && obj[0] == '{'
    ensures ReadMessage(g, HEAD + (PairsText(rule, pairs) + (", " + (Quoted("status") + (": " + obj))))) == None
  {
    var next := Quoted("status") + (": " + obj);
    ObjectIsNoScalar(g, "status", obj);
    PairsRunOn(g, rule, pairs, next);
    PairsStartWithQuote(rule, pairs, ", " + next);
    MessageOpens(PairsText(rule, pairs) + (", " + next));
    SectionReads(g, "data", PairsText(rule, pairs) + (", " + next));
  }

  /** Nothing at all in an array without slots: a comma follows the opening brace. */
  lemma NothingDoesNotRead(g: Grammar, end: string)
    ensures ReadMessage(g, HEAD + ("" + (", " + end))) == None
  {
    var members := "" + (", " + end);
    assert members[0] == ',';
    MessageOpens(members);
    SectionReads(g, "data", members);
  }

  lemma PlainPairsLand(g: Grammar, rule: Rule, pairs: seq<Pair>)
    requires AllPlain(g, rule, pairs)
    ensures AllLand(g, rule, pairs)
  {
    forall i, rest | 0 <= i < |pairs| ensures LandsBefore(g, rule, pairs[i], rest) {
      PairReadsBack(g, rule, pairs[i], ", " + rest);
    }
  }

  /** With every slot taken the brace that closes "data" is missing: whatever is read, it is not what was added. */
  lemma FullMisread(g: Grammar, size: nat, added: seq<Pair>, status: Status, addr: string, date: string)
    requires size <= |added| && forall i :: 0 <= i < |added| ==> added[i].name != ""
    ensures var r := ReadMessage(g, MessageOf(size, added, status, addr, date)); r.Some? ==> r.value.0 != added
  {
    var pairs, obj := added[..size], "{ " + StatusMembers(status, addr, date);
    FullText(size, added, status, addr, date);
    if pairs == [] {
      NothingDoesNotRead(g, Quoted("status") + (": " + obj));
    } else if AllPlain(g, NeedsQuotes, pairs) {
      PlainPairsLand(g, NeedsQuotes, pairs);
      RunOnDoesNotRead(g, NeedsQuotes, pairs, obj);
    } else {
      DataMisread(g, NeedsQuotes, pairs, StatusText(status, addr, date));
    }
  }

  /** For either grammar: a message reads back exactly when a slot was left over and all pairs are plain. */
  lemma PlainMessageReadsBack(g: Grammar, size: nat, added: seq<Pair>, status: Status, addr: string, date: string)
    requires (forall i :: 0 <= i < |added| ==> added[i].name != "") && Fine(g, addr) && Fine(g, date)
    ensures ReadMessage(g, MessageOf(size, added, status, addr, date)) == Some((added, StatusPairs(status, addr, date)))
       <==> |added| < size && AllPlain(g, NeedsQuotes, added)
  {
    if |added| < size {
      PartialReadsBack(g, size, added, status, addr, date);
    } else {
      FullMisread(g, size, added, status, addr, date);
    }
  }

  /** A message reads back, with its pairs in order and its status, exactly when a slot was left over and every
      pair has a clean name and a scalar for its value. */
  lemma MessageReadsBack(size: nat, added: seq<Pair>, status: Status, addr: string, date: string)
    requires (forall i :: 0 <= i < |added| ==> added[i].name != "") && Clean(addr) && Clean(date)
    ensures ReadMessage(Lenient, MessageOf(size, added, status, addr, date))
         == Some((added, StatusPairs(status, addr, date)))
       <==> |added| < size && AllScalar(added)
  {
    PlainMessageReadsBack(Lenient, size, added, status, addr, date);
    AllScalarsArePlain(added);
  }

  /** A value that may stand in a JSON text as the program writes it: with quotes, if it has neither quote, backslash
      nor control character; without, if its digits are in order. */
  predicate JsonScalar(s: string) {
    if NeedsQuotes(s) then Fine(Json, s)
    else !Enclosed(s, '{', '}') && !Enclosed(s, '[', ']') && DigitsInOrder(WithoutMinus(s))
  }

  lemma JsonScalarsArePlain(s: string)
    ensures JsonScalar(s) <==> Plain(Json, NeedsQuotes, s)
  {
    if s != "" && !NeedsQuotes(s) {
      if Enclosed(s, '{', '}') || Enclosed(s, '[', ']') {
        assert !IsBare(s[0]);
      } else {
        UnquotedIsJsonNumber(s);
        WordsAreQuoted();
        if DigitsInOrder(WithoutMinus(s)) {
          FloatIsBare(s);
        }
      }
    }
  }

  /** A word in small letters that does not begin like "inf" or "nan". */
  lemma WordIsQuoted(s: string)
    requires |s| > 1 && 'a' <= s[0] <= 'z' && 'a' <= s[1] <= 'z' && s[0] != 'i' && (s[0] == 'n' ==> s[1] != 'a')
    ensures NeedsQuotes(s)
  {
    assert SkipSign(SkipSpace(s)) == s;
    assert Lower(s)[1] == s[1] && Lower(s)[0] == s[0];
    assert |s| > 2 ==> Lower(s[..3])[1] == s[..3][1] && Lower(s[..3])[0] == s[..3][0];
    assert "nan"[0] == 'n' && "nan"[1] == 'a' && "inf"[0] == 'i' && "infinity"[0] == 'i';
  }

  lemma WordsAreQuoted()
    ensures NeedsQuotes("true") && NeedsQuotes("false") && NeedsQuotes("null")
  {
    WordIsQuoted("true");
    WordIsQuoted("false");
    WordIsQuoted("null");
  }

  /** A message is a JSON text that tells its pairs in order and its status exactly when a slot was left over, names
      have no quote, backslash or control character, and values are what JsonScalar says. */
  lemma JsonReadsBack(size: nat, added: seq<Pair>, status: Status, addr: string, date: string)
    requires (forall i :: 0 <= i < |added| ==> added[i].name != "") && Fine(Json, addr) && Fine(Json, date)
    ensures ReadMessage(Json, MessageOf(size, added, status, addr, date))
         == Some((added, StatusPairs(status, addr, date)))
       <==> |added| < size && forall i :: 0 <= i < |added| ==> Fine(Json, added[i].name) && JsonScalar(added[i].value)
  {
    PlainMessageReadsBack(Json, size, added, status, addr, date);
    forall i | 0 <= i < |added| ensures JsonScalar(added[i].value) <==> Plain(Json, NeedsQuotes, added[i].value) {
      JsonScalarsArePlain(added[i].value);
    }
  }

  // ----- A full message -----

  lemma {:induction false} BlanksInFront(s: string, rest: string)
    requires SkipSpace(s) != ""
    ensures SkipTo(s) != "" && SkipTo(s + rest) == SkipTo(s) + rest
    ensures IsSpace(SkipTo(s)[0]) || SkipTo(s) == SkipSpace(s)
  {
    if IsBlank(s[0]) {
      BlanksInFront(s[1..], rest);
      assert (s + rest)[1..] == s[1..] + rest;
    } else {
      assert (s + rest)[0] == s[0];
    }
  }

  /** How a value is read that stands without quotes, if it is. */
  predicate Lands(g: Grammar, t: string, rest: string) {
    var r := ReadScalar(g, t);
    r.Some? ==> r.value.rest == rest
  }

  lemma {:induction false} NoSpaceLeft(s: string)
    ensures SkipSpace(s) != "" ==> !IsSpace(SkipSpace(s)[0]) && SkipSpace(SkipSpace(s)) == SkipSpace(s)
  {
    if s != "" && IsSpace(s[0]) {
      NoSpaceLeft(s[1..]);
    }
  }

  lemma BareLands(g: Grammar, t: string, rest: string)
    requires t != "" && AllBare(t) && rest != "" && !IsBare(rest[0])
    ensures Lands(g, t + rest, rest)
  {
    BareSpanOf(t, rest);
    assert (t + rest)[0] == t[0] && IsBare(t[0]);
    assert (t + rest)[|t|..] == rest;
  }

  lemma SpaceLands(g: Grammar, t: string, rest: string)
    requires t != "" && IsSpace(t[0])
    ensures Lands(g, t + rest, rest)
  {
    assert (t + rest)[0] == t[0] && !IsBare(t[0]);
  }

  /** A number, after white space or not, is read to its end if it is read. */
  lemma FloatLands(g: Grammar, s: string, rest: string)
    requires s != "" && ReadsAsFloat(s) && rest != "" && !IsBare(rest[0])
    ensures Lands(g, SkipTo(s + rest), rest)
  {
    var t := SkipSpace(s);
    assert t != "";
    BlanksInFront(s, rest);
    NoSpaceLeft(s);
    if IsSpace(SkipTo(s)[0]) {
      SpaceLands(g, SkipTo(s), rest);
    } else {
      FloatIsBare(t);
      BareLands(g, t, rest);
    }
  }

  /** An empty value, an object or an array is not read. */
  lemma NoScalarReads(g: Grammar, s: string, rest: string)
    requires s == "" || Enclosed(s, '{', '}') || Enclosed(s, '[', ']')
    ensures ReadScalar(g, SkipTo(s + (", " + rest))) == None
  {
    if s == "" {
      assert s + (", " + rest) == ", " + rest;
    } else {
      assert (s + (", " + rest))[0] == s[0];
    }
  }

  lemma QuotedLands(g: Grammar, s: string, rest: string)
    requires Clean(s)
    ensures Lands(g, SkipTo(Quoted(s) + rest), rest)
    ensures !Fine(g, s) ==> ReadString(g, Quoted(s) + rest) == None
  {
    QuotedReadsBack(s, rest);
    assert (Quoted(s) + rest)[1..] == s + ("\"" + rest) && (Quoted(s) + rest)[0] == '"';
  }

  lemma ValueLands(g: Grammar, value: string, rest: string)
    requires Clean(value)
    ensures Lands(g, SkipTo(ValueText(NeedsQuotes, value) + (", " + rest)), ", " + rest)
  {
    if NeedsQuotes(value) {
      QuotedLands(g, value, ", " + rest);
    } else if value == "" || Enclosed(value, '{', '}') || Enclosed(value, '[', ']') {
      NoScalarReads(g, value, rest);
    } else {
      FloatLands(g, value, ", " + rest);
    }
  }

  lemma PairLands(g: Grammar, pair: Pair, rest: string)
    requires Clean(pair.name) && Clean(pair.value)
    ensures LandsBefore(g, NeedsQuotes, pair, rest)
  {
    var t := ValueText(NeedsQuotes, pair.value) + (", " + rest);
    PairTextIs(NeedsQuotes, pair, ", " + rest);
    if Fine(g, pair.name) {
      MemberReads(g, pair.name, t);
      ValueLands(g, pair.value, rest);
    } else {
      QuotedLands(g, pair.name, ": " + t);
    }
  }

  /** With every slot taken and no quote or backslash in any pair, nothing is read at all. */
  lemma FullMessageDoesNotRead(g: Grammar, size: nat, added: seq<Pair>, status: Status, addr: string, date: string)
    requires size <= |added| && (forall i :: 0 <= i < |added| ==> added[i].name != "")
    requires forall i :: 0 <= i < size ==> Clean(added[i].name) && Clean(added[i].value)
    ensures ReadMessage(g, MessageOf(size, added, status, addr, date)) == None
  {
    var pairs, obj := added[..size], "{ " + StatusMembers(status, addr, date);
    FullText(size, added, status, addr, date);
    if pairs == [] {
      NothingDoesNotRead(g, Quoted("status") + (": " + obj));
    } else {
      forall i, rest | 0 <= i < size ensures LandsBefore(g, NeedsQuotes, pairs[i], rest) {
        PairLands(g, pairs[i], rest);
      }
      RunOnDoesNotRead(g, NeedsQuotes, pairs, obj);
    }
  }
}
