/** How many braces of a message stay open. */
module MessageBraces {
  import opened Decimal
  import opened JsonText
  import opened MqttMessage
  import opened Sequences

  /** Opening braces less closing ones. */
  function Open(s: string): int {
    if s == "" then 0 else (if s[0] == '{' then 1 else if s[0] == '}' then -1 else 0) + Open(s[1..])
  }

  lemma {:induction false} OpenConcat(a: string, b: string)
    ensures Open(a + b) == Open(a) + Open(b)
  {
    if a == "" {
      assert a + b == b;
    } else {
      OpenConcat(a[1..], b);
      assert (a + b)[1..] == a[1..] + b;
    }
  }

  predicate Braceless(s: string) { forall i :: 0 <= i < |s| ==> s[i] != '{' && s[i] != '}' }

  lemma {:induction false} NoBraces(s: string)
    requires Braceless(s)
    ensures Open(s) == 0
  {
    if s != "" {
      NoBraces(s[1..]);
    }
  }

  lemma OpenQuoted(s: string)
    ensures Open(Quoted(s)) == Open(s)
  {
    OpenConcat("\"" + s, "\"");
    OpenConcat("\"", s);
    NoBraces("\"");
  }

  /** A quoted name, a separator without braces and the rest. */
  lemma OpenNamed(name: string, separator: string, rest: string)
    requires separator == ": " || separator == " : "
    ensures Open(Quoted(name) + (separator + rest)) == Open(name) + Open(rest)
  {
    OpenQuoted(name);
    OpenConcat(Quoted(name), separator + rest);
    OpenConcat(separator, rest);
    NoBraces(separator);
  }

  lemma OpenAfterComma(rest: string)
    ensures Open(", " + rest) == Open(rest)
  {
    OpenConcat(", ", rest);
    NoBraces(", ");
  }

  lemma OpenClosing(s: string)
    ensures Open(" }" + s) == Open(s) - 1
  {
    assert (" }" + s)[1..] == "}" + s && ("}" + s)[1..] == s;
  }

  lemma OpenOpening(s: string)
    ensures Open("{ " + s) == Open(s) + 1
  {
    assert ("{ " + s)[1..] == " " + s && (" " + s)[1..] == s;
  }

  lemma OpenPair(rule: Rule, pair: Pair)
    ensures Open(PairText(rule, pair)) == Open(pair.name) + Open(pair.value)
  {
    OpenNamed(pair.name, ": ", ValueText(rule, pair.value));
    OpenQuoted(pair.value);
  }

  /** Names and values, which may be objects, that close what they open. */
  predicate Closed(pairs: seq<Pair>) {
    forall i :: 0 <= i < |pairs| ==> Open(pairs[i].name) + Open(pairs[i].value) == 0
  }

  lemma {:induction false} OpenPairs(rule: Rule, pairs: seq<Pair>)
    requires Closed(pairs)
    ensures Open(PairsText(rule, pairs)) == 0
  {
    if pairs != [] {
      OpenPair(rule, pairs[0]);
      if |pairs| > 1 {
        OpenPairs(rule, pairs[1..]);
        OpenConcat(PairText(rule, pairs[0]), ", " + PairsText(rule, pairs[1..]));
        OpenAfterComma(PairsText(rule, pairs[1..]));
      }
    }
  }

  lemma {:induction false} OpenInts(numbers: seq<(string, int)>, rest: string)
    requires forall i :: 0 <= i < |numbers| ==> Braceless(numbers[i].0)
    ensures Open(IntMembers(numbers, rest)) == Open(rest)
  {
    if numbers != [] {
      var (name, i) := numbers[0];
      var tail := IntMembers(numbers[1..], rest);
      NoBraces(name);
      OpenInts(numbers[1..], rest);
      OpenNamed(name, ": ", PrintInt(i) + (", " + tail));
      OpenConcat(PrintInt(i), ", " + tail);
      NoBraces(PrintInt(i));
      OpenAfterComma(tail);
    }
  }

  lemma OpenDate(date: string)
    ensures Open(DateMember(date)) == Open(date) - 2
  {
    OpenNamed("date", ": ", Quoted(date) + " }}");
    NoBraces("date");
    OpenConcat(Quoted(date), " }}");
    OpenQuoted(date);
    OpenClosing("}");
  }

  lemma OpenString(name: string, separator: string, value: string, rest: string)
    requires separator == ": " || separator == " : "
    ensures Open(Quoted(name) + (separator + (Quoted(value) + (", " + rest)))) == Open(name) + Open(value) + Open(rest)
  {
    OpenNamed(name, separator, Quoted(value) + (", " + rest));
    OpenConcat(Quoted(value), ", " + rest);
    OpenQuoted(value);
    OpenAfterComma(rest);
  }

  lemma OpenMembers(status: Status, addr: string, date: string)
    ensures Open(StatusMembers(status, addr, date)) == Open(addr) + Open(date) - 2
  {
    OpenDate(date);
    OpenInts(StatusNumbers(status), DateMember(date));
    OpenString("devEUI", " : ", addr, IntMembers(StatusNumbers(status), DateMember(date)));
    NoBraces("devEUI");
  }

  lemma OpenObject(name: string, members: string)
    ensures Open(Quoted(name) + (": " + ("{ " + members))) == Open(name) + 1 + Open(members)
  {
    OpenNamed(name, ": ", "{ " + members);
    OpenOpening(members);
  }

  lemma OpenStatus(status: Status, addr: string, date: string)
    ensures Open(StatusText(status, addr, date)) == Open(addr) + Open(date) - 1
  {
    var members := StatusMembers(status, addr, date);
    OpenMembers(status, addr, date);
    OpenObject("status", members);
    NoBraces("status");
    OpenAfterComma(Quoted("status") + (": " + ("{ " + members)));
  }

  lemma OpenTwice(middle: string, rest: string)
    requires Braceless(middle)
    ensures Open("{ " + (middle + ("{ " + rest))) == 2 + Open(rest)
  {
    OpenOpening(middle + ("{ " + rest));
    OpenConcat(middle, "{ " + rest);
    NoBraces(middle);
    OpenOpening(rest);
  }

  lemma OpenHead(rest: string)
    ensures Open(HEAD + rest) == 2 + Open(rest)
  {
    var middle := "\"data\": ";
    assert HEAD == ("{ " + middle) + "{ ";
    Associate("{ " + middle, "{ ", rest);
    Associate("{ ", middle, "{ " + rest);
    OpenTwice(middle, rest);
  }

  /** The braces balance exactly when a slot is left over; otherwise one stays open. */
  lemma BracesBalance(size: nat, added: seq<Pair>, status: Status, addr: string, date: string)
    requires (forall i :: 0 <= i < |added| ==> added[i].name != "") && Closed(added)
    requires Open(addr) == 0 && Open(date) == 0
    ensures Open(MessageText(AddedAll(Blanks(size), added), status, addr, date)) == if |added| < size then 0 else 1
  {
    FilledInOrder(added, size);
    var n := if |added| <= size then |added| else size;
    var end := if n < size then " }" else "";
    var text := StatusText(status, addr, date);
    OpenPairs(NeedsQuotes, added[..n]);
    OpenHead(PairsText(NeedsQuotes, added[..n]) + (end + text));
    OpenConcat(PairsText(NeedsQuotes, added[..n]), end + text);
    OpenStatus(status, addr, date);
    OpenClosing(text);
    assert "" + text == text;
  }
}
