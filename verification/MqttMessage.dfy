/** The JSON messages of unwds-mqtt.c: the array of name and value pairs and the text built from it. Buffers are
    taken to be large enough. The array has MQTT_MSG_MAX_NUM = 50 slots; here its size is any number. */
module MqttMessage {
  import opened Decimal
  import opened JsonText
  import opened Sequences

  datatype Pair = Pair(name: string, value: string)

  datatype Status = Status(rssi: int, battery: int, temperature: int)

  // ----- The pair array -----

  /** The first slot with an empty name, or the size of the array. */
  function FirstEmpty(pairs: seq<Pair>): (n: nat)
    ensures n <= |pairs|
    ensures forall i :: 0 <= i < n ==> pairs[i].name != ""
    ensures n < |pairs| ==> pairs[n].name == ""
  {
    if pairs == [] || pairs[0].name == "" then 0 else 1 + FirstEmpty(pairs[1..])
  }

  /** strcat into the first slot with an empty name; nothing when there is none. */
  function Added(pairs: seq<Pair>, name: string, value: string): seq<Pair> {
    var i := FirstEmpty(pairs);
    if i < |pairs| then pairs[i := Pair(pairs[i].name + name, pairs[i].value + value)] else pairs
  }

  lemma {:induction false} FirstEmptyIs(pairs: seq<Pair>, i: nat)
    requires i <= |pairs| && (i < |pairs| ==> pairs[i].name == "")
    requires forall j :: 0 <= j < i ==> pairs[j].name != ""
    ensures FirstEmpty(pairs) == i
  {
    if pairs != [] && i > 0 {
      FirstEmptyIs(pairs[1..], i - 1);
    }
  }

  method AddValuePair(pairs: array<Pair>, name: string, value: string)
    modifies pairs
    ensures pairs[..] == Added(old(pairs[..]), name, value)
  {
    var i := 0;
    while i < pairs.Length
      invariant 0 <= i <= pairs.Length
      invariant pairs[..] == old(pairs[..])
      invariant forall j :: 0 <= j < i ==> pairs[j].name != ""
    {
      if pairs[i].name == "" {
        FirstEmptyIs(pairs[..], i);
        pairs[i] := Pair(pairs[i].name + name, pairs[i].value + value);
        return;
      }
      i := i + 1;
    }
    FirstEmptyIs(pairs[..], i);
  }

  /** The array after adding pairs one after the other. */
  function AddedAll(start: seq<Pair>, added: seq<Pair>): seq<Pair> {
    if added == [] then start
    else
      var last := added[|added| - 1];
      Added(AddedAll(start, added[..|added| - 1]), last.name, last.value)
  }

  /** n slots as memset leaves them. */
  function Blanks(n: nat): (pairs: seq<Pair>)
    ensures |pairs| == n && forall i :: 0 <= i < n ==> pairs[i] == Pair("", "")
  {
    if n == 0 then [] else [Pair("", "")] + Blanks(n - 1)
  }

  /** The array after the first pairs of `added` have gone into `size` blank slots. */
  function Filled(added: seq<Pair>, size: nat): seq<Pair> {
    if |added| <= size then added + Blanks(size - |added|) else added[..size]
  }

  lemma AddedToFilled(added: seq<Pair>, size: nat, pair: Pair)
    requires pair.name != "" && forall i :: 0 <= i < |added| ==> added[i].name != ""
    ensures Added(Filled(added, size), pair.name, pair.value) == Filled(added + [pair], size)
  {
    FirstEmptyIs(Filled(added, size), if |added| <= size then |added| else size);
    assert "" + pair.name == pair.name && "" + pair.value == pair.value;
  }

  /** Pairs with names fill a blank array from the front, in order; those beyond its size are dropped. */
  lemma {:induction false} AddedInOrder(added: seq<Pair>, size: nat)
    requires forall i :: 0 <= i < |added| ==> added[i].name != ""
    ensures AddedAll(Blanks(size), added) == Filled(added, size)
  {
    if added == [] {
      assert added + Blanks(size) == Blanks(size);
    } else {
      var n := |added| - 1;
      AddedInOrder(added[..n], size);
      AddedToFilled(added[..n], size, added[n]);
      assert added[..n] + [added[n]] == added;
    }
  }

  /** The slots in use are the pairs added, as many as fit. */
  lemma FilledInOrder(added: seq<Pair>, size: nat)
    requires forall i :: 0 <= i < |added| ==> added[i].name != ""
    ensures var pairs := AddedAll(Blanks(size), added);
            var n := if |added| <= size then |added| else size;
            |pairs| == size && FirstEmpty(pairs) == n && pairs[..n] == added[..n] && added[..|added|] == added
  {
    AddedInOrder(added, size);
    FirstEmptyIs(AddedAll(Blanks(size), added), if |added| <= size then |added| else size);
  }

  // ----- The text -----

  function Quoted(s: string): string { "\"" + s + "\"" }

  /** Which values get quotes; the program uses NeedsQuotes. */
  type Rule = string -> bool

  function ValueText(rule: Rule, value: string): string { if rule(value) then Quoted(value) else value }

  function PairText(rule: Rule, pair: Pair): string { Quoted(pair.name) + (": " + ValueText(rule, pair.value)) }

  /** The pairs separated by commas. */
  function PairsText(rule: Rule, pairs: seq<Pair>): string {
    if pairs == [] then ""
    else if |pairs| == 1 then PairText(rule, pairs[0])
    else PairText(rule, pairs[0]) + (", " + PairsText(rule, pairs[1..]))
  }

  function DateMember(date: string): string {
    Quoted("date") + (": " + (Quoted(date) + " }}"))
  }

  function IntMember(name: string, i: int, rest: string): string {
    Quoted(name) + (": " + (PrintInt(i) + (", " + rest)))
  }

  /** Members with integer values, before others. */
  function IntMembers(numbers: seq<(string, int)>, rest: string): string {
    if numbers == [] then rest
    else IntMember(numbers[0].0, numbers[0].1, IntMembers(numbers[1..], rest))
  }

  function StatusNumbers(status: Status): seq<(string, int)> {
    [("rssi", status.rssi), ("temperature", status.temperature), ("battery", status.battery)]
  }

  /** The members of "status" and the two closing braces. */
  function StatusMembers(status: Status, addr: string, date: string): string {
    Quoted("devEUI") + (" : " + (Quoted(addr) + (", " + IntMembers(StatusNumbers(status), DateMember(date)))))
  }

  function StatusText(status: Status, addr: string, date: string): string {
    ", " + (Quoted("status") + (": " + ("{ " + StatusMembers(status, addr, date))))
  }

  const HEAD := "{ \"data\": { "

  /** The brace that ends "data" is written only when an empty slot ends the loop. */
  function MessageText(pairs: seq<Pair>, status: Status, addr: string, date: string): string {
    var n := FirstEmpty(pairs);
    HEAD + (PairsText(NeedsQuotes, pairs[..n]) + ((if n < |pairs| then " }" else "") + StatusText(status, addr, date)))
  }

  lemma Regroup(a: string, b: string, c: string, d: string)
    ensures a + (b + (c + d)) == (a + (b + c)) + d
  {
  }

  lemma {:induction false} PairsTextSnoc(rule: Rule, pairs: seq<Pair>, last: Pair)
    requires pairs != []
    ensures PairsText(rule, pairs + [last]) == PairsText(rule, pairs) + (", " + PairText(rule, last))
  {
    assert (pairs + [last])[0] == pairs[0] && (pairs + [last])[1..] == pairs[1..] + [last];
    if |pairs| == 1 {
      assert pairs[1..] + [last] == [last];
      assert PairsText(rule, [last]) == PairText(rule, last);
    } else {
      PairsTextSnoc(rule, pairs[1..], last);
      Regroup(PairText(rule, pairs[0]), ", ", PairsText(rule, pairs[1..]), ", " + PairText(rule, last));
    }
  }

  /** The text of one more pair. */
  function NextText(rule: Rule, pairs: seq<Pair>, i: nat): string
    requires i < |pairs|
  {
    (if i != 0 then ", " else "") + PairText(rule, pairs[i])
  }

  lemma NextTextContinues(rule: Rule, pairs: seq<Pair>, i: nat)
    requires i < |pairs|
    ensures PairsText(rule, pairs[..i + 1]) == PairsText(rule, pairs[..i]) + NextText(rule, pairs, i)
  {
    assert pairs[..i + 1] == pairs[..i] + [pairs[i]];
    if i > 0 {
      PairsTextSnoc(rule, pairs[..i], pairs[i]);
    } else {
      assert pairs[..1] == [pairs[0]];
    }
  }

  lemma NextTextFollows(rule: Rule, pairs: seq<Pair>, i: nat, head: string)
    requires i < |pairs|
    ensures (head + PairsText(rule, pairs[..i])) + NextText(rule, pairs, i) == head + PairsText(rule, pairs[..i + 1])
  {
    NextTextContinues(rule, pairs, i);
    Associate(head, PairsText(rule, pairs[..i]), NextText(rule, pairs, i));
  }

  /** What the message starts with once i pairs are in it. */
  function Begun(head: string, pairs: seq<Pair>, i: nat): string
    requires i <= |pairs|
  {
    head + PairsText(NeedsQuotes, pairs[..i])
  }

  lemma NothingBegun(head: string, pairs: seq<Pair>)
    ensures Begun(head, pairs, 0) == head
  {
    assert pairs[..0] == [];
  }

  lemma PairAssembled(separator: string, name: string, value: string)
    ensures (separator + "\"" + name + "\": ") + value == separator + (Quoted(name) + (": " + value))
  {
    assert separator + "\"" + name + "\": " == separator + (Quoted(name) + ": ");
    Associate(separator, Quoted(name) + ": ", value);
    Associate(Quoted(name), ": ", value);
  }

  /** The body of the loop for a pair with a name. */
  method AppendPair(pairs: seq<Pair>, i: nat, msg: string, ghost head: string) returns (out: string)
    requires i < |pairs| && msg == Begun(head, pairs, i)
    ensures out == Begun(head, pairs, i + 1)
  {
    var name, value := pairs[i].name, pairs[i].value;
    var separator := if i != 0 then ", " else "";
    if NeedsQuotes(value) {
      value := "\"" + value + "\"";
    }
    PairAssembled(separator, name, value);
    NextTextFollows(NeedsQuotes, pairs, i, head);
    out := msg + (separator + "\"" + name + "\": " + value);
  }

  /** The loop: the pairs up to the first slot without a name. */
  method AppendPairs(pairs: seq<Pair>, head: string) returns (msg: string, i: nat)
    ensures i == FirstEmpty(pairs) && msg == Begun(head, pairs, i)
  {
    msg := head;
    i := 0;
    NothingBegun(head, pairs);
    while i < |pairs|
      invariant 0 <= i <= |pairs|
      invariant forall j :: 0 <= j < i ==> pairs[j].name != ""
      invariant msg == Begun(head, pairs, i)
    {
      if pairs[i].name == "" {
        break;
      }
      msg := AppendPair(pairs, i, msg, head);
      i := i + 1;
    }
    FirstEmptyIs(pairs, i);
  }

  /** The array is only read. */
  method BuildMqttMessage(pairs: array<Pair>, status: Status, addr: string, date: string) returns (msg: string)
    ensures msg == MessageText(pairs[..], status, addr, date)
  {
    var i;
    msg, i := AppendPairs(pairs[..], HEAD);
    var end := "";
    if i < pairs.Length {
      end := " }";
    }
    end := end + StatusText(status, addr, date);
    Associate(HEAD, PairsText(NeedsQuotes, pairs[..][..i]), end);
    msg := msg + end;
  }
}
