/** The lists of tariff switch times and of holidays in modules/umdk-iec61107.c: packed into two bytes an entry for
    the meter, and unpacked from its reply. */
module Iec61107 {
  import opened Decimal
  import opened MeterText
  import opened MqttMessage
  import opened Sequences
  import opened Words

  datatype Kind = Schedule | Holidays

  /** Tariff, hour and minute, or day, month and schedule. */
  datatype Entry = Entry(first: nat, second: nat, third: nat)

  const WRITE: Byte := 0x57
  const BRACKET_OPEN: Byte := 0x28
  const BRACKET_CLOSE: Byte := 0x29
  const INVALID_FORMAT_REPLY: Byte := 4

  function Code(kind: Kind): Byte {
    match kind
    case Schedule => 0x0F
    case Holidays => 0x10
  }

  // ----- Packing -----

  function Pack(kind: Kind, first: int, second: int, third: int): seq<Byte> {
    match kind
    case Schedule =>
      [ByteOf(Or(ByteOf(32 * first), ByteOf(second))), ByteOf(third)]
    case Holidays =>
      var day, month, schedule := ByteOf(first), ByteOf(second), ByteOf(third);
      [ByteOf(16 * month + day / 4), ByteOf(schedule + 64 * (day % 4))]
  }

  function Unpack(kind: Kind, a: Byte, b: Byte): Entry {
    match kind
    case Schedule => Entry(a / 32, a % 32, b)
    case Holidays => Entry(4 * (a % 8) + b / 64, a / 16, b % 64)
  }

  /** Two-digit fields. */
  predicate TwoDigits(entry: Entry) { entry.first < 100 && entry.second < 100 && entry.third < 100 }

  /** What two bytes have room for. */
  predicate Fits(kind: Kind, entry: Entry) {
    match kind
    case Schedule => entry.first <= 7 && entry.second <= 31
    case Holidays => entry.first <= 31 && entry.second <= 15 && entry.third <= 63
  }

  function PackSwitch(entry: Entry): seq<Byte> { Pack(Schedule, entry.first, entry.second, entry.third) }

  function PackHoliday(entry: Entry): seq<Byte> { Pack(Holidays, entry.first, entry.second, entry.third) }

  type Packer = Entry -> seq<Byte>

  function PackerOf(kind: Kind): Packer {
    match kind
    case Schedule => PackSwitch
    case Holidays => PackHoliday
  }

  lemma UnpackedFits(kind: Kind, a: Byte, b: Byte)
    ensures Fits(kind, Unpack(kind, a, b))
  {
  }

  lemma HolidayReadsBack(day: nat, month: nat, schedule: nat)
    requires day <= 31 && month <= 15 && schedule <= 63
    ensures var a, b := 16 * month + day / 4, schedule + 64 * (day % 4);
            a < 256 && b < 256 && 4 * (a % 8) + b / 64 == day && a / 16 == month && b % 64 == schedule
  {
    assert (16 * month + day / 4) % 8 == day / 4;
  }

  lemma ByteIs(x: nat)
    requires x < 256
    ensures ByteOf(x) == x
  {
  }

  lemma SwitchKept(entry: Entry)
    requires TwoDigits(entry) && Fits(Schedule, entry)
    ensures PackSwitch(entry) == [32 * entry.first + entry.second, entry.third]
  {
    ByteIs(32 * entry.first);
    ByteIs(entry.second);
    OrAboveFiveBits(entry.first, entry.second);
    ByteIs(32 * entry.first + entry.second);
    ByteIs(entry.third);
  }

  lemma HolidayKept(entry: Entry)
    requires TwoDigits(entry) && Fits(Holidays, entry)
    ensures PackHoliday(entry) == [16 * entry.second + entry.first / 4, entry.third + 64 * (entry.first % 4)]
  {
    ByteIs(entry.first);
    ByteIs(entry.second);
    ByteIs(entry.third);
    ByteIs(16 * entry.second + entry.first / 4);
    ByteIs(entry.third + 64 * (entry.first % 4));
  }

  lemma SwitchReadsBack(entry: Entry)
    requires TwoDigits(entry) && Fits(Schedule, entry)
    ensures var bytes := PackSwitch(entry);
            |bytes| == 2 && Unpack(Schedule, bytes[0], bytes[1]) == entry
  {
    SwitchKept(entry);
    assert (32 * entry.first + entry.second) / 32 == entry.first;
  }

  lemma FittingEntryReadsBack(kind: Kind, entry: Entry)
    requires TwoDigits(entry) && Fits(kind, entry)
    ensures var bytes := PackerOf(kind)(entry);
            |bytes| == 2 && Unpack(kind, bytes[0], bytes[1]) == entry
  {
    match kind {
      case Schedule => SwitchReadsBack(entry);
      case Holidays => HolidayKept(entry); HolidayReadsBack(entry.first, entry.second, entry.third);
    }
  }

  lemma PackedPair(kind: Kind, entry: Entry)
    ensures |PackerOf(kind)(entry)| == 2
  {
  }

  /** An entry survives exactly when it fits. */
  lemma PackedEntryReadsBack(kind: Kind, entry: Entry)
    requires TwoDigits(entry)
    ensures var bytes := PackerOf(kind)(entry);
            |bytes| == 2 && (Unpack(kind, bytes[0], bytes[1]) == entry <==> Fits(kind, entry))
  {
    PackedPair(kind, entry);
    if Fits(kind, entry) {
      FittingEntryReadsBack(kind, entry);
    } else {
      var bytes := PackerOf(kind)(entry);
      UnpackedFits(kind, bytes[0], bytes[1]);
    }
  }

  lemma {:induction false} OrAboveBits(high: nat, low: nat, k: nat)
    requires low < Pow2(k)
    ensures Or(Doubled(high, k), low) == Doubled(high, k) + low
    decreases k
  {
    if k == 0 {
      OrZero(high);
    } else {
      OrAbove(Doubled(high, k - 1), low);
      OrAboveBits(high, low / 2, k - 1);
    }
  }

  lemma OrAboveFiveBits(high: nat, low: nat)
    requires low < 32
    ensures Or(32 * high, low) == 32 * high + low
  {
    assert Doubled(high, 2) == 2 * Doubled(high, 1) == 4 * Doubled(high, 0);
    assert Doubled(high, 5) == 2 * Doubled(high, 4) == 4 * Doubled(high, 3) == 8 * Doubled(high, 2);
    assert Pow2(5) == 2 * Pow2(4) == 4 * Pow2(3) == 8 * Pow2(2) == 16 * Pow2(1) == 32 * Pow2(0);
    OrAboveBits(high, low, 5);
  }

  function Concat<T>(f: Entry -> seq<T>, entries: seq<Entry>): seq<T> {
    if entries == [] then [] else f(entries[0]) + Concat(f, entries[1..])
  }

  function Packed(kind: Kind, entries: seq<Entry>): seq<Byte> { Concat(PackerOf(kind), entries) }

  function Unpacked(kind: Kind, bytes: seq<Byte>): seq<Entry> {
    if |bytes| < 2 then [] else [Unpack(kind, bytes[0], bytes[1])] + Unpacked(kind, bytes[2..])
  }

  predicate AllFit(kind: Kind, entries: seq<Entry>) {
    forall i :: 0 <= i < |entries| ==> Fits(kind, entries[i])
  }

  predicate AllTwoDigits(entries: seq<Entry>) {
    forall i :: 0 <= i < |entries| ==> TwoDigits(entries[i])
  }

  lemma UnpackedCons(kind: Kind, pair: seq<Byte>, rest: seq<Byte>)
    requires |pair| == 2
    ensures Unpacked(kind, pair + rest) == [Unpack(kind, pair[0], pair[1])] + Unpacked(kind, rest)
  {
    assert (pair + rest)[2..] == rest;
  }

  lemma ConsEquals(head: Entry, tail: seq<Entry>, entries: seq<Entry>)
    requires entries != []
    ensures [head] + tail == entries <==> head == entries[0] && tail == entries[1..]
  {
    assert entries == [entries[0]] + entries[1..];
    assert ([head] + tail)[1..] == tail;
  }

  /** A packed list is read back, in order, exactly when all its entries fit. */
  lemma {:induction false} PackedListReadsBack(kind: Kind, entries: seq<Entry>)
    requires AllTwoDigits(entries)
    ensures Unpacked(kind, Packed(kind, entries)) == entries <==> AllFit(kind, entries)
  {
    if entries != [] {
      var pair := PackerOf(kind)(entries[0]);
      PackedEntryReadsBack(kind, entries[0]);
      PackedListReadsBack(kind, entries[1..]);
      UnpackedCons(kind, pair, Packed(kind, entries[1..]));
      ConsEquals(Unpack(kind, pair[0], pair[1]), Unpacked(kind, Packed(kind, entries[1..])), entries);
      AllFitCons(kind, entries);
    }
  }

  lemma AllFitCons(kind: Kind, entries: seq<Entry>)
    requires entries != []
    ensures AllFit(kind, entries) <==> Fits(kind, entries[0]) && AllFit(kind, entries[1..])
  {
    assert entries == [entries[0]] + entries[1..];
  }

  // ----- The command -----

  /** The last space among the first n characters, or -1 for the one in front of the text. */
  function LastSpace(text: string, n: nat): (k: int)
    requires n <= |text|
    ensures -1 <= k < n
  {
    if n == 0 || text[n - 1] == ' ' then n - 1 else LastSpace(text, n - 1)
  }

  datatype Taken = Taken(bytes: seq<Byte>, rest: string)

  /** Three numbers and the characters after them. */
  function Take(kind: Kind, text: string): Taken {
    var first := StrToL(text);
    var second := StrToL(SkipOne(first.rest));
    var third := StrToL(SkipOne(second.rest));
    Taken(Pack(kind, first.value, second.value, third.value), SkipOne(third.rest))
  }

  function TakeSwitch(text: string): Taken { Take(Schedule, text) }

  function TakeHoliday(text: string): Taken { Take(Holidays, text) }

  type Taker = string -> Taken

  function TakerOf(kind: Kind): Taker {
    match kind
    case Schedule => TakeSwitch
    case Holidays => TakeHoliday
  }

  /** Rounds of the loop the counter needs to get to 255: nine times 199 is 255 modulo 256. */
  const LAST_ROUND := 199
  const FIRST_ROUND := 0

  /** The loop's counter at the start of a round. */
  function Counter(round: nat): Byte { ByteOf(9 * round) }

  lemma ByteAdds(x: nat, y: nat)
    ensures ByteOf(ByteOf(x) + y) == ByteOf(x + y)
  {
    assert x == 256 * (x / 256) + x % 256;
  }

  lemma CounterSteps(round: nat)
    ensures ByteOf(ByteOf(Counter(round) + 8) + 1) == Counter(round + 1)
  {
    ByteAdds(9 * round, 8);
    ByteAdds(9 * round + 8, 1);
  }

  /** What the loop prints from a round on. */
  function Emitted(take: Taker, text: string, round: nat, limit: Byte): seq<Byte>
    requires round <= LAST_ROUND
    decreases LAST_ROUND - round, text
  {
    if Counter(round) >= limit then []
    else
      var taken := take(text);
      taken.bytes + Emitted(take, taken.rest, round + 1, limit)
  }

  /** The number after a space. */
  function DeviceAfter(text: string, space: int): Byte
    requires -1 <= space < |text|
  {
    ByteOf(StrToL(text[space + 1..]).value)
  }

  function LengthOf(space: int): Byte
    requires space < 256
  {
    if space < 0 then 0 else space
  }

  function Framed(code: Byte, part: Byte, device: Byte, list: seq<Byte>): seq<Byte> {
    [code, WRITE, part, device, BRACKET_OPEN] + list + [BRACKET_CLOSE]
  }

  /** A list command as a meter takes it: code 0x0F for a schedule and 0x10 for holidays, 'W', the part, the number of
      the device, and the list in brackets. */
  predicate IsListCommand(kind: Kind, part: Byte, device: Byte, list: seq<Byte>, sent: seq<Byte>) {
    && |sent| == |list| + 6
    && sent[0] == (match kind case Schedule => 0x0F case Holidays => 0x10)
    && sent[1] == 0x57 && sent[2] == part && sent[3] == device
    && sent[4] == 0x28 && sent[5..5 + |list|] == list && sent[5 + |list|] == 0x29
  }

  /** The program's layout is the meter's. */
  lemma FramedIsCommand(kind: Kind, part: Byte, device: Byte, list: seq<Byte>, sent: seq<Byte>)
    ensures IsListCommand(kind, part, device, list, sent) <==> sent == Framed(Code(kind), part, device, list)
  {
    var framed := Framed(Code(kind), part, device, list);
    assert framed[5..5 + |list|] == list;
    if IsListCommand(kind, part, device, list, sent) {
      forall i | 0 <= i < |sent| ensures sent[i] == framed[i] {
        if 5 <= i < 5 + |list| {
          assert sent[i] == sent[5..5 + |list|][i - 5];
        }
      }
    }
  }

  /** The whole loop, given where the list ends. */
  type Emitter = (string, Byte) -> seq<Byte>

  function EmitSwitches(text: string, limit: Byte): seq<Byte> { Emitted(TakeSwitch, text, FIRST_ROUND, limit) }

  function EmitHolidays(text: string, limit: Byte): seq<Byte> { Emitted(TakeHoliday, text, FIRST_ROUND, limit) }

  function EmitterOf(kind: Kind): Emitter {
    match kind
    case Schedule => EmitSwitches
    case Holidays => EmitHolidays
  }

  /** The bytes sent for a list command, or the error. */
  function CommandBytes(code: Byte, emit: Emitter, part: Byte, text: string): seq<Byte> {
    var total := ByteOf(|text|);
    if total < 2 then [INVALID_FORMAT_REPLY]
    else
      var space := LastSpace(text, total);
      Framed(code, part, DeviceAfter(text, space), emit(text, LengthOf(space)))
  }

  /** The length of the text without the device number, in the program's steps. */
  method FindDevice(text: string) returns (address: nat, lengthParam: Byte)
    requires 2 <= ByteOf(|text|)
    ensures var space := LastSpace(text, ByteOf(|text|));
            address == space + 1 && lengthParam == LengthOf(space)
  {
    var total := ByteOf(|text|);
    var ptr := total - 1;
    var length := total;
    while ptr >= 0 && text[ptr] != ' '
      invariant -1 <= ptr < total && length == ptr + 1
      invariant LastSpace(text, total) == LastSpace(text, ptr + 1)
    {
      ptr := ptr - 1;
      length := length - 1;
    }
    address := ptr + 1;
    if address != 0 {
      length := length - 1;
    }
    lengthParam := length;
  }

  /** The loop over the list, whose counter is a byte. */
  method EmitEntries(take: Taker, text: string, lengthParam: Byte, start: string) returns (out: string)
    ensures out == start + HexText(Emitted(take, text, FIRST_ROUND, lengthParam))
  {
    out := start;
    var i: Byte := 0;
    var ptr := text;
    ghost var round := FIRST_ROUND;
    ghost var done: seq<Byte> := [];
    while i < lengthParam
      invariant round <= LAST_ROUND && i == Counter(round)
      invariant out == start + HexText(done)
      invariant done + Emitted(take, ptr, round, lengthParam) == Emitted(take, text, FIRST_ROUND, lengthParam)
      decreases LAST_ROUND - round
    {
      var taken := take(ptr);
      CounterSteps(round);
      HexTextConcat(done, taken.bytes);
      Associate(done, taken.bytes, Emitted(take, taken.rest, round + 1, lengthParam));
      Associate(start, HexText(done), HexText(taken.bytes));
      out := out + HexText(taken.bytes);
      done := done + taken.bytes;
      ptr := taken.rest;
      i := ByteOf(ByteOf(i + 8) + 1);
      round := round + 1;
    }
    assert done + [] == done;
  }

  method ListCommand(kind: Kind, part: Byte, text: string) returns (out: string)
    ensures out == HexText(CommandBytes(Code(kind), EmitterOf(kind), part, text))
  {
    if ByteOf(|text|) < 2 {
      out := HexText([INVALID_FORMAT_REPLY]);
      return;
    }
    var address, lengthParam := FindDevice(text);
    var device := ByteOf(StrToL(text[address..]).value);
    var head := [Code(kind), WRITE, part, device, BRACKET_OPEN];
    out := EmitEntries(TakerOf(kind), text, lengthParam, HexText(head));
    out := out + HexText([BRACKET_CLOSE]);
    ghost var body := Emitted(TakerOf(kind), text, FIRST_ROUND, lengthParam);
    HexTextConcat(head, body);
    HexTextConcat(head + body, [BRACKET_CLOSE]);
  }

  // ----- A well-formed list -----

  /** "%02d %02d %02d ". */
  function EntryText(entry: Entry): string {
    Pad(entry.first, 2) + (" " + (Pad(entry.second, 2) + (" " + (Pad(entry.third, 2) + " "))))
  }

  function ListText(entries: seq<Entry>, device: nat): string { Concat(EntryText, entries) + PrintDec(device) }

  lemma EntryTextLength(entry: Entry)
    requires TwoDigits(entry)
    ensures |EntryText(entry)| == 9 && EntryText(entry)[8] == ' '
  {
    assert Pow10(2) == 10 * Pow10(1) == 100 * Pow10(0);
    PadReadsBack(entry.first, 2);
    PadReadsBack(entry.second, 2);
    PadReadsBack(entry.third, 2);
  }

  lemma {:induction false} EntriesTextLength(entries: seq<Entry>)
    requires AllTwoDigits(entries)
    ensures var s := Concat(EntryText, entries); |s| == 9 * |entries| && (s != "" ==> s[|s| - 1] == ' ')
  {
    if entries != [] {
      EntryTextLength(entries[0]);
      EntriesTextLength(entries[1..]);
    }
  }

  lemma TakeEntry(kind: Kind, entry: Entry, rest: string)
    ensures TakerOf(kind)(EntryText(entry) + rest) == Taken(PackerOf(kind)(entry), rest)
  {
    var after := Pad(entry.third, 2) + (" " + rest);
    var middle := Pad(entry.second, 2) + (" " + after);
    assert EntryText(entry) + rest == Pad(entry.first, 2) + (" " + middle);
    FieldReads(entry.first, 2, " " + middle);
    FieldReads(entry.second, 2, " " + after);
    FieldReads(entry.third, 2, " " + rest);
    assert SkipOne(" " + middle) == middle && SkipOne(" " + after) == after && SkipOne(" " + rest) == rest;
  }

  /** One round of the loop takes one entry. */
  ghost predicate Takes(take: Taker, text: Entry -> string, pack: Packer) {
    forall entry, rest :: take(text(entry) + rest) == Taken(pack(entry), rest)
  }

  lemma CounterOf(round: nat)
    requires 9 * round <= 255
    ensures Counter(round) == 9 * round
  {
  }

  /** How many rounds the loop makes. */
  function Rounds(round: nat, limit: Byte): nat
    requires round <= LAST_ROUND
    decreases LAST_ROUND - round, limit
  {
    if Counter(round) >= limit then 0 else 1 + Rounds(round + 1, limit)
  }

  /** Over a list with as many entries as there are rounds, the loop prints the packed entries. */
  lemma {:induction false} EntriesEmitted(take: Taker, text: Entry -> string, pack: Packer, entries: seq<Entry>,
                                          rest: string, round: nat, limit: Byte)
    requires Takes(take, text, pack) && round <= LAST_ROUND && Rounds(round, limit) == |entries|
    ensures Emitted(take, Concat(text, entries) + rest, round, limit) == Concat(pack, entries)
    decreases |entries|
  {
    if entries != [] {
      Associate(text(entries[0]), Concat(text, entries[1..]), rest);
      EntriesEmitted(take, text, pack, entries[1..], rest, round + 1, limit);
    }
  }

  /** Every round moves the counter by nine, the length of an entry: one round for each entry. */
  lemma {:induction false} RoundsOfList(round: nat, n: nat, limit: Byte)
    requires 9 * (round + n) <= 255
    requires limit == 9 * (round + n) - 1 || (limit == 0 && round == 0 && n == 0)
    ensures Rounds(round, limit) == n
    decreases n
  {
    CounterOf(round);
    if n > 0 {
      RoundsOfList(round + 1, n - 1, limit);
    }
  }

  lemma {:induction false} LastSpaceBefore(text: string, digits: string, n: nat)
    requires n <= |digits| && AllDigits(digits) && (text == "" || text[|text| - 1] == ' ')
    ensures LastSpace(text + digits, |text| + n) == |text| - 1
  {
    if n > 0 {
      assert (text + digits)[|text| + n - 1] == digits[n - 1];
      LastSpaceBefore(text, digits, n - 1);
    }
  }

  lemma TakerTakes(kind: Kind)
    ensures Takes(TakerOf(kind), EntryText, PackerOf(kind))
  {
    forall entry, rest ensures TakerOf(kind)(EntryText(entry) + rest) == Taken(PackerOf(kind)(entry), rest) {
      TakeEntry(kind, entry, rest);
    }
  }

  lemma CommandIs(code: Byte, emit: Emitter, part: Byte, text: string, total: nat)
    requires 2 <= total == ByteOf(|text|)
    ensures var space := LastSpace(text, total);
            CommandBytes(code, emit, part, text)
              == Framed(code, part, DeviceAfter(text, space), emit(text, LengthOf(space)))
  {
  }

  /** The device number is what follows the last space. */
  lemma DeviceFollows(list: string, number: string)
    requires AllDigits(number) && number != ""
    ensures DeviceAfter(list + number, |list| - 1) == ByteOf(ReadDec(number))
  {
    assert (list + number)[|list|..] == number + "";
    StrToLReads(number, "");
  }

  /** A list of two-digit entries and a device number, at most 255 characters, is sent as the packed entries, in a list
      command for that part and that device. */
  lemma ListIsPacked(kind: Kind, part: Byte, entries: seq<Entry>, device: Byte)
    requires AllTwoDigits(entries) && 2 <= |ListText(entries, device)| <= 255
    ensures IsListCommand(kind, part, device, Packed(kind, entries),
                          CommandBytes(Code(kind), EmitterOf(kind), part, ListText(entries, device)))
  {
    var list := Concat(EntryText, entries);
    EntriesTextLength(entries);
    PrintDecReadsBack(device);
    ByteIs(device);
    TakerTakes(kind);
    ListEmitted(TakerOf(kind), EntryText, PackerOf(kind), entries, list, PrintDec(device));
    ListSent(Code(kind), EmitterOf(kind), part, list, PrintDec(device));
    FramedIsCommand(kind, part, device, Packed(kind, entries),
                    CommandBytes(Code(kind), EmitterOf(kind), part, ListText(entries, device)));
  }

  /** A text of fewer than two characters, the length taken in eight bits, is refused with error 4. */
  lemma ShortTextIsRefused(kind: Kind, part: Byte, text: string)
    ensures CommandBytes(Code(kind), EmitterOf(kind), part, text) == [4] <==> |text| % 256 < 2
  {
    if |text| % 256 >= 2 {
      var space := LastSpace(text, ByteOf(|text|));
      CommandIs(Code(kind), EmitterOf(kind), part, text, ByteOf(|text|));
    }
  }

  /** The two bytes of an entry that fits: tariff and hour in the first and the minute in the second; or the month and
      the upper part of the day in the first, the rest of the day and the schedule in the second. */
  predicate IsEntry(kind: Kind, entry: Entry, a: Byte, b: Byte) {
    match kind
    case Schedule => a == 32 * entry.first + entry.second && b == entry.third
    case Holidays => a == 16 * entry.second + entry.first / 4 && b == 64 * (entry.first % 4) + entry.third
  }

  lemma EntryIsPacked(kind: Kind, entry: Entry)
    requires TwoDigits(entry) && Fits(kind, entry)
    ensures |PackerOf(kind)(entry)| == 2 && IsEntry(kind, entry, PackerOf(kind)(entry)[0], PackerOf(kind)(entry)[1])
  {
    match kind {
      case Schedule => SwitchKept(entry);
      case Holidays => HolidayKept(entry);
    }
  }

  lemma {:induction false} ConcatAt(pack: Packer, entries: seq<Entry>, i: nat)
    requires (forall entry :: |pack(entry)| == 2) && i < |entries|
    ensures 2 * i + 1 < |Concat(pack, entries)|
    ensures Concat(pack, entries)[2 * i] == pack(entries[i])[0]
    ensures Concat(pack, entries)[2 * i + 1] == pack(entries[i])[1]
  {
    if i > 0 {
      ConcatAt(pack, entries[1..], i - 1);
    }
  }

  /** Each entry that fits stands in its own two bytes, in order. */
  lemma PackedEntryAt(kind: Kind, entries: seq<Entry>, i: nat)
    requires AllTwoDigits(entries) && AllFit(kind, entries) && i < |entries|
    ensures 2 * i + 1 < |Packed(kind, entries)|
    ensures IsEntry(kind, entries[i], Packed(kind, entries)[2 * i], Packed(kind, entries)[2 * i + 1])
  {
    forall entry ensures |PackerOf(kind)(entry)| == 2 {
      PackedPair(kind, entry);
    }
    ConcatAt(PackerOf(kind), entries, i);
    EntryIsPacked(kind, entries[i]);
  }

  lemma ListEmitted(take: Taker, show: Entry -> string, pack: Packer, entries: seq<Entry>, list: string, number: string)
    requires Takes(take, show, pack) && list == Concat(show, entries) && |list| == 9 * |entries| <= 255
    ensures Emitted(take, list + number, FIRST_ROUND, LengthOf(|list| - 1)) == Concat(pack, entries)
  {
    RoundsOfList(FIRST_ROUND, |entries|, LengthOf(|list| - 1));
    EntriesEmitted(take, show, pack, entries, number, FIRST_ROUND, LengthOf(|list| - 1));
  }

  lemma ListSent(code: Byte, emit: Emitter, part: Byte, list: string, number: string)
    requires AllDigits(number) && number != "" && (list == "" || list[|list| - 1] == ' ')
    requires 2 <= |list| + |number| <= 255
    ensures CommandBytes(code, emit, part, list + number)
         == Framed(code, part, ByteOf(ReadDec(number)), emit(list + number, LengthOf(|list| - 1)))
  {
    LastSpaceBefore(list, number, |number|);
    DeviceFollows(list, number);
    ByteIs(|list + number|);
    CommandIs(code, emit, part, list + number, |list + number|);
  }

  // ----- The reply -----

  function EntryPair(kind: Kind, entry: Entry): Pair {
    match kind
    case Schedule => Pair("T" + Pad(entry.first, 2), Pad(entry.second, 2) + (":" + Pad(entry.third, 2)))
    case Holidays => Pair(Pad(entry.first, 2) + ("." + Pad(entry.second, 2)), PrintDec(entry.third))
  }

  function ReadEntry(kind: Kind, pair: Pair): Entry {
    match kind
    case Schedule =>
      var hour := StrToL(pair.value);
      Entry(Natural(StrToL(SkipOne(pair.name)).value), Natural(hour.value), Natural(StrToL(SkipOne(hour.rest)).value))
    case Holidays =>
      var day := StrToL(pair.name);
      Entry(Natural(day.value), Natural(StrToL(SkipOne(day.rest)).value), Natural(StrToL(pair.value).value))
  }

  function Natural(i: int): nat { if i < 0 then 0 else i }

  /** A pair shows its entry. */
  lemma EntryPairReadsBack(kind: Kind, entry: Entry)
    ensures ReadEntry(kind, EntryPair(kind, entry)) == entry
  {
    match kind {
      case Schedule =>
        FieldEnds(entry.first);
        assert SkipOne("T" + Pad(entry.first, 2)) == Pad(entry.first, 2);
        FieldsRead(entry.second, ":", entry.third);
      case Holidays =>
        FieldsRead(entry.first, ".", entry.second);
        NumberReads(entry.third, "");
        assert PrintDec(entry.third) + "" == PrintDec(entry.third);
    }
  }

  lemma FieldEnds(n: nat)
    ensures StrToL(Pad(n, 2)) == Parsed(n, "")
  {
    FieldReads(n, 2, "");
    assert Pad(n, 2) + "" == Pad(n, 2);
  }

  lemma FieldsRead(m: nat, separator: string, n: nat)
    requires |separator| == 1 && !IsDigit(separator[0])
    ensures var first := StrToL(Pad(m, 2) + (separator + Pad(n, 2)));
            first.value == m && StrToL(SkipOne(first.rest)).value == n
  {
    FieldReads(m, 2, separator + Pad(n, 2));
    FieldEnds(n);
    assert SkipOne(separator + Pad(n, 2)) == Pad(n, 2);
  }

  function Rows(kind: Kind): nat {
    match kind
    case Schedule => 12
    case Holidays => 16
  }

  /** The pair printed for two bytes. */
  type Printer = (Byte, Byte) -> Pair

  function PrintSwitch(a: Byte, b: Byte): Pair { EntryPair(Schedule, Unpack(Schedule, a, b)) }

  function PrintHoliday(a: Byte, b: Byte): Pair { EntryPair(Holidays, Unpack(Holidays, a, b)) }

  function PrinterOf(kind: Kind): Printer {
    match kind
    case Schedule => PrintSwitch
    case Holidays => PrintHoliday
  }

  function EmptyPair(kind: Kind): Pair {
    match kind
    case Schedule => Pair("T00", "00:00")
    case Holidays => Pair("00.00", "0")
  }

  /** The first n entries. */
  function Decoded(show: Printer, data: seq<Byte>, n: nat): (pairs: seq<Pair>)
    requires 2 * n <= |data|
    ensures |pairs| == n
  {
    if n == 0 then [] else Decoded(show, data, n - 1) + [show(data[2 * n - 2], data[2 * n - 1])]
  }

  /** As many pairs as are missing. */
  function Filler(pair: Pair, n: int): (pairs: seq<Pair>)
    ensures |pairs| == if n < 0 then 0 else n
  {
    if n <= 0 then [] else Filler(pair, n - 1) + [pair]
  }

  /** Division by two as C does it, towards zero. */
  function HalfOf(x: int): int { if x < 0 then -(-x / 2) else x / 2 }

  /** The number of entries in so many bytes; it has eight bits. */
  function EntryCount(length: int): nat { ByteOf(HalfOf(length)) }

  /** The pairs for the entries in `length` bytes of the data, and for empty rows. */
  function ReplyPairs(kind: Kind, data: seq<Byte>, length: int): seq<Pair>
    requires 2 * EntryCount(length) <= |data|
  {
    var n := EntryCount(length);
    Decoded(PrinterOf(kind), data, n) + Filler(EmptyPair(kind), Rows(kind) - n)
  }

  /** "%d/%d" in a buffer with room for four characters. */
  function ListPair(list: Byte): Pair {
    var text := PrintDec(list / 16) + "/" + PrintDec(list % 16);
    Pair("holidays list", if |text| <= 4 then text else text[..4])
  }

  lemma OneDigit(n: nat)
    ensures |PrintDec(n)| == 1 <==> n < 10
    ensures 10 <= n < 16 ==> PrintDec(n) == "1" + [Digit(n % 10)]
  {
    if 10 <= n < 16 {
      assert PrintDec(1) == [Digit(1)] && n / 10 == 1;
    }
  }

  lemma WholeNumberReads(digits: string)
    requires AllDigits(digits) && digits != ""
    ensures StrToL(digits) == Parsed(ReadDec(digits), "")
  {
    StrToLReads(digits, "");
    assert digits + "" == digits;
  }

  lemma FirstNumberReads(a: string, b: string)
    requires AllDigits(a) && a != ""
    ensures StrToL(a + "/" + b) == Parsed(ReadDec(a), "/" + b)
  {
    assert a + "/" + b == a + ("/" + b);
    StrToLReads(a, "/" + b);
  }

  lemma SkipSlash(b: string)
    ensures SkipOne("/" + b) == b
  {
  }

  /** The text of a list label, as far as it fits. */
  lemma LabelIs(m: nat, n: nat)
    requires m < 16 && n < 16
    ensures var text := PrintDec(m) + "/" + PrintDec(n);
            (if |text| <= 4 then text else text[..4])
              == PrintDec(m) + "/" + if m < 10 || n < 10 then PrintDec(n) else "1"
  {
    OneDigit(m);
    OneDigit(n);
    if m >= 10 && n >= 10 {
      assert (PrintDec(m) + "/" + PrintDec(n))[..4] == PrintDec(m) + "/" + "1";
    }
  }

  /** The label shows which list it is, except when both numbers have two digits: then it loses the last one. */
  lemma ListPairShows(list: Byte)
    ensures var first := StrToL(ListPair(list).value);
            && first.value == list / 16
            && (StrToL(SkipOne(first.rest)).value == list % 16 <==> list / 16 < 10 || list % 16 < 10)
  {
    var m, n := list / 16, list % 16;
    var digits := if m < 10 || n < 10 then PrintDec(n) else "1";
    LabelIs(m, n);
    PrintDecReadsBack(m);
    PrintDecReadsBack(n);
    assert ReadDec("1") == 1 by {
      assert "1"[..0] == "";
    }
    FirstNumberReads(PrintDec(m), digits);
    SkipSlash(digits);
    WholeNumberReads(digits);
  }

  lemma AddedAllSnoc(start: seq<Pair>, added: seq<Pair>, last: Pair)
    ensures AddedAll(start, added + [last]) == Added(AddedAll(start, added), last.name, last.value)
  {
    assert (added + [last])[..|added|] == added;
  }

  lemma AddedNext(start: seq<Pair>, before: seq<Pair>, added: seq<Pair>, last: Pair)
    ensures AddedAll(start, before + (added + [last]))
         == Added(AddedAll(start, before + added), last.name, last.value)
  {
    Associate(before, added, [last]);
    AddedAllSnoc(start, before + added, last);
  }

  lemma DecodedNext(show: Printer, data: seq<Byte>, i: nat)
    requires 2 * i + 2 <= |data|
    ensures Decoded(show, data, i + 1) == Decoded(show, data, i) + [show(data[2 * i], data[2 * i + 1])]
  {
  }

  method AddEntries(show: Printer, data: seq<Byte>, n: nat, pairs: array<Pair>,
                    ghost start: seq<Pair>, ghost before: seq<Pair>)
    requires 2 * n <= |data| && pairs[..] == AddedAll(start, before)
    modifies pairs
    ensures pairs[..] == AddedAll(start, before + Decoded(show, data, n))
  {
    assert before + [] == before;
    for i := 0 to n
      invariant pairs[..] == AddedAll(start, before + Decoded(show, data, i))
    {
      var pair := show(data[2 * i], data[2 * i + 1]);
      DecodedNext(show, data, i);
      AddedNext(start, before, Decoded(show, data, i), pair);
      AddValuePair(pairs, pair.name, pair.value);
    }
  }

  method AddFiller(pair: Pair, n: nat, rows: nat, pairs: array<Pair>, ghost start: seq<Pair>, ghost before: seq<Pair>)
    requires pairs[..] == AddedAll(start, before)
    modifies pairs
    ensures pairs[..] == AddedAll(start, before + Filler(pair, rows - n))
  {
    var i := n;
    assert before + [] == before;
    while i < rows
      invariant n <= i && (i <= rows || i == n)
      invariant pairs[..] == AddedAll(start, before + Filler(pair, i - n))
    {
      AddedNext(start, before, Filler(pair, i - n), pair);
      AddValuePair(pairs, pair.name, pair.value);
      i := i + 1;
    }
  }

  /** The two loops over a reply. */
  method AddReply(kind: Kind, data: seq<Byte>, length: int, pairs: array<Pair>,
                  ghost start: seq<Pair>, ghost before: seq<Pair>)
    requires pairs[..] == AddedAll(start, before) && 2 * EntryCount(length) <= |data|
    modifies pairs
    ensures pairs[..] == AddedAll(start, before + ReplyPairs(kind, data, length))
  {
    var n := EntryCount(length);
    AddEntries(PrinterOf(kind), data, n, pairs, start, before);
    ghost var decoded := Decoded(PrinterOf(kind), data, n);
    AddFiller(EmptyPair(kind), n, Rows(kind), pairs, start, before + decoded);
    Associate(before, decoded, Filler(EmptyPair(kind), Rows(kind) - n));
  }

  /** `moddata` is the memory from the reply on, of which the reply is the first `moddatalen` bytes. */
  method ScheduleReply(moddata: seq<Byte>, moddatalen: int, pairs: array<Pair>)
    requires 4 + 2 * EntryCount(moddatalen - 4) <= |moddata|
    modifies pairs
    ensures pairs[..] == AddedAll(old(pairs[..]), ReplyPairs(Schedule, moddata[4..], moddatalen - 4))
  {
    AddReply(Schedule, moddata[4..], moddatalen - 4, pairs, pairs[..], []);
    ghost var reply := ReplyPairs(Schedule, moddata[4..], moddatalen - 4);
    assert [] + reply == reply;
  }

  method HolidaysReply(moddata: seq<Byte>, moddatalen: int, pairs: array<Pair>)
    requires 5 + 2 * EntryCount(moddatalen - 5) <= |moddata|
    modifies pairs
    ensures pairs[..] == AddedAll(old(pairs[..]),
                                  [ListPair(moddata[4])] + ReplyPairs(Holidays, moddata[5..], moddatalen - 5))
  {
    var list := ListPair(moddata[4]);
    ghost var start := pairs[..];
    AddedAllSnoc(start, [], list);
    assert [] + [list] == [list];
    AddValuePair(pairs, list.name, list.value);
    AddReply(Holidays, moddata[5..], moddatalen - 5, pairs, start, [list]);
  }

  function Shown(kind: Kind, entries: seq<Entry>): (pairs: seq<Pair>)
    ensures |pairs| == |entries|
    ensures forall i :: 0 <= i < |entries| ==> pairs[i] == EntryPair(kind, entries[i])
  {
    if entries == [] then [] else [EntryPair(kind, entries[0])] + Shown(kind, entries[1..])
  }

  lemma {:induction false} UnpackedLength(kind: Kind, data: seq<Byte>)
    ensures |Unpacked(kind, data)| == |data| / 2
  {
    if |data| >= 2 {
      UnpackedLength(kind, data[2..]);
    }
  }

  lemma {:induction false} UnpackedAt(kind: Kind, data: seq<Byte>, i: nat)
    requires 2 * i + 1 < |data| && |Unpacked(kind, data)| == |data| / 2
    ensures Unpacked(kind, data)[i] == Unpack(kind, data[2 * i], data[2 * i + 1])
  {
    if i > 0 {
      UnpackedAt(kind, data[2..], i - 1);
    }
  }

  lemma {:induction false} DecodedIs(show: Printer, data: seq<Byte>, pairs: seq<Pair>)
    requires 2 * |pairs| <= |data|
    requires forall i :: 0 <= i < |pairs| ==> pairs[i] == show(data[2 * i], data[2 * i + 1])
    ensures Decoded(show, data, |pairs|) == pairs
  {
    if pairs != [] {
      var n := |pairs| - 1;
      DecodedIs(show, data, pairs[..n]);
      DecodedNext(show, data, n);
      assert pairs == pairs[..n] + [pairs[n]];
    }
  }

  lemma ShownAt(kind: Kind, data: seq<Byte>, i: nat)
    requires 2 * i + 1 < |data| && |Unpacked(kind, data)| == |data| / 2
    ensures Shown(kind, Unpacked(kind, data))[i] == PrinterOf(kind)(data[2 * i], data[2 * i + 1])
  {
    UnpackedAt(kind, data, i);
  }

  lemma ShownEverywhere(kind: Kind, data: seq<Byte>, n: nat)
    requires |data| / 2 == n
    ensures |Unpacked(kind, data)| == n
    ensures forall i :: 0 <= i < n ==>
      Shown(kind, Unpacked(kind, data))[i] == PrinterOf(kind)(data[2 * i], data[2 * i + 1])
  {
    UnpackedLength(kind, data);
    forall i | 0 <= i < n
      ensures Shown(kind, Unpacked(kind, data))[i] == PrinterOf(kind)(data[2 * i], data[2 * i + 1])
    {
      ShownAt(kind, data, i);
    }
  }

  lemma DecodedShows(kind: Kind, data: seq<Byte>, n: nat)
    requires |data| / 2 == n
    ensures Decoded(PrinterOf(kind), data, n) == Shown(kind, Unpacked(kind, data))
  {
    ShownEverywhere(kind, data, n);
    DecodedIs(PrinterOf(kind), data, Shown(kind, Unpacked(kind, data)));
  }

  lemma CountOf(length: nat)
    requires length < 512
    ensures EntryCount(length) == length / 2
  {
  }

  /** The pairs of a reply show the unpacked entries, in order, and then empty rows; an odd byte at the end is not
      looked at. */
  lemma ReplyShowsEntries(kind: Kind, data: seq<Byte>, n: nat)
    requires |data| / 2 == n < 256
    ensures EntryCount(|data|) == n
    ensures ReplyPairs(kind, data, |data|)
         == Shown(kind, Unpacked(kind, data)) + Filler(EmptyPair(kind), Rows(kind) - n)
  {
    CountOf(|data|);
    DecodedShows(kind, data, n);
  }

  /** What is shown tells the entries. */
  lemma ShownOnce(kind: Kind, a: seq<Entry>, b: seq<Entry>)
    ensures Shown(kind, a) == Shown(kind, b) <==> a == b
  {
    if Shown(kind, a) == Shown(kind, b) {
      forall i | 0 <= i < |a| ensures |a| == |b| && a[i] == b[i] {
        EntryPairReadsBack(kind, a[i]);
        EntryPairReadsBack(kind, b[i]);
        assert Shown(kind, a)[i] == Shown(kind, b)[i];
      }
    }
  }

  lemma {:induction false} PackedLength(kind: Kind, entries: seq<Entry>)
    ensures |Packed(kind, entries)| == 2 * |entries|
  {
    if entries != [] {
      PackedLength(kind, entries[1..]);
      assert |PackerOf(kind)(entries[0])| == 2;
    }
  }

  lemma SameFront(a: seq<Pair>, b: seq<Pair>, end: seq<Pair>)
    requires |a| == |b|
    ensures a + end == b + end <==> a == b
  {
    assert (a + end)[..|a|] == a && (b + end)[..|b|] == b;
  }

  lemma ReplyIs(kind: Kind, data: seq<Byte>, n: nat, pairs: seq<Pair>)
    requires |data| / 2 == n < 256 && |pairs| == n
    ensures EntryCount(|data|) == n
    ensures ReplyPairs(kind, data, |data|) == pairs + Filler(EmptyPair(kind), Rows(kind) - n)
       <==> Shown(kind, Unpacked(kind, data)) == pairs
  {
    UnpackedLength(kind, data);
    ReplyShowsEntries(kind, data, n);
    SameFront(Shown(kind, Unpacked(kind, data)), pairs, Filler(EmptyPair(kind), Rows(kind) - n));
  }

  lemma ReplyIsShown(kind: Kind, data: seq<Byte>, entries: seq<Entry>)
    requires |data| / 2 == |entries| < 256
    ensures 2 * EntryCount(|data|) <= |data|
    ensures ReplyPairs(kind, data, |data|) == Shown(kind, entries) + Filler(EmptyPair(kind), Rows(kind) - |entries|)
       <==> Shown(kind, Unpacked(kind, data)) == Shown(kind, entries)
  {
    ReplyIs(kind, data, |entries|, Shown(kind, entries));
  }

  lemma ShownWhenFitting(kind: Kind, entries: seq<Entry>)
    requires AllTwoDigits(entries)
    ensures Shown(kind, Unpacked(kind, Packed(kind, entries))) == Shown(kind, entries) <==> AllFit(kind, entries)
  {
    ShownOnce(kind, Unpacked(kind, Packed(kind, entries)), entries);
    PackedListReadsBack(kind, entries);
  }

  /** What a command stores, a reply shows: the same entries in the same order, exactly when all of them fit. */
  lemma ListRoundTrip(kind: Kind, entries: seq<Entry>)
    requires AllTwoDigits(entries) && |entries| < 256
    ensures 2 * EntryCount(|Packed(kind, entries)|) <= |Packed(kind, entries)|
    ensures ReplyPairs(kind, Packed(kind, entries), |Packed(kind, entries)|)
         == Shown(kind, entries) + Filler(EmptyPair(kind), Rows(kind) - |entries|)
       <==> AllFit(kind, entries)
  {
    PackedLength(kind, entries);
    ReplyIsShown(kind, Packed(kind, entries), entries);
    ShownWhenFitting(kind, entries);
  }
}
