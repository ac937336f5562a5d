/** The holidays in modules/umdk-m230.c: a list of dates turned into one mask a month, and a mask listed from the
    meter's reply. */
module M230 {
  import opened Decimal
  import opened JsonText
  import opened MeterText
  import opened Options
  import opened Sequences
  import opened Words

  const SET_HOLIDAYS_M_FULL: Byte := 0xF2
  const ERROR_CMD: Byte := 0xFF
  const TMP: Byte := 0x02

  const MONTHS := 12
  const MASK_BITS := 32
  const FIRST_MONTH := 0

  /** Both counted from zero. */
  datatype Date = Date(day: nat, month: nat)

  predicate Valid(date: Date) { date.day < MASK_BITS && date.month < MONTHS }

  predicate AllValid(dates: seq<Date>) { forall i :: 0 <= i < |dates| ==> Valid(dates[i]) }

  // ----- Masks -----

  predicate IsMasks(masks: seq<nat>) {
    |masks| == MONTHS && forall i :: 0 <= i < MONTHS ==> masks[i] < Pow2(MASK_BITS)
  }

  function Marked(masks: seq<nat>, date: Date): (marked: seq<nat>)
    requires |masks| == MONTHS && Valid(date)
    ensures |marked| == MONTHS
  {
    masks[date.month := Or(masks[date.month], Pow2(date.day))]
  }

  function MarkedAll(masks: seq<nat>, dates: seq<Date>): (marked: seq<nat>)
    requires |masks| == MONTHS && AllValid(dates)
    ensures |marked| == MONTHS
    decreases |dates|
  {
    if dates == [] then masks else MarkedAll(Marked(masks, dates[0]), dates[1..])
  }

  function NoDays(n: nat): (masks: seq<nat>)
    ensures |masks| == n && forall i :: 0 <= i < n ==> masks[i] == 0
  {
    if n == 0 then [] else NoDays(n - 1) + [0]
  }

  function Masks(dates: seq<Date>): (masks: seq<nat>)
    requires AllValid(dates)
    ensures |masks| == MONTHS
  {
    MarkedAll(NoDays(MONTHS), dates)
  }

  lemma MarkedBit(masks: seq<nat>, date: Date, month: nat, day: nat)
    requires |masks| == MONTHS && Valid(date) && month < MONTHS
    ensures Bit(Marked(masks, date)[month], day) <==> Bit(masks[month], day) || date == Date(day, month)
  {
    BitOr(masks[date.month], Pow2(date.day), day);
    BitPow2(date.day, day);
  }

  lemma {:induction false} MarkedAllBit(masks: seq<nat>, dates: seq<Date>, month: nat, day: nat)
    requires |masks| == MONTHS && AllValid(dates) && month < MONTHS
    ensures Bit(MarkedAll(masks, dates)[month], day) <==> Bit(masks[month], day) || Date(day, month) in dates
    decreases |dates|
  {
    if dates != [] {
      MarkedBit(masks, dates[0], month, day);
      MarkedAllBit(Marked(masks, dates[0]), dates[1..], month, day);
      assert dates == [dates[0]] + dates[1..];
    }
  }

  /** A bit of a month's mask is set exactly when the date is in the list. */
  lemma MaskBit(dates: seq<Date>, month: nat, day: nat)
    requires AllValid(dates) && month < MONTHS
    ensures Bit(Masks(dates)[month], day) <==> Date(day, month) in dates
  {
    MarkedAllBit(NoDays(MONTHS), dates, month, day);
    BitOfZero(day);
  }

  lemma {:induction false} MarkedAllFit(masks: seq<nat>, dates: seq<Date>)
    requires IsMasks(masks) && AllValid(dates)
    ensures IsMasks(MarkedAll(masks, dates))
    decreases |dates|
  {
    if dates != [] {
      var date := dates[0];
      Pow2Above(date.day, MASK_BITS);
      OrBelow(masks[date.month], Pow2(date.day), MASK_BITS);
      MarkedAllFit(Marked(masks, date), dates[1..]);
    }
  }

  lemma MasksFit(dates: seq<Date>)
    requires AllValid(dates)
    ensures IsMasks(Masks(dates))
  {
    MarkedAllFit(NoDays(MONTHS), dates);
  }

  /** Two lists give the same masks exactly when they have the same dates: order and repetition do not matter. */
  lemma SameDatesSameMasks(a: seq<Date>, b: seq<Date>)
    requires AllValid(a) && AllValid(b)
    ensures Masks(a) == Masks(b) <==> forall date :: date in a <==> date in b
  {
    if forall date :: date in a <==> date in b {
      MasksFit(a);
      MasksFit(b);
      forall month | 0 <= month < MONTHS ensures Masks(a)[month] == Masks(b)[month] {
        forall day | 0 <= day < MASK_BITS ensures Bit(Masks(a)[month], day) <==> Bit(Masks(b)[month], day) {
          MaskBit(a, month, day);
          MaskBit(b, month, day);
        }
        BitsDecide(Masks(a)[month], Masks(b)[month], MASK_BITS);
      }
    } else {
      var date :| (date in a) != (date in b);
      MaskBit(a, date.month, date.day);
      MaskBit(b, date.month, date.day);
    }
  }

  // ----- The text of a command -----

  /** What one round of the loop reads: a date, and either more text, the device, or neither separator. */
  datatype Next = More(date: Date, rest: string) | Last(date: Date, device: Byte) | Bad(date: Date)

  type Reader = string -> Next

  ghost predicate Shortens(next: Reader) { forall text :: next(text).More? ==> |next(text).rest| < |text| }

  predicate MoreFollows(rest: string) { |rest| >= 2 && rest[0] == ',' && rest[1] == ' ' }

  /** Counted from zero, as bytes. */
  function DateOf(day: int, month: int): Date { Date(ByteOf(ByteOf(day) - 1), ByteOf(ByteOf(month) - 1)) }

  /** Something that reads a number; the program uses StrToL. */
  type Scanner = string -> Parsed

  /** Two numbers with a character between them, and what follows. */
  function TakeDate(scan: Scanner, text: string): (Date, string) {
    var day := scan(text);
    var month := scan(SkipOne(day.rest));
    (DateOf(day.value, month.value), month.rest)
  }

  function Separate(scan: Scanner, date: Date, rest: string): Next {
    if MoreFollows(rest) then More(date, rest[2..])
    else if StartsWith(rest, ' ') then Last(date, ByteOf(scan(rest[1..]).value))
    else Bad(date)
  }

  function NextWith(scan: Scanner, text: string): Next {
    var (date, rest) := TakeDate(scan, text);
    Separate(scan, date, rest)
  }

  function ReaderOf(scan: Scanner): Reader { (text: string) => NextWith(scan, text) }

  function NextDate(): Reader { ReaderOf(StrToL) }

  lemma StrToLShortens(s: string)
    ensures |StrToL(s).rest| <= |s|
  {
    SkipSpaceShortens(s);
  }

  lemma ReaderShortens(scan: Scanner)
    requires forall text :: |scan(text).rest| <= |text|
    ensures Shortens(ReaderOf(scan))
  {
    forall text | NextWith(scan, text).More? ensures |NextWith(scan, text).rest| < |text| {
      var day := scan(text);
      assert |scan(SkipOne(day.rest)).rest| <= |SkipOne(day.rest)|;
    }
  }

  lemma NextDateShortens()
    ensures Shortens(NextDate())
  {
    forall text ensures |StrToL(text).rest| <= |text| {
      StrToLShortens(text);
    }
    ReaderShortens(StrToL);
  }

  /** The dates of a text and, unless it is refused, the device behind them. */
  datatype Parse = Parse(dates: seq<Date>, device: Option<Byte>)

  function ParseDates(next: Reader, text: string): (parse: Parse)
    requires Shortens(next)
    decreases |text|
  {
    match next(text)
    case More(date, rest) => Prepended(date, ParseDates(next, rest))
    case Last(date, device) => Parse([date], Some(device))
    case Bad(date) => Parse([date], None)
  }

  function ParseText(text: string): Parse {
    NextDateShortens();
    ParseDates(NextDate(), text)
  }

  function Prepended(date: Date, parse: Parse): Parse { parse.(dates := [date] + parse.dates) }

  // ----- Records -----

  datatype Record = Record(month: nat, mask: nat)

  /** The months from one on that have days, counted from one. */
  function RecordsFrom(masks: seq<nat>, i: nat): seq<Record>
    requires i <= |masks|
    decreases |masks| - i
  {
    if i == |masks| then []
    else (if masks[i] != 0 then [Record(i + 1, masks[i])] else []) + RecordsFrom(masks, i + 1)
  }

  /** "%08x" of a 32-bit word, as bytes. */
  function WordBytes(word: nat): seq<Byte> {
    [ByteOf(word / 0x100_0000), ByteOf(word / 0x1_0000), ByteOf(word / 0x100), ByteOf(word)]
  }

  function WordOf(a: nat, b: nat, c: nat, d: nat): nat { 0x100_0000 * a + 0x1_0000 * b + 0x100 * c + d }

  function RecordBytes(record: Record): seq<Byte> { [ByteOf(record.month)] + WordBytes(record.mask) }

  function RecordsBytes(records: seq<Record>): seq<Byte> {
    if records == [] then [] else RecordBytes(records[0]) + RecordsBytes(records[1..])
  }

  function ReadRecords(bytes: seq<Byte>): seq<Record> {
    if |bytes| < 5 then []
    else
      [Record(bytes[0], WordOf(bytes[1], bytes[2], bytes[3], bytes[4]))] + ReadRecords(bytes[5..])
  }

  lemma WordReadsBack(word: nat)
    requires word < 0x1_0000_0000
    ensures var b := WordBytes(word); WordOf(b[0], b[1], b[2], b[3]) == word
  {
    var a, b, c := word / 0x100, word / 0x1_0000, word / 0x100_0000;
    assert a / 0x100 == b && b / 0x100 == c;
  }

  lemma ReadRecordsCons(head: seq<Byte>, tail: seq<Byte>)
    requires |head| == 5
    ensures ReadRecords(head + tail)
         == [Record(head[0], WordOf(head[1], head[2], head[3], head[4]))] + ReadRecords(tail)
  {
    assert (head + tail)[5..] == tail;
  }

  lemma RecordReadsBack(record: Record)
    requires record.month < 256 && record.mask < 0x1_0000_0000
    ensures var b := RecordBytes(record); Record(b[0], WordOf(b[1], b[2], b[3], b[4])) == record
  {
    WordReadsBack(record.mask);
  }

  lemma {:induction false} RecordsReadBack(records: seq<Record>)
    requires forall i :: 0 <= i < |records| ==> records[i].month < 256 && records[i].mask < 0x1_0000_0000
    ensures ReadRecords(RecordsBytes(records)) == records
  {
    if records != [] {
      RecordsReadBack(records[1..]);
      ReadRecordsCons(RecordBytes(records[0]), RecordsBytes(records[1..]));
      RecordReadsBack(records[0]);
    }
  }

  predicate Increasing(records: seq<Record>) {
    forall j, k :: 0 <= j < k < |records| ==> records[j].month < records[k].month
  }

  /** Every record is the mask of its month, and that mask is not empty. */
  predicate Sound(masks: seq<nat>, records: seq<Record>, i: nat) {
    forall j :: 0 <= j < |records| ==>
      i < records[j].month <= |masks| && records[j].mask == masks[records[j].month - 1] != 0
  }

  lemma {:induction false} RecordsAreSound(masks: seq<nat>, i: nat)
    requires i <= |masks|
    ensures Sound(masks, RecordsFrom(masks, i), i)
    decreases |masks| - i
  {
    if i < |masks| {
      RecordsAreSound(masks, i + 1);
    }
  }

  /** The records have strictly increasing months. */
  lemma {:induction false} RecordsIncrease(masks: seq<nat>, i: nat)
    requires i <= |masks|
    ensures Increasing(RecordsFrom(masks, i))
    decreases |masks| - i
  {
    if i < |masks| {
      RecordsAreSound(masks, i + 1);
      RecordsIncrease(masks, i + 1);
    }
  }

  /** No month with days is missing. */
  lemma {:induction false} RecordsAreComplete(masks: seq<nat>, i: nat, m: nat)
    requires i <= m < |masks| && masks[m] != 0
    ensures Record(m + 1, masks[m]) in RecordsFrom(masks, i)
    decreases |masks| - i
  {
    if i < m {
      RecordsAreComplete(masks, i + 1, m);
    }
  }

  /** The bytes sent for a list, or the error. */
  function HolidayBytes(parse: Parse): seq<Byte>
    requires AllValid(parse.dates)
  {
    match parse.device
    case None => [ERROR_CMD]
    case Some(device) => [SET_HOLIDAYS_M_FULL, device, TMP] + RecordsBytes(RecordsFrom(Masks(parse.dates), FIRST_MONTH))
  }

  lemma ValidCons(date: Date, others: seq<Date>)
    requires AllValid([date] + others)
    ensures Valid(date) && AllValid(others)
  {
    var dates := [date] + others;
    assert Valid(dates[0]);
    forall i | 0 <= i < |others| ensures Valid(others[i]) {
      assert others[i] == dates[i + 1];
    }
  }

  lemma MarkedFirst(masks: seq<nat>, date: Date, others: seq<Date>)
    requires |masks| == MONTHS && AllValid([date] + others)
    ensures Valid(date) && AllValid(others)
    ensures MarkedAll(masks, [date] + others) == MarkedAll(Marked(masks, date), others)
  {
    ValidCons(date, others);
    assert ([date] + others)[1..] == others;
  }

  lemma MarkedLast(masks: seq<nat>, date: Date)
    requires |masks| == MONTHS && AllValid([date])
    ensures Valid(date) && MarkedAll(masks, [date]) == Marked(masks, date)
  {
    assert [date] + [] == [date];
    MarkedFirst(masks, date, []);
  }

  /** What is left to do: these dates, towards these masks. */
  predicate Towards(masks: seq<nat>, dates: seq<Date>, goal: seq<nat>) {
    |masks| == MONTHS && AllValid(dates) && MarkedAll(masks, dates) == goal
  }

  method MarkDay(day: array<nat>, date: Date)
    requires day.Length == MONTHS && Valid(date)
    modifies day
    ensures day[..] == Marked(old(day[..]), date)
  {
    day[date.month] := Or(day[date.month], Pow2(date.day));
  }

  /** The loop that collects the masks. Days are at most 32 and months at most 12: anything else would leave the
      array or the word. */
  method CollectDays(next: Reader, text: string, day: array<nat>) returns (device: Option<Byte>)
    requires Shortens(next) && AllValid(ParseDates(next, text).dates) && day.Length == MONTHS
    modifies day
    ensures day[..] == MarkedAll(old(day[..]), ParseDates(next, text).dates)
    ensures device == ParseDates(next, text).device
  {
    ghost var whole := ParseDates(next, text);
    ghost var goal := MarkedAll(day[..], whole.dates);
    var param := text;
    var flagEnd := false;
    device := None;
    while !flagEnd
      invariant flagEnd ==> day[..] == goal && device == whole.device
      invariant !flagEnd ==> Towards(day[..], ParseDates(next, param).dates, goal)
      invariant !flagEnd ==> ParseDates(next, param).device == whole.device
      decreases !flagEnd, |param|
    {
      match next(param) {
        case More(date, rest) =>
          MarkedFirst(day[..], date, ParseDates(next, rest).dates);
          MarkDay(day, date);
          param := rest;
        case Last(date, number) =>
          MarkedLast(day[..], date);
          MarkDay(day, date);
          device := Some(number);
          flagEnd := true;
        case Bad(date) =>
          MarkedLast(day[..], date);
          MarkDay(day, date);
          device := None;
          return;
      }
    }
  }

  /** What the printing loop adds for a month: a record, or nothing. */
  function MonthBytes(masks: seq<nat>, i: nat): seq<Byte>
    requires i < |masks|
  {
    if masks[i] != 0 then RecordBytes(Record(i + 1, masks[i])) else []
  }

  function MonthsBytes(masks: seq<nat>, i: nat): seq<Byte>
    requires i <= |masks|
    decreases |masks| - i
  {
    if i == |masks| then [] else MonthBytes(masks, i) + MonthsBytes(masks, i + 1)
  }

  lemma {:induction false} MonthsAreRecords(masks: seq<nat>, i: nat)
    requires i <= |masks|
    ensures MonthsBytes(masks, i) == RecordsBytes(RecordsFrom(masks, i))
    decreases |masks| - i
  {
    if i < |masks| {
      var rest := RecordsFrom(masks, i + 1);
      MonthsAreRecords(masks, i + 1);
      if masks[i] != 0 {
        assert ([Record(i + 1, masks[i])] + rest)[1..] == rest;
      } else {
        assert [] + rest == rest && [] + MonthsBytes(masks, i + 1) == MonthsBytes(masks, i + 1);
      }
    }
  }

  method EmitMonth(day: array<nat>, i: nat, msg: string, ghost start: string, ghost done: seq<Byte>)
    returns (out: string)
    requires i < day.Length && msg == start + HexText(done)
    ensures out == start + HexText(done + MonthBytes(day[..], i))
  {
    out := msg;
    var bytes := [];
    if day[i] != 0 {
      bytes := RecordBytes(Record(i + 1, day[i]));
      out := out + HexText(bytes);
    } else {
      assert done + [] == done;
    }
    HexTextConcat(done, bytes);
    Associate(start, HexText(done), HexText(bytes));
  }

  /** The loop that prints the months with days. */
  method EmitRecords(day: array<nat>, start: string) returns (out: string)
    ensures out == start + HexText(MonthsBytes(day[..], FIRST_MONTH))
  {
    ghost var masks := day[..];
    ghost var goal := MonthsBytes(masks, FIRST_MONTH);
    ghost var done: seq<Byte> := [];
    out := start;
    for i := FIRST_MONTH to day.Length
      invariant out == start + HexText(done)
      invariant done + MonthsBytes(masks, i) == goal
    {
      Associate(done, MonthBytes(masks, i), MonthsBytes(masks, i + 1));
      out := EmitMonth(day, i, out, start, done);
      done := done + MonthBytes(masks, i);
    }
    assert done + [] == done;
  }

  method ClearDays(day: array<nat>)
    modifies day
    ensures day[..] == NoDays(day.Length)
  {
    for i := 0 to day.Length
      invariant forall j :: 0 <= j < i ==> day[j] == 0
    {
      day[i] := 0;
    }
  }

  method SetHolidays(text: string) returns (out: string)
    requires AllValid(ParseText(text).dates)
    ensures out == HexText(HolidayBytes(ParseText(text)))
  {
    NextDateShortens();
    var day := new nat[MONTHS];
    ClearDays(day);
    var device := CollectDays(NextDate(), text, day);
    match device {
      case None =>
        out := HexText([ERROR_CMD]);
      case Some(number) =>
        var head := [SET_HOLIDAYS_M_FULL, number, TMP];
        out := EmitRecords(day, HexText(head));
        HexTextConcat(head, MonthsBytes(day[..], FIRST_MONTH));
        MonthsAreRecords(day[..], FIRST_MONTH);
    }
  }

  // ----- A well-formed list -----

  /** "day.month", or with another separator. */
  function DateText(date: Date, width: nat, separator: char): string {
    Pad(date.day + 1, width) + ([separator] + Pad(date.month + 1, width))
  }

  type Writer = Date -> string

  function WriterOf(width: nat, separator: char): Writer { (date: Date) => DateText(date, width, separator) }

  /** The dates, a comma and a space between them, and an end. */
  function Joined(write: Writer, dates: seq<Date>, end: string): string {
    if dates == [] then ""
    else write(dates[0]) + if |dates| == 1 then end else ", " + Joined(write, dates[1..], end)
  }

  /** A list of dates and the device after a space. */
  function DatesText(dates: seq<Date>, width: nat, separator: char, device: nat): string {
    Joined(WriterOf(width, separator), dates, " " + PrintDec(device))
  }

  lemma DateIs(date: Date)
    requires Valid(date)
    ensures DateOf(date.day + 1, date.month + 1) == date
  {
    assert ByteOf(date.day + 1) == date.day + 1 && ByteOf(date.month + 1) == date.month + 1;
  }

  predicate Number(s: string, n: nat) { AllDigits(s) && s != "" && ReadDec(s) == n }

  predicate EndsNumber(rest: string) { rest == "" || !IsDigit(rest[0]) }

  /** Digits are read as the number they stand for. */
  ghost predicate Scans(scan: Scanner) {
    forall s: string, n: nat, rest: string :: Number(s, n) && EndsNumber(rest) ==> scan(s + rest) == Parsed(n, rest)
  }

  lemma StrToLScans()
    ensures Scans(StrToL)
  {
    forall s: string, n: nat, rest: string | Number(s, n) && EndsNumber(rest)
      ensures StrToL(s + rest) == Parsed(n, rest)
    {
      StrToLReads(s, rest);
    }
  }

  lemma TakeDateReads(scan: Scanner, a: string, b: string, date: Date, separator: char, rest: string)
    requires Scans(scan) && Valid(date) && Number(a, date.day + 1) && Number(b, date.month + 1)
    requires !IsDigit(separator) && rest != "" && !IsDigit(rest[0])
    ensures TakeDate(scan, (a + ([separator] + b)) + rest) == (date, rest)
  {
    assert (a + ([separator] + b)) + rest == a + ([separator] + (b + rest));
    assert scan(a + ([separator] + (b + rest))) == Parsed(date.day + 1, [separator] + (b + rest));
    assert SkipOne([separator] + (b + rest)) == b + rest;
    assert scan(b + rest) == Parsed(date.month + 1, rest);
    DateIs(date);
  }

  lemma PadIsNumber(n: nat, width: nat)
    ensures Number(Pad(n, width), n)
  {
    PadReadsBack(n, width);
  }

  lemma DateReads(scan: Scanner, date: Date, width: nat, separator: char, rest: string)
    requires Scans(scan) && Valid(date) && !IsDigit(separator) && rest != "" && !IsDigit(rest[0])
    ensures TakeDate(scan, DateText(date, width, separator) + rest) == (date, rest)
  {
    PadIsNumber(date.day + 1, width);
    PadIsNumber(date.month + 1, width);
    TakeDateReads(scan, Pad(date.day + 1, width), Pad(date.month + 1, width), date, separator, rest);
  }

  lemma LastSeparated(scan: Scanner, date: Date, digits: string, device: Byte)
    requires Scans(scan) && Number(digits, device)
    ensures Separate(scan, date, " " + digits) == Last(date, device)
  {
    assert (" " + digits)[1..] == digits + "";
    assert scan(digits + "") == Parsed(device, "");
    assert ByteOf(device) == device;
  }

  lemma MoreSeparated(scan: Scanner, date: Date, rest: string)
    ensures Separate(scan, date, ", " + rest) == More(date, rest)
  {
    assert (", " + rest)[2..] == rest;
  }

  /** A reader and a writer of dates that go together. */
  ghost predicate Agree(next: Reader, write: Writer, end: string, device: Byte) {
    forall date: Date :: Valid(date) ==>
      && next(write(date) + end) == Last(date, device)
      && forall rest :: next(write(date) + (", " + rest)) == More(date, rest)
  }

  lemma DatesAgree(scan: Scanner, width: nat, separator: char, digits: string, device: Byte)
    requires Scans(scan) && !IsDigit(separator) && Number(digits, device)
    ensures Agree(ReaderOf(scan), WriterOf(width, separator), " " + digits, device)
  {
    var next, write, end := ReaderOf(scan), WriterOf(width, separator), " " + digits;
    forall date: Date | Valid(date)
      ensures next(write(date) + end) == Last(date, device)
      ensures forall rest :: next(write(date) + (", " + rest)) == More(date, rest)
    {
      DateReads(scan, date, width, separator, end);
      LastSeparated(scan, date, digits, device);
      forall rest ensures next(write(date) + (", " + rest)) == More(date, rest) {
        DateReads(scan, date, width, separator, ", " + rest);
        MoreSeparated(scan, date, rest);
      }
    }
  }

  lemma {:induction false} JoinedReadsBack(next: Reader, write: Writer, dates: seq<Date>, end: string, device: Byte)
    requires Shortens(next) && Agree(next, write, end, device) && dates != [] && AllValid(dates)
    ensures ParseDates(next, Joined(write, dates, end)) == Parse(dates, Some(device))
  {
    assert Valid(dates[0]);
    if |dates| == 1 {
      assert dates == [dates[0]];
    } else {
      JoinedReadsBack(next, write, dates[1..], end, device);
      assert dates == [dates[0]] + dates[1..];
    }
  }

  /** The dates of a well-formed list are read back in order, and the device with them. */
  lemma DatesReadBack(dates: seq<Date>, width: nat, separator: char, device: Byte)
    requires dates != [] && AllValid(dates) && !IsDigit(separator)
    ensures ParseText(DatesText(dates, width, separator, device)) == Parse(dates, Some(device))
  {
    NextDateShortens();
    var digits := PrintDec(device);
    PrintDecReadsBack(device);
    StrToLScans();
    DatesAgree(StrToL, width, separator, digits, device);
    JoinedReadsBack(NextDate(), WriterOf(width, separator), dates, " " + digits, device);
  }

  predicate HasDay(records: seq<Record>, month: nat, day: nat) {
    exists i :: 0 <= i < |records| && records[i].month == month + 1 && Bit(records[i].mask, day)
  }

  /** Increasing months, and a bit of a month's mask set exactly when the list has that date; a month without a
      record has no date. */
  ghost predicate Hold(records: seq<Record>, dates: seq<Date>) {
    Increasing(records) && forall day, month :: HasDay(records, month, day) <==> Date(day, month) in dates
  }

  /** What is sent for a list, read as records, holds exactly the dates of the list. */
  lemma HolidaysSent(dates: seq<Date>, device: Byte)
    requires AllValid(dates)
    ensures var bytes := HolidayBytes(Parse(dates, Some(device)));
            bytes[..3] == [SET_HOLIDAYS_M_FULL, device, TMP] && Hold(ReadRecords(bytes[3..]), dates)
  {
    var head, records := [SET_HOLIDAYS_M_FULL, device, TMP], RecordsFrom(Masks(dates), FIRST_MONTH);
    RecordsRead(dates);
    RecordsIncrease(Masks(dates), FIRST_MONTH);
    forall day, month ensures HasDay(records, month, day) <==> Date(day, month) in dates {
      RecordOfDate(dates, day, month);
    }
    assert (head + RecordsBytes(records))[3..] == RecordsBytes(records);
  }

  /** What is sent for the text of a list: the command 0xF2, the device, 2, and records that hold exactly its dates. */
  lemma TextIsSent(dates: seq<Date>, width: nat, separator: char, device: Byte)
    requires dates != [] && AllValid(dates) && !IsDigit(separator)
    ensures AllValid(ParseText(DatesText(dates, width, separator, device)).dates)
    ensures var bytes := HolidayBytes(ParseText(DatesText(dates, width, separator, device)));
            && |bytes| >= 3 && bytes[0] == 0xF2 && bytes[1] == device && bytes[2] == 0x02
            && Hold(ReadRecords(bytes[3..]), dates)
  {
    DatesReadBack(dates, width, separator, device);
    HolidaysSent(dates, device);
    var bytes := HolidayBytes(Parse(dates, Some(device)));
    assert bytes[0] == bytes[..3][0] && bytes[1] == bytes[..3][1] && bytes[2] == bytes[..3][2];
  }

  /** A text that goes on with neither a comma and a space nor a space behind a date is answered with 0xFF alone. */
  lemma BadTextIsRefused(parse: Parse)
    requires AllValid(parse.dates)
    ensures HolidayBytes(parse) == [0xFF] <==> parse.device == None
  {
    if parse.device.Some? {
      assert HolidayBytes(parse)[0] == SET_HOLIDAYS_M_FULL;
    }
  }

  lemma RecordsRead(dates: seq<Date>)
    requires AllValid(dates)
    ensures ReadRecords(RecordsBytes(RecordsFrom(Masks(dates), FIRST_MONTH))) == RecordsFrom(Masks(dates), FIRST_MONTH)
  {
    var records := RecordsFrom(Masks(dates), FIRST_MONTH);
    MasksFit(dates);
    RecordsAreSound(Masks(dates), FIRST_MONTH);
    WordSize();
    forall i | 0 <= i < |records| ensures records[i].month < 256 && records[i].mask < 0x1_0000_0000 {
      assert records[i].mask == Masks(dates)[records[i].month - 1];
    }
    RecordsReadBack(records);
  }

  lemma WordSize()
    ensures Pow2(MASK_BITS) == 0x1_0000_0000
  {
    PowersOfTwo();
    Pow2Adds(16, 16);
  }

  lemma RecordOfDate(dates: seq<Date>, day: nat, month: nat)
    requires AllValid(dates)
    ensures HasDay(RecordsFrom(Masks(dates), FIRST_MONTH), month, day) <==> Date(day, month) in dates
  {
    var masks := Masks(dates);
    RecordsAreSound(masks, FIRST_MONTH);
    if month < MONTHS {
      MaskBit(dates, month, day);
      if Bit(masks[month], day) {
        BitOfZero(day);
        RecordsAreComplete(masks, FIRST_MONTH, month);
      }
    }
  }
}
