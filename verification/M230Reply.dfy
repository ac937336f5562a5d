/** The reply of modules/umdk-m230.c that lists the holidays of a month. */
module M230Reply {
  import opened Decimal
  import opened Hex
  import opened M230
  import opened MqttMessage
  import opened Sequences
  import opened Words

  /** The days whose bits are set among the first n of a mask, counted from one. */
  function Days(mask: nat, n: nat): (days: seq<nat>)
    ensures |days| <= n
  {
    if n == 0 then [] else Days(mask, n - 1) + (if Bit(mask, n - 1) then [n] else [])
  }

  /** "%02d, " for every day. */
  function DaysText(days: seq<nat>): string {
    if days == [] then "" else DaysText(days[..|days| - 1]) + (Pad(days[|days| - 1], 2) + ", ")
  }

  function HolidaysText(days: seq<nat>): string {
    if days == [] then "None" else "[ " + DaysText(days) + "]"
  }

  const REPLY_BITS := 32

  /** The four bytes of a mask, the lowest first. */
  function MaskOf(week: seq<Byte>): nat { LittleEndianValue(week) }

  /** Bit j of byte i is bit 8i + j of the mask. */
  lemma {:induction false} MaskBits(bytes: seq<Byte>, i: nat, j: nat)
    requires i < |bytes| && j < 8
    ensures Bit(MaskOf(bytes), 8 * i + j) <==> Bit(bytes[i], j)
  {
    PowersOfTwo();
    BitSplit(MaskOf(bytes[1..]), bytes[0], 8, 8 * i + j);
    if i > 0 {
      MaskBits(bytes[1..], i - 1, j);
    }
  }

  /** The text printed so far. */
  function Printed(days: seq<nat>): string { "[ " + DaysText(days) }

  lemma PrintedNext(days: seq<nat>, day: nat)
    ensures Printed(days + [day]) == Printed(days) + (Pad(day, 2) + ", ")
  {
    assert (days + [day])[..|days|] == days;
    Associate("[ ", DaysText(days), Pad(day, 2) + ", ");
  }

  lemma DaysNext(mask: nat, n: nat)
    ensures Days(mask, n + 1) == if Bit(mask, n) then Days(mask, n) + [n + 1] else Days(mask, n)
  {
  }

  /** What the loops have done after n bits. */
  predicate ListedUpTo(mask: nat, n: nat, buf: string, flagHoliday: bool) {
    buf == Printed(Days(mask, n)) && (flagHoliday <==> Days(mask, n) != [])
  }

  /** One bit. */
  method PrintBit(bit: bool, n: nat, text: string, flag: bool, ghost mask: nat)
    returns (buf: string, flagHoliday: bool)
    requires ListedUpTo(mask, n, text, flag) && (bit <==> Bit(mask, n))
    ensures ListedUpTo(mask, n + 1, buf, flagHoliday)
  {
    buf, flagHoliday := text, flag;
    DaysNext(mask, n);
    if bit {
      flagHoliday := true;
      PrintedNext(Days(mask, n), n + 1);
      buf := buf + (Pad(n + 1, 2) + ", ");
    }
  }

  /** The bits of a byte are those of a mask from a place on. */
  predicate IsPart(week: Byte, mask: nat, start: nat) {
    forall j :: 0 <= j < 8 ==> (Bit(week, j) <==> Bit(mask, start + j))
  }

  lemma PartBit(week: Byte, mask: nat, start: nat, j: nat)
    requires IsPart(week, mask, start) && j < 8
    ensures Bit(week, j) <==> Bit(mask, start + j)
  {
  }

  /** The inner loop, over the bits of a byte. */
  method PrintByte(week: Byte, start: nat, text: string, flag: bool, ghost mask: nat)
    returns (buf: string, flagHoliday: bool)
    requires IsPart(week, mask, start) && ListedUpTo(mask, start, text, flag)
    ensures ListedUpTo(mask, start + 8, buf, flagHoliday)
  {
    buf, flagHoliday := text, flag;
    var n := start;
    for j := 0 to 8
      invariant n == start + j && ListedUpTo(mask, n, buf, flagHoliday)
    {
      PartBit(week, mask, start, j);
      buf, flagHoliday := PrintBit(Bit(week, j), n, buf, flagHoliday, mask);
      n := n + 1;
    }
  }

  lemma MaskParts(bytes: seq<Byte>, i: nat)
    requires i < |bytes|
    ensures IsPart(bytes[i], MaskOf(bytes), 8 * i)
  {
    forall j | 0 <= j < 8 ensures Bit(bytes[i], j) <==> Bit(MaskOf(bytes), 8 * i + j) {
      MaskBits(bytes, i, j);
    }
  }

  /** The outer loop, over the bytes. */
  method PrintWeeks(bytes: seq<Byte>) returns (buf: string, flagHoliday: bool)
    ensures ListedUpTo(MaskOf(bytes), 8 * |bytes|, buf, flagHoliday)
  {
    ghost var mask := MaskOf(bytes);
    buf, flagHoliday := "[ ", false;
    var n := 0;
    for i := 0 to |bytes|
      invariant n == 8 * i && ListedUpTo(mask, n, buf, flagHoliday)
    {
      MaskParts(bytes, i);
      buf, flagHoliday := PrintByte(bytes[i], n, buf, flagHoliday, mask);
      n := n + 8;
    }
  }

  /** The days that are set in the four bytes after the head of the reply. More than 24 would not fit the buffer. */
  method HolidaysReply(moddata: seq<Byte>, pairs: array<Pair>)
    requires |moddata| >= 7 && |Days(MaskOf(moddata[3..7]), REPLY_BITS)| <= 24
    modifies pairs
    ensures pairs[..] == Added(old(pairs[..]), "Holidays", HolidaysText(Days(MaskOf(moddata[3..7]), REPLY_BITS)))
  {
    var buf, flagHoliday := PrintWeeks(moddata[3..7]);
    buf := buf + "]";
    if flagHoliday {
      AddValuePair(pairs, "Holidays", buf);
    } else {
      AddValuePair(pairs, "Holidays", "None");
    }
  }

  // ----- What the list says -----

  /** A day is listed exactly when its bit is set. */
  lemma {:induction false} DaysAreTheBits(mask: nat, n: nat, day: nat)
    ensures day in Days(mask, n) <==> 1 <= day <= n && Bit(mask, day - 1)
  {
    if n > 0 {
      DaysAreTheBits(mask, n - 1, day);
      DaysNext(mask, n - 1);
    }
  }

  /** The days are listed in ascending order, each once. */
  lemma {:induction false} DaysAscend(mask: nat, n: nat)
    ensures forall i, j :: 0 <= i < j < |Days(mask, n)| ==> Days(mask, n)[i] < Days(mask, n)[j]
    ensures forall i :: 0 <= i < |Days(mask, n)| ==> 1 <= Days(mask, n)[i] <= n
  {
    if n > 0 {
      DaysAscend(mask, n - 1);
      DaysNext(mask, n - 1);
    }
  }

  /** The mask with the bits of some days. */
  function Rebuilt(days: seq<nat>): nat
    requires forall i :: 0 <= i < |days| ==> days[i] >= 1
  {
    if days == [] then 0 else Or(Pow2(days[0] - 1), Rebuilt(days[1..]))
  }

  lemma {:induction false} RebuiltBit(days: seq<nat>, k: nat)
    requires forall i :: 0 <= i < |days| ==> days[i] >= 1
    ensures Bit(Rebuilt(days), k) <==> k + 1 in days
  {
    if days == [] {
      BitOfZero(k);
    } else {
      BitOr(Pow2(days[0] - 1), Rebuilt(days[1..]), k);
      BitPow2(days[0] - 1, k);
      RebuiltBit(days[1..], k);
      assert days == [days[0]] + days[1..];
    }
  }

  lemma {:induction false} RebuiltFits(days: seq<nat>, n: nat)
    requires forall i :: 0 <= i < |days| ==> 1 <= days[i] <= n
    ensures Rebuilt(days) < Pow2(n)
  {
    if days != [] {
      Pow2Above(days[0] - 1, n);
      RebuiltFits(days[1..], n);
      OrBelow(Pow2(days[0] - 1), Rebuilt(days[1..]), n);
    }
  }

  /** Setting the bits of the listed days gives the mask back. */
  lemma DaysRebuildMask(mask: nat, n: nat)
    requires mask < Pow2(n)
    ensures forall i :: 0 <= i < |Days(mask, n)| ==> 1 <= Days(mask, n)[i] <= n
    ensures Rebuilt(Days(mask, n)) == mask
  {
    DaysAscend(mask, n);
    RebuiltFits(Days(mask, n), n);
    forall k | 0 <= k < n ensures Bit(Rebuilt(Days(mask, n)), k) <==> Bit(mask, k) {
      RebuiltBit(Days(mask, n), k);
      DaysAreTheBits(mask, n, k + 1);
    }
    BitsDecide(Rebuilt(Days(mask, n)), mask, n);
  }

  // ----- What is listed of a stored list of dates -----
  // The command writes a mask with its highest byte first, the reply has the lowest byte first.

  lemma {:induction false} BelowRange(bytes: seq<Byte>)
    ensures MaskOf(bytes) < Pow2(8 * |bytes|)
  {
    if bytes != [] {
      BelowRange(bytes[1..]);
      PowersOfTwo();
      Pow2Adds(8, 8 * (|bytes| - 1));
    }
  }

  lemma {:induction false} MaskTellsBytes(a: seq<Byte>, b: seq<Byte>)
    requires |a| == |b| && MaskOf(a) == MaskOf(b)
    ensures a == b
  {
    if a != [] {
      assert a[0] == b[0];
      MaskTellsBytes(a[1..], b[1..]);
      assert a == [a[0]] + a[1..] && b == [b[0]] + b[1..];
    }
  }

  lemma FourBytes(bytes: seq<Byte>)
    requires |bytes| == 4
    ensures BigEndianValue(bytes) == WordOf(bytes[0], bytes[1], bytes[2], bytes[3])
  {
    assert bytes[..3][..2] == bytes[..2] && bytes[..2][..1] == bytes[..1] && bytes[..1][..0] == [];
    assert BigEndianValue(bytes[..1]) == bytes[0];
    assert BigEndianValue(bytes[..2]) == 256 * BigEndianValue(bytes[..1]) + bytes[1];
    assert BigEndianValue(bytes[..3]) == 256 * BigEndianValue(bytes[..2]) + bytes[2];
  }

  lemma TurnedRound(mask: nat)
    requires mask < Pow2(MASK_BITS)
    ensures MaskOf(Reverse(WordBytes(mask))) == mask
  {
    WordSize();
    ReversedValue(WordBytes(mask));
    FourBytes(WordBytes(mask));
    WordReadsBack(mask);
  }

  /** The days listed for a mask are those of a list of dates in a month. */
  ghost predicate ListsDates(mask: nat, dates: seq<Date>, month: nat) {
    forall day: nat :: day in Days(mask, REPLY_BITS) <==> day >= 1 && Date(day - 1, month) in dates
  }

  lemma DateBit(dates: seq<Date>, month: nat, day: nat)
    requires AllValid(dates) && month < MONTHS
    ensures day >= 1 && Date(day - 1, month) in dates <==> 1 <= day <= REPLY_BITS && Bit(Masks(dates)[month], day - 1)
  {
    if day >= 1 {
      MaskBit(dates, month, day - 1);
      if Date(day - 1, month) in dates {
        assert Valid(Date(day - 1, month));
      }
    }
  }

  lemma SameBitsListDates(dates: seq<Date>, month: nat, mask: nat)
    requires AllValid(dates) && month < MONTHS && mask == Masks(dates)[month]
    ensures ListsDates(mask, dates, month)
  {
    forall day: nat ensures day in Days(mask, REPLY_BITS) <==> day >= 1 && Date(day - 1, month) in dates {
      DaysAreTheBits(mask, REPLY_BITS, day);
      DateBit(dates, month, day);
    }
  }

  lemma ListedBit(dates: seq<Date>, month: nat, mask: nat, k: nat)
    requires AllValid(dates) && month < MONTHS && k < REPLY_BITS && ListsDates(mask, dates, month)
    ensures Bit(mask, k) <==> Bit(Masks(dates)[month], k)
  {
    DaysAreTheBits(mask, REPLY_BITS, k + 1);
    DateBit(dates, month, k + 1);
  }

  /** A reply lists the days of a list of dates exactly when its mask is the one of the list. */
  lemma ListedDatesTellMask(dates: seq<Date>, month: nat, week: seq<Byte>)
    requires AllValid(dates) && month < MONTHS && |week| == 4
    ensures ListsDates(MaskOf(week), dates, month) <==> MaskOf(week) == Masks(dates)[month]
  {
    var mask := Masks(dates)[month];
    if MaskOf(week) == mask {
      SameBitsListDates(dates, month, mask);
    }
    if ListsDates(MaskOf(week), dates, month) {
      BelowRange(week);
      MasksFit(dates);
      forall k | 0 <= k < REPLY_BITS ensures Bit(MaskOf(week), k) <==> Bit(mask, k) {
        ListedBit(dates, month, MaskOf(week), k);
      }
      BitsDecide(MaskOf(week), mask, REPLY_BITS);
    }
  }

  /** A meter that turns the four bytes of a mask round gets the days of the list back; one that returns them as they
      were sent does exactly when they read the same both ways. */
  lemma StoredDaysAreListed(dates: seq<Date>, month: nat)
    requires AllValid(dates) && month < MONTHS
    ensures var sent := WordBytes(Masks(dates)[month]);
            && ListsDates(MaskOf(Reverse(sent)), dates, month)
            && (ListsDates(MaskOf(sent), dates, month) <==> sent == Reverse(sent))
  {
    var sent := WordBytes(Masks(dates)[month]);
    MasksFit(dates);
    TurnedRound(Masks(dates)[month]);
    ListedDatesTellMask(dates, month, Reverse(sent));
    ListedDatesTellMask(dates, month, sent);
    if MaskOf(sent) == MaskOf(Reverse(sent)) {
      MaskTellsBytes(sent, Reverse(sent));
    }
  }

  // ----- The text of the list -----

  /** The days of a printed list: numbers, each with a comma and a space, up to the closing bracket. */
  function ReadDays(text: string): seq<nat>
    decreases |text|
  {
    var n := Span(text);
    if n == 0 || |text| < n + 2 then [] else [ReadDec(text[..n])] + ReadDays(text[n + 2..])
  }

  function DaysTextFrom(days: seq<nat>): string {
    if days == [] then "" else (Pad(days[0], 2) + ", ") + DaysTextFrom(days[1..])
  }

  lemma {:induction false} DaysTextSnoc(days: seq<nat>, last: nat)
    ensures DaysTextFrom(days + [last]) == DaysTextFrom(days) + (Pad(last, 2) + ", ")
  {
    if days == [] {
      assert [last][1..] == [] && [] + [last] == [last];
    } else {
      DaysTextSnoc(days[1..], last);
      assert (days + [last])[1..] == days[1..] + [last];
      Associate(Pad(days[0], 2) + ", ", DaysTextFrom(days[1..]), Pad(last, 2) + ", ");
    }
  }

  lemma {:induction false} DaysTextIs(days: seq<nat>)
    ensures DaysText(days) == DaysTextFrom(days)
  {
    if days != [] {
      var front, last := days[..|days| - 1], days[|days| - 1];
      DaysTextIs(front);
      DaysTextSnoc(front, last);
      assert front + [last] == days;
    }
  }

  lemma ReadDaysCons(digits: string, rest: string)
    requires AllDigits(digits) && digits != ""
    ensures ReadDays((digits + ", ") + rest) == [ReadDec(digits)] + ReadDays(rest)
  {
    var text := (digits + ", ") + rest;
    assert text == digits + (", " + rest);
    SpanOf(digits, ", " + rest);
    assert text[..|digits|] == digits && text[|digits| + 2..] == rest;
  }

  lemma {:induction false} DaysReadBack(days: seq<nat>)
    ensures ReadDays(DaysTextFrom(days) + "]") == days
  {
    if days == [] {
      assert "" + "]" == "]";
    } else {
      Associate(Pad(days[0], 2) + ", ", DaysTextFrom(days[1..]), "]");
      PadReadsBack(days[0], 2);
      ReadDaysCons(Pad(days[0], 2), DaysTextFrom(days[1..]) + "]");
      DaysReadBack(days[1..]);
      assert [days[0]] + days[1..] == days;
    }
  }

  lemma Unbracketed(text: string)
    ensures ("[ " + text + "]")[..2] == "[ " && ("[ " + text + "]")[2..] == text + "]"
  {
  }

  /** A printed list shows its days, in order. */
  lemma ListReadsBack(days: seq<nat>)
    requires days != []
    ensures HolidaysText(days)[..2] == "[ " && ReadDays(HolidaysText(days)[2..]) == days
  {
    DaysTextIs(days);
    DaysReadBack(days);
    Unbracketed(DaysText(days));
  }

  lemma {:induction false} DaysTextLength(days: seq<nat>)
    requires forall i :: 0 <= i < |days| ==> days[i] < 100
    ensures |DaysText(days)| == 4 * |days|
  {
    if days != [] {
      DaysTextLength(days[..|days| - 1]);
      assert Pow10(2) == 10 * Pow10(1) == 100 * Pow10(0);
      PadReadsBack(days[|days| - 1], 2);
    }
  }

  /** The text and its terminator fit a buffer of 100 characters exactly when there are at most 24 days. */
  lemma ListFits(days: seq<nat>)
    requires days != [] && forall i :: 0 <= i < |days| ==> days[i] < 100
    ensures |HolidaysText(days)| < 100 <==> |days| <= 24
  {
    DaysTextLength(days);
  }
}
