/** How umdk_iec61107_reply gets to its two lists, and which replies it reads right. */
module Iec61107Reply {
  import opened Decimal
  import opened Iec61107
  import opened Iec61107Lists
  import opened MqttMessage
  import opened Options
  import opened Sequences
  import opened Words

  const PROPRIETARY_COMMAND := 0xF0

  /** What the gateway keeps for the data of a reply. */
  const MEMORY := 1023

  /** The reply is the first `moddatalen` bytes; the gateway has cleared the rest. */
  predicate IsReply(moddata: seq<Byte>, moddatalen: int) {
    |moddata| == MEMORY && 0 <= moddatalen <= MEMORY && forall i :: moddatalen <= i < MEMORY ==> moddata[i] == 0
  }

  /** The list a reply is taken for, after the returns that come before. */
  function ListOf(moddata: seq<Byte>, moddatalen: int): Option<Kind>
    requires |moddata| == MEMORY
  {
    var command := moddata[2];
    if moddatalen == 1 || command >= PROPRIETARY_COMMAND || moddatalen == 2 then None
    else if moddatalen == 4 && command <= 3 then None
    else if command == Code(Schedule) then Some(Schedule)
    else if command == Code(Holidays) then Some(Holidays)
    else None
  }

  /** The command is the third byte, so that shorter replies are none of the two. */
  lemma ListNeedsThreeBytes(moddata: seq<Byte>, moddatalen: int)
    requires IsReply(moddata, moddatalen)
    ensures moddatalen < 3 ==> ListOf(moddata, moddatalen) == None
  {
    if moddatalen == 0 {
      assert moddata[2] == 0;
    }
  }

  /** The bytes in front of the entries. */
  function Head(kind: Kind): nat {
    match kind
    case Schedule => 4
    case Holidays => 5
  }

  /** A reply of four bytes is an error message, whatever command it answers. */
  function Errors(command: Byte, moddatalen: int): seq<Pair> {
    if moddatalen != 4 then []
    else if command == Code(Schedule) then [Pair("err", PrintDec(command)), Pair("msg", "access denied")]
    else [Pair("err", PrintDec(command)), Pair("msg", "no programming rights")]
  }

  /** The pairs in front of the entries. */
  function FrontPairs(kind: Kind, moddata: seq<Byte>, moddatalen: int): seq<Pair>
    requires |moddata| == MEMORY
  {
    [Pair("device", PrintDec(moddata[3]))] + Errors(Code(kind), moddatalen)
    + match kind case Schedule => [] case Holidays => [ListPair(moddata[4])]
  }

  lemma CountFits(length: int)
    ensures EntryCount(length) < 256
  {
  }

  /** All pairs added for a reply with a list. */
  function ListReplyPairs(kind: Kind, moddata: seq<Byte>, moddatalen: int): seq<Pair>
    requires |moddata| == MEMORY
  {
    CountFits(moddatalen - Head(kind));
    FrontPairs(kind, moddata, moddatalen) + ReplyPairs(kind, moddata[Head(kind)..], moddatalen - Head(kind))
  }

  lemma TogetherStep(start: seq<Pair>, a: seq<Pair>, b: seq<Pair>, last: Pair)
    requires AddedAll(AddedAll(start, a), b) == AddedAll(start, a + b)
    ensures AddedAll(AddedAll(start, a), b + [last]) == AddedAll(start, a + (b + [last]))
  {
    AddedAllSnoc(AddedAll(start, a), b, last);
    AddedNext(start, a, b, last);
  }

  lemma {:induction false} AddedTogether(start: seq<Pair>, a: seq<Pair>, b: seq<Pair>)
    ensures AddedAll(AddedAll(start, a), b) == AddedAll(start, a + b)
    decreases |b|
  {
    if b == [] {
      assert a + b == a;
    } else {
      var n := |b| - 1;
      AddedTogether(start, a, b[..n]);
      TogetherStep(start, a, b[..n], b[n]);
      assert b == b[..n] + [b[n]];
    }
  }

  method AddPairs(added: seq<Pair>, pairs: array<Pair>)
    modifies pairs
    ensures pairs[..] == AddedAll(old(pairs[..]), added)
  {
    ghost var start := pairs[..];
    assert added[..0] == [];
    for i := 0 to |added|
      invariant pairs[..] == AddedAll(start, added[..i])
    {
      assert added[..i + 1] == added[..i] + [added[i]];
      AddedAllSnoc(start, added[..i], added[i]);
      AddValuePair(pairs, added[i].name, added[i].value);
    }
    assert added[..|added|] == added;
  }

  /** What is added before the branch for the command. */
  method AddFront(kind: Kind, moddata: seq<Byte>, moddatalen: int, pairs: array<Pair>) returns (front: seq<Pair>)
    requires |moddata| == MEMORY
    modifies pairs
    ensures front == [Pair("device", PrintDec(moddata[3]))] + Errors(Code(kind), moddatalen)
    ensures pairs[..] == AddedAll(old(pairs[..]), front)
  {
    front := [Pair("device", PrintDec(moddata[3]))] + Errors(Code(kind), moddatalen);
    AddPairs(front, pairs);
  }

  lemma FrontThenRows(start: seq<Pair>, front: seq<Pair>, title: seq<Pair>, rows: seq<Pair>)
    ensures AddedAll(AddedAll(start, front), title + rows) == AddedAll(start, (front + title) + rows)
  {
    AddedTogether(start, front, title + rows);
    Associate(front, title, rows);
  }

  /** The reply up to the end of its list, when it has one. */
  method ListReply(moddata: seq<Byte>, moddatalen: int, pairs: array<Pair>) returns (kind: Option<Kind>)
    requires IsReply(moddata, moddatalen)
    modifies pairs
    ensures kind == ListOf(moddata, moddatalen)
    ensures kind == None ==> pairs[..] == old(pairs[..])
    ensures kind.Some? ==> pairs[..] == AddedAll(old(pairs[..]), ListReplyPairs(kind.value, moddata, moddatalen))
  {
    kind := ListOf(moddata, moddatalen);
    ghost var start := pairs[..];
    match kind {
      case None =>
      case Some(Schedule) =>
        var front := AddFront(Schedule, moddata, moddatalen, pairs);
        CountFits(moddatalen - 4);
        ghost var rows := ReplyPairs(Schedule, moddata[4..], moddatalen - 4);
        ScheduleReply(moddata, moddatalen, pairs);
        FrontThenRows(start, front, [], rows);
        assert [] + rows == rows;
      case Some(Holidays) =>
        var front := AddFront(Holidays, moddata, moddatalen, pairs);
        CountFits(moddatalen - 5);
        ghost var rows := ReplyPairs(Holidays, moddata[5..], moddatalen - 5);
        HolidaysReply(moddata, moddatalen, pairs);
        FrontThenRows(start, front, [ListPair(moddata[4])], rows);
    }
  }

  // ----- Which replies are read right -----

  /** The bytes of the entries. */
  function Data(kind: Kind, moddata: seq<Byte>, moddatalen: int): seq<Byte>
    requires |moddata| == MEMORY && moddatalen <= MEMORY
  {
    if moddatalen < Head(kind) then [] else moddata[Head(kind)..moddatalen]
  }

  /** The entries that are in the reply, and empty rows. */
  function RightPairs(kind: Kind, moddata: seq<Byte>, moddatalen: int): seq<Pair>
    requires |moddata| == MEMORY && moddatalen <= MEMORY
  {
    var entries := Unpacked(kind, Data(kind, moddata, moddatalen));
    Shown(kind, entries) + Filler(EmptyPair(kind), Rows(kind) - |entries|)
  }

  /** The loops count right exactly for replies that have all of their head but one byte, and less than 256 entries. */
  lemma CountIsRight(kind: Kind, length: int)
    requires 3 - Head(kind) <= length
    ensures EntryCount(length) == (if length < 0 then 0 else length / 2) <==> length != -2 && length < 512
  {
    if length < 0 {
      assert HalfOf(length) == if length == -2 then -1 else 0;
    }
  }

  lemma {:induction false} DecodedPrefix(show: Printer, data: seq<Byte>, more: seq<Byte>, n: nat)
    requires 2 * n <= |data| && data <= more
    ensures Decoded(show, data, n) == Decoded(show, more, n)
  {
    if n > 0 {
      DecodedPrefix(show, data, more, n - 1);
    }
  }

  lemma RowsFrom(kind: Kind, data: seq<Byte>, more: seq<Byte>, length: int, n: nat)
    requires data <= more && |data| / 2 == n == EntryCount(length)
    ensures |Unpacked(kind, data)| == n
    ensures ReplyPairs(kind, more, length)
         == Shown(kind, Unpacked(kind, data)) + Filler(EmptyPair(kind), Rows(kind) - n)
  {
    UnpackedLength(kind, data);
    DecodedShows(kind, data, n);
    DecodedPrefix(PrinterOf(kind), data, more, n);
  }

  lemma RightWhenCounted(kind: Kind, moddata: seq<Byte>, moddatalen: int, n: nat)
    requires IsReply(moddata, moddatalen) && moddatalen >= 3
    requires |Data(kind, moddata, moddatalen)| / 2 == n == EntryCount(moddatalen - Head(kind))
    ensures 2 * n <= |moddata[Head(kind)..]|
    ensures ReplyPairs(kind, moddata[Head(kind)..], moddatalen - Head(kind)) == RightPairs(kind, moddata, moddatalen)
  {
    RowsFrom(kind, Data(kind, moddata, moddatalen), moddata[Head(kind)..], moddatalen - Head(kind), n);
  }

  lemma ReplyLength(kind: Kind, data: seq<Byte>, length: int)
    requires 2 * EntryCount(length) <= |data|
    ensures |ReplyPairs(kind, data, length)|
         == if EntryCount(length) < Rows(kind) then Rows(kind) else EntryCount(length)
  {
  }

  lemma RightLength(kind: Kind, moddata: seq<Byte>, moddatalen: int)
    requires |moddata| == MEMORY && moddatalen <= MEMORY
    ensures var n := |Data(kind, moddata, moddatalen)| / 2;
            |RightPairs(kind, moddata, moddatalen)| == if n < Rows(kind) then Rows(kind) else n
  {
    UnpackedLength(kind, Data(kind, moddata, moddatalen));
  }

  lemma SameBack(front: seq<Pair>, a: seq<Pair>, b: seq<Pair>)
    ensures front + a == front + b <==> a == b
  {
    assert (front + a)[|front|..] == a && (front + b)[|front|..] == b;
  }

  lemma MinusTwo(length: int)
    requires length == -2
    ensures EntryCount(length) == 255
  {
    assert HalfOf(length) == -1;
  }

  lemma DataLength(kind: Kind, moddata: seq<Byte>, moddatalen: int)
    requires |moddata| == MEMORY && moddatalen <= MEMORY
    ensures var length := moddatalen - Head(kind);
            |Data(kind, moddata, moddatalen)| / 2 == if length < 0 then 0 else length / 2
  {
  }

  lemma WrongCount(kind: Kind, moddata: seq<Byte>, moddatalen: int, length: int)
    requires IsReply(moddata, moddatalen) && length == moddatalen - Head(kind)
    requires length == -2 || length >= 512
    ensures 2 * EntryCount(length) <= |moddata[Head(kind)..]|
    ensures |ReplyPairs(kind, moddata[Head(kind)..], length)| != |RightPairs(kind, moddata, moddatalen)|
  {
    CountFits(length);
    ReplyLength(kind, moddata[Head(kind)..], length);
    RightLength(kind, moddata, moddatalen);
    DataLength(kind, moddata, moddatalen);
    if length == -2 {
      MinusTwo(length);
    }
  }

  lemma RowsReadRight(kind: Kind, moddata: seq<Byte>, moddatalen: int)
    requires IsReply(moddata, moddatalen) && moddatalen >= 3
    ensures 2 * EntryCount(moddatalen - Head(kind)) <= |moddata[Head(kind)..]|
    ensures ReplyPairs(kind, moddata[Head(kind)..], moddatalen - Head(kind)) == RightPairs(kind, moddata, moddatalen)
       <==> moddatalen - Head(kind) != -2 && moddatalen - Head(kind) < 512
  {
    var length := moddatalen - Head(kind);
    if length == -2 || length >= 512 {
      WrongCount(kind, moddata, moddatalen, length);
    } else {
      CountIsRight(kind, length);
      DataLength(kind, moddata, moddatalen);
      RightWhenCounted(kind, moddata, moddatalen, EntryCount(length));
    }
  }

  /** A reply with a list adds the pairs of its entries, and of no others, exactly unless it is a reply of three bytes
      to the holidays command, or has 256 entries or more. */
  lemma ReplyReadRight(kind: Kind, moddata: seq<Byte>, moddatalen: int)
    requires IsReply(moddata, moddatalen) && ListOf(moddata, moddatalen) == Some(kind)
    ensures ListReplyPairs(kind, moddata, moddatalen)
         == FrontPairs(kind, moddata, moddatalen) + RightPairs(kind, moddata, moddatalen)
       <==> !(kind == Holidays && moddatalen == 3) && moddatalen < Head(kind) + 512
  {
    ListNeedsThreeBytes(moddata, moddatalen);
    RowsReadRight(kind, moddata, moddatalen);
    SameBack(FrontPairs(kind, moddata, moddatalen),
             ReplyPairs(kind, moddata[Head(kind)..], moddatalen - Head(kind)),
             RightPairs(kind, moddata, moddatalen));
  }

  lemma {:induction false} DecodedZeros(show: Printer, data: seq<Byte>, n: nat)
    requires 2 * n <= |data| && forall i :: 0 <= i < 2 * n ==> data[i] == 0
    ensures Decoded(show, data, n) == Filler(show(0, 0), n)
  {
    if n > 0 {
      DecodedZeros(show, data, n - 1);
    }
  }

  lemma ZeroIsEmpty()
    ensures PrintHoliday(0, 0) == EmptyPair(Holidays)
  {
    PadZero();
    assert Unpack(Holidays, 0, 0) == Entry(0, 0, 0);
    assert "00" + ("." + "00") == "00.00";
  }

  lemma PadZero()
    ensures Pad(0, 2) == "00" && PrintDec(0) == "0"
  {
    assert PrintDec(0) == "0";
    assert Zeros(1) == "0";
  }

  lemma RowsOfZeros(show: Printer, pair: Pair, data: seq<Byte>, n: nat, rows: nat)
    requires show(0, 0) == pair && rows <= n && 2 * n <= |data| && forall i :: 0 <= i < 2 * n ==> data[i] == 0
    ensures Decoded(show, data, n) + Filler(pair, rows - n) == Filler(pair, n)
  {
    DecodedZeros(show, data, n);
    assert Filler(pair, n) + [] == Filler(pair, n);
  }

  lemma NoRows(kind: Kind, moddata: seq<Byte>, moddatalen: int)
    requires IsReply(moddata, moddatalen) && moddatalen <= Head(kind)
    ensures RightPairs(kind, moddata, moddatalen) == Filler(EmptyPair(kind), Rows(kind))
  {
    var none := Unpacked(kind, Data(kind, moddata, moddatalen));
    assert none == [] && Shown(kind, none) == [];
    assert [] + Filler(EmptyPair(kind), Rows(kind)) == Filler(EmptyPair(kind), Rows(kind));
  }

  lemma RowsWhenCounted(kind: Kind, data: seq<Byte>, length: int, many: nat)
    requires EntryCount(length) == many >= Rows(kind) && 2 * many <= |data|
    requires PrinterOf(kind)(0, 0) == EmptyPair(kind) && forall i :: 0 <= i < 2 * many ==> data[i] == 0
    ensures ReplyPairs(kind, data, length) == Filler(EmptyPair(kind), many)
  {
    RowsOfZeros(PrinterOf(kind), EmptyPair(kind), data, many, Rows(kind));
  }

  lemma ZeroData(moddata: seq<Byte>, head: nat)
    requires IsReply(moddata, 3) && 3 <= head <= MEMORY
    ensures |moddata[head..]| == MEMORY - head && forall i :: 0 <= i < MEMORY - head ==> moddata[head..][i] == 0
  {
    forall i | 0 <= i < MEMORY - head ensures moddata[head..][i] == 0 {
      assert moddata[head..][i] == moddata[head + i];
    }
  }

  lemma PrinterOfZero(kind: Kind)
    requires kind == Holidays
    ensures PrinterOf(kind)(0, 0) == EmptyPair(kind)
  {
    ZeroIsEmpty();
  }

  lemma ListReplyIs(kind: Kind, moddata: seq<Byte>, moddatalen: int, length: int, rows: seq<Pair>)
    requires |moddata| == MEMORY && length == moddatalen - Head(kind)
    requires 2 * EntryCount(length) <= |moddata[Head(kind)..]|
    requires ReplyPairs(kind, moddata[Head(kind)..], length) == rows
    ensures ListReplyPairs(kind, moddata, moddatalen) == FrontPairs(kind, moddata, moddatalen) + rows
  {
  }

  lemma ThreeBytesAreAList(kind: Kind, moddata: seq<Byte>, moddatalen: int)
    requires moddatalen == 3 && IsReply(moddata, moddatalen) && moddata[2] == Code(kind)
    ensures ListOf(moddata, moddatalen) == Some(kind)
  {
  }

  /** A reply of three bytes to the holidays command adds 255 empty rows instead of 16. */
  lemma ThreeByteReply(kind: Kind, moddata: seq<Byte>, moddatalen: int, many: nat)
    requires kind == Holidays && moddatalen == 3 && many == 255
    requires IsReply(moddata, moddatalen) && moddata[2] == Code(kind)
    ensures ListOf(moddata, moddatalen) == Some(kind)
    ensures ListReplyPairs(kind, moddata, moddatalen)
         == FrontPairs(kind, moddata, moddatalen) + Filler(EmptyPair(kind), many)
    ensures RightPairs(kind, moddata, moddatalen) == Filler(EmptyPair(kind), Rows(kind))
  {
    var length := moddatalen - Head(kind);
    ThreeBytesAreAList(kind, moddata, moddatalen);
    MinusTwo(length);
    ZeroData(moddata, Head(kind));
    PrinterOfZero(kind);
    RowsWhenCounted(kind, moddata[Head(kind)..], length, many);
    ListReplyIs(kind, moddata, moddatalen, length, Filler(EmptyPair(kind), many));
    NoRows(kind, moddata, moddatalen);
  }

  // ----- From the command to the reply -----

  /** The bytes between the brackets of a command. */
  function Bracketed(sent: seq<Byte>): seq<Byte> { if |sent| < 6 then [] else sent[5..|sent| - 1] }

  /** A list that is sent right has at most 142 entries. */
  lemma SentListIsShort(kind: Kind, part: Byte, entries: seq<Entry>, device: Byte)
    requires AllTwoDigits(entries) && SentRight(kind, part, entries, device)
    ensures |entries| <= 142
    ensures Bracketed(CommandBytes(Code(kind), EmitterOf(kind), part, ListText(entries, device)))
         == Packed(kind, entries)
  {
    ListSentRight(kind, part, entries, device);
    EntriesTextLength(entries);
  }

  /** A meter that returns what stood between the brackets of a command sent right is shown with exactly the entries
      of the command's text, in order, exactly when all of them fit. */
  lemma TextIsShown(kind: Kind, part: Byte, entries: seq<Entry>, device: Byte, moddata: seq<Byte>, moddatalen: int)
    requires AllTwoDigits(entries) && SentRight(kind, part, entries, device)
    requires IsReply(moddata, moddatalen) && ListOf(moddata, moddatalen) == Some(kind)
    requires moddatalen >= Head(kind)
    requires Data(kind, moddata, moddatalen)
          == Bracketed(CommandBytes(Code(kind), EmitterOf(kind), part, ListText(entries, device)))
    ensures ListReplyPairs(kind, moddata, moddatalen)
         == FrontPairs(kind, moddata, moddatalen)
            + (Shown(kind, entries) + Filler(EmptyPair(kind), Rows(kind) - |entries|))
       <==> AllFit(kind, entries)
  {
    SentListIsShort(kind, part, entries, device);
    PackedLength(kind, entries);
    ReplyReadRight(kind, moddata, moddatalen);
    RightIsStored(kind, entries, moddata, moddatalen);
    SameBack(FrontPairs(kind, moddata, moddatalen), RightPairs(kind, moddata, moddatalen),
             Shown(kind, entries) + Filler(EmptyPair(kind), Rows(kind) - |entries|));
  }

  lemma RightIsStored(kind: Kind, entries: seq<Entry>, moddata: seq<Byte>, moddatalen: int)
    requires AllTwoDigits(entries) && |moddata| == MEMORY && moddatalen <= MEMORY
    requires Data(kind, moddata, moddatalen) == Packed(kind, entries)
    ensures RightPairs(kind, moddata, moddatalen)
         == Shown(kind, entries) + Filler(EmptyPair(kind), Rows(kind) - |entries|)
       <==> AllFit(kind, entries)
  {
    PackedLength(kind, entries);
    UnpackedLength(kind, Packed(kind, entries));
    SameFront(Shown(kind, Unpacked(kind, Packed(kind, entries))), Shown(kind, entries),
              Filler(EmptyPair(kind), Rows(kind) - |entries|));
    ShownWhenFitting(kind, entries);
  }

  // ----- What the bytes of a reply show -----

  /** A reply as a meter sends it: the code of its list in the third byte, the device in the fourth, the number of a
      list of holidays in the fifth, and then the entries. */
  predicate IsListReply(kind: Kind, device: Byte, number: Byte, entries: seq<Entry>,
                        moddata: seq<Byte>, moddatalen: int)
  {
    && IsReply(moddata, moddatalen) && moddatalen > 4
    && moddata[3] == device
    && (match kind
        case Schedule => moddatalen == 4 + 2 * |entries| && moddata[2] == 0x0F && EntriesFrom(kind, entries, moddata, 4)
        case Holidays => && moddatalen == 5 + 2 * |entries| && moddata[2] == 0x10 && moddata[4] == number
                         && EntriesFrom(kind, entries, moddata, 5))
  }

  predicate EntriesFrom(kind: Kind, entries: seq<Entry>, bytes: seq<Byte>, start: nat) {
    && start + 2 * |entries| <= |bytes|
    && forall i :: 0 <= i < |entries| ==> IsEntry(kind, entries[i], bytes[start + 2 * i], bytes[start + 2 * i + 1])
  }

  lemma EntryOnce(kind: Kind, entry: Entry, a: Byte, b: Byte, c: Byte, d: Byte)
    requires IsEntry(kind, entry, a, b) && IsEntry(kind, entry, c, d)
    ensures a == c && b == d
  {
  }

  lemma EntryIsUnpacked(kind: Kind, entry: Entry, a: Byte, b: Byte)
    requires TwoDigits(entry) && Fits(kind, entry) && IsEntry(kind, entry, a, b)
    ensures Unpack(kind, a, b) == entry
  {
    var bytes := PackerOf(kind)(entry);
    EntryIsPacked(kind, entry);
    EntryOnce(kind, entry, a, b, bytes[0], bytes[1]);
    FittingEntryReadsBack(kind, entry);
  }

  lemma {:induction false} EntriesAreUnpacked(kind: Kind, entries: seq<Entry>, data: seq<Byte>)
    requires AllTwoDigits(entries) && AllFit(kind, entries)
    requires |data| == 2 * |entries| && EntriesFrom(kind, entries, data, 0)
    ensures Unpacked(kind, data) == entries
  {
    UnpackedLength(kind, data);
    forall i | 0 <= i < |entries| ensures Unpacked(kind, data)[i] == entries[i] {
      UnpackedAt(kind, data, i);
      EntryIsUnpacked(kind, entries[i], data[2 * i], data[2 * i + 1]);
    }
  }

  lemma SliceHasEntries(kind: Kind, entries: seq<Entry>, bytes: seq<Byte>, start: nat)
    requires EntriesFrom(kind, entries, bytes, start)
    ensures EntriesFrom(kind, entries, bytes[start..start + 2 * |entries|], 0)
  {
    var data := bytes[start..start + 2 * |entries|];
    forall i | 0 <= i < |entries| ensures IsEntry(kind, entries[i], data[2 * i], data[2 * i + 1]) {
      assert data[2 * i] == bytes[start + 2 * i] && data[2 * i + 1] == bytes[start + 2 * i + 1];
    }
  }

  lemma ListIsTold(kind: Kind, device: Byte, number: Byte, entries: seq<Entry>, moddata: seq<Byte>, moddatalen: int)
    requires IsListReply(kind, device, number, entries, moddata, moddatalen)
    ensures ListOf(moddata, moddatalen) == Some(kind)
    ensures |Data(kind, moddata, moddatalen)| == 2 * |entries|
    ensures EntriesFrom(kind, entries, Data(kind, moddata, moddatalen), 0)
  {
    SliceHasEntries(kind, entries, moddata, Head(kind));
  }

  lemma FrontIsTold(kind: Kind, device: Byte, number: Byte, entries: seq<Entry>, moddata: seq<Byte>, moddatalen: int)
    requires IsListReply(kind, device, number, entries, moddata, moddatalen)
    ensures var front := FrontPairs(kind, moddata, moddatalen);
            |front| == FrontLength(kind) && IsFront(kind, device, number, front)
  {
  }

  /** The device, and the label of a list of holidays. */
  function FrontLength(kind: Kind): nat {
    match kind
    case Schedule => 1
    case Holidays => 2
  }

  lemma ThreeParts(front: seq<Pair>, shown: seq<Pair>, filler: seq<Pair>)
    ensures var pairs := front + (shown + filler);
            && pairs[..|front|] == front && pairs[|front|..|front| + |shown|] == shown
            && pairs[|front| + |shown|..] == filler
  {
  }

  /** Up to 12 rows of a schedule and 16 of a list of holidays that say nothing. */
  function EmptyRows(kind: Kind, used: nat): seq<Pair> {
    match kind
    case Schedule => Filler(Pair("T00", "00:00"), 12 - used)
    case Holidays => Filler(Pair("00.00", "0"), 16 - used)
  }

  /** The pairs tell these entries. */
  predicate Tells(kind: Kind, pairs: seq<Pair>, entries: seq<Entry>) {
    |pairs| == |entries| && forall i :: 0 <= i < |entries| ==> ReadEntry(kind, pairs[i]) == entries[i]
  }

  lemma ShownTells(kind: Kind, entries: seq<Entry>)
    ensures Tells(kind, Shown(kind, entries), entries)
  {
    forall i | 0 <= i < |entries| ensures ReadEntry(kind, Shown(kind, entries)[i]) == entries[i] {
      EntryPairReadsBack(kind, entries[i]);
    }
  }

  /** The device, the label of a list of holidays, a pair for each entry from which the entry can be read, and empty
      rows up to 12 or 16. */
  predicate ShowsList(kind: Kind, device: Byte, number: Byte, entries: seq<Entry>, pairs: seq<Pair>) {
    var n := FrontLength(kind);
    && |pairs| >= n + |entries| && IsFront(kind, device, number, pairs)
    && Tells(kind, pairs[n..n + |entries|], entries) && pairs[n + |entries|..] == EmptyRows(kind, |entries|)
  }

  predicate IsFront(kind: Kind, device: Byte, number: Byte, pairs: seq<Pair>) {
    && |pairs| >= FrontLength(kind) && pairs[0] == Pair("device", PrintDec(device))
    && (kind == Holidays ==> pairs[1] == ListPair(number) && pairs[1].name == "holidays list")
  }

  lemma PartsShow(kind: Kind, device: Byte, number: Byte, entries: seq<Entry>, front: seq<Pair>, shown: seq<Pair>,
                  rows: seq<Pair>)
    requires IsFront(kind, device, number, front) && |front| == FrontLength(kind)
    requires Tells(kind, shown, entries) && rows == EmptyRows(kind, |entries|)
    ensures ShowsList(kind, device, number, entries, front + (shown + rows))
  {
    var pairs := front + (shown + rows);
    ThreeParts(front, shown, rows);
    assert forall k :: 0 <= k < |front| ==> pairs[k] == front[k];
  }

  lemma RowsAreEmpty(kind: Kind, used: nat)
    ensures Filler(EmptyPair(kind), Rows(kind) - used) == EmptyRows(kind, used)
  {
  }

  lemma ReplyParts(kind: Kind, device: Byte, number: Byte, entries: seq<Entry>, moddata: seq<Byte>, moddatalen: int)
    requires AllTwoDigits(entries) && AllFit(kind, entries) && |entries| < 256
    requires IsListReply(kind, device, number, entries, moddata, moddatalen)
    ensures ListReplyPairs(kind, moddata, moddatalen)
         == FrontPairs(kind, moddata, moddatalen) + (Shown(kind, entries) + EmptyRows(kind, |entries|))
  {
    ListIsTold(kind, device, number, entries, moddata, moddatalen);
    EntriesAreUnpacked(kind, entries, Data(kind, moddata, moddatalen));
    ReplyReadRight(kind, moddata, moddatalen);
    RowsAreEmpty(kind, |entries|);
  }

  /** A reply with fewer than 256 entries is shown as its device and list. */
  lemma ReplyShowsList(kind: Kind, device: Byte, number: Byte, entries: seq<Entry>, moddata: seq<Byte>, moddatalen: int)
    requires AllTwoDigits(entries) && AllFit(kind, entries) && |entries| < 256
    requires IsListReply(kind, device, number, entries, moddata, moddatalen)
    ensures ListOf(moddata, moddatalen) == Some(kind)
    ensures ShowsList(kind, device, number, entries, ListReplyPairs(kind, moddata, moddatalen))
  {
    var front := FrontPairs(kind, moddata, moddatalen);
    ListIsTold(kind, device, number, entries, moddata, moddatalen);
    FrontIsTold(kind, device, number, entries, moddata, moddatalen);
    ReplyParts(kind, device, number, entries, moddata, moddatalen);
    ShownTells(kind, entries);
    PartsShow(kind, device, number, entries, front, Shown(kind, entries), EmptyRows(kind, |entries|));
  }
}
