/** Which lists modules/umdk-iec61107.c sends right. The length of the text and the counter of the loop have eight bits,
    so that texts of more than 255 characters are cut short. */
module Iec61107Lists {
  import opened Decimal
  import opened Iec61107
  import opened MeterText
  import opened Sequences
  import opened Words

  // ----- How often the loop runs -----

  ghost predicate TakesTwo(take: Taker) { forall text :: |take(text).bytes| == 2 }

  lemma TakersTakeTwo(kind: Kind)
    ensures TakesTwo(TakerOf(kind))
  {
  }

  lemma {:induction false} EmittedLength(take: Taker, text: string, round: nat, limit: Byte)
    requires TakesTwo(take) && round <= LAST_ROUND
    ensures |Emitted(take, text, round, limit)| == 2 * Rounds(round, limit)
    decreases LAST_ROUND - round
  {
    if Counter(round) < limit {
      EmittedLength(take, take(text).rest, round + 1, limit);
    }
  }

  lemma {:induction false} FewRounds(round: nat, limit: Byte)
    requires round <= 28 && limit <= 252
    ensures Rounds(round, limit) <= 28 - round
    decreases 28 - round
  {
    CounterOf(round);
    if round < 28 {
      FewRounds(round + 1, limit);
    }
  }

  /** The counter passes 253 for the first time in round 142: nine times 57 is 1 modulo 256. */
  lemma CounterStaysBelow(round: nat)
    requires round < 142
    ensures Counter(round) < 254
  {
    var q, r := 9 * round / 256, Counter(round);
    assert 9 * round == 256 * q + r;
    assert 513 * round == 57 * (256 * q + r);
  }

  lemma {:induction false} ManyRounds(round: nat, limit: Byte)
    requires round <= 142 && limit == 254
    ensures Rounds(round, limit) == 142 - round
    decreases 142 - round
  {
    if round < 142 {
      CounterStaysBelow(round);
      ManyRounds(round + 1, limit);
    }
  }

  // ----- Where the spaces are -----

  /** The first n characters are two that are no space and one that is, again and again. */
  predicate Spaced(s: string, n: nat)
    requires n <= |s|
  {
    forall k :: 0 <= k < n ==> (s[k] == ' ' <==> k % 3 == 2)
  }

  lemma EntryIsSpaced(entry: Entry)
    requires TwoDigits(entry)
    ensures |EntryText(entry)| == 9 && Spaced(EntryText(entry), 9)
  {
    assert Pow10(2) == 10 * Pow10(1) == 100 * Pow10(0);
    PadReadsBack(entry.first, 2);
    PadReadsBack(entry.second, 2);
    PadReadsBack(entry.third, 2);
    FieldsAreSpaced(Pad(entry.first, 2), Pad(entry.second, 2), Pad(entry.third, 2));
  }

  lemma FieldsAreSpaced(a: string, b: string, c: string)
    requires |a| == |b| == |c| == 2 && AllDigits(a) && AllDigits(b) && AllDigits(c)
    ensures var s := a + (" " + (b + (" " + (c + " ")))); |s| == 9 && Spaced(s, 9)
  {
  }

  lemma SpacedConcat(a: string, b: string, n: nat)
    requires |a| % 3 == 0 && n <= |b| && Spaced(a, |a|) && Spaced(b, n)
    ensures Spaced(a + b, |a| + n)
  {
    forall k | 0 <= k < |a| + n ensures (a + b)[k] == ' ' <==> k % 3 == 2 {
      if k >= |a| {
        assert (a + b)[k] == b[k - |a|];
      }
    }
  }

  lemma {:induction false} ListIsSpaced(entries: seq<Entry>)
    requires AllTwoDigits(entries)
    ensures |Concat(EntryText, entries)| == 9 * |entries|
    ensures Spaced(Concat(EntryText, entries), 9 * |entries|)
  {
    if entries != [] {
      EntryIsSpaced(entries[0]);
      ListIsSpaced(entries[1..]);
      SpacedConcat(EntryText(entries[0]), Concat(EntryText, entries[1..]), 9 * (|entries| - 1));
    }
  }

  lemma {:induction false} SpaceInFront(text: string, n: nat)
    requires n <= |text| && Spaced(text, n)
    ensures LastSpace(text, n) == 3 * (n / 3) - 1
  {
    if n > 0 && n % 3 != 0 {
      SpaceInFront(text, n - 1);
    }
  }

  lemma SpaceInList(entries: seq<Entry>, rest: string, n: nat)
    requires AllTwoDigits(entries) && n <= 9 * |entries|
    ensures |Concat(EntryText, entries)| == 9 * |entries|
    ensures LastSpace(Concat(EntryText, entries) + rest, n) == 3 * (n / 3) - 1
  {
    ListIsSpaced(entries);
    SpaceInFront(Concat(EntryText, entries) + rest, n);
  }

  lemma {:induction false} ConcatSplit(entries: seq<Entry>, k: nat)
    requires k <= |entries|
    ensures Concat(EntryText, entries) == Concat(EntryText, entries[..k]) + Concat(EntryText, entries[k..])
  {
    if k > 0 {
      ConcatSplit(entries[1..], k - 1);
      SplitTail(entries, k);
      Associate(EntryText(entries[0]), Concat(EntryText, entries[..k][1..]), Concat(EntryText, entries[k..]));
    }
  }

  lemma SplitTail(entries: seq<Entry>, k: nat)
    requires 0 < k <= |entries|
    ensures entries[1..][..k - 1] == entries[..k][1..] && entries[1..][k - 1..] == entries[k..]
  {
  }

  /** The second field of an entry, read as a device number. */
  lemma SecondFieldIsRead(entries: seq<Entry>, rest: string, k: nat)
    requires AllTwoDigits(entries) && k < |entries|
    ensures var text := Concat(EntryText, entries) + rest;
            9 * k + 2 < |text| && DeviceAfter(text, 9 * k + 2) == entries[k].second
  {
    var entry, before := entries[k], Concat(EntryText, entries[..k]);
    var behind := Concat(EntryText, entries[k..][1..]) + rest;
    ConcatSplit(entries, k);
    EntriesTextLength(entries[..k]);
    var after := " " + (Pad(entry.third, 2) + (" " + behind));
    var front := before + (Pad(entry.first, 2) + " ");
    assert Pow10(2) == 10 * Pow10(1) == 100 * Pow10(0);
    PadReadsBack(entry.first, 2);
    assert |front| == 9 * k + 3;
    EntryAround(before, Pad(entry.first, 2), Pad(entry.second, 2), Pad(entry.third, 2),
                Concat(EntryText, entries[k..][1..]), rest);
    assert (front + (Pad(entry.second, 2) + after))[9 * k + 3..] == Pad(entry.second, 2) + after;
    FieldReads(entry.second, 2, after);
    ByteIs(entry.second);
  }

  lemma EntryAround(before: string, a: string, b: string, c: string, others: string, rest: string)
    ensures (before + ((a + (" " + (b + (" " + (c + " "))))) + others)) + rest
         == (before + (a + " ")) + (b + (" " + (c + (" " + (others + rest)))))
  {
  }

  // ----- Which lists are sent right -----

  lemma FramedTells(code: Byte, part: Byte, device: Byte, list: seq<Byte>, device': Byte, list': seq<Byte>)
    ensures Framed(code, part, device, list) == Framed(code, part, device', list')
       <==> device == device' && list == list'
  {
    var a, b := Framed(code, part, device, list), Framed(code, part, device', list');
    assert a[3] == device && b[3] == device' && a[5..|a| - 1] == list && b[5..|b| - 1] == list';
  }

  /** What is sent is a list command for this part and device with the packed entries. */
  predicate SentRight(kind: Kind, part: Byte, entries: seq<Entry>, device: Byte) {
    IsListCommand(kind, part, device, Packed(kind, entries),
                  CommandBytes(Code(kind), EmitterOf(kind), part, ListText(entries, device)))
  }

  lemma SentRightIsFramed(kind: Kind, part: Byte, entries: seq<Entry>, device: Byte)
    ensures SentRight(kind, part, entries, device)
       <==> CommandBytes(Code(kind), EmitterOf(kind), part, ListText(entries, device))
              == Framed(Code(kind), part, device, Packed(kind, entries))
  {
    FramedIsCommand(kind, part, device, Packed(kind, entries),
                    CommandBytes(Code(kind), EmitterOf(kind), part, ListText(entries, device)));
  }

  lemma LongListHasMore(entries: seq<Entry>, device: Byte)
    requires AllTwoDigits(entries) && |ListText(entries, device)| > 255
    ensures |entries| > 28 && |Concat(EntryText, entries)| == 9 * |entries|
    ensures |ListText(entries, device)| == 9 * |entries| + |PrintDec(device)|
  {
    DeviceDigits(device);
    EntriesTextLength(entries);
  }

  /** What a long list is sent as. */
  lemma LongList(kind: Kind, part: Byte, entries: seq<Entry>, device: Byte, total: nat, space: int)
    requires AllTwoDigits(entries) && |ListText(entries, device)| > 255
    requires total == ByteOf(|ListText(entries, device)|) && total >= 2 && space == 3 * (total / 3) - 1
    ensures var text := ListText(entries, device);
            SentRight(kind, part, entries, device) <==>
            DeviceAfter(text, space) == device
            && Emitted(TakerOf(kind), text, FIRST_ROUND, LengthOf(space)) == Packed(kind, entries)
  {
    var text := ListText(entries, device);
    SentRightIsFramed(kind, part, entries, device);
    LongListHasMore(entries, device);
    SpaceInList(entries, PrintDec(device), total);
    CommandIs(Code(kind), EmitterOf(kind), part, text, total);
    FramedTells(Code(kind), part, DeviceAfter(text, space), EmitterOf(kind)(text, LengthOf(space)),
                device, Packed(kind, entries));
    EmitterIs(kind, text, LengthOf(space));
  }

  lemma EmitterIs(kind: Kind, text: string, limit: Byte)
    ensures EmitterOf(kind)(text, limit) == Emitted(TakerOf(kind), text, FIRST_ROUND, limit)
  {
  }

  lemma DeviceDigits(device: Byte)
    ensures 1 <= |PrintDec(device)| <= 3
    ensures |PrintDec(device)| == 1 <==> device < 10
  {
    assert Pow10(3) == 10 * Pow10(2) == 100 * Pow10(1) == 1000 * Pow10(0);
    PrintDecLength(device, 3);
    PrintDecLength(device, 1);
  }

  /** With fewer rounds than entries, or more, the list is not sent right. */
  lemma RoundsMustFit(kind: Kind, entries: seq<Entry>, text: string, limit: Byte)
    requires Emitted(TakerOf(kind), text, FIRST_ROUND, limit) == Packed(kind, entries)
    ensures Rounds(FIRST_ROUND, limit) == |entries|
  {
    TakersTakeTwo(kind);
    EmittedLength(TakerOf(kind), text, FIRST_ROUND, limit);
    PackedLength(kind, entries);
  }

  /** 142 entries and a device number of one digit make 1279 characters, which leaves 255 after the cut. */
  lemma OnlyLength(n: nat, digits: nat, total: nat)
    requires 1 <= digits <= 3 && total == ByteOf(9 * n + digits)
    ensures n == 142 ==> (total == 255 <==> digits == 1)
  {
  }

  /** A cut before the last character leaves too little for the loop. */
  lemma ShortCut(kind: Kind, entries: seq<Entry>, text: string, limit: Byte)
    requires |entries| > 28 && limit <= 252
    ensures Emitted(TakerOf(kind), text, FIRST_ROUND, limit) != Packed(kind, entries)
  {
    FewRounds(FIRST_ROUND, limit);
    if Emitted(TakerOf(kind), text, FIRST_ROUND, limit) == Packed(kind, entries) {
      RoundsMustFit(kind, entries, text, limit);
    }
  }

  /** Otherwise the loop takes 142 entries. */
  lemma LongCut(kind: Kind, entries: seq<Entry>, rest: string, limit: Byte)
    requires limit == 254
    ensures Emitted(TakerOf(kind), Concat(EntryText, entries) + rest, FIRST_ROUND, limit) == Packed(kind, entries)
       <==> |entries| == 142
  {
    var text := Concat(EntryText, entries) + rest;
    ManyRounds(FIRST_ROUND, limit);
    if Emitted(TakerOf(kind), text, FIRST_ROUND, limit) == Packed(kind, entries) {
      RoundsMustFit(kind, entries, text, limit);
    }
    if |entries| == 142 {
      TakerTakes(kind);
      EntriesEmitted(TakerOf(kind), EntryText, PackerOf(kind), entries, rest, FIRST_ROUND, limit);
    }
  }

  lemma RefusedText(kind: Kind, part: Byte, entries: seq<Entry>, device: Byte)
    requires ByteOf(|ListText(entries, device)|) < 2
    ensures !SentRight(kind, part, entries, device)
  {
    var sent := CommandBytes(Code(kind), EmitterOf(kind), part, ListText(entries, device));
    assert |sent| == 1;
  }

  lemma ShortCutList(kind: Kind, part: Byte, entries: seq<Entry>, device: Byte, total: nat, space: int)
    requires AllTwoDigits(entries) && |ListText(entries, device)| > 255
    requires total == ByteOf(|ListText(entries, device)|) && total >= 2
    requires space == 3 * (total / 3) - 1 && space <= 252
    ensures !SentRight(kind, part, entries, device)
  {
    LongListHasMore(entries, device);
    LongList(kind, part, entries, device, total, space);
    ShortCut(kind, entries, ListText(entries, device), LengthOf(space));
  }

  lemma LongCutList(kind: Kind, part: Byte, entries: seq<Entry>, device: Byte, total: nat, space: int)
    requires AllTwoDigits(entries) && |ListText(entries, device)| > 255
    requires total == ByteOf(|ListText(entries, device)|) == 255 && space == 254
    ensures |entries| > 28
    ensures SentRight(kind, part, entries, device) <==> |entries| == 142 && entries[28].second == device
  {
    LongListHasMore(entries, device);
    LongList(kind, part, entries, device, total, space);
    CutDevice(entries, device, space);
    CutEntries(kind, entries, device, LengthOf(space));
  }

  lemma CutDevice(entries: seq<Entry>, device: Byte, space: int)
    requires AllTwoDigits(entries) && |entries| > 28 && space == 254
    ensures space < |ListText(entries, device)| && DeviceAfter(ListText(entries, device), space) == entries[28].second
  {
    SecondFieldIsRead(entries, PrintDec(device), 28);
  }

  lemma CutEntries(kind: Kind, entries: seq<Entry>, device: Byte, limit: Byte)
    requires limit == 254
    ensures Emitted(TakerOf(kind), ListText(entries, device), FIRST_ROUND, limit) == Packed(kind, entries)
       <==> |entries| == 142
  {
    LongCut(kind, entries, PrintDec(device), limit);
  }

  lemma LongListSentRight(kind: Kind, part: Byte, entries: seq<Entry>, device: Byte)
    requires AllTwoDigits(entries) && |ListText(entries, device)| > 255
    ensures SentRight(kind, part, entries, device)
       <==> |entries| == 142 && device < 10 && entries[28].second == device
  {
    var total: nat := ByteOf(|ListText(entries, device)|);
    var space: int := 3 * (total / 3) - 1;
    DeviceDigits(device);
    LongListHasMore(entries, device);
    OnlyLength(|entries|, |PrintDec(device)|, total);
    if total < 2 {
      RefusedText(kind, part, entries, device);
    } else if total < 255 {
      ShortCutList(kind, part, entries, device, total, space);
    } else {
      LongCutList(kind, part, entries, device, total, space);
    }
  }

  /** A list of two-digit entries and a device number is sent right exactly when its text has 2 to 255 characters, or
      it is one of the lists of 142 entries in which the cut falls in front of the device number again. */
  lemma ListSentRight(kind: Kind, part: Byte, entries: seq<Entry>, device: Byte)
    requires AllTwoDigits(entries)
    ensures SentRight(kind, part, entries, device)
       <==> 2 <= |ListText(entries, device)| <= 255
            || (|entries| == 142 && device < 10 && entries[28].second == device)
  {
    var text := ListText(entries, device);
    EntriesTextLength(entries);
    if |text| > 255 {
      LongListSentRight(kind, part, entries, device);
    } else if |text| >= 2 {
      ListIsPacked(kind, part, entries, device);
    } else {
      ByteIs(|text|);
      RefusedText(kind, part, entries, device);
    }
  }
}
