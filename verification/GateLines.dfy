/** A reader of the lines that go to the gate, and which of them tell what was meant. */
module GateLines {
  import opened Downlink
  import opened Journal
  import opened Options
  import opened UartLines
  import opened Hex

  datatype Order = Invites(id: nat) | Announces(id: nat, n: nat) | Carries(frame: string)

  /** A line up to its carriage return: 'V' and an address; '?', an address and two digits for a number; or a frame,
      which begins with 'I'. */
  function ReadLine(s: string): Option<Order> {
    if |s| < 2 || s[|s| - 1] != '\r' then None
    else
      var body, digits := s[..|s| - 1], s[1..|s| - 1];
      if body[0] == 'V' && AllHex(digits) then Some(Invites(HexValue(digits)))
      else if body[0] == '?' && AllHex(digits) && |digits| > 2 then
        Some(Announces(HexValue(digits[..|digits| - 2]), HexValue(digits[|digits| - 2..])))
      else if body[0] == 'I' then Some(Carries(body))
      else None
  }

  lemma InvitationReadsBack(id: NodeId)
    ensures ReadLine(Invitation(id)) == Some(Invites(id))
  {
    var line := Invitation(id);
    assert line[1..|line| - 1] == PrintHex(id);
    PrintHexReadsBack(id);
  }

  lemma TwoDigitsRead(a: char, b: char)
    ensures HexValue([a, b]) == 16 * Hex.DigitValue(a) + Hex.DigitValue(b) < 256
  {
    assert [a, b][..1] == [a] && [a][..0] == "";
    assert HexValue([a]) == Hex.DigitValue(a);
  }

  /** "%02x" of a small number has two digits, which denote it. */
  lemma CountReads(n: nat)
    requires n < 256
    ensures |Hex2(n)| == 2 && AllHex(Hex2(n)) && HexValue(Hex2(n)) == n
  {
    PrintHexReadsBack(n);
    PrintHexLength(n, 1);
    PrintHexLength(n, 2);
    assert Pow16(2) == 16 * Pow16(1) == 256 * Pow16(0);
    var s := Hex2(n);
    assert s == [s[0], s[1]];
    TwoDigitsRead(s[0], s[1]);
    if n >= 16 {
      assert s == PrintHex(n);
    }
  }

  lemma LongCount(n: nat)
    requires n >= 256
    ensures Hex2(n) == PrintHex(n) && |Hex2(n)| > 2 && AllHex(Hex2(n))
  {
    PrintHexLength(n, 2);
    assert Pow16(2) == 16 * Pow16(1) == 256 * Pow16(0);
    assert "" + PrintHex(n) == PrintHex(n);
  }

  lemma LastTwo(address: string, count: string)
    requires |count| >= 2 && address != ""
    ensures var digits := address + count;
            && (|count| == 2 ==> digits[..|digits| - 2] == address && digits[|digits| - 2..] == count)
            && |digits[|digits| - 2..]| == 2
  {
  }

  lemma NoticeDigits(id: NodeId, n: Word16)
    ensures PendingNotice(id, n) == "?" + (PrintHex(id) + Hex2(n)) + "\r"
  {
    assert "?" + PrintHex(id) + Hex2(n) == "?" + (PrintHex(id) + Hex2(n));
  }

  lemma NoticeIsRead(line: string, digits: string)
    requires line == "?" + digits + "\r" && AllHex(digits) && |digits| > 2
    ensures ReadLine(line) == Some(Announces(HexValue(digits[..|digits| - 2]), HexValue(digits[|digits| - 2..])))
  {
    assert line[1..|line| - 1] == digits && line[..|line| - 1][0] == '?';
  }

  lemma LastTwoAreSmall(digits: string)
    requires |digits| >= 2
    ensures HexValue(digits[|digits| - 2..]) < 256
  {
    var last := digits[|digits| - 2..];
    assert last == [last[0], last[1]];
    TwoDigitsRead(last[0], last[1]);
  }

  /** The notice of pending frames tells the node and their number exactly if there are fewer than 256. */
  lemma NoticeReadsBack(id: NodeId, n: Word16)
    ensures ReadLine(PendingNotice(id, n)) == Some(Announces(id, n)) <==> n < 256
  {
    var digits := PrintHex(id) + Hex2(n);
    NoticeDigits(id, n);
    if n < 256 {
      CountReads(n);
      LastTwo(PrintHex(id), Hex2(n));
      PrintHexReadsBack(id);
    } else {
      LongCount(n);
      LastTwoAreSmall(digits);
    }
    NoticeIsRead(PendingNotice(id, n), digits);
  }

  lemma OneMoreDigit(id: nat, d: nat)
    requires id > 0 && d < 16
    ensures PrintHex(16 * id + d) == PrintHex(id) + [LowerDigit(d)]
  {
    assert (16 * id + d) / 16 == id && (16 * id + d) % 16 == d;
  }

  lemma MovedDigit(a: string, b: string, c: string)
    ensures "?" + (a + (b + c)) + "\r" == "?" + ((a + b) + c) + "\r"
  {
    Grouped(a, b, c);
  }

  lemma OneDigit(d: nat)
    requires d < 16
    ensures PrintHex(d) == [LowerDigit(d)]
  {
  }

  lemma Grouped(a: string, b: string, c: string)
    ensures (a + b) + c == a + (b + c)
  {
  }

  lemma ThreePrinted(high: nat, middle: nat, low: nat)
    requires 0 < high < 16 && middle < 16 && low < 16
    ensures PrintHex(16 * (16 * high + middle) + low) == [LowerDigit(high)] + ([LowerDigit(middle)] + [LowerDigit(low)])
  {
    OneMoreDigit(16 * high + middle, low);
    OneMoreDigit(high, middle);
    OneDigit(high);
    Grouped([LowerDigit(high)], [LowerDigit(middle)], [LowerDigit(low)]);
  }

  lemma SplitInThree(n: nat)
    requires 256 <= n < 4096
    ensures 0 < n / 256 < 16 && n == 16 * (16 * (n / 256) + n % 256 / 16) + n % 256 % 16
  {
  }

  /** Three digits. */
  lemma ThreeDigits(n: nat)
    requires 256 <= n < 4096
    ensures Hex2(n) == [LowerDigit(n / 256)] + Hex2(n % 256)
  {
    SplitInThree(n);
    LongCount(n);
    SmallCount(n % 256);
    ThreePrinted(n / 256, n % 256 / 16, n % 256 % 16);
  }

  /** With more of them the first digit of the number may as well be the last of the address. */
  lemma NoticeIsAmbiguous(id: NodeId, n: Word16)
    requires id > 0 && 256 <= n < 4096 && 16 * id + 15 < 0x1_0000_0000_0000_0000
    ensures PendingNotice(id, n) == PendingNotice(16 * id + n / 256, n % 256)
  {
    ThreeDigits(n);
    OneMoreDigit(id, n / 256);
    NoticeDigits(id, n);
    NoticeDigits(16 * id + n / 256, n % 256);
    MovedDigit(PrintHex(id), [LowerDigit(n / 256)], Hex2(n % 256));
  }

  lemma SmallCount(n: nat)
    requires n < 256
    ensures Hex2(n) == [LowerDigit(n / 16)] + [LowerDigit(n % 16)]
  {
    if n >= 16 {
      assert "" + PrintHex(n) == PrintHex(n);
    }
  }

  lemma FrameReadsBack(addr: NodeId, payload: string)
    ensures ReadLine(IndFrame(addr, payload) + "\r") == Some(Carries(IndFrame(addr, payload)))
  {
    var frame := IndFrame(addr, payload);
    assert (frame + "\r")[..|frame + "\r"| - 1] == frame;
  }

  /** What an entry of the journal means. */
  function Meant(entry: Entry): Order {
    match entry
    case Data(_, _, frame) => Carries(frame)
    case Join(_, _, id) => Invites(id)
    case Notice(id, n) => Announces(id, n)
  }

  /** Every line tells what was meant, except for notices of 256 frames or more. */
  lemma EntryReadsBack(entry: Entry)
    requires entry.Data? ==> exists addr: NodeId, payload :: entry.frame == IndFrame(addr, payload)
    ensures ReadLine(Text(entry)) == Some(Meant(entry)) <==> (entry.Notice? ==> entry.n < 256)
  {
    match entry {
      case Data(_, _, frame) =>
        var addr: NodeId, payload :| frame == IndFrame(addr, payload);
        FrameReadsBack(addr, payload);
      case Join(_, _, id) => InvitationReadsBack(id);
      case Notice(id, n) => NoticeReadsBack(id, n);
    }
  }
}
