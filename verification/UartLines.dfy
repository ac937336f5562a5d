/** What the gateway writes to the UART for its nodes over a whole run. */
module UartLines {
  import opened Downlink
  import opened PendingTable
  import Hex

  /** `printf` with "%02x". */
  function Hex2(n: nat): string { (if n < 16 then "0" else "") + Hex.PrintHex(n) }

  function PendingNotice(id: NodeId, n: Word16): string { "?" + Hex.PrintHex(id) + Hex2(n) + "\r" }

  function Invitation(id: NodeId): string { "V" + Hex.PrintHex(id) + "\r" }

  /** What the worker writes for one visit. */
  function Line(id: NodeId, action: Action): seq<string> {
    match action
    case Send(frame) => [frame + "\r"]
    case Invite => [Invitation(id)]
    case _ => []
  }

  function SlotLine(cfg: Config, slot: Slot, now: int): seq<string> {
    if slot.Free? then [] else Line(slot.life.Id(), Decide(cfg, Current(cfg, slot.life), now))
  }

  /** What a pass writes for the first k slots. */
  function PassLines(cfg: Config, t: Table, clock: seq<int>, k: nat): seq<string>
    requires k <= |t| <= |clock|
  {
    if k == 0 then [] else PassLines(cfg, t, clock, k - 1) + SlotLine(cfg, t[k - 1], clock[k - 1])
  }

  lemma PassLinesNext(cfg: Config, t: Table, clock: seq<int>, i: nat, written: seq<string>)
    requires i < |t| <= |clock|
    ensures written + PassLines(cfg, t, clock, i + 1)
         == (written + PassLines(cfg, t, clock, i)) + SlotLine(cfg, t[i], clock[i])
  {
  }

  /** The notice a rejoined node's pending frames call for. */
  function JoinLines(cfg: Config, t: Table, id: NodeId): seq<string> {
    var i := Find(t, id);
    if i < |t| && Current(cfg, t[i].life).numPending > 0
    then [PendingNotice(id, Current(cfg, t[i].life).numPending)]
    else []
  }

  /** The notice that goes with a message queued for a class A node. */
  function MessageLines(cfg: Config, t: Table, id: NodeId): seq<string> {
    var i := Find(t, id);
    if i < |t| && Current(cfg, t[i].life).nodeclass == CLASS_A
    then [PendingNotice(id, Current(cfg, t[i].life).numPending)]
    else []
  }

  /** What the handler or the pass for `input` writes, starting from table t. */
  function LinesFor(cfg: Config, t: Table, input: Input): seq<string>
    requires Legal(input)
  {
    match input
    case Joined(id, _, _) => JoinLines(cfg, Next(t, input), id)
    case Message(id, _, _) => MessageLines(cfg, Next(t, input), id)
    case Pass(clock) => PassLines(cfg, t, clock, |t|)
    case _ => []
  }

  /** Everything written over a run. */
  function Lines(cfg: Config, inputs: seq<Input>): seq<string>
    requires AllLegal(inputs)
  {
    if inputs == [] then []
    else Lines(cfg, Front(inputs)) + LinesFor(cfg, TableAfter(Front(inputs)), Last(inputs))
  }

  lemma LinesSnoc(cfg: Config, inputs: seq<Input>, input: Input)
    requires AllLegal(inputs) && Legal(input)
    ensures AllLegal(inputs + [input])
    ensures Lines(cfg, inputs + [input]) == Lines(cfg, inputs) + LinesFor(cfg, TableAfter(inputs), input)
  {
    assert Front(inputs + [input]) == inputs;
  }
}
