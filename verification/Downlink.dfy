/** One slot of the pending table of mqtt.c: its fields, the events that reach it and the decision the
    pending worker takes about it.

    The functions here are the specification of the imperative table in Gateway.dfy; the statements about
    whole runs are in Lifetimes.dfy and SilentRun.dfy. */
module Downlink {
  const NUM_RETRIES := 5
  const NUM_RETRIES_INV := 5
  const INVITE_TIMEOUT_S := 45

  /** C's `unsigned short`. */
  const WORD16_SIZE := 0x1_0000
  type Word16 = x: int | 0 <= x < WORD16_SIZE

  type NodeId = x: int | 0 <= x < 0x1_0000_0000_0000_0000

  const CLASS_A: Word16 := 0
  const CLASS_C: Word16 := 2

  /** Settings read once at start-up: any `int` is accepted for either. */
  datatype Config = Config(txDelay: int, txMaxretr: int)

  /** `pending_item_t`. Any class other than A and C is served like class B. */
  datatype Item = Item(
    nodeid: NodeId,
    fifo: seq<string>,
    lastMsg: int,
    lastInv: int,
    nodeclass: Word16,
    hasBeenInvited: bool,
    canSend: bool,
    numRetries: nat,
    numPending: Word16)

  /** What can happen to an occupied slot, stamped with the clock at which it happens. */
  datatype Event =
    | Refresh(nodeclass: Word16, wasJoined: bool, now: int)  // add_device on a known node
    | Ack(now: int)
    | PendingReq(now: int)
    | Enqueue(frame: string, now: int)
    | Visit(now: int)                                        // one iteration of the worker's loop

  /** What the worker does on one visit. */
  datatype Action = Idle | Send(frame: string) | Invite | GiveUp

  function NewItem(id: NodeId, nodeclass: Word16, wasJoined: bool): Item {
    Item(id, [], 0, 0, nodeclass, !wasJoined, false, 0, 0)
  }

  function Refreshed(e: Item, nodeclass: Word16, wasJoined: bool, now: int): Item {
    if nodeclass == CLASS_C && e.hasBeenInvited && wasJoined then
      e.(lastMsg := now, hasBeenInvited := false, nodeclass := nodeclass, numRetries := 0)
    else
      e.(nodeclass := nodeclass, numRetries := 0)
  }

  function Acked(e: Item): Item {
    e.(hasBeenInvited := false,
       fifo := if e.fifo == [] then [] else e.fifo[1..],
       numPending := if e.numPending > 0 then e.numPending - 1 else 0,
       numRetries := 0)
  }

  /** A request counts only for a class A node that has something pending. */
  predicate Accepts(e: Item) {
    e.nodeclass == CLASS_A && e.numPending > 0
  }

  function Requested(e: Item): Item {
    if Accepts(e) then e.(canSend := true, lastMsg := 0) else e
  }

  function Enqueued(e: Item, frame: string): Item {
    var e' := e.(fifo := e.fifo + [frame]);
    if e.nodeclass == CLASS_A then e'.(numPending := (e.numPending + 1) % WORD16_SIZE) else e'
  }

  /** The node was told to join and has not answered yet: data frames are held back. */
  predicate Waiting(e: Item) {
    e.nodeclass == CLASS_C && e.hasBeenInvited
  }

  function Decide(cfg: Config, e: Item, now: int): Action {
    if e.fifo == [] then Idle
    else if e.nodeclass == CLASS_A && !e.canSend then Idle
    else if Waiting(e) then
      if e.numRetries > NUM_RETRIES_INV then GiveUp
      else if now - e.lastInv > e.numRetries * INVITE_TIMEOUT_S then Invite
      else Idle
    else if now - e.lastMsg > cfg.txDelay then
      if e.numRetries > NUM_RETRIES then GiveUp else Send(e.fifo[0])
    else Idle
  }

  function Visited(cfg: Config, e: Item, now: int): Item {
    match Decide(cfg, e, now)
    case Idle => e
    case GiveUp => e.(numRetries := 0, fifo := e.fifo[1..])
    case Invite => e.(numRetries := e.numRetries + 1, lastInv := now)
    case Send(_) =>
      var sent := e.(numRetries := e.numRetries + 1, canSend := false, lastMsg := now);
      if e.nodeclass == CLASS_C && sent.numRetries == cfg.txMaxretr
      then sent.(numRetries := 1, lastInv := now, hasBeenInvited := true)
      else sent
  }

  function Step(cfg: Config, e: Item, ev: Event): Item {
    match ev
    case Refresh(nodeclass, wasJoined, now) => Refreshed(e, nodeclass, wasJoined, now)
    case Ack(_) => Acked(e)
    case PendingReq(_) => Requested(e)
    case Enqueue(frame, _) => Enqueued(e, frame)
    case Visit(now) => Visited(cfg, e, now)
  }

  function Act(cfg: Config, e: Item, ev: Event): Action {
    if ev.Visit? then Decide(cfg, e, ev.now) else Idle
  }

  /** The slot after a sequence of events. */
  function Run(cfg: Config, e: Item, tr: seq<Event>): Item {
    if tr == [] then e else Step(cfg, Run(cfg, e, Front(tr)), Last(tr))
  }

  function Front<T>(s: seq<T>): seq<T>
    requires s != []
  {
    s[..|s| - 1]
  }

  function Last<T>(s: seq<T>): T
    requires s != []
  {
    s[|s| - 1]
  }

  /** The clock never goes back along the events. */
  ghost predicate Timed(tr: seq<Event>) {
    forall i, j :: 0 <= i < j < |tr| ==> tr[i].now <= tr[j].now
  }

  /** Everything in `tr` happened at `now` or before. */
  ghost predicate NoLaterThan(tr: seq<Event>, now: int) {
    forall i :: 0 <= i < |tr| ==> tr[i].now <= now
  }

  lemma RunSnoc(cfg: Config, e: Item, tr: seq<Event>, ev: Event)
    ensures Run(cfg, e, tr + [ev]) == Step(cfg, Run(cfg, e, tr), ev)
  {
    assert Front(tr + [ev]) == tr;
  }

  lemma {:induction false} RunConcat(cfg: Config, e: Item, a: seq<Event>, b: seq<Event>)
    ensures Run(cfg, e, a + b) == Run(cfg, Run(cfg, e, a), b)
  {
    if b == [] {
      assert a + b == a;
    } else {
      assert Front(a + b) == a + Front(b) && Last(a + b) == Last(b);
      RunConcat(cfg, e, a, Front(b));
    }
  }
}
