/** The gateway process of mqtt.c: two arrays that the gate replies, the MQTT messages and the pending worker
    update in place. A pointer into the table is an index here; the text written to the UART is recorded.
    Every method is proved against the table of PendingTable.dfy. */
module Gateway {
  import opened Downlink
  import opened PendingTable
  import opened UartLines
  import Hex

  /** The gate replies that touch the table, with the fields serve_reply takes from the line. */
  datatype Reply =
    | ReplyList(id: NodeId, nodeclass: Word16)
    | ReplyJoin(id: NodeId, nodeclass: Word16)
    | ReplyKick(id: NodeId)
    | ReplyAck(id: NodeId)
    | ReplyPendingReq(id: NodeId)

  function InputOf(reply: Reply, now: int): Input {
    match reply
    case ReplyList(id, nodeclass) => Listed(id, nodeclass, now)
    case ReplyJoin(id, nodeclass) => Joined(id, nodeclass, now)
    case ReplyKick(id) => Kicked(id, now)
    case ReplyAck(id) => Acknowledged(id, now)
    case ReplyPendingReq(id) => Requested(id, now)
  }

  /** The two array cells of a slot say what the abstract slot says; a free slot has nothing queued. */
  ghost predicate Agrees(cfg: Config, slot: Slot, free: bool, item: Item) {
    match slot
    case Free => free && item.fifo == []
    case Used(life) => !free && item == Current(cfg, life)
  }

  class Gate {
    const cfg: Config
    const pending: array<Item>
    const pendingFree: array<bool>
    var uart: seq<string>

    ghost var table: Table
    ghost var inputs: seq<Input>

    ghost predicate Coupled()
      reads this, pending, pendingFree
    {
      && MAX_PENDING_NODES == pending.Length == pendingFree.Length
      && forall i :: 0 <= i < MAX_PENDING_NODES ==> Agrees(cfg, table[i], pendingFree[i], pending[i])
    }

    /** The object is where the inputs so far lead, and what has been written is what they call for. */
    ghost predicate Valid()
      reads this, pending, pendingFree
    {
      Coupled() && AllLegal(inputs) && table == TableAfter(inputs) && uart == Lines(cfg, inputs)
    }

    /** `init_pending`. */
    constructor (cfg: Config)
      ensures Valid() && inputs == [] && uart == [] && this.cfg == cfg
      ensures fresh(pending) && fresh(pendingFree)
    {
      this.cfg := cfg;
      pending := new Item[MAX_PENDING_NODES](_ => Item(0, [], 0, 0, 0, false, false, 0, 0));
      pendingFree := new bool[MAX_PENDING_NODES](_ => true);
      uart, table, inputs := [], Nobody(), [];
    }

    /** The index stands for the pointer, MAX_PENDING_NODES for NULL. */
    method PendingToNodeid(id: NodeId) returns (e: nat)
      requires Coupled()
      ensures e == Find(table, id)
    {
      e := 0;
      while e < MAX_PENDING_NODES
        invariant e <= MAX_PENDING_NODES
        invariant Find(table, id) == Find(table, id, e)
      {
        if table[e].Used? {
          IdNeverChanges(cfg, table[e].life.first, table[e].life.trace);
        }
        if !pendingFree[e] && pending[e].nodeid == id {
          return;
        }
        e := e + 1;
      }
    }

    /** Accounts for the new contents of slot i by an event. */
    ghost method Record(i: nat, ev: Event)
      requires MAX_PENDING_NODES == pending.Length == pendingFree.Length
      requires i < MAX_PENDING_NODES && table[i].Used? && !pendingFree[i]
      requires forall j :: 0 <= j < MAX_PENDING_NODES && j != i ==> Agrees(cfg, table[j], pendingFree[j], pending[j])
      requires pending[i] == Step(cfg, Current(cfg, table[i].life), ev)
      modifies this`table
      ensures Coupled() && table == old(table)[i := old(table)[i].Log(ev)]
    {
      CurrentLog(cfg, table[i].life, ev);
      table := table[i := table[i].Log(ev)];
    }

    /** The handler for `input` is done: it has taken the table `was` to the next one and written its lines. */
    ghost method Account(input: Input, was: Table)
      requires Coupled() && AllLegal(inputs) && Legal(input)
      requires was == TableAfter(inputs) && table == Next(was, input)
      requires uart == Lines(cfg, inputs) + LinesFor(cfg, was, input)
      modifies this`inputs
      ensures Valid() && inputs == old(inputs) + [input]
    {
      TableAfterSnoc(inputs, input);
      LinesSnoc(cfg, inputs, input);
      inputs := inputs + [input];
    }

    /** False exactly when the node is unknown and no slot is free. */
    method AddDevice(id: NodeId, nodeclass: Word16, wasJoined: bool, now: int) returns (ok: bool)
      requires Coupled()
      modifies pending, pendingFree, this`table
      ensures Coupled() && table == PendingTable.AddDevice(old(table), id, nodeclass, wasJoined, now)
      ensures ok <==> Find(old(table), id) < MAX_PENDING_NODES || FirstFree(old(table)) < MAX_PENDING_NODES
    {
      var e := PendingToNodeid(id);
      if e < MAX_PENDING_NODES {
        if nodeclass == CLASS_C && pending[e].hasBeenInvited && wasJoined {
          pending[e] := pending[e].(lastMsg := now);
          pending[e] := pending[e].(hasBeenInvited := false);
        }
        pending[e] := pending[e].(nodeclass := nodeclass);
        pending[e] := pending[e].(numRetries := 0);
        Record(e, Refresh(nodeclass, wasJoined, now));
        return true;
      }
      var i := 0;
      while i < MAX_PENDING_NODES
        invariant i <= MAX_PENDING_NODES
        invariant FirstFree(table) == FirstFree(table, i)
      {
        if pendingFree[i] {
          Occupy(i, id, nodeclass, wasJoined);
          return true;
        }
        i := i + 1;
      }
      return false;
    }

    method Occupy(i: nat, id: NodeId, nodeclass: Word16, wasJoined: bool)
      requires Coupled() && i < MAX_PENDING_NODES && table[i].Free?
      modifies pending, pendingFree, this`table
      ensures Coupled() && table == old(table)[i := Used(Life(NewItem(id, nodeclass, wasJoined), []))]
    {
      pendingFree[i] := false;
      pending[i] := pending[i].(nodeid := id, nodeclass := nodeclass);
      pending[i] := pending[i].(hasBeenInvited := !wasJoined);
      pending[i] := pending[i].(lastMsg := 0, lastInv := 0, numRetries := 0, canSend := false, numPending := 0);
      pending[i] := pending[i].(fifo := []);
      table := table[i := Used(Life(NewItem(id, nodeclass, wasJoined), []))];
    }

    /** Frees the slot and drops what was queued in it. */
    method KickDevice(id: NodeId) returns (ok: bool)
      requires Coupled()
      modifies pending, pendingFree, this`table
      ensures Coupled() && table == PendingTable.KickDevice(old(table), id)
      ensures ok <==> Find(old(table), id) < MAX_PENDING_NODES
    {
      var i := PendingToNodeid(id);
      if i == MAX_PENDING_NODES {
        return false;
      }
      pendingFree[i] := true;
      while pending[i].fifo != []
        modifies pending
        invariant forall j :: 0 <= j < pending.Length && j != i ==> pending[j] == old(pending[j])
        decreases |pending[i].fifo|
      {
        pending[i] := pending[i].(fifo := pending[i].fifo[1..]);
      }
      table := table[i := Free];
      return true;
    }

    /** The effect of one gate reply on the table and on the UART. */
    method ServeReply(reply: Reply, now: int)
      requires Valid()
      modifies this`table, this`inputs, this`uart, pending, pendingFree
      ensures Valid() && inputs == old(inputs) + [InputOf(reply, now)]
      ensures table == Next(old(table), InputOf(reply, now))
      ensures uart == old(uart) + if reply.ReplyJoin? then JoinLines(cfg, table, reply.id) else []
    {
      ghost var was := table;
      HandleReply(reply, now);
      Account(InputOf(reply, now), was);
    }

    method HandleReply(reply: Reply, now: int)
      requires Coupled()
      modifies this`table, this`uart, pending, pendingFree
      ensures Coupled() && table == Next(old(table), InputOf(reply, now))
      ensures uart == old(uart) + if reply.ReplyJoin? then JoinLines(cfg, table, reply.id) else []
    {
      match reply {
        case ReplyList(id, nodeclass) =>
          var _ := AddDevice(id, nodeclass, true, now);
        case ReplyJoin(id, nodeclass) =>
          ServeJoin(id, nodeclass, now);
        case ReplyKick(id) =>
          var _ := KickDevice(id);
        case ReplyAck(id) =>
          ServeAck(id, now);
        case ReplyPendingReq(id) =>
          ServePendingReq(id, now);
      }
    }

    /** A rejoined node with something pending is told so. */
    method ServeJoin(id: NodeId, nodeclass: Word16, now: int)
      requires Coupled()
      modifies this`table, this`uart, pending, pendingFree
      ensures Coupled() && table == PendingTable.AddDevice(old(table), id, nodeclass, true, now)
      ensures uart == old(uart) + JoinLines(cfg, table, id)
    {
      var _ := AddDevice(id, nodeclass, true, now);
      var e := PendingToNodeid(id);
      if e < MAX_PENDING_NODES {
        if pending[e].numPending != 0 {
          uart := uart + [PendingNotice(id, pending[e].numPending)];
        }
      }
    }

    method ServeAck(id: NodeId, now: int)
      requires Coupled()
      modifies pending, this`table
      ensures Coupled() && table == LogTo(old(table), id, Ack(now))
    {
      var e := PendingToNodeid(id);
      if e == MAX_PENDING_NODES {
        return;
      }
      pending[e] := pending[e].(hasBeenInvited := false);
      if pending[e].fifo != [] {
        pending[e] := pending[e].(fifo := pending[e].fifo[1..]);
      }
      if pending[e].numPending > 0 {
        pending[e] := pending[e].(numPending := pending[e].numPending - 1);
      }
      pending[e] := pending[e].(numRetries := 0);
      Record(e, Ack(now));
    }

    method ServePendingReq(id: NodeId, now: int)
      requires Coupled()
      modifies pending, this`table
      ensures Coupled() && table == LogTo(old(table), id, PendingReq(now))
    {
      var e := PendingToNodeid(id);
      if e == MAX_PENDING_NODES {
        return;
      }
      if pending[e].nodeclass == CLASS_A && pending[e].numPending > 0 {
        pending[e] := pending[e].(canSend := true);
        pending[e] := pending[e].(lastMsg := 0);
      }
      Record(e, PendingReq(now));
    }

    method FindOrAdd(addr: NodeId, now: int) returns (e: nat)
      requires Coupled()
      modifies this`table, pending, pendingFree
      ensures Coupled() && table == Admit(old(table), addr, now) && e == Find(table, addr)
    {
      e := PendingToNodeid(addr);
      if e == MAX_PENDING_NODES {
        var _ := AddDevice(addr, CLASS_C, false, now);
        e := PendingToNodeid(addr);
      }
    }

    /** Queues a frame, adding an unknown node as one to be invited. */
    method MessageToMote(addr: NodeId, payload: string, now: int)
      requires Valid()
      modifies this`table, this`inputs, this`uart, pending, pendingFree
      ensures Valid() && inputs == old(inputs) + [Message(addr, payload, now)]
      ensures table == Next(old(table), Message(addr, payload, now))
      ensures uart == old(uart) + MessageLines(cfg, table, addr)
    {
      ghost var was := table;
      QueueMessage(addr, payload, now);
      Account(Message(addr, payload, now), was);
    }

    method QueueMessage(addr: NodeId, payload: string, now: int)
      requires Coupled()
      modifies this`table, this`uart, pending, pendingFree
      ensures Coupled() && table == Next(old(table), Message(addr, payload, now))
      ensures uart == old(uart) + MessageLines(cfg, table, addr)
    {
      var e := FindOrAdd(addr, now);
      if e < MAX_PENDING_NODES {
        Enqueue(e, Hex.IndFrame(addr, payload), now);
        StillThere(old(table), addr, now, e, Event.Enqueue(Hex.IndFrame(addr, payload), now));
        if pending[e].nodeclass == CLASS_A {
          uart := uart + [PendingNotice(addr, pending[e].numPending)];
        }
      }
    }

    /** Logging an event does not move a node to another slot. */
    lemma StillThere(t: Table, addr: NodeId, now: int, e: nat, ev: Event)
      requires e < MAX_PENDING_NODES && e == Find(Admit(t, addr, now), addr)
      ensures Find(LogTo(Admit(t, addr, now), addr, ev), addr) == e
    {
      var t' := LogTo(Admit(t, addr, now), addr, ev);
      assert t'[e].Holds(addr);
      assert forall j :: 0 <= j < e ==> !Admit(t, addr, now)[j].Holds(addr) && !t'[j].Holds(addr);
    }

    method Enqueue(e: nat, frame: string, now: int)
      requires Coupled() && e < MAX_PENDING_NODES && table[e].Used?
      modifies pending, this`table
      ensures Coupled() && table == old(table)[e := old(table)[e].Log(Event.Enqueue(frame, now))]
    {
      pending[e] := pending[e].(fifo := pending[e].fifo + [frame]);
      if pending[e].nodeclass == CLASS_A {
        pending[e] := pending[e].(numPending := (pending[e].numPending + 1) % WORD16_SIZE);
      }
      Record(e, Event.Enqueue(frame, now));
    }

    /** One iteration of the worker's loop over the table. */
    method VisitSlot(i: nat, current: int)
      requires Coupled() && i < MAX_PENDING_NODES
      modifies pending, this`table, this`uart
      ensures Coupled() && table == old(table)[i := old(table)[i].Log(Visit(current))]
      ensures uart == old(uart) + SlotLine(cfg, old(table)[i], current)
    {
      if pendingFree[i] {
        return;
      }
      IdNeverChanges(cfg, table[i].life.first, table[i].life.trace);
      ServeItem(i, current);
      Record(i, Visit(current));
    }

    method ServeItem(i: nat, current: int)
      requires i < pending.Length
      modifies pending, this`uart
      ensures pending[i] == Visited(cfg, old(pending[i]), current)
      ensures forall j :: 0 <= j < pending.Length && j != i ==> pending[j] == old(pending[j])
      ensures uart == old(uart) + Line(old(pending[i]).nodeid, Decide(cfg, old(pending[i]), current))
    {
      if pending[i].fifo == [] {
        return;
      }
      if pending[i].nodeclass == CLASS_A && !pending[i].canSend {
        return;
      }
      if pending[i].nodeclass == CLASS_C && pending[i].hasBeenInvited {
        if pending[i].numRetries > NUM_RETRIES_INV {
          pending[i] := pending[i].(numRetries := 0);
          pending[i] := pending[i].(fifo := pending[i].fifo[1..]);
        } else if current - pending[i].lastInv > pending[i].numRetries * INVITE_TIMEOUT_S {
          uart := uart + [Invitation(pending[i].nodeid)];
          pending[i] := pending[i].(numRetries := pending[i].numRetries + 1);
          pending[i] := pending[i].(lastInv := current);
        }
        return;
      }
      if current - pending[i].lastMsg > cfg.txDelay {
        if pending[i].numRetries > NUM_RETRIES {
          pending[i] := pending[i].(numRetries := 0);
          pending[i] := pending[i].(fifo := pending[i].fifo[1..]);
          return;
        }
        var buf := pending[i].fifo[0];
        pending[i] := pending[i].(numRetries := pending[i].numRetries + 1);
        uart := uart + [buf + "\r"];
        if pending[i].nodeclass == CLASS_C && pending[i].numRetries == cfg.txMaxretr {
          pending[i] := pending[i].(numRetries := 1, lastInv := current, hasBeenInvited := true);
        }
        pending[i] := pending[i].(canSend := false);
        pending[i] := pending[i].(lastMsg := current);
      }
    }

    method VisitNext(i: nat, clock: seq<int>, ghost t: Table)
      requires Coupled() && i < MAX_PENDING_NODES == |t| == |clock| && table == Visits(t, clock, i)
      modifies this`table, this`uart, pending
      ensures Coupled() && table == Visits(t, clock, i + 1)
      ensures uart == old(uart) + SlotLine(cfg, t[i], clock[i])
    {
      VisitSlot(i, clock[i]);
    }

    /** The loop of the worker over the table. */
    method VisitAll(clock: seq<int>)
      requires Coupled() && |clock| == MAX_PENDING_NODES
      modifies this`table, this`uart, pending
      ensures Coupled() && table == Next(old(table), Pass(clock))
      ensures uart == old(uart) + PassLines(cfg, old(table), clock, MAX_PENDING_NODES)
    {
      ghost var t, written := table, uart;
      for i := 0 to MAX_PENDING_NODES
        invariant Coupled() && table == Visits(t, clock, i)
        invariant uart == written + PassLines(cfg, t, clock, i)
      {
        PassLinesNext(cfg, t, clock, i, written);
        VisitNext(i, clock, t);
      }
    }

    /** One pass of the worker, which holds the table from the first slot to the last. */
    method PendingWorkerPass(clock: seq<int>)
      requires Valid() && |clock| == MAX_PENDING_NODES
      modifies this`table, this`inputs, this`uart, pending
      ensures Valid() && inputs == old(inputs) + [Pass(clock)]
      ensures table == Next(old(table), Pass(clock))
      ensures uart == old(uart) + PassLines(cfg, old(table), clock, MAX_PENDING_NODES)
    {
      ghost var was := table;
      VisitAll(clock);
      Account(Pass(clock), was);
    }
  }
}
