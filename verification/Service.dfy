/** What the gateway does for its nodes, from any state it can be in: a node it does not know is invited before it gets
    data, a node that rejoins gets its data, and a class A node that asks gets an answer. */
module Service {
  import opened Downlink
  import opened Lifetimes
  import opened PendingTable
  import opened UartLines
  import opened Histories
  import opened Journal
  import opened Reactions
  import Hex

  // ----- One input -----

  /** The slot holds this node in this state. */
  ghost predicate Has(cfg: Config, t: Table, i: nat, e: Item) {
    i < |t| && t[i].Used? && Find(t, e.nodeid) == i && Current(cfg, t[i].life) == e
  }

  ghost predicate OthersAsBefore(t: Table, t': Table, i: nat) {
    forall j :: 0 <= j < |t| && j != i ==> t'[j] == t[j]
  }

  lemma LogHas(cfg: Config, t: Table, i: nat, e: Item, ev: Event)
    requires Has(cfg, t, i, e)
    ensures Has(cfg, LogTo(t, e.nodeid, ev), i, Step(cfg, e, ev))
    ensures OthersAsBefore(t, LogTo(t, e.nodeid, ev), i)
  {
    var t' := LogTo(t, e.nodeid, ev);
    CurrentLog(cfg, t[i].life, ev);
    IdNeverChanges(cfg, t[i].life.first, t[i].life.trace);
    assert t'[i].Holds(e.nodeid);
    assert forall j :: 0 <= j < i ==> !t[j].Holds(e.nodeid) && !t'[j].Holds(e.nodeid);
  }

  lemma NewHas(cfg: Config, t: Table, e: Item)
    requires Find(t, e.nodeid) == |t| && FirstFree(t) < |t|
    ensures Has(cfg, t[FirstFree(t) := Used(Life(e, []))], FirstFree(t), e)
  {
    var i := FirstFree(t);
    var t' := t[i := Used(Life(e, []))];
    assert t'[i].Holds(e.nodeid);
    assert forall j :: 0 <= j < i ==> !t[j].Holds(e.nodeid) && !t'[j].Holds(e.nodeid);
  }

  /** A message for a node that is not in the table: it gets the first free slot as a class C node that has to be
      invited, with the frame queued; without a free slot nothing happens. */
  lemma UnknownNodeIsAdded(cfg: Config, t: Table, id: NodeId, payload: string, now: int)
    requires Find(t, id) == |t|
    ensures var t', i := Next(t, Message(id, payload, now)), FirstFree(t);
            if i == |t| then t' == t
            else && Has(cfg, t', i, Item(id, [Hex.IndFrame(id, payload)], 0, 0, 2, true, false, 0, 0))
                 && OthersAsBefore(t, t', i)
  {
    var i, e, ev := FirstFree(t), Item(id, [], 0, 0, 2, true, false, 0, 0), Enqueue(Hex.IndFrame(id, payload), now);
    if i < |t| {
      NewHas(cfg, t, e);
      LogHas(cfg, Admit(t, id, now), i, e, ev);
      assert e.fifo + [ev.frame] == [ev.frame];
    }
  }

  /** LIST or JOIN of such a node: it gets a slot as one that has joined. */
  lemma JoiningNodeIsAdded(cfg: Config, t: Table, input: Input)
    requires (input.Listed? || input.Joined?) && Find(t, input.id) == |t|
    ensures var t', i := Next(t, input), FirstFree(t);
            if i == |t| then t' == t
            else Has(cfg, t', i, Item(input.id, [], 0, 0, input.nodeclass, false, false, 0, 0))
                 && OthersAsBefore(t, t', i)
  {
    if FirstFree(t) < |t| {
      NewHas(cfg, t, Item(input.id, [], 0, 0, input.nodeclass, false, false, 0, 0));
    }
  }

  /** What LIST or JOIN makes of a node. */
  function Ready(e: Item, nodeclass: Word16, now: int): Item {
    if e.hasBeenInvited && nodeclass == 2
    then e.(nodeclass := nodeclass, numRetries := 0, hasBeenInvited := false, lastMsg := now)
    else e.(nodeclass := nodeclass, numRetries := 0)
  }

  /** What an ACK makes of it. */
  function Relieved(e: Item): Item {
    e.(fifo := if e.fifo == [] then [] else e.fifo[1..], hasBeenInvited := false, numRetries := 0,
       numPending := if e.numPending == 0 then 0 else e.numPending - 1)
  }

  /** What a message makes of it. */
  function Loaded(e: Item, frame: string): Item {
    e.(fifo := e.fifo + [frame],
       numPending := if e.nodeclass == 0 then (e.numPending + 1) % 65536 else e.numPending)
  }

  lemma StepsAre(cfg: Config, e: Item, nodeclass: Word16, frame: string, now: int)
    ensures Step(cfg, e, Refresh(nodeclass, true, now)) == Ready(e, nodeclass, now)
    ensures Step(cfg, e, Ack(now)) == Relieved(e)
    ensures Step(cfg, e, Enqueue(frame, now)) == Loaded(e, frame)
    ensures !Waiting(Ready(e, nodeclass, now)) && !Waiting(Relieved(e))
  {
  }

  /** LIST or JOIN of a node in the table: it waits no longer, it has the class declared and all attempts before it, and
      what is queued and announced stays. If it had been invited and is class C, tx_delay begins anew. */
  lemma JoiningNodeIsReady(cfg: Config, t: Table, input: Input, i: nat, e: Item)
    requires (input.Listed? || input.Joined?) && Has(cfg, t, i, e) && input.id == e.nodeid
    ensures Has(cfg, Next(t, input), i, Ready(e, input.nodeclass, input.now))
    ensures !Waiting(Ready(e, input.nodeclass, input.now)) && OthersAsBefore(t, Next(t, input), i)
  {
    LogHas(cfg, t, i, e, Refresh(input.nodeclass, true, input.now));
    StepsAre(cfg, e, input.nodeclass, "", input.now);
  }

  /** An ACK takes the oldest frame and one announcement, and the node waits no longer. */
  lemma AcknowledgingNode(cfg: Config, t: Table, now: int, i: nat, e: Item)
    requires Has(cfg, t, i, e)
    ensures Has(cfg, Next(t, Acknowledged(e.nodeid, now)), i, Relieved(e))
    ensures !Waiting(Relieved(e)) && OthersAsBefore(t, Next(t, Acknowledged(e.nodeid, now)), i)
  {
    LogHas(cfg, t, i, e, Ack(now));
    StepsAre(cfg, e, e.nodeclass, "", now);
  }

  lemma KnownIsAdmitted(t: Table, id: NodeId, payload: string, now: int)
    requires Find(t, id) < |t|
    ensures Next(t, Message(id, payload, now)) == LogTo(t, id, Enqueue(Hex.IndFrame(id, payload), now))
  {
  }

  /** A message for a node in the table is queued behind what is there; only in class A it is announced. */
  lemma MessageIsQueued(cfg: Config, t: Table, payload: string, now: int, i: nat, e: Item)
    requires Has(cfg, t, i, e)
    ensures var t' := Next(t, Message(e.nodeid, payload, now));
            Has(cfg, t', i, Loaded(e, Hex.IndFrame(e.nodeid, payload))) && OthersAsBefore(t, t', i)
  {
    var frame := Hex.IndFrame(e.nodeid, payload);
    KnownIsAdmitted(t, e.nodeid, payload, now);
    LogHas(cfg, t, i, e, Enqueue(frame, now));
    StepsAre(cfg, e, e.nodeclass, frame, now);
  }

  /** A request of a node that is not class A or has nothing announced is ignored, as are an ACK, a request and a KICK
      of a node that is not in the table. */
  lemma IgnoredInputs(cfg: Config, t: Table, id: NodeId, now: int)
    ensures var i := Find(t, id);
            && (i == |t| ==> Next(t, Acknowledged(id, now)) == Next(t, Requested(id, now)) == t)
            && (i == |t| ==> Next(t, Kicked(id, now)) == t)
            && (i < |t| ==>
                  var e := Current(cfg, t[i].life);
                  e.nodeclass != 0 || e.numPending == 0 ==> Has(cfg, Next(t, Requested(id, now)), i, e))
  {
    var i := Find(t, id);
    if i < |t| {
      IdNeverChanges(cfg, t[i].life.first, t[i].life.trace);
      LogHas(cfg, t, i, Current(cfg, t[i].life), PendingReq(now));
    }
  }

  /** The lines that go with an input about a node in the table: its pending frames when it joins and there are any, and
      one more of them when a frame is queued in class A. Nothing else is written but by a pass. */
  lemma NoticesOfNode(cfg: Config, t: Table, input: Input, i: nat, e: Item)
    requires !input.Pass? && Has(cfg, t, i, e) && input.id == e.nodeid
    ensures LinesFor(cfg, t, input)
         == if input.Joined? && e.numPending > 0 then [PendingNotice(e.nodeid, e.numPending)]
            else if input.Message? && e.nodeclass == 0 then [PendingNotice(e.nodeid, (e.numPending + 1) % 65536)]
            else []
  {
    if input.Joined? {
      JoiningNodeIsReady(cfg, t, input, i, e);
    } else if input.Message? {
      MessageIsQueued(cfg, t, input.payload, input.now, i, e);
    }
  }

  /** About a node that is not in the table nothing is written. */
  lemma NoNoticesOfOthers(cfg: Config, t: Table, input: Input)
    requires !input.Pass? && Find(t, input.id) == |t|
    ensures LinesFor(cfg, t, input) == []
  {
    if input.Joined? {
      JoiningNodeIsAdded(cfg, t, input);
    } else if input.Message? {
      UnknownNodeIsAdded(cfg, t, input.id, input.payload, input.now);
    }
  }

  // ----- And then -----

  /** LIST or JOIN of a class C node. */
  predicate Rejoining(input: Input, id: NodeId) {
    (input.Listed? || input.Joined?) && input.id == id && input.nodeclass == 2
  }

  /** A waiting node that is declared joined class C and not kicked: the next pass that comes to it writes its oldest
      frame if more than tx_delay seconds have passed since, and nothing if not. */
  lemma RejoinedNodeIsServed(cfg: Config, inputs: seq<Input>, joining: Input, more: seq<Input>, i: nat, e: Item,
                             now: int)
    requires AllLegal(inputs) && AllLegal(more) && Has(cfg, TableAfter(inputs), i, e) && Waiting(e)
    requires Rejoining(joining, e.nodeid) && AllLegal(inputs + [joining]) && NeverKicked(more, e.nodeid)
    requires Meanwhile(EventsTo(inputs + [joining], more, i), joining.now + cfg.txDelay)
    requires e.fifo + AllAccepted(EventsTo(inputs + [joining], more, i)) != []
    ensures AllLegal(inputs + [joining] + more)
    ensures SlotLine(cfg, TableAfter(inputs + [joining] + more)[i], now)
         == if now - joining.now > cfg.txDelay
            then [(e.fifo + AllAccepted(EventsTo(inputs + [joining], more, i)))[0] + "\r"] else []
  {
    var ev := Refresh(2, true, joining.now);
    TableAfterSnoc(inputs, joining);
    LogHas(cfg, TableAfter(inputs), i, e, ev);
    StateThen(cfg, inputs + [joining], more, i, Step(cfg, e, ev));
    RejoinedIsServed(cfg, e, joining.now, EventsTo(inputs + [joining], more, i), now);
  }

  /** A class A node with something announced that asks and is not kicked: the next pass that comes to it with a clock
      of more than tx_delay writes its oldest frame, for the first time or again. */
  lemma AskingNodeIsServed(cfg: Config, inputs: seq<Input>, asking: Input, more: seq<Input>, i: nat, e: Item, now: int)
    requires AllLegal(inputs) && AllLegal(more) && Has(cfg, TableAfter(inputs), i, e)
    requires e.nodeclass == 0 && e.numPending > 0 && e.numRetries <= 5 && NeverKicked(more, e.nodeid)
    requires asking.Requested? && asking.id == e.nodeid && AllLegal(inputs + [asking])
    requires Pressing(EventsTo(inputs + [asking], more, i), cfg.txDelay)
    requires e.fifo + AllAccepted(EventsTo(inputs + [asking], more, i)) != []
    ensures AllLegal(inputs + [asking] + more)
    ensures SlotLine(cfg, TableAfter(inputs + [asking] + more)[i], now)
         == if now > cfg.txDelay
            then [(e.fifo + AllAccepted(EventsTo(inputs + [asking], more, i)))[0] + "\r"] else []
  {
    var ev := PendingReq(asking.now);
    TableAfterSnoc(inputs, asking);
    LogHas(cfg, TableAfter(inputs), i, e, ev);
    StateThen(cfg, inputs + [asking], more, i, Step(cfg, e, ev));
    RequestIsAnswered(cfg, e, asking.now, EventsTo(inputs + [asking], more, i), now);
  }

  // ----- Invitations before data -----

  predicate AllInvitations(told: seq<Entry>, i: nat, id: NodeId) {
    forall k :: 0 <= k < |told| ==> told[k].Join? && told[k].slot == i && told[k].id == id
  }

  predicate NoAnswer(tr: seq<Event>) { forall k :: 0 <= k < |tr| ==> !Answers(tr[k]) }

  /** As long as a waiting node does not answer, all that is written about it is invitations of it. */
  lemma {:induction false} OnlyInvitations(cfg: Config, i: nat, e: Item, tr: seq<Event>)
    requires Waiting(e) && NoAnswer(tr)
    ensures AllInvitations(ToldOf(cfg, i, e, tr), i, e.nodeid) && Waiting(Run(cfg, e, tr))
  {
    if tr != [] {
      OnlyInvitations(cfg, i, e, Front(tr));
    }
  }

  /** Nothing has been done about a waiting node yet. */
  predicate Untried(s: Item) { Waiting(s) && s.numRetries == 0 && s.lastInv == 0 && s.fifo != [] }

  lemma FirstTry(cfg: Config, s: Item, ev: Event)
    requires Untried(s) && !Answers(ev)
    ensures Act(cfg, s, ev) == if ev.Visit? && ev.now > 0 then Invite else Idle
    ensures !(ev.Visit? && ev.now > 0) ==> Untried(Step(cfg, s, ev))
  {
  }

  /** And the first visit with a positive clock makes one. */
  lemma {:induction false} InvitedAtLast(cfg: Config, i: nat, e: Item, tr: seq<Event>)
    requires Untried(e) && NoAnswer(tr)
    ensures ToldOf(cfg, i, e, tr) == [] <==> NoPositiveVisit(tr)
    ensures NoPositiveVisit(tr) ==> Untried(Run(cfg, e, tr))
  {
    if tr != [] {
      InvitedAtLast(cfg, i, e, Front(tr));
      LastVisitCounts(tr);
      if NoPositiveVisit(Front(tr)) {
        FirstTry(cfg, Run(cfg, e, Front(tr)), Last(tr));
      }
    }
  }

  lemma LastVisitCounts(tr: seq<Event>)
    requires tr != []
    ensures NoPositiveVisit(tr) <==> NoPositiveVisit(Front(tr)) && !(Last(tr).Visit? && Last(tr).now > 0)
  {
    forall k | 0 <= k < |tr| - 1 ensures tr[k] == Front(tr)[k] {
    }
  }

  predicate NoPositiveVisit(tr: seq<Event>) { forall k :: 0 <= k < |tr| && tr[k].Visit? ==> tr[k].now <= 0 }

  /** A message for a node that is not in the table, from any state with a free slot: until the node answers or is
      kicked, all that the worker writes about its slot is invitations of it, and the first pass with a positive clock
      writes one. */
  lemma UnknownNodeIsInvited(cfg: Config, inputs: seq<Input>, message: Input, more: seq<Input>, i: nat)
    requires AllLegal(inputs) && AllLegal(more) && message.Message? && AllLegal(inputs + [message])
    requires Find(TableAfter(inputs), message.id) == MAX_PENDING_NODES
    requires i == FirstFree(TableAfter(inputs)) < MAX_PENDING_NODES
    requires NeverKicked(more, message.id) && NoAnswer(EventsTo(inputs + [message], more, i))
    ensures AllLegal(inputs + [message] + more)
    ensures About(Entries(cfg, inputs + [message]), i) <= About(Entries(cfg, inputs + [message] + more), i)
    ensures var told := About(Entries(cfg, inputs + [message] + more), i)
                        [|About(Entries(cfg, inputs + [message]), i)|..];
            && AllInvitations(told, i, message.id)
            && (told == [] <==> NoPositiveVisit(EventsTo(inputs + [message], more, i)))
  {
    var e := Item(message.id, [Hex.IndFrame(message.id, message.payload)], 0, 0, 2, true, false, 0, 0);
    var events := EventsTo(inputs + [message], more, i);
    TableAfterSnoc(inputs, message);
    UnknownNodeIsAdded(cfg, TableAfter(inputs), message.id, message.payload, message.now);
    StateThen(cfg, inputs + [message], [], i, e);
    assert inputs + [message] + [] == inputs + [message];
    WrittenSince(cfg, inputs + [message], more, i, e);
    OnlyInvitations(cfg, i, e, events);
    InvitedAtLast(cfg, i, e, events);
    var before, told := About(Entries(cfg, inputs + [message]), i), ToldOf(cfg, i, e, events);
    assert (before + told)[|before|..] == told;
  }
}
