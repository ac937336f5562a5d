/** What each field of a slot says about the past, field by field, and when the worker acts in those terms. A slot is
    a function of its history alone. */
module Remembered {
  import opened Downlink
  import opened Lifetimes

  /** The class the node was last declared to have. */
  function Declared(e: Item, tr: seq<Event>): Word16 {
    if tr == [] then e.nodeclass
    else if Last(tr).Refresh? then Last(tr).nodeclass
    else Declared(e, Front(tr))
  }

  /** What the worker did at the last event. */
  function LastAct(cfg: Config, e: Item, tr: seq<Event>): Action
    requires tr != []
  {
    Act(cfg, Run(cfg, e, Front(tr)), Last(tr))
  }

  /** Transmissions or invitations since the counter was last reset; the transmission that hands a node over to the
      inviting counts as the first attempt of the latter. */
  function Attempts(cfg: Config, e: Item, tr: seq<Event>): nat
    decreases |tr|, 1
  {
    if tr == [] then e.numRetries
    else
      var before, act := Attempts(cfg, e, Front(tr)), LastAct(cfg, e, tr);
      if Last(tr).Ack? || Last(tr).Refresh? || act.GiveUp? then 0
      else if HandsOver(cfg, e, tr) then 1
      else if act.Send? || act.Invite? then before + 1
      else before
  }

  /** The last event is the tx_maxretr-th transmission of a frame to a class C node. */
  predicate HandsOver(cfg: Config, e: Item, tr: seq<Event>)
    requires tr != []
    decreases |tr|, 0
  {
    && LastAct(cfg, e, tr).Send? && Declared(e, Front(tr)) == 2
    && Attempts(cfg, e, Front(tr)) + 1 == cfg.txMaxretr
  }

  /** The last event is LIST or JOIN of a class C node. */
  predicate Rejoins(tr: seq<Event>)
    requires tr != []
  {
    Last(tr).Refresh? && Last(tr).nodeclass == 2 && Last(tr).wasJoined
  }

  /** The node was handed over to the inviting, and neither ACK nor LIST or JOIN as class C has come since. */
  function Invited(cfg: Config, e: Item, tr: seq<Event>): bool {
    if tr == [] then e.hasBeenInvited
    else if Last(tr).Ack? || Rejoins(tr) then false
    else HandsOver(cfg, e, tr) || Invited(cfg, e, Front(tr))
  }

  /** Frames announced to a class A node and not acknowledged, in 16 bits. */
  function Announced(e: Item, tr: seq<Event>): int {
    if tr == [] then e.numPending
    else
      var before := Announced(e, Front(tr));
      if Last(tr).Enqueue? && Declared(e, Front(tr)) == 0 then (before + 1) % 65536
      else if Last(tr).Ack? && before > 0 then before - 1
      else before
  }

  /** The last event is a request that counts. */
  predicate Asks(e: Item, tr: seq<Event>)
    requires tr != []
  {
    Last(tr).PendingReq? && Declared(e, Front(tr)) == 0 && Announced(e, Front(tr)) > 0
  }

  /** A request has been made that no transmission has answered yet. */
  function Permitted(cfg: Config, e: Item, tr: seq<Event>): bool {
    if tr == [] then e.canSend
    else Asks(e, tr) || (Permitted(cfg, e, Front(tr)) && !LastAct(cfg, e, tr).Send?)
  }

  /** When the last transmission or rejoin was, or 0 after a request. */
  function LastMessage(cfg: Config, e: Item, tr: seq<Event>): int {
    if tr == [] then e.lastMsg
    else if LastAct(cfg, e, tr).Send? || (Rejoins(tr) && Invited(cfg, e, Front(tr))) then Last(tr).now
    else if Asks(e, tr) then 0
    else LastMessage(cfg, e, Front(tr))
  }

  /** When the last invitation was, or the transmission that led to inviting. */
  function LastInvitation(cfg: Config, e: Item, tr: seq<Event>): int {
    if tr == [] then e.lastInv
    else if LastAct(cfg, e, tr).Invite? || HandsOver(cfg, e, tr) then Last(tr).now
    else LastInvitation(cfg, e, Front(tr))
  }

  /** What is queued: all that was accepted but for what has left. */
  function Queued(cfg: Config, e: Item, tr: seq<Event>): seq<string> {
    var all, gone := e.fifo + AllAccepted(tr), |AllRemoved(cfg, e, tr)|;
    if gone <= |all| then all[gone..] else []
  }

  lemma QueueIsQueued(cfg: Config, e: Item, tr: seq<Event>)
    ensures Run(cfg, e, tr).fifo == Queued(cfg, e, tr)
  {
    FifoConservation(cfg, e, tr);
  }

  lemma {:induction false} ClassIsDeclared(cfg: Config, e: Item, tr: seq<Event>)
    ensures Run(cfg, e, tr).nodeid == e.nodeid && Run(cfg, e, tr).nodeclass == Declared(e, tr)
  {
    if tr != [] {
      ClassIsDeclared(cfg, e, Front(tr));
    }
  }

  lemma {:induction false} AttemptsAreCounted(cfg: Config, e: Item, tr: seq<Event>)
    ensures Run(cfg, e, tr).numRetries == Attempts(cfg, e, tr)
  {
    if tr != [] {
      AttemptsAreCounted(cfg, e, Front(tr));
      ClassIsDeclared(cfg, e, Front(tr));
    }
  }

  /** One event, as far as announcements, invitations and times go. */
  lemma StepSays(cfg: Config, s: Item, ev: Event)
    ensures Step(cfg, s, ev).numPending
         == if ev.Enqueue? && s.nodeclass == 0 then (s.numPending + 1) % 65536
            else if ev.Ack? && s.numPending > 0 then s.numPending - 1
            else s.numPending
    ensures Step(cfg, s, ev).lastMsg
         == if Act(cfg, s, ev).Send? then ev.now
            else if ev.Refresh? && ev.nodeclass == 2 && ev.wasJoined && s.hasBeenInvited then ev.now
            else if ev.PendingReq? && s.nodeclass == 0 && s.numPending > 0 then 0
            else s.lastMsg
    ensures Step(cfg, s, ev).lastInv
         == if Act(cfg, s, ev).Invite? then ev.now
            else if Act(cfg, s, ev).Send? && s.nodeclass == 2 && s.numRetries + 1 == cfg.txMaxretr then ev.now
            else s.lastInv
    ensures Step(cfg, s, ev).hasBeenInvited
       <==> && !ev.Ack? && !(ev.Refresh? && ev.nodeclass == 2 && ev.wasJoined)
            && (s.hasBeenInvited
                || (Act(cfg, s, ev).Send? && s.nodeclass == 2 && s.numRetries + 1 == cfg.txMaxretr))
  {
  }

  lemma {:induction false} AnnouncedIsCounted(cfg: Config, e: Item, tr: seq<Event>)
    ensures Run(cfg, e, tr).numPending == Announced(e, tr)
  {
    if tr != [] {
      AnnouncedIsCounted(cfg, e, Front(tr));
      ClassIsDeclared(cfg, e, Front(tr));
      StepSays(cfg, Run(cfg, e, Front(tr)), Last(tr));
    }
  }

  lemma {:induction false} InvitationIsRemembered(cfg: Config, e: Item, tr: seq<Event>)
    ensures Run(cfg, e, tr).hasBeenInvited == Invited(cfg, e, tr)
  {
    if tr != [] {
      InvitationIsRemembered(cfg, e, Front(tr));
      AttemptsAreCounted(cfg, e, Front(tr));
      ClassIsDeclared(cfg, e, Front(tr));
      StepSays(cfg, Run(cfg, e, Front(tr)), Last(tr));
    }
  }

  lemma {:induction false} PermitIsRemembered(cfg: Config, e: Item, tr: seq<Event>)
    ensures Run(cfg, e, tr).canSend == Permitted(cfg, e, tr)
  {
    if tr != [] {
      PermitIsRemembered(cfg, e, Front(tr));
      AnnouncedIsCounted(cfg, e, Front(tr));
      ClassIsDeclared(cfg, e, Front(tr));
    }
  }

  lemma {:induction false} MessageIsRemembered(cfg: Config, e: Item, tr: seq<Event>)
    ensures Run(cfg, e, tr).lastMsg == LastMessage(cfg, e, tr)
  {
    if tr != [] {
      MessageIsRemembered(cfg, e, Front(tr));
      InvitationIsRemembered(cfg, e, Front(tr));
      AnnouncedIsCounted(cfg, e, Front(tr));
      ClassIsDeclared(cfg, e, Front(tr));
      StepSays(cfg, Run(cfg, e, Front(tr)), Last(tr));
    }
  }

  lemma {:induction false} InvitingIsRemembered(cfg: Config, e: Item, tr: seq<Event>)
    ensures Run(cfg, e, tr).lastInv == LastInvitation(cfg, e, tr)
  {
    if tr != [] {
      InvitingIsRemembered(cfg, e, Front(tr));
      AttemptsAreCounted(cfg, e, Front(tr));
      ClassIsDeclared(cfg, e, Front(tr));
      StepSays(cfg, Run(cfg, e, Front(tr)), Last(tr));
    }
  }

  /** Every field of a slot after any events is what it says about them. */
  lemma SlotIsItsHistory(cfg: Config, e: Item, tr: seq<Event>)
    ensures 0 <= Announced(e, tr) < 65536
    ensures Run(cfg, e, tr)
         == Item(e.nodeid, Queued(cfg, e, tr), LastMessage(cfg, e, tr), LastInvitation(cfg, e, tr), Declared(e, tr),
                 Invited(cfg, e, tr), Permitted(cfg, e, tr), Attempts(cfg, e, tr), Announced(e, tr))
  {
    QueueIsQueued(cfg, e, tr);
    ClassIsDeclared(cfg, e, tr);
    AttemptsAreCounted(cfg, e, tr);
    AnnouncedIsCounted(cfg, e, tr);
    InvitationIsRemembered(cfg, e, tr);
    PermitIsRemembered(cfg, e, tr);
    MessageIsRemembered(cfg, e, tr);
    InvitingIsRemembered(cfg, e, tr);
  }

  // ----- When the worker acts -----

  /** The node was told to join and has not answered. */
  predicate Absent(cfg: Config, e: Item, tr: seq<Event>) { Declared(e, tr) == 2 && Invited(cfg, e, tr) }

  /** Data is due: the node is there, in class A it has asked, and the last message is more than tx_delay ago. */
  predicate Due(cfg: Config, e: Item, tr: seq<Event>, now: int) {
    && !Absent(cfg, e, tr) && (Declared(e, tr) == 0 ==> Permitted(cfg, e, tr))
    && now - LastMessage(cfg, e, tr) > cfg.txDelay
  }

  /** A frame is sent exactly when data is due and it has been sent at most five times; it is the oldest one left. */
  lemma SendsExactlyWhen(cfg: Config, e: Item, tr: seq<Event>, now: int)
    ensures Act(cfg, Run(cfg, e, tr), Visit(now)).Send?
       <==> Queued(cfg, e, tr) != [] && Due(cfg, e, tr, now) && Attempts(cfg, e, tr) <= 5
    ensures Act(cfg, Run(cfg, e, tr), Visit(now)).Send?
        ==> Act(cfg, Run(cfg, e, tr), Visit(now)).frame == Queued(cfg, e, tr)[0]
  {
    SlotIsItsHistory(cfg, e, tr);
  }

  /** An invitation goes out exactly when the node is absent, something is queued, and 45 seconds for each of at most
      five attempts have passed. */
  lemma InvitesExactlyWhen(cfg: Config, e: Item, tr: seq<Event>, now: int)
    ensures Act(cfg, Run(cfg, e, tr), Visit(now)).Invite?
       <==> && Queued(cfg, e, tr) != [] && Absent(cfg, e, tr) && Attempts(cfg, e, tr) <= 5
            && now - LastInvitation(cfg, e, tr) > 45 * Attempts(cfg, e, tr)
  {
    SlotIsItsHistory(cfg, e, tr);
  }

  /** A frame is given up exactly when six attempts have been made and the node is absent or data is due. */
  lemma GivesUpExactlyWhen(cfg: Config, e: Item, tr: seq<Event>, now: int)
    ensures Act(cfg, Run(cfg, e, tr), Visit(now)).GiveUp?
       <==> && Queued(cfg, e, tr) != [] && Attempts(cfg, e, tr) > 5
            && (Absent(cfg, e, tr) || Due(cfg, e, tr, now))
  {
    SlotIsItsHistory(cfg, e, tr);
  }
}
