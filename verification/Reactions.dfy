/** What must follow an event: a rejoined node is served, a request is answered, an absent node is invited. */
module Reactions {
  import opened Downlink
  import opened Lifetimes
  import opened SilentRun

  // ----- Waiting -----

  /** Exactly the answers of a node end its waiting. */
  lemma WaitingEnds(cfg: Config, s: Item, ev: Event)
    requires Waiting(s)
    ensures Waiting(Step(cfg, s, ev)) <==> !Answers(ev)
  {
  }

  /** And exactly two things begin it: the tx_maxretr-th transmission to a class C node, and the declaration as class C
      of a node that did not join after it had been invited. */
  lemma WaitingBegins(cfg: Config, s: Item, ev: Event)
    requires !Waiting(s)
    ensures Waiting(Step(cfg, s, ev))
       <==> || (Act(cfg, s, ev).Send? && s.nodeclass == 2 && s.numRetries + 1 == cfg.txMaxretr)
            || (ev.Refresh? && ev.nodeclass == 2 && !ev.wasJoined && s.hasBeenInvited)
  {
  }

  /** Along any events an absent node stays absent exactly until the first answer. */
  lemma {:induction false} AbsentUntilAnswer(cfg: Config, e: Item, tr: seq<Event>)
    requires Waiting(e) && forall k :: 0 <= k < |tr| ==> !(Answers(tr[k]) && k < |tr| - 1)
    ensures Waiting(Run(cfg, e, tr)) <==> tr == [] || !Answers(Last(tr))
  {
    if tr != [] {
      var before := Front(tr);
      forall k | 0 <= k < |before| ensures !Answers(before[k]) {
        assert before[k] == tr[k];
      }
      AbsentUntilAnswer(cfg, e, before);
      WaitingEnds(cfg, Run(cfg, e, before), Last(tr));
    }
  }

  // ----- A node rejoins -----

  /** Nothing but new frames, and visits no later than `until`. */
  predicate Meanwhile(tr: seq<Event>, until: int) {
    forall k :: 0 <= k < |tr| ==> tr[k].Enqueue? || (tr[k].Visit? && tr[k].now <= until)
  }

  /** What a node is from its rejoining to the end of the pause that follows. */
  predicate Pausing(s: Item, since: int, queue: seq<string>) {
    s.nodeclass == 2 && !s.hasBeenInvited && s.numRetries == 0 && s.lastMsg == since && s.fifo == queue
  }

  lemma {:induction false} PauseLasts(cfg: Config, e: Item, tr: seq<Event>, since: int)
    requires Pausing(e, since, e.fifo) && Meanwhile(tr, since + cfg.txDelay)
    ensures Pausing(Run(cfg, e, tr), since, e.fifo + AllAccepted(tr))
    ensures Count(cfg, e, tr, Sends) == 0 == Count(cfg, e, tr, Invitations)
  {
    if tr == [] {
      assert e.fifo + AllAccepted(tr) == e.fifo;
    } else {
      PauseLasts(cfg, e, Front(tr), since);
      if Last(tr).Visit? {
        assert AllAccepted(tr) == AllAccepted(Front(tr));
      }
    }
  }

  /** A waiting node that is declared joined class C: within tx_delay nothing is written to it, and the first visit
      after that sends what has been queued longest, and would have done so at no earlier time. */
  lemma RejoinedIsServed(cfg: Config, s: Item, joined: int, tr: seq<Event>, now: int)
    requires Waiting(s) && Meanwhile(tr, joined + cfg.txDelay) && s.fifo + AllAccepted(tr) != []
    ensures var e := Step(cfg, s, Refresh(2, true, joined));
            && Count(cfg, e, tr, Sends) == 0 == Count(cfg, e, tr, Invitations)
            && Act(cfg, Run(cfg, e, tr), Visit(now))
               == if now - joined > cfg.txDelay then Send((s.fifo + AllAccepted(tr))[0]) else Idle
  {
    PauseLasts(cfg, Step(cfg, s, Refresh(2, true, joined)), tr, joined);
  }

  /** An ACK makes the next frame the one to be sent, afresh, as soon as tx_delay has passed since the last message;
      nobody waits any more. In class A that takes a request too. */
  lemma AcknowledgedIsServed(cfg: Config, s: Item, acked: int, now: int)
    requires |s.fifo| >= 2
    ensures var e := Step(cfg, s, Ack(acked));
            && Act(cfg, e, Visit(now))
               == (if now - s.lastMsg > cfg.txDelay && (s.nodeclass == 0 ==> s.canSend) then Send(s.fifo[1]) else Idle)
            && e.fifo == s.fifo[1..] && e.numRetries == 0 && e.lastMsg == s.lastMsg
            && e.nodeclass == s.nodeclass && e.canSend == s.canSend
  {
  }

  // ----- A class A node asks -----

  /** Nothing but new frames, more requests, and visits no later than `until`. */
  predicate Pressing(tr: seq<Event>, until: int) {
    forall k :: 0 <= k < |tr| ==> tr[k].Enqueue? || tr[k].PendingReq? || (tr[k].Visit? && tr[k].now <= until)
  }

  lemma {:induction false} RequestStands(cfg: Config, s: Item, tr: seq<Event>)
    requires s.nodeclass == 0 && s.canSend && s.lastMsg == 0 && Pressing(tr, cfg.txDelay)
    ensures var e := Run(cfg, s, tr);
            && e.nodeclass == 0 && e.canSend && e.lastMsg == 0 && e.numRetries == s.numRetries
            && e.fifo == s.fifo + AllAccepted(tr)
  {
    if tr == [] {
      assert s.fifo + AllAccepted(tr) == s.fifo;
    } else {
      RequestStands(cfg, s, Front(tr));
    }
  }

  /** A request of a class A node with something announced stands, whatever is queued or asked besides, and is answered
      at the first visit whose clock shows more than tx_delay; a frame sent before is sent again, up to five times. */
  lemma RequestIsAnswered(cfg: Config, s: Item, asked: int, tr: seq<Event>, now: int)
    requires s.nodeclass == 0 && s.numPending > 0 && s.numRetries <= 5
    requires Pressing(tr, cfg.txDelay) && s.fifo + AllAccepted(tr) != []
    ensures Act(cfg, Run(cfg, Step(cfg, s, PendingReq(asked)), tr), Visit(now))
         == if now > cfg.txDelay then Send((s.fifo + AllAccepted(tr))[0]) else Idle
  {
    RequestStands(cfg, Step(cfg, s, PendingReq(asked)), tr);
  }

  /** A request changes nothing exactly when the node is not class A, has nothing announced, or has just asked. */
  lemma OtherRequestsAreIgnored(cfg: Config, s: Item, asked: int)
    ensures Step(cfg, s, PendingReq(asked)) == s
       <==> s.nodeclass != 0 || s.numPending == 0 || (s.canSend && s.lastMsg == 0)
  {
  }

  /** A request and the visit after it. */
  datatype Round = Round(asked: int, seen: int)

  function RoundEvents(rounds: seq<Round>): seq<Event> {
    if rounds == [] then []
    else RoundEvents(Front(rounds)) + [PendingReq(Last(rounds).asked), Visit(Last(rounds).seen)]
  }

  lemma TwoMore(cfg: Config, e: Item, tr: seq<Event>, a: Event, b: Event)
    ensures Run(cfg, e, tr + [a, b]) == Step(cfg, Step(cfg, Run(cfg, e, tr), a), b)
  {
    RunSnoc(cfg, e, tr, a);
    RunSnoc(cfg, e, tr + [a], b);
    assert tr + [a, b] == (tr + [a]) + [b];
  }

  /** A class A node that asks before every visit and never acknowledges. */
  predicate Asking(cfg: Config, e: Item, rounds: seq<Round>) {
    && e.nodeclass == 0 && e.numPending > 0 && e.numRetries == 0 && |rounds| <= 7 * |e.fifo|
    && forall k :: 0 <= k < |rounds| ==> rounds[k].seen > cfg.txDelay
  }

  /** One round: another transmission, or after the sixth the end of the frame. */
  lemma RoundStep(cfg: Config, s: Item, round: Round)
    requires s.nodeclass == 0 && s.numPending > 0 && s.numRetries <= 6 && s.fifo != [] && round.seen > cfg.txDelay
    ensures var s' := Step(cfg, Step(cfg, s, PendingReq(round.asked)), Visit(round.seen));
            && s'.nodeclass == 0 && s'.numPending == s.numPending
            && s'.numRetries == (if s.numRetries < 6 then s.numRetries + 1 else 0)
            && s'.fifo == if s.numRetries < 6 then s.fifo else s.fifo[1..]
  {
  }

  lemma OneMoreInSeven(n: nat)
    ensures (n + 1) % 7 == (if n % 7 < 6 then n % 7 + 1 else 0)
    ensures (n + 1) / 7 == if n % 7 < 6 then n / 7 else n / 7 + 1
  {
  }

  lemma {:induction false} AfterRounds(cfg: Config, e: Item, rounds: seq<Round>)
    requires Asking(cfg, e, rounds)
    ensures var s, n := Run(cfg, e, RoundEvents(rounds)), |rounds|;
            && s.nodeclass == 0 && s.numPending == e.numPending
            && s.numRetries == n % 7 && s.fifo == e.fifo[n / 7..]
  {
    if rounds != [] {
      var n, before, last := |rounds| - 1, RoundEvents(Front(rounds)), Last(rounds);
      AfterRounds(cfg, e, Front(rounds));
      TwoMore(cfg, e, before, PendingReq(last.asked), Visit(last.seen));
      RoundStep(cfg, Run(cfg, e, before), last);
      OneMoreInSeven(n);
    }
  }

  /** What the worker does in each round: every frame in turn is sent six times and given up at the seventh. */
  lemma RequestedFramesAreSent(cfg: Config, e: Item, rounds: seq<Round>, k: nat)
    requires Asking(cfg, e, rounds) && k < |rounds|
    ensures var s := Step(cfg, Run(cfg, e, RoundEvents(rounds[..k])), PendingReq(rounds[k].asked));
            Act(cfg, s, Visit(rounds[k].seen)) == if k % 7 < 6 then Send(e.fifo[k / 7]) else GiveUp
  {
    AfterRounds(cfg, e, rounds[..k]);
    assert k / 7 < |e.fifo|;
  }

  // ----- A node that has to be invited first -----

  /** A node added for a message: it is invited at the first visit with a positive clock. */
  lemma NewcomerIsInvited(cfg: Config, id: NodeId, frames: seq<string>, now: int)
    requires frames != []
    ensures Act(cfg, Item(id, frames, 0, 0, 2, true, false, 0, 0), Visit(now)) == if now > 0 then Invite else Idle
  {
  }

  /** As long as it does not answer it is invited six times for every frame, each of which is then given up without
      ever being sent. */
  lemma SilentNewcomer(cfg: Config, e: Item, tr: seq<Event>, left: nat)
    requires Waiting(e) && e.numRetries == 0 && Silent(tr) && Run(cfg, e, tr).fifo == []
    ensures Count(cfg, e, tr, SendsAt(left)) == 0
    ensures Count(cfg, e, tr, Invitations) == 6 * |e.fifo| && Count(cfg, e, tr, GiveUps) == |e.fifo|
  {
    SilentCount(cfg, e, tr, left);
  }
}
