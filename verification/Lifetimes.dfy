/** Statements about the whole life of a slot, for every sequence of events that can reach it. */
module Lifetimes {
  import opened Downlink

  // ----- Counting what happens along a run -----

  datatype Kind =
    | Sends
    | SendsAt(left: nat)  // transmissions made while exactly `left` frames are queued
    | ClassASends
    | Invitations
    | GiveUps
    | Resets              // num_retries goes back to 0
    | Permits             // accepted PENDING_REQ replies
    | SpareAcks           // acknowledgements of an empty queue that still lower num_pending
    | Enqueues

  predicate Is(cfg: Config, e: Item, ev: Event, kind: Kind) {
    var action := Act(cfg, e, ev);
    match kind
    case Sends => action.Send?
    case SendsAt(left) => action.Send? && |e.fifo| == left
    case ClassASends => action.Send? && e.nodeclass == CLASS_A
    case Invitations => action.Invite?
    case GiveUps => action.GiveUp?
    case Resets => action.GiveUp? || ev.Ack? || ev.Refresh?
    case Permits => ev.PendingReq? && Accepts(e)
    case SpareAcks => ev.Ack? && e.fifo == [] && e.numPending > 0
    case Enqueues => ev.Enqueue?
  }

  function Count(cfg: Config, e: Item, tr: seq<Event>, kind: Kind): nat {
    if tr == [] then 0
    else
      var before := Front(tr);
      Count(cfg, e, before, kind) + if Is(cfg, Run(cfg, e, before), Last(tr), kind) then 1 else 0
  }

  // ----- First in, first out -----

  /** The frame an event takes off the queue, if any. */
  function Removed(cfg: Config, e: Item, ev: Event): seq<string> {
    if e.fifo != [] && (ev.Ack? || Act(cfg, e, ev).GiveUp?) then [e.fifo[0]] else []
  }

  /** All frames taken off the queue by ACK or give-up, in the order they left. */
  function AllRemoved(cfg: Config, e: Item, tr: seq<Event>): seq<string> {
    if tr == [] then []
    else AllRemoved(cfg, e, Front(tr)) + Removed(cfg, Run(cfg, e, Front(tr)), Last(tr))
  }

  /** All frames accepted into the queue, in the order they came. */
  function AllAccepted(tr: seq<Event>): seq<string> {
    if tr == [] then []
    else AllAccepted(Front(tr)) + if Last(tr).Enqueue? then [Last(tr).frame] else []
  }

  lemma QueueStep(cfg: Config, e: Item, ev: Event)
    ensures e.fifo + (if ev.Enqueue? then [ev.frame] else []) == Removed(cfg, e, ev) + Step(cfg, e, ev).fifo
  {
    assert e.fifo != [] ==> e.fifo == [e.fifo[0]] + e.fifo[1..];
  }

  lemma QueueMoves<T>(start: seq<T>, accepted: seq<T>, gone: seq<T>, queue: seq<T>,
                      added: seq<T>, removed: seq<T>, rest: seq<T>)
    requires start + accepted == gone + queue && queue + added == removed + rest
    ensures start + (accepted + added) == (gone + removed) + rest
  {
    assert start + (accepted + added) == (start + accepted) + added;
    assert (gone + queue) + added == gone + (queue + added);
    assert gone + (removed + rest) == (gone + removed) + rest;
  }

  /** What was queued at the start followed by what was accepted since is what left, in order,
      followed by what is still queued. */
  lemma {:induction false} FifoConservation(cfg: Config, e: Item, tr: seq<Event>)
    ensures e.fifo + AllAccepted(tr) == AllRemoved(cfg, e, tr) + Run(cfg, e, tr).fifo
  {
    if tr == [] {
      assert e.fifo + AllAccepted(tr) == e.fifo;
    } else {
      var before, s, ev := Front(tr), Run(cfg, e, Front(tr)), Last(tr);
      FifoConservation(cfg, e, before);
      QueueStep(cfg, s, ev);
      QueueMoves(e.fifo, AllAccepted(before), AllRemoved(cfg, e, before), s.fifo,
                 if ev.Enqueue? then [ev.frame] else [], Removed(cfg, s, ev), Step(cfg, s, ev).fifo);
    }
  }

  /** History is only ever extended. */
  lemma {:induction false} HistoryGrows(cfg: Config, e: Item, tr: seq<Event>, k: nat)
    requires k <= |tr|
    ensures AllRemoved(cfg, e, tr[..k]) <= AllRemoved(cfg, e, tr)
    ensures AllAccepted(tr[..k]) <= AllAccepted(tr)
  {
    if k == |tr| {
      assert tr[..k] == tr;
    } else {
      HistoryGrows(cfg, e, Front(tr), k);
      assert Front(tr)[..k] == tr[..k];
    }
  }

  /** A frame sent at step k is the one, in order of acceptance, that follows everything removed so far. */
  lemma SentIsNextInOrder(cfg: Config, e: Item, tr: seq<Event>, k: nat)
    requires k < |tr| && Act(cfg, Run(cfg, e, tr[..k]), tr[k]).Send?
    ensures var all, gone := e.fifo + AllAccepted(tr), AllRemoved(cfg, e, tr[..k]);
            && |gone| < |all|
            && gone == all[..|gone|]
            && Act(cfg, Run(cfg, e, tr[..k]), tr[k]).frame == all[|gone|]
  {
    FifoConservation(cfg, e, tr[..k]);
    HistoryGrows(cfg, e, tr, k);
    var sofar := e.fifo + AllAccepted(tr[..k]);
    var all, gone := e.fifo + AllAccepted(tr), AllRemoved(cfg, e, tr[..k]);
    assert sofar <= all && gone <= sofar;
    assert sofar[|gone|] == Run(cfg, e, tr[..k]).fifo[0];
  }

  /** Transmissions follow the order of acceptance: positions never go back, and when a later frame is sent
      every earlier one has already left the queue by ACK or give-up. */
  lemma SendsAreInOrder(cfg: Config, e: Item, tr: seq<Event>, i: nat, j: nat)
    requires i < j < |tr|
    requires Act(cfg, Run(cfg, e, tr[..i]), tr[i]).Send? && Act(cfg, Run(cfg, e, tr[..j]), tr[j]).Send?
    ensures var all := e.fifo + AllAccepted(tr);
            var p, q := |AllRemoved(cfg, e, tr[..i])|, |AllRemoved(cfg, e, tr[..j])|;
            && p <= q < |all|
            && Act(cfg, Run(cfg, e, tr[..i]), tr[i]).frame == all[p]
            && Act(cfg, Run(cfg, e, tr[..j]), tr[j]).frame == all[q]
            && AllRemoved(cfg, e, tr[..j]) == all[..q]
  {
    SentIsNextInOrder(cfg, e, tr, i);
    SentIsNextInOrder(cfg, e, tr, j);
    assert tr[..j][..i] == tr[..i];
    HistoryGrows(cfg, e, tr[..j], i);
  }

  // ----- Retries -----

  /** The counter, an unbounded `nat` here, stays far below the width of the C field. */
  lemma {:induction false} RetriesBounded(cfg: Config, e: Item, tr: seq<Event>)
    requires e.numRetries <= NUM_RETRIES + 1
    ensures Run(cfg, e, tr).numRetries <= NUM_RETRIES + 1
  {
    if tr != [] {
      RetriesBounded(cfg, e, Front(tr));
    }
  }

  /** Between two resets of the counter at most NUM_RETRIES + 1 transmissions reach the node, whatever
      tx_maxretr is and although an invitation winds the counter back to 1. */
  lemma {:induction false} SendsBetweenResets(cfg: Config, e: Item, tr: seq<Event>)
    requires Count(cfg, e, tr, Resets) == 0
    ensures Count(cfg, e, tr, Sends) <= NUM_RETRIES + 1
    ensures !Waiting(Run(cfg, e, tr)) ==> Count(cfg, e, tr, Sends) <= Run(cfg, e, tr).numRetries
  {
    if tr != [] {
      SendsBetweenResets(cfg, e, Front(tr));
    }
  }

  // ----- Timing -----

  /** The node is not class A at the start and is never declared class A. */
  predicate NeverClassA(e: Item, tr: seq<Event>) {
    e.nodeclass != CLASS_A && forall i :: 0 <= i < |tr| && tr[i].Refresh? ==> tr[i].nodeclass != CLASS_A
  }

  lemma {:induction false} StaysOutOfClassA(cfg: Config, e: Item, tr: seq<Event>)
    requires NeverClassA(e, tr)
    ensures Run(cfg, e, tr).nodeclass != CLASS_A
  {
    if tr != [] {
      StaysOutOfClassA(cfg, e, Front(tr));
    }
  }

  /** The event moves last_inv to the present: an invitation, or the transmission that ends in one. */
  predicate StartsBackOff(cfg: Config, s: Item, ev: Event) {
    || Act(cfg, s, ev).Invite?
    || (Act(cfg, s, ev).Send? && Waiting(Step(cfg, s, ev)))
  }

  /** One event leaves a timestamp where it is or moves it to the present, except for the request of a class A node. */
  lemma TimestampStep(cfg: Config, s: Item, ev: Event)
    ensures Step(cfg, s, ev).lastInv == s.lastInv || Step(cfg, s, ev).lastInv == ev.now
    ensures s.nodeclass != CLASS_A ==> Step(cfg, s, ev).lastMsg == s.lastMsg || Step(cfg, s, ev).lastMsg == ev.now
    ensures StartsBackOff(cfg, s, ev) ==> Step(cfg, s, ev).lastInv == ev.now
    ensures Act(cfg, s, ev).Send? ==> Step(cfg, s, ev).lastMsg == ev.now
  {
  }

  /** After an invitation or a transmission the corresponding timestamp never falls behind it again. */
  lemma {:induction false} TimestampsAfter(cfg: Config, e: Item, tr: seq<Event>, i: nat, j: nat)
    requires Timed(tr) && i < j <= |tr|
    ensures StartsBackOff(cfg, Run(cfg, e, tr[..i]), tr[i]) ==> Run(cfg, e, tr[..j]).lastInv >= tr[i].now
    ensures Act(cfg, Run(cfg, e, tr[..i]), tr[i]).Send? && NeverClassA(e, tr)
        ==> Run(cfg, e, tr[..j]).lastMsg >= tr[i].now
    decreases j
  {
    assert Front(tr[..j]) == tr[..j - 1] && Last(tr[..j]) == tr[j - 1];
    TimestampStep(cfg, Run(cfg, e, tr[..j - 1]), tr[j - 1]);
    if i < j - 1 {
      TimestampsAfter(cfg, e, tr, i, j - 1);
      if NeverClassA(e, tr) {
        StaysOutOfClassA(cfg, e, tr[..j - 1]);
      }
    }
  }

  /** Any two transmissions to a node that is never class A are more than tx_delay seconds apart, whatever
      else happens between them: ACK, give-up, invitation or rejoin. */
  lemma SendsAreSpaced(cfg: Config, e: Item, tr: seq<Event>, i: nat, j: nat)
    requires Timed(tr) && NeverClassA(e, tr) && i < j < |tr|
    requires Act(cfg, Run(cfg, e, tr[..i]), tr[i]).Send? && Act(cfg, Run(cfg, e, tr[..j]), tr[j]).Send?
    ensures tr[j].now - tr[i].now > cfg.txDelay
  {
    TimestampsAfter(cfg, e, tr, i, j);
    StaysOutOfClassA(cfg, e, tr[..j]);
  }

  /** An invitation made at retry count n comes more than 45 n seconds after every earlier invitation and
      after every earlier transmission that put the node on the waiting list. */
  lemma InvitationsBackOff(cfg: Config, e: Item, tr: seq<Event>, i: nat, j: nat)
    requires Timed(tr) && i < j < |tr|
    requires StartsBackOff(cfg, Run(cfg, e, tr[..i]), tr[i]) && Act(cfg, Run(cfg, e, tr[..j]), tr[j]).Invite?
    ensures tr[j].now - tr[i].now > INVITE_TIMEOUT_S * Run(cfg, e, tr[..j]).numRetries
  {
    TimestampsAfter(cfg, e, tr, i, j);
  }

  /** The node has answered, or was declared another class. */
  predicate Answers(ev: Event) {
    ev.Ack? || (ev.Refresh? && (ev.wasJoined || ev.nodeclass != CLASS_C))
  }

  /** No data frame goes to an invited class C node until JOIN, LIST or ACK arrives. */
  lemma {:induction false} InvitedNodeGetsNoData(cfg: Config, e: Item, tr: seq<Event>)
    requires Waiting(e) && forall k :: 0 <= k < |tr| ==> !Answers(tr[k])
    ensures Waiting(Run(cfg, e, tr)) && Count(cfg, e, tr, Sends) == 0
  {
    if tr != [] {
      InvitedNodeGetsNoData(cfg, e, Front(tr));
    }
  }

  // ----- Class A -----

  /** Transmissions made while the node is class A use up permits, one each. */
  lemma {:induction false} PermitsCoverSends(cfg: Config, e: Item, tr: seq<Event>)
    ensures Count(cfg, e, tr, ClassASends) + (if Run(cfg, e, tr).canSend then 1 else 0)
         <= Count(cfg, e, tr, Permits) + (if e.canSend then 1 else 0)
  {
    if tr != [] {
      PermitsCoverSends(cfg, e, Front(tr));
    }
  }

  /** Between two transmissions made while the node is class A there is a fresh accepted request. */
  lemma RequestBetweenClassASends(cfg: Config, e: Item, first: Event, between: seq<Event>, second: Event)
    requires Is(cfg, e, first, ClassASends)
    requires Is(cfg, Run(cfg, Step(cfg, e, first), between), second, ClassASends)
    ensures Count(cfg, Step(cfg, e, first), between, Permits) >= 1
  {
    PermitsCoverSends(cfg, Step(cfg, e, first), between);
  }

  /** The node is class A from the start and every LIST or JOIN says so again. */
  predicate AlwaysClassA(e: Item, tr: seq<Event>) {
    e.nodeclass == CLASS_A && forall i :: 0 <= i < |tr| && tr[i].Refresh? ==> tr[i].nodeclass == CLASS_A
  }

  /** num_pending is about to wrap around to 0. */
  predicate Wraps(cfg: Config, e: Item, tr: seq<Event>, k: nat)
    requires k < |tr|
  {
    tr[k].Enqueue? && Run(cfg, e, tr[..k]).numPending == WORD16_SIZE - 1
  }

  predicate NeverWraps(cfg: Config, e: Item, tr: seq<Event>) {
    forall k: nat :: k < |tr| ==> !Wraps(cfg, e, tr, k)
  }

  lemma NeverWrapsFront(cfg: Config, e: Item, tr: seq<Event>)
    requires tr != [] && NeverWraps(cfg, e, tr)
    ensures NeverWraps(cfg, e, Front(tr))
    ensures Last(tr).Enqueue? ==> Run(cfg, e, Front(tr)).numPending < WORD16_SIZE - 1
  {
    assert !Wraps(cfg, e, tr, |tr| - 1);
    forall k: nat | k < |Front(tr)| ensures !Wraps(cfg, e, Front(tr), k) {
      assert Front(tr)[..k] == tr[..k];
      assert !Wraps(cfg, e, tr, k);
    }
  }

  lemma ClassAStep(cfg: Config, s: Item, ev: Event)
    requires s.nodeclass == CLASS_A && |s.fifo| <= s.numPending
    requires ev.Enqueue? ==> s.numPending < WORD16_SIZE - 1
    requires ev.Refresh? ==> ev.nodeclass == CLASS_A
    ensures var s' := Step(cfg, s, ev);
            && s'.nodeclass == CLASS_A
            && s'.numPending - |s'.fifo| == s.numPending - |s.fifo|
               + (if Is(cfg, s, ev, GiveUps) then 1 else 0) - (if Is(cfg, s, ev, SpareAcks) then 1 else 0)
  {
  }

  /** The exact account of a class A node: every give-up leaves num_pending one too high, and only an ACK
      that finds the queue empty takes the excess back. */
  lemma {:induction false} ClassAAccount(cfg: Config, e: Item, tr: seq<Event>)
    requires e.fifo == [] && e.numPending == 0 && AlwaysClassA(e, tr) && NeverWraps(cfg, e, tr)
    ensures var s := Run(cfg, e, tr);
            && s.nodeclass == CLASS_A
            && |s.fifo| <= s.numPending
            && s.numPending - |s.fifo| == Count(cfg, e, tr, GiveUps) - Count(cfg, e, tr, SpareAcks)
  {
    if tr != [] {
      NeverWrapsFront(cfg, e, tr);
      ClassAAccount(cfg, e, Front(tr));
      ClassAStep(cfg, Run(cfg, e, Front(tr)), Last(tr));
    }
  }

  /** Without a give-up num_pending is exactly the queue length. */
  lemma ClassAExactWithoutGiveUp(cfg: Config, e: Item, tr: seq<Event>)
    requires e.fifo == [] && e.numPending == 0 && AlwaysClassA(e, tr) && NeverWraps(cfg, e, tr)
    requires Count(cfg, e, tr, GiveUps) == 0
    ensures Run(cfg, e, tr).numPending == |Run(cfg, e, tr).fifo|
  {
    ClassAAccount(cfg, e, tr);
  }

  lemma WrapsLater(cfg: Config, e: Item, tr: seq<Event>)
    requires tr != [] && NeverWraps(cfg, e, Front(tr))
    requires Last(tr).Enqueue? ==> Run(cfg, e, Front(tr)).numPending < WORD16_SIZE - 1
    ensures NeverWraps(cfg, e, tr)
  {
    forall k: nat | k < |tr| ensures !Wraps(cfg, e, tr, k) {
      if k < |tr| - 1 {
        assert Front(tr)[..k] == tr[..k];
        assert !Wraps(cfg, e, Front(tr), k);
      }
    }
  }

  /** One event: num_pending gains at most what is enqueued. */
  lemma PendingStep(cfg: Config, e: Item, ev: Event)
    ensures Step(cfg, e, ev).numPending <= e.numPending + if Is(cfg, e, ev, Enqueues) then 1 else 0
  {
  }

  /** num_pending never overtakes the number of frames ever enqueued, so fewer than 65536 of them never wrap it. */
  lemma {:induction false} FewEnqueuesNeverWrap(cfg: Config, e: Item, tr: seq<Event>)
    requires e.numPending == 0 && Count(cfg, e, tr, Enqueues) < WORD16_SIZE
    ensures NeverWraps(cfg, e, tr) && Run(cfg, e, tr).numPending <= Count(cfg, e, tr, Enqueues)
  {
    if tr != [] {
      FewEnqueuesNeverWrap(cfg, e, Front(tr));
      PendingStep(cfg, Run(cfg, e, Front(tr)), Last(tr));
      WrapsLater(cfg, e, tr);
    }
  }

  /** The queue is covered by num_pending at every moment exactly when the counter never wraps. */
  lemma CoveredIffNeverWraps(cfg: Config, e: Item, tr: seq<Event>)
    requires e.fifo == [] && e.numPending == 0 && AlwaysClassA(e, tr)
    ensures (forall k :: 0 <= k <= |tr| ==> |Run(cfg, e, tr[..k]).fifo| <= Run(cfg, e, tr[..k]).numPending)
        <==> NeverWraps(cfg, e, tr)
  {
    if NeverWraps(cfg, e, tr) {
      forall k | 0 <= k <= |tr| ensures |Run(cfg, e, tr[..k]).fifo| <= Run(cfg, e, tr[..k]).numPending {
        forall i: nat | i < k ensures !Wraps(cfg, e, tr[..k], i) {
          assert tr[..k][..i] == tr[..i];
          assert !Wraps(cfg, e, tr, i);
        }
        ClassAAccount(cfg, e, tr[..k]);
      }
    } else {
      var k: nat :| k < |tr| && Wraps(cfg, e, tr, k);
      StaysClassA(cfg, e, tr[..k]);
      assert Front(tr[..k + 1]) == tr[..k];
      assert Run(cfg, e, tr[..k + 1]).numPending == 0;
    }
  }

  /** 65536 frames that nobody acknowledges bring num_pending back to 0 with all of them still queued. */
  lemma {:induction false} UnacknowledgedFramesWrap(cfg: Config, e: Item, tr: seq<Event>)
    requires e.fifo == [] && e.numPending == 0 && e.nodeclass == CLASS_A
    requires forall i :: 0 <= i < |tr| ==> tr[i].Enqueue?
    ensures var s := Run(cfg, e, tr);
            s.nodeclass == CLASS_A && |s.fifo| == |tr| && s.numPending == |tr| % WORD16_SIZE
  {
    if tr != [] {
      UnacknowledgedFramesWrap(cfg, e, Front(tr));
      assert Last(tr).Enqueue?;
    }
  }

  lemma {:induction false} StaysClassA(cfg: Config, e: Item, tr: seq<Event>)
    requires AlwaysClassA(e, tr)
    ensures Run(cfg, e, tr).nodeclass == CLASS_A
  {
    if tr != [] {
      StaysClassA(cfg, e, Front(tr));
    }
  }
}
