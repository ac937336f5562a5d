/** An acknowledgement takes the head of the queue off without asking whether it was ever sent. When that loses a
    frame, for every sequence of events of a slot. Frames are known by their place in the order of acceptance. */
module Acknowledgements {
  import opened Downlink
  import opened Lifetimes

  /** How many frames have left before step k, which is the place of the one at the head then. */
  function HeadPlace(cfg: Config, e: Item, tr: seq<Event>, k: nat): nat
    requires k <= |tr|
  {
    |AllRemoved(cfg, e, tr[..k])|
  }

  predicate SentAt(cfg: Config, e: Item, tr: seq<Event>, i: nat, p: nat)
    requires i < |tr|
  {
    Act(cfg, Run(cfg, e, tr[..i]), tr[i]).Send? && HeadPlace(cfg, e, tr, i) == p
  }

  /** The frame in place p goes out at some step. */
  ghost predicate Transmitted(cfg: Config, e: Item, tr: seq<Event>, p: nat) {
    exists i: nat :: i < |tr| && SentAt(cfg, e, tr, i, p)
  }

  /** A transmission has been made since the present head came to the head: one bit, set by a transmission and
      cleared when a frame leaves. */
  predicate HeadSent(cfg: Config, e: Item, tr: seq<Event>) {
    tr != [] &&
    (var s, ev := Run(cfg, e, Front(tr)), Last(tr);
     Removed(cfg, s, ev) == [] && (Act(cfg, s, ev).Send? || HeadSent(cfg, e, Front(tr))))
  }

  lemma SentAtFront(cfg: Config, e: Item, tr: seq<Event>, i: nat, p: nat)
    requires i < |tr| - 1
    ensures SentAt(cfg, e, Front(tr), i, p) <==> SentAt(cfg, e, tr, i, p)
  {
    assert Front(tr)[..i] == tr[..i];
  }

  lemma TransmittedStep(cfg: Config, e: Item, tr: seq<Event>, p: nat)
    requires tr != []
    ensures Transmitted(cfg, e, tr, p) <==> Transmitted(cfg, e, Front(tr), p) || SentAt(cfg, e, tr, |tr| - 1, p)
  {
    if Transmitted(cfg, e, tr, p) {
      var i: nat :| i < |tr| && SentAt(cfg, e, tr, i, p);
      if i < |tr| - 1 {
        SentAtFront(cfg, e, tr, i, p);
      }
    }
    if Transmitted(cfg, e, Front(tr), p) {
      var i: nat :| i < |Front(tr)| && SentAt(cfg, e, Front(tr), i, p);
      SentAtFront(cfg, e, tr, i, p);
    }
  }

  /** Places of transmissions are those of frames not yet gone. */
  lemma NotSentAhead(cfg: Config, e: Item, tr: seq<Event>, p: nat)
    requires p > |AllRemoved(cfg, e, tr)|
    ensures !Transmitted(cfg, e, tr, p)
  {
    forall i: nat | i < |tr| ensures !SentAt(cfg, e, tr, i, p) {
      HistoryGrows(cfg, e, tr, i);
    }
  }

  /** The bit says whether the frame at the head has been transmitted. */
  lemma {:induction false} HeadSentIsTransmitted(cfg: Config, e: Item, tr: seq<Event>)
    ensures HeadSent(cfg, e, tr) <==> Transmitted(cfg, e, tr, |AllRemoved(cfg, e, tr)|)
  {
    if tr != [] {
      var before := Front(tr);
      var p := |AllRemoved(cfg, e, tr)|;
      assert tr[..|tr| - 1] == before;
      TransmittedStep(cfg, e, tr, p);
      if Removed(cfg, Run(cfg, e, before), Last(tr)) == [] {
        HeadSentIsTransmitted(cfg, e, before);
      } else {
        NotSentAhead(cfg, e, before, p);
      }
    }
  }

  /** A frame that has left is not sent any more. */
  lemma {:induction false} GoneIsSettled(cfg: Config, e: Item, tr: seq<Event>, k: nat, p: nat)
    requires k <= |tr| && p < HeadPlace(cfg, e, tr, k)
    ensures Transmitted(cfg, e, tr, p) <==> Transmitted(cfg, e, tr[..k], p)
  {
    if k == |tr| {
      assert tr[..k] == tr;
    } else {
      assert Front(tr)[..k] == tr[..k] && tr[..|tr| - 1] == Front(tr);
      GoneIsSettled(cfg, e, Front(tr), k, p);
      HistoryGrows(cfg, e, Front(tr), k);
      TransmittedStep(cfg, e, tr, p);
    }
  }

  /** An acknowledgement that finds something queued. */
  predicate AckRemoves(cfg: Config, e: Item, tr: seq<Event>, k: nat)
    requires k < |tr|
  {
    tr[k].Ack? && Run(cfg, e, tr[..k]).fifo != []
  }

  lemma AckTakesHead(cfg: Config, e: Item, tr: seq<Event>, k: nat)
    requires k < |tr| && AckRemoves(cfg, e, tr, k)
    ensures AllRemoved(cfg, e, tr[..k + 1]) == AllRemoved(cfg, e, tr[..k]) + [Run(cfg, e, tr[..k]).fifo[0]]
    ensures Last(tr[..k + 1]) == tr[k] && Front(tr[..k + 1]) == tr[..k]
  {
    assert Last(tr[..k + 1]) == tr[k] && Front(tr[..k + 1]) == tr[..k];
  }

  /** An acknowledgement sends nothing. */
  lemma AckSendsNothing(cfg: Config, e: Item, tr: seq<Event>, k: nat, p: nat)
    requires k < |tr| && tr[k].Ack?
    ensures Transmitted(cfg, e, tr[..k + 1], p) <==> Transmitted(cfg, e, tr[..k], p)
  {
    assert Front(tr[..k + 1]) == tr[..k];
    TransmittedStep(cfg, e, tr[..k + 1], p);
    assert !SentAt(cfg, e, tr[..k + 1], k, p);
  }

  /** The frame an acknowledgement takes off is sent at some time in the run exactly when it had been sent while it
      was at the head; otherwise it is lost. */
  lemma AckLosesUnsentFrame(cfg: Config, e: Item, tr: seq<Event>, k: nat)
    requires k < |tr| && AckRemoves(cfg, e, tr, k)
    ensures var p := HeadPlace(cfg, e, tr, k);
            && AllRemoved(cfg, e, tr[..k + 1]) == AllRemoved(cfg, e, tr[..k]) + [Run(cfg, e, tr[..k]).fifo[0]]
            && (Transmitted(cfg, e, tr, p) <==> HeadSent(cfg, e, tr[..k]))
  {
    var p := HeadPlace(cfg, e, tr, k);
    AckTakesHead(cfg, e, tr, k);
    GoneIsSettled(cfg, e, tr, k + 1, p);
    AckSendsNothing(cfg, e, tr, k, p);
    HeadSentIsTransmitted(cfg, e, tr[..k]);
  }

  /** Every frame that acknowledgements take off was transmitted exactly when each of them finds a head that has
      been sent. */
  lemma AcknowledgedFramesWereSent(cfg: Config, e: Item, tr: seq<Event>)
    ensures (forall k: nat :: k < |tr| && AckRemoves(cfg, e, tr, k)
                          ==> Transmitted(cfg, e, tr, HeadPlace(cfg, e, tr, k)))
       <==> (forall k: nat :: k < |tr| && AckRemoves(cfg, e, tr, k) ==> HeadSent(cfg, e, tr[..k]))
  {
    forall k: nat | k < |tr| && AckRemoves(cfg, e, tr, k)
      ensures Transmitted(cfg, e, tr, HeadPlace(cfg, e, tr, k)) <==> HeadSent(cfg, e, tr[..k])
    {
      AckLosesUnsentFrame(cfg, e, tr, k);
    }
  }

  /** An acknowledgement that comes twice loses the next frame, whatever it is and whatever happens afterwards. */
  lemma SecondAckLosesFrame(cfg: Config, e: Item, tr: seq<Event>, k: nat)
    requires k + 1 < |tr| && AckRemoves(cfg, e, tr, k) && AckRemoves(cfg, e, tr, k + 1)
    ensures !Transmitted(cfg, e, tr, HeadPlace(cfg, e, tr, k + 1))
  {
    AckTakesHead(cfg, e, tr, k);
    AckLosesUnsentFrame(cfg, e, tr, k + 1);
  }

  /** A test the program could make: while the node is not waiting to rejoin, a retry count above 0 means that the
      head has been transmitted. */
  lemma {:induction false} RetriesShowTransmission(cfg: Config, e: Item, tr: seq<Event>)
    requires e.numRetries == 0
    ensures var s := Run(cfg, e, tr);
            s.numRetries > 0 && !Waiting(s) ==> HeadSent(cfg, e, tr)
  {
    if tr != [] {
      RetriesShowTransmission(cfg, e, Front(tr));
    }
  }
}
