/** What the pending worker does on its own: no gate reply and no new message, only its own passes.
    Exact counts of transmissions and invitations, and how long the queue can last. */
module SilentRun {
  import opened Downlink
  import opened Lifetimes

  ghost predicate Silent(tr: seq<Event>) {
    forall i :: 0 <= i < |tr| ==> tr[i].Visit?
  }

  /** The retry limit at which the worker switches from sending to inviting can actually be reached. */
  predicate InvitesAfterSending(cfg: Config, e: Item) {
    e.nodeclass == CLASS_C && 1 <= cfg.txMaxretr <= NUM_RETRIES + 1
  }

  /** States a silent run from a joined node with no retries can be in. */
  predicate Steady(cfg: Config, e: Item) {
    && e.nodeclass != CLASS_A
    && e.numRetries <= NUM_RETRIES + 1
    && (Waiting(e) || !InvitesAfterSending(cfg, e) || e.numRetries < cfg.txMaxretr)
  }

  // ----- Exact counts -----

  /** Transmissions still to come of the frame that has `left` frames queued when it is at the head. */
  function SendsLeft(cfg: Config, e: Item, left: nat): int {
    if Waiting(e) || left == 0 || left > |e.fifo| then 0
    else if InvitesAfterSending(cfg, e) then if left == |e.fifo| then cfg.txMaxretr - e.numRetries else 0
    else if left == |e.fifo| then NUM_RETRIES + 1 - e.numRetries
    else NUM_RETRIES + 1
  }

  /** Invitations still to come. */
  function InvitationsLeft(cfg: Config, e: Item): int {
    if e.fifo == [] then 0
    else if Waiting(e) then NUM_RETRIES_INV + 1 - e.numRetries + (NUM_RETRIES_INV + 1) * (|e.fifo| - 1)
    else if InvitesAfterSending(cfg, e) then NUM_RETRIES_INV + (NUM_RETRIES_INV + 1) * (|e.fifo| - 1)
    else 0
  }

  function One(b: bool): int { if b then 1 else 0 }

  lemma CountStep(cfg: Config, e: Item, ev: Event, left: nat)
    requires Steady(cfg, e) && ev.Visit?
    ensures var e' := Step(cfg, e, ev);
            && Steady(cfg, e')
            && SendsLeft(cfg, e', left) == SendsLeft(cfg, e, left) - One(Is(cfg, e, ev, SendsAt(left)))
            && InvitationsLeft(cfg, e') == InvitationsLeft(cfg, e) - One(Is(cfg, e, ev, Invitations))
            && |e'.fifo| == |e.fifo| - One(Is(cfg, e, ev, GiveUps))
  {
  }

  /** What has been done and what is left to do add up to the same total all along a silent run. */
  lemma {:induction false} SilentCount(cfg: Config, e: Item, tr: seq<Event>, left: nat)
    requires Steady(cfg, e) && Silent(tr)
    ensures var e' := Run(cfg, e, tr);
            && Steady(cfg, e')
            && SendsLeft(cfg, e', left) == SendsLeft(cfg, e, left) - Count(cfg, e, tr, SendsAt(left))
            && InvitationsLeft(cfg, e') == InvitationsLeft(cfg, e) - Count(cfg, e, tr, Invitations)
            && |e'.fifo| == |e.fifo| - Count(cfg, e, tr, GiveUps)
  {
    if tr != [] {
      SilentCount(cfg, e, Front(tr), left);
      CountStep(cfg, Run(cfg, e, Front(tr)), Last(tr), left);
    }
  }

  /** A silent run of a joined class C node that empties its queue: with tx_maxretr in 1..6 the first frame is
      sent tx_maxretr times, no other frame is ever sent and 5 + 6 (k - 1) invitations are made. */
  lemma SilentRunInvites(cfg: Config, e: Item, tr: seq<Event>, left: nat)
    requires e.nodeclass == CLASS_C && !e.hasBeenInvited && e.numRetries == 0 && e.fifo != []
    requires Silent(tr) && Run(cfg, e, tr).fifo == []
    requires 1 <= cfg.txMaxretr <= NUM_RETRIES + 1
    ensures Count(cfg, e, tr, SendsAt(left)) == if left == |e.fifo| then cfg.txMaxretr else 0
    ensures Count(cfg, e, tr, Invitations) == 5 + 6 * (|e.fifo| - 1)
    ensures Count(cfg, e, tr, GiveUps) == |e.fifo|
  {
    SilentCount(cfg, e, tr, left);
  }

  /** In every other configuration, and for every class but A, each frame is sent 6 times and nothing is invited. */
  lemma SilentRunSends(cfg: Config, e: Item, tr: seq<Event>, left: nat)
    requires e.nodeclass != CLASS_A && !e.hasBeenInvited && e.numRetries == 0 && e.fifo != []
    requires Silent(tr) && Run(cfg, e, tr).fifo == []
    requires !InvitesAfterSending(cfg, e)
    ensures Count(cfg, e, tr, SendsAt(left)) == if 1 <= left <= |e.fifo| then 6 else 0
    ensures Count(cfg, e, tr, Invitations) == 0
    ensures Count(cfg, e, tr, GiveUps) == |e.fifo|
  {
    SilentCount(cfg, e, tr, left);
  }

  /** In a silent run the frame sent while `left` frames are queued is the one that was `left` from the end. */
  lemma SilentSendIsFrame(cfg: Config, e: Item, tr: seq<Event>, k: nat)
    requires Silent(tr) && k < |tr| && Act(cfg, Run(cfg, e, tr[..k]), tr[k]).Send?
    ensures var left := |Run(cfg, e, tr[..k]).fifo|;
            1 <= left <= |e.fifo| && Act(cfg, Run(cfg, e, tr[..k]), tr[k]).frame == e.fifo[|e.fifo| - left]
  {
    NothingAccepted(tr);
    SentIsNextInOrder(cfg, e, tr, k);
    NothingAccepted(tr[..k]);
    FifoConservation(cfg, e, tr[..k]);
    assert e.fifo + AllAccepted(tr) == e.fifo == e.fifo + AllAccepted(tr[..k]);
  }

  lemma {:induction false} NothingAccepted(tr: seq<Event>)
    requires forall i :: 0 <= i < |tr| ==> !tr[i].Enqueue?
    ensures AllAccepted(tr) == []
  {
    if tr != [] {
      NothingAccepted(Front(tr));
    }
  }

  // ----- Progress -----

  /** Anything the worker does to a node outside class A strictly lowers
      (queue length, not yet invited, 6 - num_retries), compared in that order. */
  lemma WorkerMakesProgress(cfg: Config, e: Item, now: int)
    requires e.nodeclass != CLASS_A && e.numRetries <= NUM_RETRIES + 1 && !Decide(cfg, e, now).Idle?
    ensures var e' := Visited(cfg, e, now);
            || |e'.fifo| < |e.fifo|
            || (|e'.fifo| == |e.fifo| && !e.hasBeenInvited && e'.hasBeenInvited)
            || (|e'.fifo| == |e.fifo| && e.hasBeenInvited == e'.hasBeenInvited
                && 6 - e'.numRetries < 6 - e.numRetries)
    ensures Visited(cfg, e, now).numRetries <= NUM_RETRIES + 1
  {
  }

  // ----- How long a queue can last -----

  /** The worker comes by at least once a second from `start` on. */
  ghost predicate Attended(start: int, tr: seq<Event>) {
    && Silent(tr) && Timed(tr)
    && (tr != [] ==> start <= tr[0].now <= start + 1)
    && forall i :: 0 < i < |tr| ==> tr[i].now <= tr[i - 1].now + 1
  }

  function Max(a: int, b: int): int { if a < b then b else a }

  /** Seconds that may pass between two transmissions. */
  function SendGap(cfg: Config): nat { Max(cfg.txDelay, 0) + 1 }

  function Times(n: nat, x: nat): nat { if n == 0 then 0 else x + Times(n - 1, x) }

  /** Seconds from the invitation made at retry count n to the give-up, the last second being one pass. */
  function AfterInvitation(n: nat): nat
    requires n <= NUM_RETRIES_INV
    decreases NUM_RETRIES_INV - n
  {
    if n == NUM_RETRIES_INV then 1 else INVITE_TIMEOUT_S * (n + 1) + 1 + AfterInvitation(n + 1)
  }

  /** When the worker can next do something about this slot. */
  function Ready(cfg: Config, e: Item): int {
    if Waiting(e) then
      if e.numRetries > NUM_RETRIES_INV then e.lastInv else e.lastInv + INVITE_TIMEOUT_S * e.numRetries + 1
    else e.lastMsg + SendGap(cfg)
  }

  /** Seconds from that moment until the head of the queue is given up. */
  function HeadNeeds(cfg: Config, e: Item): nat
    requires Steady(cfg, e)
  {
    if Waiting(e) then if e.numRetries > NUM_RETRIES_INV then 0 else AfterInvitation(e.numRetries)
    else if InvitesAfterSending(cfg, e) then
      Times(cfg.txMaxretr - 1 - e.numRetries, SendGap(cfg)) + AfterInvitation(0)
    else Times(NUM_RETRIES + 1 - e.numRetries, SendGap(cfg))
  }

  /** Seconds each later frame takes. */
  function LaterNeeds(cfg: Config, e: Item): nat {
    1 + if Waiting(e) || InvitesAfterSending(cfg, e) then AfterInvitation(0) else Times(NUM_RETRIES + 1, SendGap(cfg))
  }

  /** The time by which at most `upto` frames are left, when the last pass was at `now`. */
  function Deadline(cfg: Config, e: Item, now: int, upto: nat): int
    requires Steady(cfg, e)
  {
    if |e.fifo| <= upto then now
    else Max(Ready(cfg, e), now + 1) + HeadNeeds(cfg, e) + Times(|e.fifo| - upto - 1, LaterNeeds(cfg, e))
  }

  /** The timestamps are not in the future. */
  predicate Settled(e: Item, now: int) {
    e.lastMsg <= now && e.lastInv <= now
  }

  lemma InvitationUnfolds(n: nat)
    requires n < NUM_RETRIES_INV
    ensures AfterInvitation(n) == INVITE_TIMEOUT_S * (n + 1) + 1 + AfterInvitation(n + 1)
  {
  }

  lemma WaitingDeadlineStep(cfg: Config, e: Item, now: int, t: int, upto: nat)
    requires Steady(cfg, e) && Settled(e, now) && now <= t <= now + 1 && |e.fifo| > upto && Waiting(e)
    ensures var e' := Visited(cfg, e, t);
            Steady(cfg, e') && Settled(e', t)
            && (|e'.fifo| > upto ==> Deadline(cfg, e', t, upto) <= Deadline(cfg, e, now, upto))
  {
    if e.numRetries < NUM_RETRIES_INV {
      InvitationUnfolds(e.numRetries);
    }
  }

  lemma SendingDeadlineStep(cfg: Config, e: Item, now: int, t: int, upto: nat)
    requires Steady(cfg, e) && Settled(e, now) && now <= t <= now + 1 && |e.fifo| > upto && !Waiting(e)
    ensures var e' := Visited(cfg, e, t);
            Steady(cfg, e') && Settled(e', t)
            && (|e'.fifo| > upto ==> Deadline(cfg, e', t, upto) <= Deadline(cfg, e, now, upto))
  {
    InvitationUnfolds(0);
  }

  lemma DeadlineStep(cfg: Config, e: Item, now: int, t: int, upto: nat)
    requires Steady(cfg, e) && Settled(e, now) && now <= t <= now + 1 && |e.fifo| > upto
    ensures var e' := Visited(cfg, e, t);
            Steady(cfg, e') && Settled(e', t)
            && (|e'.fifo| > upto ==> Deadline(cfg, e', t, upto) <= Deadline(cfg, e, now, upto))
  {
    if Waiting(e) {
      WaitingDeadlineStep(cfg, e, now, t, upto);
    } else {
      SendingDeadlineStep(cfg, e, now, t, upto);
    }
  }

  lemma {:induction false} DeadlineHolds(cfg: Config, e: Item, start: int, tr: seq<Event>, upto: nat)
    requires Steady(cfg, e) && Settled(e, start) && Attended(start, tr)
    ensures var e', now := Run(cfg, e, tr), if tr == [] then start else Last(tr).now;
            && Steady(cfg, e') && Settled(e', now)
            && (|e'.fifo| > upto ==> Deadline(cfg, e', now, upto) <= Deadline(cfg, e, start, upto))
  {
    if tr != [] {
      var before := Front(tr);
      assert Attended(start, before);
      DeadlineHolds(cfg, e, start, before, upto);
      var s, now := Run(cfg, e, before), if before == [] then start else Last(before).now;
      assert now <= Last(tr).now <= now + 1;
      CountStep(cfg, s, Last(tr), 0);
      if |s.fifo| > upto {
        DeadlineStep(cfg, s, now, Last(tr).now, upto);
      }
    }
  }

  lemma {:induction false} TimesIsProduct(n: nat, x: nat)
    ensures Times(n, x) == n * x
  {
    if n > 0 {
      TimesIsProduct(n - 1, x);
    }
  }

  /** One more gap. */
  lemma TimesAndOne(n: nat, x: nat)
    requires n >= 1
    ensures Times(n - 1, x) + x == n * x
  {
    TimesIsProduct(n - 1, x);
    assert (n - 1) * x + x == n * x;
  }

  lemma InvitationTime()
    ensures AfterInvitation(0) == (45 * 1 + 1) + (45 * 2 + 1) + (45 * 3 + 1) + (45 * 4 + 1) + (45 * 5 + 1) + 1 == 681
  {
    assert AfterInvitation(3) == 181 + AfterInvitation(4) && AfterInvitation(4) == 226 + AfterInvitation(5);
    assert AfterInvitation(1) == 91 + AfterInvitation(2) && AfterInvitation(2) == 136 + AfterInvitation(3);
  }

  /** With a pass every second and tx_maxretr in 1..6 the head frame of a joined class C node is gone within
      tx_maxretr (tx_delay + 1) + 680 seconds plus one pass. */
  lemma HeadFrameGone(cfg: Config, e: Item, start: int, tr: seq<Event>)
    requires e.nodeclass == CLASS_C && !e.hasBeenInvited && e.numRetries == 0 && e.fifo != []
    requires 1 <= cfg.txMaxretr <= NUM_RETRIES + 1
    requires Settled(e, start) && Attended(start, tr) && tr != []
    requires Last(tr).now >= start + cfg.txMaxretr * SendGap(cfg) + 680 + 1
    ensures |Run(cfg, e, tr).fifo| < |e.fifo|
  {
    DeadlineHolds(cfg, e, start, tr, |e.fifo| - 1);
    TimesAndOne(cfg.txMaxretr, SendGap(cfg));
    InvitationTime();
  }

  /** The whole queue of such a node is empty 682 seconds per further frame later. */
  lemma QueueEmptied(cfg: Config, e: Item, start: int, tr: seq<Event>)
    requires e.nodeclass == CLASS_C && !e.hasBeenInvited && e.numRetries == 0 && e.fifo != []
    requires 1 <= cfg.txMaxretr <= NUM_RETRIES + 1
    requires Settled(e, start) && Attended(start, tr) && tr != []
    requires Last(tr).now >= start + cfg.txMaxretr * SendGap(cfg) + 681 + 682 * (|e.fifo| - 1)
    ensures Run(cfg, e, tr).fifo == []
  {
    DeadlineHolds(cfg, e, start, tr, 0);
    TimesAndOne(cfg.txMaxretr, SendGap(cfg));
    TimesIsProduct(|e.fifo| - 1, 682);
    InvitationTime();
  }

  /** In every other configuration the queue is empty after 7 (tx_delay + 1) seconds for the first frame and
      6 (tx_delay + 1) + 1 for each further one. */
  lemma QueueEmptiedWithoutInvitations(cfg: Config, e: Item, start: int, tr: seq<Event>)
    requires e.nodeclass != CLASS_A && !e.hasBeenInvited && e.numRetries == 0 && e.fifo != []
    requires !InvitesAfterSending(cfg, e)
    requires Settled(e, start) && Attended(start, tr) && tr != []
    requires Last(tr).now >= start + 7 * SendGap(cfg) + (6 * SendGap(cfg) + 1) * (|e.fifo| - 1)
    ensures Run(cfg, e, tr).fifo == []
  {
    DeadlineHolds(cfg, e, start, tr, 0);
    TimesIsProduct(NUM_RETRIES + 1, SendGap(cfg));
    TimesIsProduct(|e.fifo| - 1, 6 * SendGap(cfg) + 1);
    assert (|e.fifo| - 1) * (6 * SendGap(cfg) + 1) == (6 * SendGap(cfg) + 1) * (|e.fifo| - 1);
  }

  /** Seconds within which the queue of a joined node without retries is empty, invitations or not. */
  function QueueTime(cfg: Config, e: Item): int
    requires e.fifo != []
  {
    if InvitesAfterSending(cfg, e) then cfg.txMaxretr * SendGap(cfg) + 681 + 682 * (|e.fifo| - 1)
    else 7 * SendGap(cfg) + (6 * SendGap(cfg) + 1) * (|e.fifo| - 1)
  }

  lemma QueueEmptiedInTime(cfg: Config, e: Item, start: int, tr: seq<Event>)
    requires e.nodeclass != CLASS_A && !e.hasBeenInvited && e.numRetries == 0 && e.fifo != []
    requires Settled(e, start) && Attended(start, tr) && tr != [] && Last(tr).now >= start + QueueTime(cfg, e)
    ensures Run(cfg, e, tr).fifo == []
  {
    if InvitesAfterSending(cfg, e) {
      QueueEmptied(cfg, e, start, tr);
    } else {
      QueueEmptiedWithoutInvitations(cfg, e, start, tr);
    }
  }
}
