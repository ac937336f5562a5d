/** Who has sat in a slot of the table and what has reached each of them, over every run of the gateway; what
    Lifetimes.dfy and Acknowledgements.dfy say of one life therefore holds of every node that was ever served. */
module Histories {
  import opened Downlink
  import opened Lifetimes
  import opened Acknowledgements
  import opened PendingTable
  import Hex

  /** What an input brings to the node in slot i, be it there already or only now. */
  function Reaching(t: Table, input: Input, i: nat): seq<Event>
    requires Legal(input) && i < |t|
  {
    match input
    case Listed(id, nodeclass, now) => if Find(t, id) == i then [Refresh(nodeclass, true, now)] else []
    case Joined(id, nodeclass, now) => if Find(t, id) == i then [Refresh(nodeclass, true, now)] else []
    case Kicked(_, _) => []
    case Acknowledged(id, now) => if Find(t, id) == i then [Ack(now)] else []
    case Requested(id, now) => if Find(t, id) == i then [PendingReq(now)] else []
    case Message(id, payload, now) =>
      if Find(Admit(t, id, now), id) == i then [Enqueue(Hex.IndFrame(id, payload), now)] else []
    case Pass(clock) => if t[i].Used? then [Visit(clock[i])] else []
  }

  predicate IsNew(first: Item) { first == NewItem(first.nodeid, first.nodeclass, !first.hasBeenInvited) }

  /** What can become of a slot: the node in it lives on, a new one starts, or it is kicked. */
  ghost predicate Follows(s: Slot, input: Input, s': Slot, events: seq<Event>) {
    && (s.Used? && s'.Used? ==> s'.life == Life(s.life.first, s.life.trace + events))
    && (s.Free? && s'.Used? ==> IsNew(s'.life.first) && s'.life.trace == events && !input.Pass?)
    && (s.Used? && s'.Free? ==> input.Kicked? && input.id == s.life.Id())
  }

  lemma LogFollows(t: Table, input: Input, id: NodeId, ev: Event, i: nat)
    requires i < |t|
    ensures Follows(t[i], input, LogTo(t, id, ev)[i], if Find(t, id) == i then [ev] else [])
  {
    if t[i].Used? {
      assert t[i].life.trace + [] == t[i].life.trace;
    }
  }

  lemma AddFollows(t: Table, input: Input, id: NodeId, nodeclass: Word16, wasJoined: bool, now: int, i: nat)
    requires i < |t| && !input.Pass?
    ensures Follows(t[i], input, AddDevice(t, id, nodeclass, wasJoined, now)[i],
                    if Find(t, id) == i then [Refresh(nodeclass, wasJoined, now)] else [])
  {
    LogFollows(t, input, id, Refresh(nodeclass, wasJoined, now), i);
    if t[i].Used? {
      assert t[i].life.trace + [] == t[i].life.trace;
    }
  }

  lemma MessageFollows(t: Table, input: Input, i: nat)
    requires i < |t| && input.Message?
    ensures Follows(t[i], input, Next(t, input)[i], Reaching(t, input, i))
  {
    var admitted, ev := Admit(t, input.id, input.now), Enqueue(Hex.IndFrame(input.id, input.payload), input.now);
    AddFollows(t, input, input.id, CLASS_C, false, input.now, i);
    LogFollows(admitted, input, input.id, ev, i);
    if t[i].Used? {
      assert t[i].life.trace + [] == t[i].life.trace;
    }
    assert [] + [ev] == [ev];
  }

  lemma SlotFollows(t: Table, input: Input, i: nat)
    requires i < |t| && Legal(input)
    ensures Follows(t[i], input, Next(t, input)[i], Reaching(t, input, i))
  {
    match input
    case Listed(id, nodeclass, now) => AddFollows(t, input, id, nodeclass, true, now, i);
    case Joined(id, nodeclass, now) => AddFollows(t, input, id, nodeclass, true, now, i);
    case Kicked(_, _) =>
      if t[i].Used? {
        assert t[i].life.trace + [] == t[i].life.trace;
      }
    case Acknowledged(id, now) => LogFollows(t, input, id, Ack(now), i);
    case Requested(id, now) => LogFollows(t, input, id, PendingReq(now), i);
    case Message(_, _, _) => MessageFollows(t, input, i);
    case Pass(clock) =>
  }

  // ----- All lives of a slot -----

  /** Those who sat in slot i, the present one last, after one more input. */
  function LivesNext(past: seq<Life>, s: Slot, s': Slot): seq<Life> {
    if s'.Free? then past
    else if s.Free? || past == [] then past + [s'.life]
    else Front(past) + [s'.life]
  }

  function Lives(inputs: seq<Input>, i: nat): seq<Life>
    requires AllLegal(inputs) && i < MAX_PENDING_NODES
  {
    if inputs == [] then []
    else LivesNext(Lives(Front(inputs), i), TableAfter(Front(inputs))[i], TableAfter(inputs)[i])
  }

  /** The present one is among them. */
  lemma PresentIsLast(inputs: seq<Input>, i: nat)
    requires AllLegal(inputs) && i < MAX_PENDING_NODES && TableAfter(inputs)[i].Used?
    ensures Lives(inputs, i) != [] && Last(Lives(inputs, i)) == TableAfter(inputs)[i].life
  {
  }

  ghost predicate AllLived(lives: seq<Life>, now: int) {
    forall n :: 0 <= n < |lives| ==> WellLived(lives[n], now)
  }

  lemma ClockGrows(inputs: seq<Input>)
    requires Orderly(inputs) && AllLegal(inputs) && inputs != []
    ensures Clock(Front(inputs)) <= Clock(inputs)
  {
  }

  lemma StillLived(life: Life, was: int, now: int)
    requires WellLived(life, was) && was <= now
    ensures WellLived(life, now)
  {
  }

  lemma NextLived(past: seq<Life>, s: Slot, s': Slot, was: int, now: int)
    requires AllLived(past, was) && was <= now && (s'.Used? ==> WellLived(s'.life, now))
    ensures AllLived(LivesNext(past, s, s'), now)
  {
    forall n | 0 <= n < |past| ensures WellLived(past[n], now) {
      StillLived(past[n], was, now);
    }
  }

  /** Whoever sat in a slot was freshly allocated and saw events in the order of the clock. */
  lemma {:induction false} LivesAreWellLived(inputs: seq<Input>, i: nat)
    requires Orderly(inputs) && AllLegal(inputs) && i < MAX_PENDING_NODES
    ensures AllLived(Lives(inputs, i), Clock(inputs))
  {
    if inputs != [] {
      LivesAreWellLived(Front(inputs), i);
      ClockGrows(inputs);
      ReachableIsWellLived(inputs);
      NextLived(Lives(Front(inputs), i), TableAfter(Front(inputs))[i], TableAfter(inputs)[i],
                Clock(Front(inputs)), Clock(inputs));
    }
  }

  // ----- A stretch of a life -----

  ghost predicate NeverKicked(more: seq<Input>, id: NodeId) {
    forall k :: 0 <= k < |more| && more[k].Kicked? ==> more[k].id != id
  }

  /** What further inputs bring to the node in slot i. */
  function EventsTo(inputs: seq<Input>, more: seq<Input>, i: nat): seq<Event>
    requires AllLegal(inputs) && AllLegal(more) && i < MAX_PENDING_NODES
    decreases |more|
  {
    if more == [] then []
    else EventsTo(inputs, Front(more), i) + Reaching(TableAfter(inputs + Front(more)), Last(more), i)
  }

  lemma LivesOnStep(t: Table, input: Input, i: nat, life: Life, before: seq<Event>)
    requires Legal(input) && i < |t| && t[i] == Used(Life(life.first, life.trace + before))
    requires input.Kicked? ==> input.id != life.Id()
    ensures Next(t, input)[i] == Used(Life(life.first, life.trace + (before + Reaching(t, input, i))))
  {
    SlotFollows(t, input, i);
    assert life.trace + (before + Reaching(t, input, i)) == (life.trace + before) + Reaching(t, input, i);
  }

  lemma OneMoreInput(inputs: seq<Input>, more: seq<Input>)
    requires more != [] && AllLegal(more) && AllLegal(inputs + Front(more))
    ensures AllLegal(inputs + more)
    ensures TableAfter(inputs + more) == Next(TableAfter(inputs + Front(more)), Last(more))
  {
    TableAfterSnoc(inputs + Front(more), Last(more));
    FrontAndLast(inputs, more);
  }

  lemma FrontAndLast<T>(a: seq<T>, b: seq<T>)
    requires b != []
    ensures a + b == (a + Front(b)) + [Last(b)]
  {
  }

  /** A node that is not kicked stays in its slot and lives on. */
  lemma {:induction false} LivesOn(inputs: seq<Input>, more: seq<Input>, i: nat)
    requires AllLegal(inputs) && AllLegal(more) && i < MAX_PENDING_NODES && TableAfter(inputs)[i].Used?
    requires NeverKicked(more, TableAfter(inputs)[i].life.Id())
    ensures AllLegal(inputs + more)
    ensures var life := TableAfter(inputs)[i].life;
            TableAfter(inputs + more)[i] == Used(Life(life.first, life.trace + EventsTo(inputs, more, i)))
    decreases |more|
  {
    var life := TableAfter(inputs)[i].life;
    if more == [] {
      assert inputs + more == inputs && life.trace + [] == life.trace;
    } else {
      LivesOn(inputs, Front(more), i);
      OneMoreInput(inputs, more);
      LivesOnStep(TableAfter(inputs + Front(more)), Last(more), i, life, EventsTo(inputs, Front(more), i));
    }
  }

  /** And its state is what those events make of it. */
  lemma StateThen(cfg: Config, inputs: seq<Input>, more: seq<Input>, i: nat, e: Item)
    requires AllLegal(inputs) && AllLegal(more) && i < MAX_PENDING_NODES && TableAfter(inputs)[i].Used?
    requires Current(cfg, TableAfter(inputs)[i].life) == e && NeverKicked(more, e.nodeid)
    ensures AllLegal(inputs + more) && TableAfter(inputs + more)[i].Used?
    ensures TableAfter(inputs + more)[i].life.Id() == e.nodeid == TableAfter(inputs)[i].life.Id()
    ensures Current(cfg, TableAfter(inputs + more)[i].life) == Run(cfg, e, EventsTo(inputs, more, i))
  {
    var life := TableAfter(inputs)[i].life;
    IdNeverChanges(cfg, life.first, life.trace);
    LivesOn(inputs, more, i);
    RunConcat(cfg, life.first, life.trace, EventsTo(inputs, more, i));
  }

  // ----- What holds of each of them -----

  /** Between two resets of its counter no node was ever sent more than six frames. */
  lemma EveryStretchIsBounded(cfg: Config, inputs: seq<Input>, i: nat, n: nat, a: nat, b: nat)
    requires AllLegal(inputs) && i < MAX_PENDING_NODES && n < |Lives(inputs, i)|
    requires a <= b <= |Lives(inputs, i)[n].trace|
    ensures var life := Lives(inputs, i)[n];
            var e, stretch := Run(cfg, life.first, life.trace[..a]), life.trace[a..b];
            Count(cfg, e, stretch, Resets) == 0 ==> Count(cfg, e, stretch, Sends) <= NUM_RETRIES + 1
  {
    var life := Lives(inputs, i)[n];
    var e, stretch := Run(cfg, life.first, life.trace[..a]), life.trace[a..b];
    if Count(cfg, e, stretch, Resets) == 0 {
      SendsBetweenResets(cfg, e, stretch);
    }
  }

  predicate SentIn(cfg: Config, life: Life, k: nat)
    requires k < |life.trace|
  {
    Act(cfg, Run(cfg, life.first, life.trace[..k]), life.trace[k]).Send?
  }

  predicate InvitedIn(cfg: Config, life: Life, k: nat)
    requires k < |life.trace|
  {
    Act(cfg, Run(cfg, life.first, life.trace[..k]), life.trace[k]).Invite?
  }

  /** No node was ever invited sooner than its retry count allows. */
  lemma EveryInvitationBacksOff(cfg: Config, inputs: seq<Input>, i: nat, n: nat, j: nat, k: nat)
    requires Orderly(inputs) && AllLegal(inputs) && i < MAX_PENDING_NODES && n < |Lives(inputs, i)|
    requires j < k < |Lives(inputs, i)[n].trace|
    ensures var life := Lives(inputs, i)[n];
            var s, s' := Run(cfg, life.first, life.trace[..j]), Run(cfg, life.first, life.trace[..k]);
            (StartsBackOff(cfg, s, life.trace[j]) && InvitedIn(cfg, life, k))
            ==> life.trace[k].now - life.trace[j].now > INVITE_TIMEOUT_S * s'.numRetries
  {
    var life := Lives(inputs, i)[n];
    LivesAreWellLived(inputs, i);
    if StartsBackOff(cfg, Run(cfg, life.first, life.trace[..j]), life.trace[j]) && InvitedIn(cfg, life, k) {
      InvitationsBackOff(cfg, life.first, life.trace, j, k);
    }
  }

  /** The frame in that place of all frames ever accepted for the node. */
  predicate IsFrameAt(cfg: Config, life: Life, k: nat)
    requires k < |life.trace| && SentIn(cfg, life, k)
  {
    var p, all := HeadPlace(cfg, life.first, life.trace, k), AllAccepted(life.trace);
    p < |all| && Act(cfg, Run(cfg, life.first, life.trace[..k]), life.trace[k]).frame == all[p]
  }

  lemma EverySendIsInOrder(cfg: Config, inputs: seq<Input>, i: nat, n: nat, j: nat, k: nat)
    requires Orderly(inputs) && AllLegal(inputs) && i < MAX_PENDING_NODES && n < |Lives(inputs, i)|
    requires var life := Lives(inputs, i)[n];
             j < k < |life.trace| && SentIn(cfg, life, j) && SentIn(cfg, life, k)
    ensures var life := Lives(inputs, i)[n];
            && IsFrameAt(cfg, life, j) && IsFrameAt(cfg, life, k)
            && HeadPlace(cfg, life.first, life.trace, j) <= HeadPlace(cfg, life.first, life.trace, k)
            && (NeverClassA(life.first, life.trace) ==> life.trace[k].now - life.trace[j].now > cfg.txDelay)
  {
    var life := Lives(inputs, i)[n];
    LivesAreWellLived(inputs, i);
    assert life.first.fifo + AllAccepted(life.trace) == AllAccepted(life.trace);
    SendsAreInOrder(cfg, life.first, life.trace, j, k);
    if NeverClassA(life.first, life.trace) {
      SendsAreSpaced(cfg, life.first, life.trace, j, k);
    }
  }

  /** Which frames acknowledgements have ever lost: those whose head had not been sent. */
  lemma EveryLossIsAnUnsentHead(cfg: Config, inputs: seq<Input>, i: nat, n: nat, k: nat)
    requires Orderly(inputs) && AllLegal(inputs) && i < MAX_PENDING_NODES && n < |Lives(inputs, i)|
    requires var life := Lives(inputs, i)[n];
             k < |life.trace| && AckRemoves(cfg, life.first, life.trace, k)
    ensures var life := Lives(inputs, i)[n];
            var p := HeadPlace(cfg, life.first, life.trace, k);
            && p < |AllAccepted(life.trace)|
            && Run(cfg, life.first, life.trace[..k]).fifo[0] == AllAccepted(life.trace)[p]
            && (Transmitted(cfg, life.first, life.trace, p) <==> HeadSent(cfg, life.first, life.trace[..k]))
  {
    var life := Lives(inputs, i)[n];
    LivesAreWellLived(inputs, i);
    AckLosesUnsentFrame(cfg, life.first, life.trace, k);
    HeadIsAccepted(cfg, life, k);
  }

  /** Whatever is at the head has that place among the frames accepted. */
  lemma HeadIsAccepted(cfg: Config, life: Life, k: nat)
    requires k <= |life.trace| && life.first.fifo == [] && Run(cfg, life.first, life.trace[..k]).fifo != []
    ensures var p, all := HeadPlace(cfg, life.first, life.trace, k), AllAccepted(life.trace);
            p < |all| && Run(cfg, life.first, life.trace[..k]).fifo[0] == all[p]
  {
    var all, gone := AllAccepted(life.trace[..k]), AllRemoved(cfg, life.first, life.trace[..k]);
    FifoConservation(cfg, life.first, life.trace[..k]);
    HistoryGrows(cfg, life.first, life.trace, k);
    assert life.first.fifo + all == all;
    assert all[|gone|] == Run(cfg, life.first, life.trace[..k]).fifo[0];
  }

  // ----- Where frames come from -----

  /** Some message for the node asked for this frame. */
  ghost predicate Asked(inputs: seq<Input>, id: NodeId, frame: string) {
    exists m :: 0 <= m < |inputs| && IsAsking(inputs[m], id, frame)
  }

  predicate IsAsking(input: Input, id: NodeId, frame: string) {
    input.Message? && input.id == id && frame == Hex.IndFrame(id, input.payload)
  }

  /** Freshly allocated, and every frame queued since was asked for. */
  ghost predicate AllAsked(inputs: seq<Input>, life: Life) {
    && IsNew(life.first)
    && forall k :: 0 <= k < |life.trace| && life.trace[k].Enqueue? ==> Asked(inputs, life.Id(), life.trace[k].frame)
  }

  lemma AskedLater(inputs: seq<Input>, life: Life)
    requires inputs != [] && AllAsked(Front(inputs), life)
    ensures AllAsked(inputs, life)
  {
    forall k | 0 <= k < |life.trace| && life.trace[k].Enqueue?
      ensures Asked(inputs, life.Id(), life.trace[k].frame)
    {
      var m :| 0 <= m < |Front(inputs)| && IsAsking(Front(inputs)[m], life.Id(), life.trace[k].frame);
      assert inputs[m] == Front(inputs)[m];
    }
  }

  predicate AllAsking(events: seq<Event>, input: Input, id: NodeId) {
    forall k :: 0 <= k < |events| && events[k].Enqueue? ==> IsAsking(input, id, events[k].frame)
  }

  /** Only a message for the node that sits in a slot queues something there. */
  lemma ReachingWasAsked(t: Table, input: Input, i: nat)
    requires Legal(input) && i < |t| && Next(t, input)[i].Used?
    ensures AllAsking(Reaching(t, input, i), input, Next(t, input)[i].life.Id())
  {
  }

  lemma PresentWasAsked(inputs: seq<Input>, i: nat)
    requires AllLegal(inputs) && inputs != [] && i < MAX_PENDING_NODES && TableAfter(inputs)[i].Used?
    requires var s := TableAfter(Front(inputs))[i]; s.Used? ==> AllAsked(Front(inputs), s.life)
    ensures AllAsked(inputs, TableAfter(inputs)[i].life)
  {
    var t, input := TableAfter(Front(inputs)), Last(inputs);
    var life, events := TableAfter(inputs)[i].life, Reaching(t, input, i);
    SlotFollows(t, input, i);
    ReachingWasAsked(t, input, i);
    assert inputs[|inputs| - 1] == input;
    if t[i].Used? {
      AskedLater(inputs, t[i].life);
      assert life.Id() == t[i].life.Id();
    }
    forall k | 0 <= k < |life.trace| && life.trace[k].Enqueue?
      ensures Asked(inputs, life.Id(), life.trace[k].frame)
    {
      var before := |life.trace| - |events|;
      if k >= before {
        assert life.trace[k] == events[k - before];
      } else {
        assert life.trace[k] == t[i].life.trace[k];
      }
    }
  }

  ghost predicate AllLivesAsked(inputs: seq<Input>, lives: seq<Life>) {
    forall n :: 0 <= n < |lives| ==> AllAsked(inputs, lives[n])
  }

  lemma NextAsked(inputs: seq<Input>, past: seq<Life>, s: Slot, s': Slot)
    requires inputs != [] && AllLivesAsked(Front(inputs), past) && (s'.Used? ==> AllAsked(inputs, s'.life))
    ensures AllLivesAsked(inputs, LivesNext(past, s, s'))
  {
    forall n | 0 <= n < |past| ensures AllAsked(inputs, past[n]) {
      AskedLater(inputs, past[n]);
    }
  }

  /** Whoever sat in a slot only ever had frames queued that messages asked for. */
  lemma {:induction false} LivesWereAsked(inputs: seq<Input>, i: nat)
    requires AllLegal(inputs) && i < MAX_PENDING_NODES
    ensures AllLivesAsked(inputs, Lives(inputs, i))
  {
    if inputs != [] {
      LivesWereAsked(Front(inputs), i);
      if TableAfter(Front(inputs))[i].Used? {
        PresentIsLast(Front(inputs), i);
      }
      if TableAfter(inputs)[i].Used? {
        PresentWasAsked(inputs, i);
      }
      NextAsked(inputs, Lives(Front(inputs), i), TableAfter(Front(inputs))[i], TableAfter(inputs)[i]);
    }
  }

  /** So every frame ever accepted for a node was asked for. */
  lemma {:induction false} AcceptedWereAsked(inputs: seq<Input>, life: Life, tr: seq<Event>)
    requires AllAsked(inputs, life) && tr <= life.trace
    ensures forall k :: 0 <= k < |AllAccepted(tr)| ==> Asked(inputs, life.Id(), AllAccepted(tr)[k])
  {
    if tr != [] {
      AcceptedWereAsked(inputs, life, Front(tr));
      assert Last(tr) == life.trace[|tr| - 1];
    }
  }
}
