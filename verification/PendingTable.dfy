/** The table of nodes of mqtt.c as a value: what every locked region or handler does to it, that it behaves
    like a finite map from node id to node, and that every node in it lives one of the lives that
    Lifetimes.dfy is about. */
module PendingTable {
  import opened Downlink
  import opened Lifetimes
  import opened SilentRun
  import Hex

  const MAX_PENDING_NODES := 1000

  /** An occupied slot is known by how it was allocated and by everything that has reached it since. */
  datatype Life = Life(first: Item, trace: seq<Event>) {
    function Id(): NodeId { first.nodeid }

    function Log(ev: Event): Life { Life(first, trace + [ev]) }
  }

  function Current(cfg: Config, life: Life): Item { Run(cfg, life.first, life.trace) }

  lemma CurrentLog(cfg: Config, life: Life, ev: Event)
    ensures Current(cfg, life.Log(ev)) == Step(cfg, Current(cfg, life), ev)
  {
    RunSnoc(cfg, life.first, life.trace, ev);
  }

  lemma {:induction false} IdNeverChanges(cfg: Config, e: Item, tr: seq<Event>)
    ensures Run(cfg, e, tr).nodeid == e.nodeid
  {
    if tr != [] {
      IdNeverChanges(cfg, e, Front(tr));
    }
  }

  datatype Slot = Free | Used(life: Life) {
    predicate Holds(id: NodeId) { Used? && life.Id() == id }

    function Log(ev: Event): Slot { if Free? then Free else Used(life.Log(ev)) }
  }

  type Table = t: seq<Slot> | |t| == MAX_PENDING_NODES witness Nobody()

  function Nobody(): seq<Slot> { seq(MAX_PENDING_NODES, _ => Free) }

  /** Each constructor is one handler, or one pass of the worker; the clock is an input. */
  datatype Input =
    | Listed(id: NodeId, nodeclass: Word16, now: int)
    | Joined(id: NodeId, nodeclass: Word16, now: int)
    | Kicked(id: NodeId, now: int)
    | Acknowledged(id: NodeId, now: int)
    | Requested(id: NodeId, now: int)
    | Message(id: NodeId, payload: string, now: int)    // MQTT message for one mote
    | Pass(clock: seq<int>)                             // what time() returns at each slot

  // ----- What the handlers do -----

  /** The first slot from k on that holds the node, or the table size. */
  function Find(t: Table, id: NodeId, k: nat := 0): (i: nat)
    requires k <= |t|
    ensures k <= i <= |t|
    ensures i < |t| ==> t[i].Holds(id)
    ensures forall j :: k <= j < i ==> !t[j].Holds(id)
    decreases |t| - k
  {
    if k == |t| || t[k].Holds(id) then k else Find(t, id, k + 1)
  }

  function FirstFree(t: Table, k: nat := 0): (i: nat)
    requires k <= |t|
    ensures k <= i <= |t|
    ensures i < |t| ==> t[i].Free?
    ensures forall j :: k <= j < i ==> t[j].Used?
    decreases |t| - k
  {
    if k == |t| || t[k].Free? then k else FirstFree(t, k + 1)
  }

  function LogTo(t: Table, id: NodeId, ev: Event): Table {
    var i := Find(t, id);
    if i < |t| then t[i := t[i].Log(ev)] else t
  }

  function AddDevice(t: Table, id: NodeId, nodeclass: Word16, wasJoined: bool, now: int): Table {
    if Find(t, id) < |t| then LogTo(t, id, Refresh(nodeclass, wasJoined, now))
    else
      var i := FirstFree(t);
      if i < |t| then t[i := Used(Life(NewItem(id, nodeclass, wasJoined), []))] else t
  }

  function KickDevice(t: Table, id: NodeId): Table {
    var i := Find(t, id);
    if i < |t| then t[i := Free] else t
  }

  /** The first k slots have been visited. */
  function Visits(t: Table, clock: seq<int>, k: nat): (t': Table)
    requires k <= |t| <= |clock|
    ensures forall i :: 0 <= i < |t| ==> t'[i] == if i < k then t[i].Log(Visit(clock[i])) else t[i]
  {
    if k == 0 then t else Visits(t, clock, k - 1)[k - 1 := t[k - 1].Log(Visit(clock[k - 1]))]
  }

  /** A message for an unknown node adds it as a class C node that still has to be invited. */
  function Admit(t: Table, id: NodeId, now: int): Table {
    if Find(t, id) < |t| then t else AddDevice(t, id, CLASS_C, false, now)
  }

  predicate Legal(input: Input) {
    input.Pass? ==> |input.clock| == MAX_PENDING_NODES
  }

  function Next(t: Table, input: Input): Table
    requires Legal(input)
  {
    match input
    case Listed(id, nodeclass, now) => AddDevice(t, id, nodeclass, true, now)
    case Joined(id, nodeclass, now) => AddDevice(t, id, nodeclass, true, now)
    case Kicked(id, _) => KickDevice(t, id)
    case Acknowledged(id, now) => LogTo(t, id, Ack(now))
    case Requested(id, now) => LogTo(t, id, PendingReq(now))
    case Message(id, payload, now) =>
      LogTo(Admit(t, id, now), id, Enqueue(Hex.IndFrame(id, payload), now))
    case Pass(clock) => Visits(t, clock, |t|)
  }

  predicate AllLegal(inputs: seq<Input>) {
    forall i :: 0 <= i < |inputs| ==> Legal(inputs[i])
  }

  function TableAfter(inputs: seq<Input>): Table
    requires AllLegal(inputs)
  {
    if inputs == [] then Nobody() else Next(TableAfter(Front(inputs)), Last(inputs))
  }

  lemma TableAfterSnoc(inputs: seq<Input>, input: Input)
    requires AllLegal(inputs) && Legal(input)
    ensures AllLegal(inputs + [input]) && TableAfter(inputs + [input]) == Next(TableAfter(inputs), input)
  {
    assert Front(inputs + [input]) == inputs;
  }

  // ----- A finite map in disguise -----

  /** The same handlers on a map from node id to node with room for 1000 entries. `seen` gives, for every
      node, what the clock showed when a pass came to it. */
  function MapNext(m: map<NodeId, Life>, input: Input, seen: map<NodeId, int>): map<NodeId, Life>
    requires input.Pass? ==> m.Keys <= seen.Keys
  {
    match input
    case Listed(id, nodeclass, now) => MapAdd(m, id, nodeclass, true, now)
    case Joined(id, nodeclass, now) => MapAdd(m, id, nodeclass, true, now)
    case Kicked(id, _) => m - {id}
    case Acknowledged(id, now) => MapLog(m, id, Ack(now))
    case Requested(id, now) => MapLog(m, id, PendingReq(now))
    case Message(id, payload, now) =>
      MapLog(if id in m then m else MapAdd(m, id, CLASS_C, false, now), id,
             Enqueue(Hex.IndFrame(id, payload), now))
    case Pass(_) => MapVisits(m, seen)
  }

  function MapVisits(m: map<NodeId, Life>, seen: map<NodeId, int>): map<NodeId, Life>
    requires m.Keys <= seen.Keys
  {
    map id | id in m :: m[id].Log(Visit(seen[id]))
  }

  function MapLog(m: map<NodeId, Life>, id: NodeId, ev: Event): map<NodeId, Life> {
    if id in m then m[id := m[id].Log(ev)] else m
  }

  function MapAdd(m: map<NodeId, Life>, id: NodeId, nodeclass: Word16, wasJoined: bool, now: int): map<NodeId, Life> {
    if id in m then MapLog(m, id, Refresh(nodeclass, wasJoined, now))
    else if |m| < MAX_PENDING_NODES then m[id := Life(NewItem(id, nodeclass, wasJoined), [])]
    else m
  }

  ghost predicate Distinct(t: Table) {
    forall i, j :: 0 <= i < j < |t| && t[i].Used? && t[j].Used? ==> t[i].life.Id() != t[j].life.Id()
  }

  /** Every node sits in exactly one slot and lookup finds it there. */
  ghost predicate Represents(t: Table, m: map<NodeId, Life>) {
    && Distinct(t)
    && (forall i :: 0 <= i < |t| && t[i].Used? ==> t[i].life.Id() in m && m[t[i].life.Id()] == t[i].life)
    && (forall id :: id in m ==> Find(t, id) < |t|)
  }

  /** The ids in the first k slots. */
  ghost function Ids(t: Table, k: nat): set<NodeId>
    requires k <= |t|
  {
    if k == 0 then {}
    else if t[k - 1].Used? then Ids(t, k - 1) + {t[k - 1].life.Id()}
    else Ids(t, k - 1)
  }

  lemma {:induction false} IdsAreFound(t: Table, k: nat, id: NodeId)
    requires k <= |t|
    ensures id in Ids(t, k) <==> Find(t, id) < k
  {
    if k > 0 {
      IdsAreFound(t, k - 1, id);
      assert t[k - 1].Holds(id) ==> Find(t, id) <= k - 1;
    }
  }

  /** The clock readings of a pass, by node. */
  ghost function Readings(t: Table, input: Input): (seen: map<NodeId, int>)
    requires Legal(input)
    ensures seen.Keys == if input.Pass? then Ids(t, |t|) else {}
    ensures forall id :: id in seen ==> Find(t, id) < |t| && seen[id] == input.clock[Find(t, id)]
  {
    forall id | id in Ids(t, |t|) ensures Find(t, id) < |t| {
      IdsAreFound(t, |t|, id);
    }
    if input.Pass? then map id | id in Ids(t, |t|) :: input.clock[Find(t, id)] else map[]
  }

  lemma {:induction false} IdsCount(t: Table, k: nat)
    requires k <= |t| && Distinct(t)
    ensures |Ids(t, k)| <= k
    ensures |Ids(t, k)| == k <==> FirstFree(t) >= k
  {
    if k > 0 {
      IdsCount(t, k - 1);
      if t[k - 1].Used? {
        IdsAreFound(t, k - 1, t[k - 1].life.Id());
        FoundWhereItIs(t, k - 1);
      }
    }
  }

  lemma FoundWhereItIs(t: Table, i: nat)
    requires Distinct(t) && i < |t| && t[i].Used?
    ensures Find(t, t[i].life.Id()) == i
  {
    assert t[i].Holds(t[i].life.Id());
  }

  lemma KeysAreIds(t: Table, m: map<NodeId, Life>)
    requires Represents(t, m)
    ensures m.Keys == Ids(t, |t|)
  {
    forall id: NodeId ensures id in m <==> id in Ids(t, |t|) {
      IdsAreFound(t, |t|, id);
      if Find(t, id) < |t| {
        assert t[Find(t, id)].Holds(id);
      }
    }
  }

  /** The table has a free slot exactly when the map is not full, and lookup agrees with the map. */
  lemma LookupAgrees(t: Table, m: map<NodeId, Life>, id: NodeId)
    requires Represents(t, m)
    ensures |m| <= 1000
    ensures FirstFree(t) < |t| <==> |m| < 1000
    ensures Find(t, id) < |t| <==> id in m
    ensures id in m ==> t[Find(t, id)] == Used(m[id])
  {
    KeysAreIds(t, m);
    IdsCount(t, |t|);
    IdsAreFound(t, |t|, id);
    assert |m| == |m.Keys|;
  }

  lemma LogRefines(t: Table, m: map<NodeId, Life>, id: NodeId, ev: Event)
    requires Represents(t, m)
    ensures Represents(LogTo(t, id, ev), MapLog(m, id, ev))
  {
    LookupAgrees(t, m, id);
    var t', m' := LogTo(t, id, ev), MapLog(m, id, ev);
    assert forall i :: 0 <= i < |t| && t[i].Used? && i != Find(t, id) ==> t[i].life.Id() != id;
    forall x | x in m' ensures Find(t', x) < |t| {
      assert t'[Find(t, x)].Holds(x);
    }
  }

  lemma OccupyRefines(t: Table, m: map<NodeId, Life>, i: nat, life: Life)
    requires Represents(t, m) && i < |t| && t[i].Free? && life.Id() !in m
    ensures Represents(t[i := Used(life)], m[life.Id() := life])
  {
    var t', id := t[i := Used(life)], life.Id();
    forall x | x in m || x == id ensures Find(t', x) < |t| {
      assert t'[if x == id then i else Find(t, x)].Holds(x);
    }
  }

  lemma AddRefines(t: Table, m: map<NodeId, Life>, id: NodeId, nodeclass: Word16, wasJoined: bool, now: int)
    requires Represents(t, m)
    ensures Represents(AddDevice(t, id, nodeclass, wasJoined, now), MapAdd(m, id, nodeclass, wasJoined, now))
  {
    LookupAgrees(t, m, id);
    if id in m {
      LogRefines(t, m, id, Refresh(nodeclass, wasJoined, now));
    } else if FirstFree(t) < |t| {
      OccupyRefines(t, m, FirstFree(t), Life(NewItem(id, nodeclass, wasJoined), []));
    }
  }

  lemma OthersStay(t: Table, m: map<NodeId, Life>, id: NodeId, other: NodeId)
    requires Represents(t, m) && other in m && other != id
    ensures Find(KickDevice(t, id), other) < |t|
  {
    assert KickDevice(t, id)[Find(t, other)].Holds(other);
  }

  lemma KickRefines(t: Table, m: map<NodeId, Life>, id: NodeId)
    requires Represents(t, m)
    ensures Represents(KickDevice(t, id), m - {id})
  {
    forall other | other in m - {id} ensures Find(KickDevice(t, id), other) < |t| {
      OthersStay(t, m, id, other);
    }
  }

  lemma PassRefines(t: Table, m: map<NodeId, Life>, input: Input)
    requires Represents(t, m) && Legal(input) && input.Pass?
    ensures m.Keys <= Readings(t, input).Keys
    ensures Represents(Next(t, input), MapNext(m, input, Readings(t, input)))
  {
    KeysAreIds(t, m);
    var t', m' := Visits(t, input.clock, |t|), MapVisits(m, Readings(t, input));
    VisitsDistinct(t, input.clock);
    forall x | x in m' ensures Find(t', x) < |t| {
      assert t'[Find(t, x)].Holds(x);
    }
    forall i | 0 <= i < |t| && t'[i].Used? ensures t'[i].life.Id() in m' && m'[t'[i].life.Id()] == t'[i].life {
      FoundWhereItIs(t, i);
    }
  }

  lemma VisitsDistinct(t: Table, clock: seq<int>)
    requires Distinct(t) && |t| <= |clock|
    ensures Distinct(Visits(t, clock, |t|))
  {
    var t' := Visits(t, clock, |t|);
    forall i, j | 0 <= i < j < |t| && t'[i].Used? && t'[j].Used? ensures t'[i].life.Id() != t'[j].life.Id() {
      assert t[i].life.Id() != t[j].life.Id();
    }
  }

  /** One handler or pass on the table is one handler or pass on the map. */
  lemma NextRefines(t: Table, m: map<NodeId, Life>, input: Input)
    requires Represents(t, m) && Legal(input)
    ensures input.Pass? ==> m.Keys <= Readings(t, input).Keys
    ensures Represents(Next(t, input), MapNext(m, input, Readings(t, input)))
  {
    match input
    case Listed(id, nodeclass, now) => AddRefines(t, m, id, nodeclass, true, now);
    case Joined(id, nodeclass, now) => AddRefines(t, m, id, nodeclass, true, now);
    case Kicked(id, _) => KickRefines(t, m, id);
    case Acknowledged(id, now) => LogRefines(t, m, id, Ack(now));
    case Requested(id, now) => LogRefines(t, m, id, PendingReq(now));
    case Message(id, payload, now) =>
      LookupAgrees(t, m, id);
      var ev := Enqueue(Hex.IndFrame(id, payload), now);
      if id in m {
        LogRefines(t, m, id, ev);
      } else {
        AddRefines(t, m, id, CLASS_C, false, now);
        LogRefines(AddDevice(t, id, CLASS_C, false, now), MapAdd(m, id, CLASS_C, false, now), id, ev);
      }
    case Pass(_) => PassRefines(t, m, input);
  }

  /** The map after a run. */
  ghost function MapAfter(inputs: seq<Input>): (m: map<NodeId, Life>)
    requires AllLegal(inputs)
    ensures Represents(TableAfter(inputs), m)
  {
    if inputs == [] then map[]
    else Refined(TableAfter(Front(inputs)), MapAfter(Front(inputs)), Last(inputs))
  }

  ghost function Refined(t: Table, m: map<NodeId, Life>, input: Input): (m': map<NodeId, Life>)
    requires Represents(t, m) && Legal(input)
    ensures Represents(Next(t, input), m')
  {
    NextRefines(t, m, input);
    MapNext(m, input, Readings(t, input))
  }

  // ----- Reachable tables -----

  function Begins(input: Input): int
    requires Legal(input)
  {
    if input.Pass? then input.clock[0] else input.now
  }

  function Ends(input: Input): int
    requires Legal(input)
  {
    if input.Pass? then input.clock[MAX_PENDING_NODES - 1] else input.now
  }

  /** The clock does not go back during a pass. */
  ghost predicate Steadily(input: Input) {
    input.Pass? ==> forall i, j :: 0 <= i < j < |input.clock| ==> input.clock[i] <= input.clock[j]
  }

  /** The clock starts at 0 or later and never goes back, within a pass or from one input to the next. */
  ghost predicate Orderly(inputs: seq<Input>) {
    inputs == [] ||
    (&& Orderly(Front(inputs))
     && Legal(Last(inputs)) && Steadily(Last(inputs))
     && Clock(Front(inputs)) <= Begins(Last(inputs)))
  }

  ghost function Clock(inputs: seq<Input>): int
    requires inputs != [] ==> Legal(Last(inputs))
  {
    if inputs == [] then 0 else Ends(Last(inputs))
  }

  lemma {:induction false} OrderlyIsLegal(inputs: seq<Input>)
    requires Orderly(inputs)
    ensures AllLegal(inputs) && Clock(inputs) >= 0
  {
    if inputs != [] {
      OrderlyIsLegal(Front(inputs));
    }
  }

  /** A life as Lifetimes.dfy supposes it: freshly allocated, then events in the order of the clock. */
  ghost predicate WellLived(life: Life, now: int) {
    && life.first == NewItem(life.first.nodeid, life.first.nodeclass, !life.first.hasBeenInvited)
    && Timed(life.trace) && NoLaterThan(life.trace, now)
    && (forall i :: 0 <= i < |life.trace| ==> 0 <= life.trace[i].now)
  }

  ghost predicate AllWellLived(t: Table, now: int) {
    forall i :: 0 <= i < |t| && t[i].Used? ==> WellLived(t[i].life, now)
  }

  lemma LogWellLived(life: Life, now: int, ev: Event)
    requires WellLived(life, now) && 0 <= now <= ev.now
    ensures WellLived(life.Log(ev), ev.now)
  {
  }

  lemma LogToWellLived(t: Table, now: int, id: NodeId, ev: Event)
    requires AllWellLived(t, now) && 0 <= now <= ev.now
    ensures AllWellLived(LogTo(t, id, ev), ev.now)
  {
    if Find(t, id) < |t| {
      LogWellLived(t[Find(t, id)].life, now, ev);
    }
  }

  /** In every reachable table every occupied slot is well lived. */
  lemma {:induction false} ReachableIsWellLived(inputs: seq<Input>)
    requires Orderly(inputs) && AllLegal(inputs)
    ensures AllWellLived(TableAfter(inputs), Clock(inputs))
  {
    if inputs != [] {
      var t, now, input := TableAfter(Front(inputs)), Clock(Front(inputs)), Last(inputs);
      ReachableIsWellLived(Front(inputs));
      OrderlyIsLegal(Front(inputs));
      match input {
        case Listed(id, nodeclass, later) => LogToWellLived(t, now, id, Refresh(nodeclass, true, later));
        case Joined(id, nodeclass, later) => LogToWellLived(t, now, id, Refresh(nodeclass, true, later));
        case Kicked(id, _) =>
        case Acknowledged(id, later) => LogToWellLived(t, now, id, Ack(later));
        case Requested(id, later) => LogToWellLived(t, now, id, PendingReq(later));
        case Message(id, payload, later) =>
          LogToWellLived(Admit(t, id, later), now, id, Enqueue(Hex.IndFrame(id, payload), later));
        case Pass(clock) =>
          forall i | 0 <= i < |t| && t[i].Used? ensures WellLived(Next(t, input)[i].life, Clock(inputs)) {
            LogWellLived(t[i].life, now, Visit(clock[i]));
          }
      }
    }
  }

  lemma {:induction false} TimestampsNotAhead(cfg: Config, e: Item, tr: seq<Event>, now: int)
    requires Settled(e, now) && NoLaterThan(tr, now) && 0 <= now
    ensures Settled(Run(cfg, e, tr), now) && Run(cfg, e, tr).nodeid == e.nodeid
  {
    if tr != [] {
      TimestampsNotAhead(cfg, e, Front(tr), now);
    }
  }

  /** What the lifetime theorems give for any node of any reachable table. */
  lemma ReachableNodeIsSafe(cfg: Config, inputs: seq<Input>, i: nat)
    requires Orderly(inputs) && AllLegal(inputs) && i < MAX_PENDING_NODES
    requires TableAfter(inputs)[i].Used?
    ensures var life := TableAfter(inputs)[i].life;
            var e := Current(cfg, life);
            && e.nodeid == life.Id()
            && e.numRetries <= NUM_RETRIES + 1
            && Settled(e, Clock(inputs))
            && AllAccepted(life.trace) == AllRemoved(cfg, life.first, life.trace) + e.fifo
            && Count(cfg, life.first, life.trace, ClassASends) <= Count(cfg, life.first, life.trace, Permits)
            && (forall j, k :: 0 <= j < k < |life.trace| && NeverClassA(life.first, life.trace)
                  && Act(cfg, Run(cfg, life.first, life.trace[..j]), life.trace[j]).Send?
                  && Act(cfg, Run(cfg, life.first, life.trace[..k]), life.trace[k]).Send?
                  ==> life.trace[k].now - life.trace[j].now > cfg.txDelay)
  {
    var life := TableAfter(inputs)[i].life;
    OrderlyIsLegal(inputs);
    ReachableIsWellLived(inputs);
    TimestampsNotAhead(cfg, life.first, life.trace, Clock(inputs));
    RetriesBounded(cfg, life.first, life.trace);
    FifoConservation(cfg, life.first, life.trace);
    assert life.first.fifo + AllAccepted(life.trace) == AllAccepted(life.trace);
    PermitsCoverSends(cfg, life.first, life.trace);
    forall j, k | 0 <= j < k < |life.trace| && NeverClassA(life.first, life.trace)
        && Act(cfg, Run(cfg, life.first, life.trace[..j]), life.trace[j]).Send?
        && Act(cfg, Run(cfg, life.first, life.trace[..k]), life.trace[k]).Send?
      ensures life.trace[k].now - life.trace[j].now > cfg.txDelay
    {
      SendsAreSpaced(cfg, life.first, life.trace, j, k);
    }
  }

  // ----- Nothing but passes -----

  ghost predicate OnlyPasses(passes: seq<Input>) {
    forall k :: 0 <= k < |passes| ==> passes[k].Pass? && Legal(passes[k])
  }

  /** The visits slot i receives. */
  ghost function VisitsTo(passes: seq<Input>, i: nat): seq<Event>
    requires OnlyPasses(passes) && i < MAX_PENDING_NODES
  {
    if passes == [] then [] else VisitsTo(Front(passes), i) + [Visit(Last(passes).clock[i])]
  }

  /** The table after those passes. */
  ghost function AfterPasses(t: Table, passes: seq<Input>): Table
    requires OnlyPasses(passes)
  {
    if passes == [] then t else Next(AfterPasses(t, Front(passes)), Last(passes))
  }

  lemma {:induction false} PassesAreInputs(inputs: seq<Input>, passes: seq<Input>)
    requires AllLegal(inputs) && OnlyPasses(passes)
    ensures AllLegal(inputs + passes) && TableAfter(inputs + passes) == AfterPasses(TableAfter(inputs), passes)
  {
    if passes == [] {
      assert inputs + passes == inputs;
    } else {
      PassesAreInputs(inputs, Front(passes));
      TableAfterSnoc(inputs + Front(passes), Last(passes));
      assert inputs + passes == (inputs + Front(passes)) + [Last(passes)];
    }
  }

  /** While only the worker runs, a node stays where it is and all it sees is visits. */
  lemma {:induction false} PassesOnlyVisit(t: Table, passes: seq<Input>, i: nat)
    requires OnlyPasses(passes) && i < MAX_PENDING_NODES && t[i].Used?
    ensures var life := t[i].life;
            AfterPasses(t, passes)[i] == Used(Life(life.first, life.trace + VisitsTo(passes, i)))
  {
    var life := t[i].life;
    if passes == [] {
      assert life.trace + [] == life.trace;
    } else {
      var seen, ev := VisitsTo(Front(passes), i), Visit(Last(passes).clock[i]);
      PassesOnlyVisit(t, Front(passes), i);
      assert life.trace + (seen + [ev]) == (life.trace + seen) + [ev];
    }
  }

  lemma {:induction false} LastVisit(passes: seq<Input>, i: nat)
    requires OnlyPasses(passes) && i < MAX_PENDING_NODES
    ensures |VisitsTo(passes, i)| == |passes|
    ensures passes != [] ==> Last(VisitsTo(passes, i)) == Visit(Last(passes).clock[i])
  {
    if passes != [] {
      LastVisit(Front(passes), i);
    }
  }

  /** A node of a reachable table that is joined and has no retries and something queued. */
  ghost predicate Starts(cfg: Config, inputs: seq<Input>, i: nat) {
    && Orderly(inputs) && AllLegal(inputs) && i < MAX_PENDING_NODES && TableAfter(inputs)[i].Used?
    && (var e := Current(cfg, TableAfter(inputs)[i].life);
        !e.hasBeenInvited && e.numRetries == 0 && e.fifo != [])
  }

  /** Only the worker runs from there on, and it comes by slot i every second, at last at `until` or later. */
  ghost predicate Lasts(inputs: seq<Input>, passes: seq<Input>, i: nat, until: int)
    requires Orderly(inputs) && AllLegal(inputs) && i < MAX_PENDING_NODES
  {
    && OnlyPasses(passes) && passes != [] && Attended(Clock(inputs), VisitsTo(passes, i))
    && Last(passes).clock[i] >= until
  }

  /** Then the node is where its visits take it. */
  lemma AfterOnlyPasses(cfg: Config, inputs: seq<Input>, passes: seq<Input>, i: nat, until: int)
    requires Starts(cfg, inputs, i) && Lasts(inputs, passes, i, until)
    ensures AllLegal(inputs + passes) && TableAfter(inputs + passes)[i].Used?
    ensures Settled(Current(cfg, TableAfter(inputs)[i].life), Clock(inputs))
    ensures Current(cfg, TableAfter(inputs + passes)[i].life)
         == Run(cfg, Current(cfg, TableAfter(inputs)[i].life), VisitsTo(passes, i))
    ensures VisitsTo(passes, i) != [] && Last(VisitsTo(passes, i)).now >= until
  {
    var life := TableAfter(inputs)[i].life;
    PassesAreInputs(inputs, passes);
    PassesOnlyVisit(TableAfter(inputs), passes, i);
    LastVisit(passes, i);
    RunConcat(cfg, life.first, life.trace, VisitsTo(passes, i));
    OrderlyIsLegal(inputs);
    ReachableIsWellLived(inputs);
    TimestampsNotAhead(cfg, life.first, life.trace, Clock(inputs));
  }

  /** The bound of HeadFrameGone for the whole gateway: any node of any reachable table that is class C, joined
      and without retries loses its head frame in time if only the worker runs and comes by every second. */
  lemma GatewayDropsHeadFrame(cfg: Config, inputs: seq<Input>, passes: seq<Input>, i: nat)
    requires Starts(cfg, inputs, i) && Current(cfg, TableAfter(inputs)[i].life).nodeclass == CLASS_C
    requires 1 <= cfg.txMaxretr <= NUM_RETRIES + 1
    requires Lasts(inputs, passes, i, Clock(inputs) + cfg.txMaxretr * SendGap(cfg) + 680 + 1)
    ensures AllLegal(inputs + passes) && TableAfter(inputs + passes)[i].Used?
    ensures |Current(cfg, TableAfter(inputs + passes)[i].life).fifo|
          < |Current(cfg, TableAfter(inputs)[i].life).fifo|
  {
    AfterOnlyPasses(cfg, inputs, passes, i, Clock(inputs) + cfg.txMaxretr * SendGap(cfg) + 680 + 1);
    HeadFrameGone(cfg, Current(cfg, TableAfter(inputs)[i].life), Clock(inputs), VisitsTo(passes, i));
  }

  /** The bounds for the whole queue: any node of any reachable table that is not class A, joined and without
      retries has nothing queued any more. */
  lemma GatewayEmptiesQueue(cfg: Config, inputs: seq<Input>, passes: seq<Input>, i: nat)
    requires Starts(cfg, inputs, i) && Current(cfg, TableAfter(inputs)[i].life).nodeclass != CLASS_A
    requires Lasts(inputs, passes, i, Clock(inputs) + QueueTime(cfg, Current(cfg, TableAfter(inputs)[i].life)))
    ensures AllLegal(inputs + passes) && TableAfter(inputs + passes)[i].Used?
    ensures Current(cfg, TableAfter(inputs + passes)[i].life).fifo == []
  {
    var e := Current(cfg, TableAfter(inputs)[i].life);
    AfterOnlyPasses(cfg, inputs, passes, i, Clock(inputs) + QueueTime(cfg, e));
    QueueEmptiedInTime(cfg, e, Clock(inputs), VisitsTo(passes, i));
  }
}
