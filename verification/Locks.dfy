/** How the four threads of mqtt.c use their two mutexes and their message queue.

    Each thread is a flow graph over the points where it takes or releases a mutex, blocks on the message queue,
    or does anything else (which is assumed to return). Every interleaving of every path is covered. */
module Locks {
  datatype Mutex = Uart | Pending

  datatype Thread = Reader | Publisher | Worker | Callback

  // ----- The flow graphs -----

  // uart_reader, with devices_list and send_static_devices_list
  datatype ReaderAt =
    | ReaderTakesUart | ReaderReads | ReaderGivesUart | ReaderSplits | ReaderPosts | ReaderListTakesUart
    | ReaderListWrites | ReaderListGivesUart | ReaderStaticTakesUart | ReaderStaticWrites | ReaderStaticGivesUart
    | ReaderSleeps

  // publisher, with serve_reply
  datatype PublisherAt =
    | PublisherReceives | PublisherParses | PublisherTakesPending | PublisherUpdates | PublisherGivesPending
    | PublisherChecks | PublisherTakesUart | PublisherWrites | PublisherGivesUart

  // pending_worker, with invite_mote
  datatype WorkerAt =
    | WorkerTakesPending | WorkerLooks | WorkerTakesUart | WorkerWrites | WorkerGivesUart | WorkerGivesPending
    | WorkerSleeps

  // the MQTT callback, with devices_list, message_to_mote and message_broadcast
  datatype CallbackAt =
    | CallbackIdle | CallbackGateCommand | CallbackTakesUart | CallbackWrites | CallbackGivesUart
    | CallbackAddTakesPending | CallbackAdds | CallbackAddGivesPending
    | CallbackTakesPending | CallbackQueues | CallbackNoticeTakesUart | CallbackNotices | CallbackNoticeGivesUart
    | CallbackGivesPending

  /** The point a thread is about to execute. */
  datatype Point =
    | InReader(reader: ReaderAt) | InPublisher(publisher: PublisherAt) | InWorker(worker: WorkerAt)
    | InCallback(callback: CallbackAt)

  datatype Op = Lock(m: Mutex) | Unlock(m: Mutex) | PostMessage | ReceiveMessage | Local

  function ReaderOp(p: ReaderAt): Op {
    match p
    case ReaderTakesUart | ReaderListTakesUart | ReaderStaticTakesUart => Lock(Uart)
    case ReaderGivesUart | ReaderListGivesUart | ReaderStaticGivesUart => Unlock(Uart)
    case ReaderPosts => PostMessage
    case _ => Local
  }

  function PublisherOp(p: PublisherAt): Op {
    match p
    case PublisherReceives => ReceiveMessage
    case PublisherTakesPending => Lock(Pending)
    case PublisherGivesPending => Unlock(Pending)
    case PublisherTakesUart => Lock(Uart)
    case PublisherGivesUart => Unlock(Uart)
    case _ => Local
  }

  function WorkerOp(p: WorkerAt): Op {
    match p
    case WorkerTakesPending => Lock(Pending)
    case WorkerTakesUart => Lock(Uart)
    case WorkerGivesUart => Unlock(Uart)
    case WorkerGivesPending => Unlock(Pending)
    case _ => Local
  }

  function CallbackOp(p: CallbackAt): Op {
    match p
    case CallbackTakesUart | CallbackNoticeTakesUart => Lock(Uart)
    case CallbackGivesUart | CallbackNoticeGivesUart => Unlock(Uart)
    case CallbackAddTakesPending | CallbackTakesPending => Lock(Pending)
    case CallbackAddGivesPending | CallbackGivesPending => Unlock(Pending)
    case _ => Local
  }

  function OpOf(p: Point): Op {
    match p
    case InReader(at) => ReaderOp(at)
    case InPublisher(at) => PublisherOp(at)
    case InWorker(at) => WorkerOp(at)
    case InCallback(at) => CallbackOp(at)
  }

  /** The points that can follow, over all branches. */
  predicate ReaderFollows(p: ReaderAt, q: ReaderAt) {
    match p
    case ReaderTakesUart => q == ReaderReads
    case ReaderReads => q == ReaderReads || q == ReaderGivesUart
    case ReaderGivesUart => q == ReaderSplits
    case ReaderSplits => q == ReaderSplits || q == ReaderPosts || q == ReaderSleeps
    case ReaderPosts => q == ReaderSplits
    case ReaderSleeps => q == ReaderListTakesUart || q == ReaderStaticTakesUart || q == ReaderTakesUart
    case ReaderListTakesUart => q == ReaderListWrites
    case ReaderListWrites => q == ReaderListGivesUart
    case ReaderListGivesUart => q == ReaderStaticTakesUart || q == ReaderTakesUart
    case ReaderStaticTakesUart => q == ReaderStaticWrites
    case ReaderStaticWrites => q == ReaderStaticGivesUart
    case ReaderStaticGivesUart => q == ReaderStaticTakesUart || q == ReaderTakesUart
  }

  predicate PublisherFollows(p: PublisherAt, q: PublisherAt) {
    match p
    case PublisherReceives => q == PublisherParses
    case PublisherParses => q == PublisherReceives || q == PublisherTakesPending
    case PublisherTakesPending => q == PublisherUpdates
    case PublisherUpdates => q == PublisherUpdates || q == PublisherGivesPending
    case PublisherGivesPending => q == PublisherChecks || q == PublisherReceives
    case PublisherChecks => q == PublisherTakesUart || q == PublisherReceives
    case PublisherTakesUart => q == PublisherWrites
    case PublisherWrites => q == PublisherGivesUart
    case PublisherGivesUart => q == PublisherReceives
  }

  predicate WorkerFollows(p: WorkerAt, q: WorkerAt) {
    match p
    case WorkerTakesPending => q == WorkerLooks
    case WorkerLooks => q == WorkerLooks || q == WorkerTakesUart || q == WorkerGivesPending
    case WorkerTakesUart => q == WorkerWrites
    case WorkerWrites => q == WorkerGivesUart
    case WorkerGivesUart => q == WorkerLooks
    case WorkerGivesPending => q == WorkerSleeps
    case WorkerSleeps => q == WorkerTakesPending
  }

  predicate CallbackFollows(p: CallbackAt, q: CallbackAt) {
    match p
    case CallbackIdle =>
      q == CallbackIdle || q == CallbackTakesUart || q == CallbackGateCommand || q == CallbackAddTakesPending ||
      q == CallbackTakesPending
    case CallbackGateCommand =>
      q == CallbackIdle || q == CallbackTakesUart || q == CallbackAddTakesPending || q == CallbackTakesPending
    case CallbackTakesUart => q == CallbackWrites
    case CallbackWrites => q == CallbackGivesUart
    case CallbackGivesUart =>
      q == CallbackIdle || q == CallbackGateCommand || q == CallbackTakesUart || q == CallbackAddTakesPending ||
      q == CallbackTakesPending
    case CallbackAddTakesPending => q == CallbackAdds
    case CallbackAdds => q == CallbackAdds || q == CallbackAddGivesPending
    case CallbackAddGivesPending => q == CallbackIdle || q == CallbackTakesPending
    case CallbackTakesPending => q == CallbackQueues
    case CallbackQueues => q == CallbackNoticeTakesUart || q == CallbackGivesPending
    case CallbackNoticeTakesUart => q == CallbackNotices
    case CallbackNotices => q == CallbackNoticeGivesUart
    case CallbackNoticeGivesUart => q == CallbackGivesPending
    case CallbackGivesPending => q == CallbackIdle
  }

  predicate Follows(p: Point, q: Point) {
    match p
    case InReader(at) => q.InReader? && ReaderFollows(at, q.reader)
    case InPublisher(at) => q.InPublisher? && PublisherFollows(at, q.publisher)
    case InWorker(at) => q.InWorker? && WorkerFollows(at, q.worker)
    case InCallback(at) => q.InCallback? && CallbackFollows(at, q.callback)
  }

  function ThreadOf(p: Point): Thread {
    match p
    case InReader(_) => Reader
    case InPublisher(_) => Publisher
    case InWorker(_) => Worker
    case InCallback(_) => Callback
  }

  function Entry(t: Thread): Point {
    match t
    case Reader => InReader(ReaderTakesUart)
    case Publisher => InPublisher(PublisherReceives)
    case Worker => InWorker(WorkerTakesPending)
    case Callback => InCallback(CallbackIdle)
  }

  // ----- The running system -----

  /** `capacity` is how many messages the System V queue takes before msgsnd blocks. */
  datatype State = State(at: map<Thread, Point>, owner: map<Mutex, Thread>, queued: nat)

  ghost predicate Complete(s: State) {
    forall t: Thread :: t in s.at
  }

  ghost predicate Initial(s: State) {
    Complete(s) && (forall t: Thread :: s.at[t] == Entry(t)) && s.owner == map[] && s.queued == 0
  }

  /** The thread is not waiting for a mutex, for room in the queue or for a message. */
  ghost predicate CanStep(s: State, t: Thread, capacity: nat)
    requires Complete(s)
  {
    match OpOf(s.at[t])
    case Lock(m) => m !in s.owner
    case PostMessage => s.queued < capacity
    case ReceiveMessage => s.queued > 0
    case _ => true
  }

  ghost predicate StepsTo(s: State, t: Thread, s': State, capacity: nat) {
    && Complete(s) && Complete(s')
    && CanStep(s, t, capacity)
    && Follows(s.at[t], s'.at[t])
    && s'.at == s.at[t := s'.at[t]]
    && (match OpOf(s.at[t])
        case Lock(m) => s'.owner == s.owner[m := t]
        case Unlock(m) => s'.owner == s.owner - {m}
        case _ => s'.owner == s.owner)
    && s'.queued == (match OpOf(s.at[t])
                     case PostMessage => s.queued + 1
                     case ReceiveMessage => s.queued - 1
                     case _ => s.queued)
  }

  /** A run, one thread stepping at a time. */
  ghost predicate Run(states: seq<State>, capacity: nat) {
    && states != [] && Initial(states[0])
    && forall i, j :: 0 <= i && j == i + 1 && j < |states| ==> SomeStep(states[i], states[j], capacity)
  }

  ghost predicate SomeStep(s: State, s': State, capacity: nat) {
    exists t :: StepsTo(s, t, s', capacity)
  }

  // ----- What is held where -----

  function ReaderHeld(p: ReaderAt): set<Mutex> {
    match p
    case ReaderReads | ReaderGivesUart | ReaderListWrites | ReaderListGivesUart => {Uart}
    case ReaderStaticWrites | ReaderStaticGivesUart => {Uart}
    case _ => {}
  }

  function PublisherHeld(p: PublisherAt): set<Mutex> {
    match p
    case PublisherUpdates | PublisherGivesPending => {Pending}
    case PublisherWrites | PublisherGivesUart => {Uart}
    case _ => {}
  }

  function WorkerHeld(p: WorkerAt): set<Mutex> {
    match p
    case WorkerLooks | WorkerTakesUart | WorkerGivesPending => {Pending}
    case WorkerWrites | WorkerGivesUart => {Uart, Pending}
    case _ => {}
  }

  function CallbackHeld(p: CallbackAt): set<Mutex> {
    match p
    case CallbackWrites | CallbackGivesUart => {Uart}
    case CallbackAdds | CallbackAddGivesPending | CallbackQueues => {Pending}
    case CallbackNoticeTakesUart | CallbackGivesPending => {Pending}
    case CallbackNotices | CallbackNoticeGivesUart => {Uart, Pending}
    case _ => {}
  }

  /** The mutexes a thread holds when it reaches a point, on whatever path it came. */
  function Held(p: Point): set<Mutex> {
    match p
    case InReader(at) => ReaderHeld(at)
    case InPublisher(at) => PublisherHeld(at)
    case InWorker(at) => WorkerHeld(at)
    case InCallback(at) => CallbackHeld(at)
  }

  /** The mutexes held after an operation are those before it with the one taken, or without the one released; a
      mutex is never taken twice nor released by a thread that does not hold it. */
  predicate Changes(held: set<Mutex>, op: Op, after: set<Mutex>) {
    match op
    case Lock(m) => m !in held && after == held + {m}
    case Unlock(m) => m in held && after == held - {m}
    case _ => after == held
  }

  /** What is held changes only by what the point does. */
  predicate Balanced(p: Point, q: Point) { ThreadOf(q) == ThreadOf(p) && Changes(Held(p), OpOf(p), Held(q)) }

  lemma ReaderIsBalanced(p: ReaderAt, q: ReaderAt)
    requires ReaderFollows(p, q)
    ensures Changes(ReaderHeld(p), ReaderOp(p), ReaderHeld(q))
  {
  }

  lemma PublisherIsBalanced(p: PublisherAt, q: PublisherAt)
    requires PublisherFollows(p, q)
    ensures Changes(PublisherHeld(p), PublisherOp(p), PublisherHeld(q))
  {
  }

  lemma WorkerIsBalanced(p: WorkerAt, q: WorkerAt)
    requires WorkerFollows(p, q)
    ensures Changes(WorkerHeld(p), WorkerOp(p), WorkerHeld(q))
  {
  }

  lemma CallbackIsBalanced(p: CallbackAt, q: CallbackAt)
    requires CallbackFollows(p, q)
    ensures Changes(CallbackHeld(p), CallbackOp(p), CallbackHeld(q))
  {
  }

  /** Every path of every thread releases what it took. */
  lemma PathsReleaseWhatTheyTake(p: Point, q: Point)
    requires Follows(p, q)
    ensures Balanced(p, q)
  {
    match p
    case InReader(at) => ReaderIsBalanced(at, q.reader);
    case InPublisher(at) => PublisherIsBalanced(at, q.publisher);
    case InWorker(at) => WorkerIsBalanced(at, q.worker);
    case InCallback(at) => CallbackIsBalanced(at, q.callback);
  }

  /** mutex_uart may be requested under mutex_pending but nothing is requested under mutex_uart, and the
      calls that block on the message queue hold neither. */
  lemma LockOrder(p: Point)
    ensures OpOf(p) == Lock(Pending) ==> Held(p) == {}
    ensures OpOf(p) == Lock(Uart) ==> Held(p) <= {Pending}
    ensures OpOf(p).PostMessage? || OpOf(p).ReceiveMessage? ==> Held(p) == {}
  {
  }

  ghost predicate Consistent(s: State) {
    && Complete(s)
    && (forall t: Thread :: ThreadOf(s.at[t]) == t)
    && forall t: Thread, m: Mutex :: m in Held(s.at[t]) <==> m in s.owner && s.owner[m] == t
  }

  lemma StepKeepsConsistent(s: State, t: Thread, s': State, capacity: nat)
    requires Consistent(s) && StepsTo(s, t, s', capacity)
    ensures Consistent(s')
  {
    var p, q := s.at[t], s'.at[t];
    PathsReleaseWhatTheyTake(p, q);
    forall u: Thread, m: Mutex ensures m in Held(s'.at[u]) <==> m in s'.owner && s'.owner[m] == u {
      assert m in Held(s.at[u]) <==> m in s.owner && s.owner[m] == u;
      assert m in Held(p) <==> m in s.owner && s.owner[m] == t;
      assert u != t ==> s'.at[u] == s.at[u];
    }
  }

  /** In every reachable state a mutex is owned exactly by the thread whose position says so; in particular no
      two threads are ever inside regions guarded by the same mutex. */
  lemma {:induction false} ReachableIsConsistent(states: seq<State>, capacity: nat)
    requires Run(states, capacity)
    ensures Consistent(states[|states| - 1])
  {
    if |states| > 1 {
      var n := |states| - 1;
      assert Run(states[..n], capacity);
      ReachableIsConsistent(states[..n], capacity);
      assert SomeStep(states[n - 1], states[n], capacity);
      var t :| StepsTo(states[n - 1], t, states[n], capacity);
      StepKeepsConsistent(states[n - 1], t, states[n], capacity);
    }
  }

  /** The points at which a thread reads or writes the UART. */
  predicate UsesUart(p: Point) {
    match p
    case InReader(at) => at == ReaderReads || at == ReaderListWrites || at == ReaderStaticWrites
    case InPublisher(at) => at == PublisherWrites
    case InWorker(at) => at == WorkerWrites
    case InCallback(at) => at == CallbackWrites || at == CallbackNotices
  }

  /** The points at which a thread changes the table of nodes, but for the reset of a retry counter that add_device
      makes after it has released the table. */
  predicate UsesTable(p: Point) {
    match p
    case InReader(_) => false
    case InPublisher(at) => at == PublisherUpdates
    case InWorker(at) => at == WorkerLooks || at == WorkerWrites
    case InCallback(at) => at == CallbackAdds || at == CallbackQueues
  }

  /** Nobody gets there without the mutex. */
  lemma RegionsAreGuarded(p: Point)
    ensures UsesUart(p) ==> Uart in Held(p)
    ensures UsesTable(p) ==> Pending in Held(p)
  {
  }

  /** In every reachable state at most one thread is at the UART and at most one at the table. */
  lemma RegionsExclude(states: seq<State>, capacity: nat, t: Thread, u: Thread)
    requires Run(states, capacity) && t != u
    ensures var s := states[|states| - 1];
            && Complete(s)
            && !(UsesUart(s.at[t]) && UsesUart(s.at[u])) && !(UsesTable(s.at[t]) && UsesTable(s.at[u]))
  {
    var s := states[|states| - 1];
    ReachableIsConsistent(states, capacity);
    RegionsAreGuarded(s.at[t]);
    RegionsAreGuarded(s.at[u]);
    forall m: Mutex ensures !(m in Held(s.at[t]) && m in Held(s.at[u])) {
      assert m in Held(s.at[t]) ==> s.owner[m] == t;
      assert m in Held(s.at[u]) ==> s.owner[m] == u;
    }
  }

  // ----- No deadlock -----

  /** The thread that decides: the owner of mutex_uart, else the owner of mutex_pending, else the worker. */
  ghost function Mover(s: State): Thread {
    if Uart in s.owner then s.owner[Uart]
    else if Pending in s.owner then s.owner[Pending]
    else Worker
  }

  lemma MoverCanStep(s: State, capacity: nat)
    requires Consistent(s)
    ensures CanStep(s, Mover(s), capacity)
  {
    var t := Mover(s);
    LockOrder(s.at[t]);
    assert Uart in s.owner ==> Uart in Held(s.at[t]);
    assert Uart !in s.owner && Pending in s.owner ==> Pending in Held(s.at[t]);
  }

  /** Some thread can step in every state of every interleaving, whatever the capacity of the queue. */
  lemma NoDeadlock(states: seq<State>, capacity: nat)
    requires Run(states, capacity)
    ensures var s := states[|states| - 1]; Complete(s) && exists t :: CanStep(s, t, capacity)
  {
    ReachableIsConsistent(states, capacity);
    MoverCanStep(states[|states| - 1], capacity);
  }

  // ----- No mutex is held for ever -----

  /** A way out of the guarded regions: the next point on a path to the release of everything held. */
  function ReaderOut(p: ReaderAt): ReaderAt {
    match p
    case ReaderReads => ReaderGivesUart
    case ReaderGivesUart => ReaderSplits
    case ReaderListWrites => ReaderListGivesUart
    case ReaderListGivesUart => ReaderTakesUart
    case ReaderStaticWrites => ReaderStaticGivesUart
    case ReaderStaticGivesUart => ReaderTakesUart
    case _ => p
  }

  function PublisherOut(p: PublisherAt): PublisherAt {
    match p
    case PublisherUpdates => PublisherGivesPending
    case PublisherGivesPending => PublisherReceives
    case PublisherWrites => PublisherGivesUart
    case PublisherGivesUart => PublisherReceives
    case _ => p
  }

  function WorkerOut(p: WorkerAt): WorkerAt {
    match p
    case WorkerTakesUart => WorkerWrites
    case WorkerWrites => WorkerGivesUart
    case WorkerGivesUart => WorkerLooks
    case WorkerLooks => WorkerGivesPending
    case WorkerGivesPending => WorkerSleeps
    case _ => p
  }

  function CallbackOut(p: CallbackAt): CallbackAt {
    match p
    case CallbackWrites => CallbackGivesUart
    case CallbackGivesUart => CallbackIdle
    case CallbackAdds => CallbackAddGivesPending
    case CallbackAddGivesPending => CallbackIdle
    case CallbackQueues => CallbackGivesPending
    case CallbackNoticeTakesUart => CallbackNotices
    case CallbackNotices => CallbackNoticeGivesUart
    case CallbackNoticeGivesUart => CallbackGivesPending
    case CallbackGivesPending => CallbackIdle
    case _ => p
  }

  function WayOut(p: Point): Point {
    match p
    case InReader(at) => InReader(ReaderOut(at))
    case InPublisher(at) => InPublisher(PublisherOut(at))
    case InWorker(at) => InWorker(WorkerOut(at))
    case InCallback(at) => InCallback(CallbackOut(at))
  }

  /** Steps left on that path. */
  function ReaderSteps(p: ReaderAt): nat {
    match p
    case ReaderReads | ReaderListWrites | ReaderStaticWrites => 2
    case _ => if ReaderHeld(p) == {} then 0 else 1
  }

  function PublisherSteps(p: PublisherAt): nat {
    match p
    case PublisherUpdates | PublisherWrites => 2
    case _ => if PublisherHeld(p) == {} then 0 else 1
  }

  function WorkerSteps(p: WorkerAt): nat {
    match p
    case WorkerTakesUart => 5
    case WorkerWrites => 4
    case WorkerGivesUart => 3
    case WorkerLooks => 2
    case _ => if WorkerHeld(p) == {} then 0 else 1
  }

  function CallbackSteps(p: CallbackAt): nat {
    match p
    case CallbackNoticeTakesUart => 4
    case CallbackNotices => 3
    case CallbackNoticeGivesUart | CallbackQueues | CallbackWrites | CallbackAdds => 2
    case _ => if CallbackHeld(p) == {} then 0 else 1
  }

  function StepsOut(p: Point): nat {
    match p
    case InReader(at) => ReaderSteps(at)
    case InPublisher(at) => PublisherSteps(at)
    case InWorker(at) => WorkerSteps(at)
    case InCallback(at) => CallbackSteps(at)
  }

  lemma WayOutShortens(p: Point)
    requires Held(p) != {}
    ensures Follows(p, WayOut(p)) && StepsOut(WayOut(p)) < StepsOut(p)
  {
  }

  ghost predicate Reaches(s: State, s': State, steps: nat, capacity: nat)
    decreases steps
  {
    if steps == 0 then s == s'
    else exists t, mid :: StepsTo(s, t, mid, capacity) && Reaches(mid, s', steps - 1, capacity)
  }

  ghost function Distance(s: State): nat
    requires Complete(s)
  {
    StepsOut(s.at[Reader]) + StepsOut(s.at[Publisher]) + StepsOut(s.at[Worker]) + StepsOut(s.at[Callback])
  }

  /** From every reachable state both mutexes can become free again within a bounded number of steps of their owners. */
  lemma {:induction false} MutexesCanBeFreed(s: State, capacity: nat)
    requires Consistent(s)
    ensures exists s', n: nat :: n <= Distance(s) && Reaches(s, s', n, capacity) && Consistent(s') && s'.owner == map[]
    decreases Distance(s)
  {
    if s.owner == map[] {
      assert Reaches(s, s, 0, capacity);
    } else {
      var t, mid := StepOut(s, capacity);
      MutexesCanBeFreed(mid, capacity);
      var s', n: nat :| n <= Distance(mid) && Reaches(mid, s', n, capacity) && Consistent(s') && s'.owner == map[];
      assert Reaches(s, s', n + 1, capacity);
    }
  }

  /** One step of the deciding thread towards the end of what it guards. */
  lemma StepOut(s: State, capacity: nat) returns (t: Thread, mid: State)
    requires Consistent(s) && s.owner != map[]
    ensures StepsTo(s, t, mid, capacity) && Consistent(mid) && Distance(mid) < Distance(s)
  {
    t := Mover(s);
    var p := s.at[t];
    MoverCanStep(s, capacity);
    MoverHolds(s);
    LockOrder(p);
    WayOutShortens(p);
    var owner := match OpOf(p) case Lock(m) => s.owner[m := t] case Unlock(m) => s.owner - {m} case _ => s.owner;
    mid := State(s.at[t := WayOut(p)], owner, s.queued);
    StepKeepsConsistent(s, t, mid, capacity);
  }

  lemma MoverHolds(s: State)
    requires Consistent(s) && s.owner != map[]
    ensures Held(s.at[Mover(s)]) != {}
  {
    if Uart in s.owner {
      assert Uart in Held(s.at[s.owner[Uart]]);
    } else {
      assert s.owner.Keys != {};
      var m :| m in s.owner;
      assert m == Pending;
      assert Pending in Held(s.at[s.owner[Pending]]);
    }
  }
}
