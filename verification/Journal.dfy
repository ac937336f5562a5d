/** The lines of UartLines.dfy with what they are about, and that slot by slot they are what the lives of the nodes
    called for: order, spacing and origin of everything a run writes. */
module Journal {
  import opened Downlink
  import opened Lifetimes
  import opened Acknowledgements
  import opened PendingTable
  import opened UartLines
  import opened Histories

  datatype Entry =
    | Data(slot: nat, now: int, frame: string)
    | Join(slot: nat, now: int, id: NodeId)
    | Notice(id: NodeId, n: Word16)

  function Text(entry: Entry): string {
    match entry
    case Data(_, _, frame) => frame + "\r"
    case Join(_, _, id) => Invitation(id)
    case Notice(id, n) => PendingNotice(id, n)
  }

  function Texts(entries: seq<Entry>): (lines: seq<string>)
    ensures |lines| == |entries| && forall k :: 0 <= k < |lines| ==> lines[k] == Text(entries[k])
  {
    seq(|entries|, k requires 0 <= k < |entries| => Text(entries[k]))
  }

  // ----- The journal of a run -----

  /** What the worker writes for one visit of slot i. */
  function Told(i: nat, id: NodeId, now: int, action: Action): seq<Entry> {
    match action
    case Send(frame) => [Data(i, now, frame)]
    case Invite => [Join(i, now, id)]
    case _ => []
  }

  function SlotEntries(cfg: Config, slot: Slot, i: nat, now: int): seq<Entry> {
    if slot.Free? then [] else Told(i, slot.life.Id(), now, Decide(cfg, Current(cfg, slot.life), now))
  }

  function PassEntries(cfg: Config, t: Table, clock: seq<int>, k: nat): seq<Entry>
    requires k <= |t| <= |clock|
  {
    if k == 0 then []
    else PassEntries(cfg, t, clock, k - 1) + SlotEntries(cfg, t[k - 1], k - 1, clock[k - 1])
  }

  function JoinEntries(cfg: Config, t: Table, id: NodeId): seq<Entry> {
    var i := Find(t, id);
    if i < |t| && Current(cfg, t[i].life).numPending > 0 then [Notice(id, Current(cfg, t[i].life).numPending)] else []
  }

  function MessageEntries(cfg: Config, t: Table, id: NodeId): seq<Entry> {
    var i := Find(t, id);
    if i < |t| && Current(cfg, t[i].life).nodeclass == CLASS_A
    then [Notice(id, Current(cfg, t[i].life).numPending)]
    else []
  }

  function EntriesFor(cfg: Config, t: Table, input: Input): seq<Entry>
    requires Legal(input)
  {
    match input
    case Joined(id, _, _) => JoinEntries(cfg, Next(t, input), id)
    case Message(id, _, _) => MessageEntries(cfg, Next(t, input), id)
    case Pass(clock) => PassEntries(cfg, t, clock, |t|)
    case _ => []
  }

  function Entries(cfg: Config, inputs: seq<Input>): seq<Entry>
    requires AllLegal(inputs)
  {
    if inputs == [] then []
    else Entries(cfg, Front(inputs)) + EntriesFor(cfg, TableAfter(Front(inputs)), Last(inputs))
  }

  lemma TextsOfBoth(a: seq<Entry>, b: seq<Entry>)
    ensures Texts(a + b) == Texts(a) + Texts(b)
  {
  }

  lemma SlotTexts(cfg: Config, slot: Slot, i: nat, now: int)
    ensures Texts(SlotEntries(cfg, slot, i, now)) == SlotLine(cfg, slot, now)
  {
  }

  lemma {:induction false} PassTexts(cfg: Config, t: Table, clock: seq<int>, k: nat)
    requires k <= |t| <= |clock|
    ensures Texts(PassEntries(cfg, t, clock, k)) == PassLines(cfg, t, clock, k)
  {
    if k > 0 {
      PassTexts(cfg, t, clock, k - 1);
      SlotTexts(cfg, t[k - 1], k - 1, clock[k - 1]);
      TextsOfBoth(PassEntries(cfg, t, clock, k - 1), SlotEntries(cfg, t[k - 1], k - 1, clock[k - 1]));
    }
  }

  lemma NoticeTexts(cfg: Config, t: Table, id: NodeId)
    ensures Texts(JoinEntries(cfg, t, id)) == JoinLines(cfg, t, id)
    ensures Texts(MessageEntries(cfg, t, id)) == MessageLines(cfg, t, id)
  {
  }

  lemma InputTexts(cfg: Config, t: Table, input: Input)
    requires Legal(input)
    ensures Texts(EntriesFor(cfg, t, input)) == LinesFor(cfg, t, input)
  {
    match input
    case Joined(id, _, _) => NoticeTexts(cfg, Next(t, input), id);
    case Message(id, _, _) => NoticeTexts(cfg, Next(t, input), id);
    case Pass(clock) => PassTexts(cfg, t, clock, |t|);
    case _ =>
  }

  /** The texts of the entries are exactly the lines written. */
  lemma {:induction false} EntriesAreLines(cfg: Config, inputs: seq<Input>)
    requires AllLegal(inputs)
    ensures Texts(Entries(cfg, inputs)) == Lines(cfg, inputs)
  {
    if inputs != [] {
      var t, input := TableAfter(Front(inputs)), Last(inputs);
      EntriesAreLines(cfg, Front(inputs));
      InputTexts(cfg, t, input);
      TextsOfBoth(Entries(cfg, Front(inputs)), EntriesFor(cfg, t, input));
    }
  }

  // ----- Slot by slot -----

  /** The worker's entries about slot i, in order. */
  function About(entries: seq<Entry>, i: nat): seq<Entry> {
    if entries == [] then []
    else
      var last := Last(entries);
      About(Front(entries), i) + if !last.Notice? && last.slot == i then [last] else []
  }

  lemma {:induction false} AboutBoth(a: seq<Entry>, b: seq<Entry>, i: nat)
    ensures About(a + b, i) == About(a, i) + About(b, i)
  {
    if b == [] {
      assert a + b == a;
    } else {
      AboutBoth(a, Front(b), i);
      assert Front(a + b) == a + Front(b) && Last(a + b) == Last(b);
    }
  }

  /** What one life calls for. */
  function ToldOf(cfg: Config, i: nat, e: Item, tr: seq<Event>): seq<Entry> {
    if tr == [] then []
    else
      var action := Act(cfg, Run(cfg, e, Front(tr)), Last(tr));
      ToldOf(cfg, i, e, Front(tr)) + Told(i, e.nodeid, Last(tr).now, action)
  }

  /** What several lives call for, one after the other. */
  function ToldOfAll(cfg: Config, i: nat, lives: seq<Life>): seq<Entry> {
    if lives == [] then []
    else ToldOfAll(cfg, i, Front(lives)) + ToldOf(cfg, i, Last(lives).first, Last(lives).trace)
  }

  lemma AboutTold(j: nat, id: NodeId, now: int, action: Action, i: nat)
    ensures About(Told(j, id, now, action), i) == if j == i then Told(j, id, now, action) else []
  {
    var told := Told(j, id, now, action);
    if told != [] {
      assert Front(told) == [] && told == [Last(told)];
    }
  }

  lemma AboutSlot(cfg: Config, slot: Slot, j: nat, now: int, i: nat)
    ensures About(SlotEntries(cfg, slot, j, now), i) == if j == i then SlotEntries(cfg, slot, j, now) else []
  {
    if slot.Used? {
      AboutTold(j, slot.life.Id(), now, Decide(cfg, Current(cfg, slot.life), now), i);
    }
  }

  /** The first k slots leave this about slot i. */
  ghost predicate Leaves(cfg: Config, t: Table, clock: seq<int>, k: nat, i: nat, told: seq<Entry>)
    requires k <= |t| <= |clock|
  {
    About(PassEntries(cfg, t, clock, k), i) == told
  }

  lemma LeavesNext(cfg: Config, t: Table, clock: seq<int>, k: nat, i: nat, told: seq<Entry>, more: seq<Entry>)
    requires k < |t| <= |clock| && Leaves(cfg, t, clock, k, i, told)
    requires About(SlotEntries(cfg, t[k], k, clock[k]), i) == more
    ensures Leaves(cfg, t, clock, k + 1, i, told + more)
  {
    AboutBoth(PassEntries(cfg, t, clock, k), SlotEntries(cfg, t[k], k, clock[k]), i);
  }

  /** Another slot adds nothing. */
  lemma LeavesSame(cfg: Config, t: Table, clock: seq<int>, k: nat, i: nat, told: seq<Entry>)
    requires k < |t| <= |clock| && Leaves(cfg, t, clock, k, i, told) && k != i
    ensures Leaves(cfg, t, clock, k + 1, i, told)
  {
    AboutSlot(cfg, t[k], k, clock[k], i);
    LeavesNext(cfg, t, clock, k, i, told, []);
    NothingInFront([], told);
  }

  lemma {:induction false} LeavesNothing(cfg: Config, t: Table, clock: seq<int>, k: nat, i: nat, told: seq<Entry>)
    requires k <= |t| <= |clock| && k <= i && told == []
    ensures Leaves(cfg, t, clock, k, i, told)
  {
    if k > 0 {
      LeavesNothing(cfg, t, clock, k - 1, i, told);
      LeavesSame(cfg, t, clock, k - 1, i, told);
    }
  }

  lemma NothingInFront(nothing: seq<Entry>, told: seq<Entry>)
    requires nothing == []
    ensures nothing + told == told == told + nothing
  {
  }

  lemma LeavesFirst(cfg: Config, t: Table, clock: seq<int>, i: nat, nothing: seq<Entry>, told: seq<Entry>)
    requires i < |t| <= |clock| && nothing == [] && told == SlotEntries(cfg, t[i], i, clock[i])
    ensures Leaves(cfg, t, clock, i + 1, i, told)
  {
    AboutSlot(cfg, t[i], i, clock[i], i);
    LeavesNothing(cfg, t, clock, i, i, nothing);
    LeavesNext(cfg, t, clock, i, i, nothing, told);
    NothingInFront(nothing, told);
  }

  /** Once its own entries are there, it stays with them. */
  lemma {:induction false} LeavesItsOwn(cfg: Config, t: Table, clock: seq<int>, k: nat, i: nat, told: seq<Entry>)
    requires i < k <= |t| <= |clock| && Leaves(cfg, t, clock, i + 1, i, told)
    ensures Leaves(cfg, t, clock, k, i, told)
  {
    if i + 1 < k {
      LeavesItsOwn(cfg, t, clock, k - 1, i, told);
      LeavesSame(cfg, t, clock, k - 1, i, told);
    }
  }

  lemma AboutNotice(entry: Entry, i: nat)
    requires entry.Notice?
    ensures About([entry], i) == []
  {
    assert Front([entry]) == [];
  }

  /** Only a pass writes about slots. */
  lemma AboutOthers(cfg: Config, t: Table, input: Input, i: nat)
    requires Legal(input) && !input.Pass?
    ensures About(EntriesFor(cfg, t, input), i) == []
  {
    var entries := EntriesFor(cfg, t, input);
    if entries != [] {
      assert entries == [entries[0]];
      AboutNotice(entries[0], i);
    }
  }

  /** One more event in a life. */
  lemma ToldSnoc(cfg: Config, i: nat, e: Item, tr: seq<Event>, ev: Event)
    ensures ToldOf(cfg, i, e, tr + [ev])
         == ToldOf(cfg, i, e, tr) + Told(i, e.nodeid, ev.now, Act(cfg, Run(cfg, e, tr), ev))
  {
    assert Front(tr + [ev]) == tr;
  }

  /** The last life calls for some more. */
  lemma SameLife(cfg: Config, i: nat, past: seq<Life>, life: Life, more: seq<Entry>)
    requires past != []
    requires ToldOf(cfg, i, life.first, life.trace) == ToldOf(cfg, i, Last(past).first, Last(past).trace) + more
    ensures ToldOfAll(cfg, i, Front(past) + [life]) == ToldOfAll(cfg, i, past) + more
  {
    assert Front(Front(past) + [life]) == Front(past);
  }

  lemma NewLife(cfg: Config, i: nat, past: seq<Life>, life: Life)
    ensures ToldOfAll(cfg, i, past + [life]) == ToldOfAll(cfg, i, past) + ToldOf(cfg, i, life.first, life.trace)
  {
    assert Front(past + [life]) == past;
  }

  /** What a pass makes of a node, if there is one. */
  function Seen(cfg: Config, t: Table, input: Input, i: nat, id: NodeId, e: Item): seq<Entry>
    requires Legal(input) && i < |t|
  {
    if input.Pass? && t[i].Used? then Told(i, id, input.clock[i], Decide(cfg, e, input.clock[i])) else []
  }

  /** Events that are no visits call for nothing. */
  lemma ReachingTells(cfg: Config, t: Table, input: Input, i: nat, e: Item, tr: seq<Event>)
    requires Legal(input) && i < |t|
    ensures ToldOf(cfg, i, e, tr + Reaching(t, input, i))
         == ToldOf(cfg, i, e, tr) + Seen(cfg, t, input, i, e.nodeid, Run(cfg, e, tr))
  {
    var events := Reaching(t, input, i);
    if events == [] {
      assert tr + events == tr;
    } else {
      assert events == [events[0]];
      ToldSnoc(cfg, i, e, tr, events[0]);
    }
  }

  /** What one input adds to the entries about a slot. */
  lemma AboutInput(cfg: Config, t: Table, input: Input, i: nat)
    requires Legal(input) && i < |t|
    ensures About(EntriesFor(cfg, t, input), i)
         == if input.Pass? then SlotEntries(cfg, t[i], i, input.clock[i]) else []
  {
    if input.Pass? {
      var told := SlotEntries(cfg, t[i], i, input.clock[i]);
      LeavesFirst(cfg, t, input.clock, i, [], told);
      LeavesItsOwn(cfg, t, input.clock, |t|, i, told);
    } else {
      AboutOthers(cfg, t, input, i);
    }
  }

  /** The node stays: its life goes on. */
  lemma NodeStays(cfg: Config, t: Table, input: Input, i: nat, past: seq<Life>, life: Life)
    requires Legal(input) && i < |t| && t[i].Used? && past != [] && Last(past) == t[i].life
    requires life == Life(t[i].life.first, t[i].life.trace + Reaching(t, input, i))
    ensures ToldOfAll(cfg, i, Front(past) + [life])
         == ToldOfAll(cfg, i, past) + Seen(cfg, t, input, i, life.first.nodeid, Current(cfg, t[i].life))
  {
    var e := t[i].life.first;
    ReachingTells(cfg, t, input, i, e, t[i].life.trace);
    SameLife(cfg, i, past, life, Seen(cfg, t, input, i, e.nodeid, Current(cfg, t[i].life)));
  }

  /** A node comes: nothing is written about it yet. */
  lemma NodeComes(cfg: Config, t: Table, input: Input, i: nat, past: seq<Life>, life: Life)
    requires Legal(input) && i < |t| && t[i].Free? && life.trace == Reaching(t, input, i)
    ensures ToldOfAll(cfg, i, past + [life]) == ToldOfAll(cfg, i, past)
  {
    ReachingTells(cfg, t, input, i, life.first, []);
    assert [] + life.trace == life.trace;
    NewLife(cfg, i, past, life);
  }

  /** What one input adds to the lives of a slot is what it adds to the entries about it. */
  lemma SlotStep(cfg: Config, t: Table, input: Input, i: nat, past: seq<Life>)
    requires Legal(input) && i < |t|
    requires t[i].Used? ==> past != [] && Last(past) == t[i].life
    ensures ToldOfAll(cfg, i, LivesNext(past, t[i], Next(t, input)[i]))
         == ToldOfAll(cfg, i, past) + About(EntriesFor(cfg, t, input), i)
  {
    var s' := Next(t, input)[i];
    SlotFollows(t, input, i);
    AboutInput(cfg, t, input, i);
    if s'.Used? {
      if t[i].Used? {
        NodeStays(cfg, t, input, i, past, s'.life);
      } else {
        NodeComes(cfg, t, input, i, past, s'.life);
      }
    }
  }

  /** What a whole run writes about a slot is what the lives of the nodes that sat in it called for, in order. */
  lemma {:induction false} SlotTellsItsLives(cfg: Config, inputs: seq<Input>, i: nat)
    requires AllLegal(inputs) && i < MAX_PENDING_NODES
    ensures About(Entries(cfg, inputs), i) == ToldOfAll(cfg, i, Lives(inputs, i))
  {
    if inputs != [] {
      var before, t, input := Front(inputs), TableAfter(Front(inputs)), Last(inputs);
      SlotTellsItsLives(cfg, before, i);
      AboutBoth(Entries(cfg, before), EntriesFor(cfg, t, input), i);
      if t[i].Used? {
        PresentIsLast(before, i);
      }
      SlotStep(cfg, t, input, i, Lives(before, i));
    }
  }

  lemma AboutGrows(cfg: Config, all: seq<Input>, input: Input, i: nat)
    requires AllLegal(all) && Legal(input)
    ensures AllLegal(all + [input])
    ensures About(Entries(cfg, all + [input]), i)
         == About(Entries(cfg, all), i) + About(EntriesFor(cfg, TableAfter(all), input), i)
  {
    EntriesSnoc(cfg, all, input);
    AboutBoth(Entries(cfg, all), EntriesFor(cfg, TableAfter(all), input), i);
  }

  lemma ToldGrows(cfg: Config, t: Table, input: Input, i: nat, e: Item, tr: seq<Event>)
    requires Legal(input) && i < |t| && t[i].Used? && t[i].life.Id() == e.nodeid
    requires Current(cfg, t[i].life) == Run(cfg, e, tr)
    ensures ToldOf(cfg, i, e, tr + Reaching(t, input, i))
         == ToldOf(cfg, i, e, tr) + About(EntriesFor(cfg, t, input), i)
  {
    ReachingTells(cfg, t, input, i, e, tr);
    AboutInput(cfg, t, input, i);
  }

  /** What has been written about a slot since `inputs`, given what it said then. */
  ghost predicate ToldSince(cfg: Config, inputs: seq<Input>, more: seq<Input>, i: nat, e: Item, was: seq<Entry>)
    requires AllLegal(inputs) && AllLegal(more) && i < MAX_PENDING_NODES
  {
    && AllLegal(inputs + more)
    && About(Entries(cfg, inputs + more), i) == was + ToldOf(cfg, i, e, EventsTo(inputs, more, i))
  }

  lemma BothGrow(was: seq<Entry>, told: seq<Entry>, more: seq<Entry>)
    ensures (was + told) + more == was + (told + more)
  {
  }

  lemma ToldSinceNext(cfg: Config, inputs: seq<Input>, more: seq<Input>, i: nat, e: Item, was: seq<Entry>)
    requires AllLegal(inputs) && AllLegal(more) && more != [] && i < MAX_PENDING_NODES && TableAfter(inputs)[i].Used?
    requires Current(cfg, TableAfter(inputs)[i].life) == e && NeverKicked(more, e.nodeid)
    requires ToldSince(cfg, inputs, Front(more), i, e, was)
    ensures ToldSince(cfg, inputs, more, i, e, was)
  {
    var all, input, events := inputs + Front(more), Last(more), EventsTo(inputs, Front(more), i);
    StateThen(cfg, inputs, Front(more), i, e);
    AboutGrows(cfg, all, input, i);
    ToldGrows(cfg, TableAfter(all), input, i, e, events);
    BothGrow(was, ToldOf(cfg, i, e, events), About(EntriesFor(cfg, TableAfter(all), input), i));
    FrontAndLast(inputs, more);
  }

  lemma {:induction false} ToldSinceAlways(cfg: Config, inputs: seq<Input>, more: seq<Input>, i: nat, e: Item,
                                           was: seq<Entry>)
    requires AllLegal(inputs) && AllLegal(more) && i < MAX_PENDING_NODES && TableAfter(inputs)[i].Used?
    requires Current(cfg, TableAfter(inputs)[i].life) == e && NeverKicked(more, e.nodeid)
    requires was == About(Entries(cfg, inputs), i)
    ensures ToldSince(cfg, inputs, more, i, e, was)
    decreases |more|
  {
    if more == [] {
      assert inputs + more == inputs && was + [] == was;
    } else {
      ToldSinceAlways(cfg, inputs, Front(more), i, e, was);
      ToldSinceNext(cfg, inputs, more, i, e, was);
    }
  }

  /** While a node stays in its slot, what is written about the slot is what the events that reach it call for. */
  lemma WrittenSince(cfg: Config, inputs: seq<Input>, more: seq<Input>, i: nat, e: Item)
    requires AllLegal(inputs) && AllLegal(more) && i < MAX_PENDING_NODES && TableAfter(inputs)[i].Used?
    requires Current(cfg, TableAfter(inputs)[i].life) == e && NeverKicked(more, e.nodeid)
    ensures AllLegal(inputs + more)
    ensures About(Entries(cfg, inputs + more), i)
         == About(Entries(cfg, inputs), i) + ToldOf(cfg, i, e, EventsTo(inputs, more, i))
  {
    ToldSinceAlways(cfg, inputs, more, i, e, About(Entries(cfg, inputs), i));
  }

  lemma EntriesSnoc(cfg: Config, inputs: seq<Input>, input: Input)
    requires AllLegal(inputs) && Legal(input)
    ensures AllLegal(inputs + [input])
    ensures Entries(cfg, inputs + [input]) == Entries(cfg, inputs) + EntriesFor(cfg, TableAfter(inputs), input)
  {
    assert Front(inputs + [input]) == inputs;
  }

  // ----- Order, spacing and origin -----

  /** The steps of a life at which something is written. */
  function Moments(cfg: Config, i: nat, e: Item, tr: seq<Event>): seq<nat> {
    if tr == [] then []
    else
      var action := Act(cfg, Run(cfg, e, Front(tr)), Last(tr));
      Moments(cfg, i, e, Front(tr)) + if Told(i, e.nodeid, Last(tr).now, action) == [] then [] else [|tr| - 1]
  }

  /** Step m writes this entry and nothing else. */
  predicate Writes(cfg: Config, i: nat, e: Item, tr: seq<Event>, m: nat, entry: Entry) {
    m < |tr| && Told(i, e.nodeid, tr[m].now, Act(cfg, Run(cfg, e, tr[..m]), tr[m])) == [entry]
  }

  lemma WritesFront(cfg: Config, i: nat, e: Item, tr: seq<Event>, m: nat, entry: Entry)
    requires tr != [] && Writes(cfg, i, e, Front(tr), m, entry)
    ensures Writes(cfg, i, e, tr, m, entry)
  {
    assert Front(tr)[..m] == tr[..m];
  }

  ghost predicate Accounts(cfg: Config, i: nat, e: Item, tr: seq<Event>, moments: seq<nat>, told: seq<Entry>) {
    && |moments| == |told|
    && (forall a :: 0 <= a < |told| ==> Writes(cfg, i, e, tr, moments[a], told[a]))
    && (forall a, b :: 0 <= a < b < |told| ==> moments[a] < moments[b])
  }

  /** The entries of a life are written at those steps, in that order. */
  lemma {:induction false} MomentsAccount(cfg: Config, i: nat, e: Item, tr: seq<Event>)
    ensures Accounts(cfg, i, e, tr, Moments(cfg, i, e, tr), ToldOf(cfg, i, e, tr))
  {
    if tr != [] {
      var before, told := Moments(cfg, i, e, Front(tr)), ToldOf(cfg, i, e, Front(tr));
      MomentsAccount(cfg, i, e, Front(tr));
      forall a | 0 <= a < |told| ensures Writes(cfg, i, e, tr, before[a], told[a]) {
        assert Writes(cfg, i, e, Front(tr), before[a], told[a]);
        WritesFront(cfg, i, e, tr, before[a], told[a]);
      }
      assert Front(tr) == tr[..|tr| - 1];
    }
  }

  /** Where the frame of an entry stands among those accepted for the node. */
  function PlaceOf(cfg: Config, i: nat, life: Life, a: nat): nat
    requires a < |ToldOf(cfg, i, life.first, life.trace)|
  {
    MomentsAccount(cfg, i, life.first, life.trace);
    assert Writes(cfg, i, life.first, life.trace, Moments(cfg, i, life.first, life.trace)[a],
                  ToldOf(cfg, i, life.first, life.trace)[a]);
    HeadPlace(cfg, life.first, life.trace, Moments(cfg, i, life.first, life.trace)[a])
  }

  /** Any two frames written for one life, the one before the other: both are frames accepted for the node, they do
      not overtake each other, and outside class A more than tx_delay seconds lie between them. */
  lemma FramesInOrder(cfg: Config, inputs: seq<Input>, i: nat, n: nat, a: nat, b: nat)
    requires Orderly(inputs) && AllLegal(inputs) && i < MAX_PENDING_NODES && n < |Lives(inputs, i)|
    requires var life := Lives(inputs, i)[n];
             var told := ToldOf(cfg, i, life.first, life.trace);
             a < b < |told| && told[a].Data? && told[b].Data?
    ensures var life := Lives(inputs, i)[n];
            var told, all := ToldOf(cfg, i, life.first, life.trace), AllAccepted(life.trace);
            var p, q := PlaceOf(cfg, i, life, a), PlaceOf(cfg, i, life, b);
            && p <= q < |all| && told[a].frame == all[p] && told[b].frame == all[q]
            && told[a].now <= told[b].now
            && (NeverClassA(life.first, life.trace) ==> told[b].now - told[a].now > cfg.txDelay)
  {
    var life := Lives(inputs, i)[n];
    var moments, told := Moments(cfg, i, life.first, life.trace), ToldOf(cfg, i, life.first, life.trace);
    MomentsAccount(cfg, i, life.first, life.trace);
    assert Writes(cfg, i, life.first, life.trace, moments[a], told[a]);
    assert Writes(cfg, i, life.first, life.trace, moments[b], told[b]);
    EverySendIsInOrder(cfg, inputs, i, n, moments[a], moments[b]);
    LivesAreWellLived(inputs, i);
  }

  /** An invitation written at retry count r comes more than 45 r seconds after every earlier one to the same life. */
  lemma InvitationsAreSpaced(cfg: Config, inputs: seq<Input>, i: nat, n: nat, a: nat, b: nat)
    requires Orderly(inputs) && AllLegal(inputs) && i < MAX_PENDING_NODES && n < |Lives(inputs, i)|
    requires var life := Lives(inputs, i)[n];
             var told := ToldOf(cfg, i, life.first, life.trace);
             a < b < |told| && told[a].Join? && told[b].Join?
    ensures var life := Lives(inputs, i)[n];
            var told, moments := ToldOf(cfg, i, life.first, life.trace), Moments(cfg, i, life.first, life.trace);
            && |moments| == |told| && moments[b] < |life.trace|
            && told[b].now - told[a].now
             > INVITE_TIMEOUT_S * Run(cfg, life.first, life.trace[..moments[b]]).numRetries
  {
    var life := Lives(inputs, i)[n];
    var moments, told := Moments(cfg, i, life.first, life.trace), ToldOf(cfg, i, life.first, life.trace);
    MomentsAccount(cfg, i, life.first, life.trace);
    assert Writes(cfg, i, life.first, life.trace, moments[a], told[a]);
    assert Writes(cfg, i, life.first, life.trace, moments[b], told[b]);
    EveryInvitationBacksOff(cfg, inputs, i, n, moments[a], moments[b]);
  }

  /** Nothing is made up: a frame written for a node is one that some message for that node asked for. */
  lemma FramesWereAsked(cfg: Config, inputs: seq<Input>, i: nat, n: nat, a: nat)
    requires AllLegal(inputs) && i < MAX_PENDING_NODES && n < |Lives(inputs, i)|
    requires var life := Lives(inputs, i)[n];
             var told := ToldOf(cfg, i, life.first, life.trace);
             a < |told| && told[a].Data?
    ensures var life := Lives(inputs, i)[n];
            Asked(inputs, life.Id(), ToldOf(cfg, i, life.first, life.trace)[a].frame)
  {
    var life := Lives(inputs, i)[n];
    var moments, told := Moments(cfg, i, life.first, life.trace), ToldOf(cfg, i, life.first, life.trace);
    MomentsAccount(cfg, i, life.first, life.trace);
    assert Writes(cfg, i, life.first, life.trace, moments[a], told[a]);
    LivesWereAsked(inputs, i);
    HeadIsAccepted(cfg, life, moments[a]);
    AcceptedWereAsked(inputs, life, life.trace);
  }
}
