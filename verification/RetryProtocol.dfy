/**
 * Sends, acks and timer scans on the retry queue, interleaved at the granularity of its critical sections
 * (retry_queue.go, delivery_manager.go). Messages are named by number, one key each; a goroutine that delivers
 * several messages is one thread for each. The heap steps are relations; module RetryRefinement proves that the
 * queue's methods implement them.
 */
module RetryProtocol {
  import opened Wrappers
  import opened Heaps

  type Msg = nat
  type Tid = nat

  /** Where a goroutine is inside startInFlightTimeout, finishMessage or processInFlightQueue. */
  datatype PC =
    | Idle
    | Starting(m: Msg, pri: int)   // the due time is set, the map not yet touched
    | Mapped(m: Msg, pri: int)     // registered in the map, not yet in the heap
    | Sending(m: Msg)              // startInFlightTimeout has returned, dataOut comes next
    | Acked(m: Msg)                // an ack took the registration, the heap still to be cleared
    | Shifted(m: Msg)              // the timer took it out of the heap, its registration comes next
    | Popped(m: Msg)               // the timer took the registration, the retry still to be submitted

  /** Which stage of its life a message is in; a history variable, the code does not have it. */
  datatype Stage =
    | New | AtStart(t: Tid) | AtMapped(t: Tid) | InHeap | AtShifted(t: Tid) | AtPopped(t: Tid) | Queued | Gone

  /** Histories of one message. */
  datatype History = History(
    starts: nat,      // calls of startInFlightTimeout
    pushes: nat,      // of which have put it in the heap
    sends: nat,       // of which have handed it to dataOut
    registered: nat,  // entries made in the map
    byAck: nat,       // entries taken out by an ack
    byTimer: nat,     // entries taken out by the timer
    retryCount: nat)

  datatype State = State(
    heap: seq<Slot>,
    index: map<Msg, int>,
    inMap: set<Msg>,
    pc: map<Tid, PC>,
    pending: set<Msg>,         // retries submitted to the pool
    crashed: bool,
    stage: map<Msg, Stage>,
    past: map<Msg, History>)
  {
    function At(t: Tid): PC { if t in pc then pc[t] else Idle }
    function IndexOf(m: Msg): int { if m in index then index[m] else 0 }
    function StageOf(m: Msg): Stage { if m in stage then stage[m] else New }
    function Past(m: Msg): History { if m in past then past[m] else History(0, 0, 0, 0, 0, 0, 0) }
    function Goto(t: Tid, p: PC): State { this.(pc := pc[t := p]) }
    function To(m: Msg, g: Stage): State { this.(stage := stage[m := g]) }
    function Note(m: Msg, h: History): State { this.(past := past[m := h]) }
    ghost function Senders(m: Msg): set<Tid> { set t | t in pc && pc[t] == Sending(m) }
  }

  ghost predicate InSlots(h: seq<Slot>, m: Msg) {
    exists i :: 0 <= i < |h| && h[i].id == m
  }

  /** A heap operation writes the slot numbers of the messages in the heap, and -1 into one it took out. */
  ghost predicate Reindexed(s: State, s': State, out: Option<Msg>) {
    && (forall i :: 0 <= i < |s'.heap| ==> s'.IndexOf(s'.heap[i].id) == i)
    && (out.Some? ==> s'.IndexOf(out.value) == -1)
    && (forall m: Msg :: !InSlots(s'.heap, m) && out != Some(m) ==> s'.IndexOf(m) == s.IndexOf(m))
  }

  datatype Step =
    | Deliver(t: Tid, m: Msg, pri: int)
    | Register(t: Tid)
    | Push(t: Tid)
    | Send(t: Tid)
    | Ack(t: Tid, m: Msg)
    | ClearHeap(t: Tid)
    | Shift(t: Tid, now: int)
    | Take(t: Tid)
    | Submit(t: Tid)
    | Retry(t: Tid, m: Msg, online: bool, pri: int)

  /** removeFromInFlightPQ(m) as it is: whatever is in the slot that m's index names goes. */
  ghost predicate RemovedByIndex(s: State, s': State, m: Msg) {
    if s.IndexOf(m) == -1 then
      s'.heap == s.heap && s'.index == s.index && s'.crashed == s.crashed
    else if 0 <= s.IndexOf(m) < |s.heap| then
      && Removed(s.heap, s'.heap, s.heap[s.IndexOf(m)])
      && Reindexed(s, s', Some(s.heap[s.IndexOf(m)].id))
      && s'.crashed == s.crashed
    else
      s'.heap == s.heap && s'.index == s.index && s'.crashed
  }

  /** The step relation; max is MessageRetry.MaxCount. */
  ghost predicate Next(s: State, step: Step, s': State, max: nat) {
    match step
    case Deliver(t, m, pri) =>
      && s.At(t).Idle? && s.StageOf(m).New?
      && s' == s.Goto(t, Starting(m, pri)).To(m, AtStart(t)).Note(m, s.Past(m).(starts := s.Past(m).starts + 1))
    case Register(t) =>
      && s.At(t).Starting?
      && var m, p := s.At(t).m, s.At(t).pri;
         var h := s.Past(m);
         s' == s.Goto(t, Mapped(m, p)).To(m, AtMapped(t)).(inMap := s.inMap + {m})
                .Note(m, if m in s.inMap then h else h.(registered := h.registered + 1))
    case Push(t) =>
      && s.At(t).Mapped?
      && var m, p := s.At(t).m, s.At(t).pri;
         && Pushed(s.heap, s'.heap, Slot(m, p)) && Reindexed(s, s', None)
         && s' == s.Goto(t, Sending(m)).To(m, InHeap).(heap := s'.heap, index := s'.index)
                   .Note(m, s.Past(m).(pushes := s.Past(m).pushes + 1))
    case Send(t) =>
      && s.At(t).Sending?
      && var m := s.At(t).m;
         s' == s.Goto(t, Idle).Note(m, s.Past(m).(sends := s.Past(m).sends + 1))
    case Ack(t, m) =>
      && s.At(t).Idle?
      && s' == if m in s.inMap
               then s.Goto(t, Acked(m)).(inMap := s.inMap - {m}).Note(m, s.Past(m).(byAck := s.Past(m).byAck + 1))
               else s
    case ClearHeap(t) =>
      && s.At(t).Acked?
      && var m := s.At(t).m;
         && RemovedByIndex(s, s', m)
         && s' == (if s.IndexOf(m) == -1 then s else s.To(m, Gone)).Goto(t, Idle)
                   .(heap := s'.heap, index := s'.index, crashed := s'.crashed)
    case Shift(t, now) =>
      && s.At(t).Idle? && |s.heap| > 0 && s.heap[0].pri <= now
      && var m := s.heap[0].id;
         && Removed(s.heap, s'.heap, s.heap[0]) && Reindexed(s, s', Some(m))
         && s' == s.Goto(t, Shifted(m)).To(m, AtShifted(t)).(heap := s'.heap, index := s'.index)
    case Take(t) =>
      && s.At(t).Shifted?
      && var m := s.At(t).m;
         s' == if m in s.inMap
               then s.Goto(t, Popped(m)).To(m, AtPopped(t)).(inMap := s.inMap - {m})
                     .Note(m, s.Past(m).(byTimer := s.Past(m).byTimer + 1))
               else s.Goto(t, Idle).To(m, Gone)
    case Submit(t) =>
      && s.At(t).Popped?
      && var m := s.At(t).m;
         && RemovedByIndex(s, s', m)
         && s' == s.Goto(t, Idle).To(m, Queued).(pending := s.pending + {m},
                   heap := s'.heap, index := s'.index, crashed := s'.crashed)
    case Retry(t, m, online, pri) =>
      && s.At(t).Idle? && m in s.pending
      && var h := s.Past(m).(retryCount := s.Past(m).retryCount + 1);
         var s1 := s.(pending := s.pending - {m});
         s' == if h.retryCount > max || !online then s1.To(m, Gone).Note(m, h)
               else s1.Goto(t, Starting(m, pri)).To(m, AtStart(t)).Note(m, h.(starts := h.starts + 1))
  }

  /**
   * The one thing that has to be in time: the heap is not cleared for a message that was never put into it. Acks
   * that come after the first send see to it (AcksAfterSendsAreTimely); the server accepts any ack.
   */
  predicate Timely(s: State, step: Step) {
    step.ClearHeap? && s.At(step.t).Acked? ==> s.Past(s.At(step.t).m).pushes > 0
  }

  /** The first n steps of a run are timely. */
  ghost predicate IsTimely(states: seq<State>, steps: seq<Step>, n: nat)
    requires |steps| <= |states|
  {
    forall i :: 0 <= i < n && i < |steps| ==> Timely(states[i], steps[i])
  }

  const Start := State([], map[], {}, map[], {}, false, map[], map[])

  ghost predicate IsRun(states: seq<State>, steps: seq<Step>, max: nat) {
    && |states| == |steps| + 1 && states[0] == Start
    && forall i :: 0 <= i < |steps| ==> Next(states[i], steps[i], states[i + 1], max)
  }

  // -------------------------------------------------------------- invariants

  /** What goroutine t carries has the stage that says so. */
  ghost predicate CarriedBy(s: State, t: Tid) {
    match s.At(t)
    case Starting(m, _) => s.StageOf(m) == AtStart(t)
    case Mapped(m, _) => s.StageOf(m) == AtMapped(t)
    case Shifted(m) => s.StageOf(m) == AtShifted(t)
    case Popped(m) => s.StageOf(m) == AtPopped(t)
    case _ => true
  }

  /** And a message is where its stage says. */
  ghost predicate Located(s: State, m: Msg) {
    match s.StageOf(m)
    case AtStart(t) => s.At(t).Starting? && s.At(t).m == m
    case AtMapped(t) => s.At(t).Mapped? && s.At(t).m == m
    case AtShifted(t) => s.At(t).Shifted? && s.At(t).m == m
    case AtPopped(t) => s.At(t).Popped? && s.At(t).m == m
    case Queued => m in s.pending
    case _ => true
  }

  ghost predicate Carried(s: State) {
    && (forall t: Tid :: CarriedBy(s, t))
    && (forall m: Msg :: Located(s, m))
    && (forall m :: m in s.pending ==> s.StageOf(m) == Queued)
  }

  /** The heap is in order, and its messages know their slots. */
  ghost predicate Heaped(s: State) {
    && !s.crashed && IsHeap(s.heap)
    && (forall i :: 0 <= i < |s.heap| ==> s.IndexOf(s.heap[i].id) == i)
    && (forall m: Msg :: InSlots(s.heap, m) <==> s.StageOf(m).InHeap?)
  }

  /** Outside the heap a message carries -1 once it was pushed, and until then Go's zero. */
  ghost predicate Unslotted(s: State) {
    && (forall m: Msg :: s.Past(m).pushes > 0 && !s.StageOf(m).InHeap? ==> s.IndexOf(m) == -1)
    && (forall m: Msg :: s.Past(m).pushes == 0 ==> s.IndexOf(m) == 0)
  }

  /** Only a message that was pushed can be in these stages. */
  predicate PastPush(g: Stage) {
    g.InHeap? || g.Queued? || g.Gone? || g.AtShifted? || g.AtPopped?
  }

  /** Nobody acts on a message that was never pushed, apart from its first start. */
  ghost predicate PushedBefore(s: State) {
    && (forall m: Msg :: PastPush(s.StageOf(m)) || s.Past(m).sends > 0 ==> s.Past(m).pushes > 0)
    && (forall t: Tid :: s.At(t).Sending? ==> s.Past(s.At(t).m).pushes > 0)
    && (forall t: Tid :: s.At(t).Acked? ==> s.Past(s.At(t).m).byAck > 0)
  }

  /** A message is in the map only while it is being pushed, in the heap, or just shifted. */
  ghost predicate MapStage(s: State, m: Msg) {
    s.StageOf(m).AtMapped? || s.StageOf(m).InHeap? || s.StageOf(m).AtShifted?
  }

  /** Registrations and their consumption, and what bounds the number of sends. */
  ghost predicate Counted(s: State, m: Msg, max: nat) {
    var h := s.Past(m);
    && (m in s.inMap ==> MapStage(s, m))
    && h.registered == h.byAck + h.byTimer + (if m in s.inMap then 1 else 0)
    && h.starts == h.pushes + (if s.StageOf(m).AtStart? || s.StageOf(m).AtMapped? then 1 else 0)
    && h.starts <= 1 + Min(h.retryCount, max)
    && h.pushes == h.sends + |s.Senders(m)|
    && (s.StageOf(m).New? ==> h.starts == 0)
    && (h.byAck > 0 ==> m !in s.inMap && (MapStage(s, m) || s.StageOf(m).Gone?))
    && h.byAck <= 1
    && (h.byAck == 0 && MapStage(s, m) ==> m in s.inMap)
    && h.byTimer == h.retryCount + (if s.StageOf(m).AtPopped? || s.StageOf(m).Queued? then 1 else 0)
    && (if s.StageOf(m).New? then h.retryCount == 0 else !s.StageOf(m).Gone? ==> h.starts == 1 + h.retryCount)
  }

  ghost predicate Places(s: State) {
    Carried(s) && Heaped(s) && Unslotted(s) && PushedBefore(s)
  }

  ghost predicate Inv(s: State, max: nat) {
    Places(s) && forall m: Msg :: Counted(s, m, max)
  }

  lemma StartInv(max: nat)
    ensures Inv(Start, max)
  {
    forall m ensures Counted(Start, m, max) {
      assert Start.Senders(m) == {};
    }
  }

  lemma SendersSame(s: State, s': State, m: Msg)
    requires s'.pc == s.pc
    ensures s'.Senders(m) == s.Senders(m)
  {
  }

  lemma SendersMoved(s: State, s': State, t: Tid, m: Msg)
    requires t in s'.pc && s'.pc == s.pc[t := s'.pc[t]]
    ensures |s'.Senders(m)| == |s.Senders(m)|
                               + (if s'.At(t) == Sending(m) then 1 else 0) - (if s.At(t) == Sending(m) then 1 else 0)
  {
    if s'.At(t) == Sending(m) {
      assert s'.Senders(m) == s.Senders(m) + {t};
    } else {
      assert s'.Senders(m) == s.Senders(m) - {t};
    }
  }

  /** A step of goroutine t that concerns message m leaves the others as they are. */
  lemma OnlyChanges(s: State, s': State, t: Tid, m: Msg)
    requires s'.pc == s.pc || (t in s'.pc && s'.pc == s.pc[t := s'.pc[t]])
    requires s'.stage == s.stage || (m in s'.stage && s'.stage == s.stage[m := s'.stage[m]])
    requires s'.past == s.past || (m in s'.past && s'.past == s.past[m := s'.past[m]])
    ensures forall u :: u != t ==> s'.At(u) == s.At(u)
    ensures forall x :: x != m ==> s'.StageOf(x) == s.StageOf(x)
    ensures forall x :: x != m ==> s'.Past(x) == s.Past(x)
  {
  }

  predicate OnHand(g: Stage) { g.AtStart? || g.AtMapped? || g.AtShifted? || g.AtPopped? }

  /** A step of goroutine t that concerns message m keeps Carried if it does so for t and m. */
  lemma CarriedKept(s: State, s': State, t: Tid, m: Msg)
    requires Carried(s)
    requires forall u :: u != t ==> s'.At(u) == s.At(u)
    requires forall x :: x != m ==> s'.StageOf(x) == s.StageOf(x)
    requires s.At(t).Idle? || s.At(t).m == m
    requires s'.StageOf(m) == s.StageOf(m) || (OnHand(s.StageOf(m)) ==> s.StageOf(m).t == t)
    requires CarriedBy(s', t) && Located(s', m)
    requires s.pending - {m} <= s'.pending <= s.pending + {m} && (m in s'.pending ==> s'.StageOf(m).Queued?)
    ensures Carried(s')
  {
    hide State.At, State.StageOf;
    forall u: Tid
      ensures CarriedBy(s', u)
    {
      assert CarriedBy(s, u);
    }
    forall x: Msg
      ensures Located(s', x)
    {
      assert Located(s, x);
    }
  }

  lemma IndexesKept(s: State, s': State)
    requires s'.index == s.index
    ensures forall x :: s'.IndexOf(x) == s.IndexOf(x)
  {
  }

  lemma DeliverSets(s: State, t: Tid, m: Msg, pri: int, s': State, max: nat)
    requires Next(s, Deliver(t, m, pri), s', max)
    ensures s'.At(t) == Starting(m, pri) && s'.StageOf(m) == AtStart(t)
    ensures s'.Past(m) == s.Past(m).(starts := s.Past(m).starts + 1)
  {
  }

  lemma DeliverKeepsPlaces(s: State, t: Tid, m: Msg, pri: int, s': State, max: nat)
    requires Inv(s, max) && Next(s, Deliver(t, m, pri), s', max)
    ensures Places(s')
  {
    hide IsHeap, InSlots, State.Senders, State.At, State.StageOf, State.Past, State.IndexOf;
    OnlyChanges(s, s', t, m);
    DeliverSets(s, t, m, pri, s', max);
    IndexesKept(s, s');
    assert CarriedBy(s, t) && Located(s, m);
    CarriedKept(s, s', t, m);
    assert Heaped(s');
    assert Unslotted(s');
    assert PushedBefore(s');
  }

  lemma DeliverKeepsCounts(s: State, t: Tid, m: Msg, pri: int, s': State, max: nat, x: Msg)
    requires Inv(s, max) && Next(s, Deliver(t, m, pri), s', max)
    ensures Counted(s', x, max)
  {
    hide Heaped, IsHeap, InSlots, Unslotted, State.Senders;
    assert Counted(s, x, max);
    SendersMoved(s, s', t, x);
  }

  lemma RegisterSets(s: State, t: Tid, s': State, max: nat)
    requires Next(s, Register(t), s', max)
    ensures var m := s.At(t).m;
      && s.At(t).Starting? && s'.At(t) == Mapped(m, s.At(t).pri) && s'.StageOf(m) == AtMapped(t)
      && s'.Past(m) == s.Past(m).(registered := s'.Past(m).registered)
  {
  }

  lemma RegisterKeepsPlaces(s: State, t: Tid, s': State, max: nat)
    requires Inv(s, max) && Next(s, Register(t), s', max)
    ensures Places(s')
  {
    hide IsHeap, InSlots, State.Senders, State.At, State.StageOf, State.Past, State.IndexOf;
    OnlyChanges(s, s', t, s.At(t).m);
    RegisterSets(s, t, s', max);
    IndexesKept(s, s');
    assert CarriedBy(s, t) && Located(s, s.At(t).m);
    CarriedKept(s, s', t, s.At(t).m);
    assert Heaped(s');
    assert Unslotted(s');
    assert PushedBefore(s');
  }

  lemma RegisterKeepsCounts(s: State, t: Tid, s': State, max: nat, x: Msg)
    requires Inv(s, max) && Next(s, Register(t), s', max)
    ensures Counted(s', x, max)
  {
    hide Heaped, IsHeap, InSlots, Unslotted, State.Senders;
    assert CarriedBy(s, t);
    assert Counted(s, x, max);
    SendersMoved(s, s', t, x);
  }

  lemma SendSets(s: State, t: Tid, s': State, max: nat)
    requires Next(s, Send(t), s', max)
    ensures var m := s.At(t).m;
      && s.At(t).Sending? && s'.At(t).Idle? && s'.StageOf(m) == s.StageOf(m)
      && s'.Past(m) == s.Past(m).(sends := s.Past(m).sends + 1)
  {
  }

  lemma SendKeepsPlaces(s: State, t: Tid, s': State, max: nat)
    requires Inv(s, max) && Next(s, Send(t), s', max)
    ensures Places(s')
  {
    hide IsHeap, InSlots, State.Senders, State.At, State.StageOf, State.Past, State.IndexOf;
    OnlyChanges(s, s', t, s.At(t).m);
    SendSets(s, t, s', max);
    IndexesKept(s, s');
    assert CarriedBy(s, t) && Located(s, s.At(t).m);
    CarriedKept(s, s', t, s.At(t).m);
    assert Heaped(s');
    assert Unslotted(s');
    assert PushedBefore(s');
  }

  lemma SendKeepsCounts(s: State, t: Tid, s': State, max: nat, x: Msg)
    requires Inv(s, max) && Next(s, Send(t), s', max)
    ensures Counted(s', x, max)
  {
    hide Heaped, IsHeap, InSlots, Unslotted, State.Senders;
    assert Counted(s, x, max);
    SendersMoved(s, s', t, x);
  }

  lemma AckSets(s: State, t: Tid, m: Msg, s': State, max: nat)
    requires Next(s, Ack(t, m), s', max)
    ensures s'.At(t) == if m in s.inMap then Acked(m) else s.At(t)
    ensures s'.StageOf(m) == s.StageOf(m)
    ensures s'.Past(m) == if m in s.inMap then s.Past(m).(byAck := s.Past(m).byAck + 1) else s.Past(m)
  {
  }

  lemma AckKeepsPlaces(s: State, t: Tid, m: Msg, s': State, max: nat)
    requires Inv(s, max) && Next(s, Ack(t, m), s', max)
    ensures Places(s')
  {
    hide IsHeap, InSlots, State.Senders, State.At, State.StageOf, State.Past, State.IndexOf;
    OnlyChanges(s, s', t, m);
    AckSets(s, t, m, s', max);
    IndexesKept(s, s');
    assert CarriedBy(s, t) && Located(s, m);
    CarriedKept(s, s', t, m);
    assert Heaped(s');
    assert Unslotted(s');
    assert PushedBefore(s');
  }

  lemma AckKeepsCounts(s: State, t: Tid, m: Msg, s': State, max: nat, x: Msg)
    requires Inv(s, max) && Next(s, Ack(t, m), s', max)
    ensures Counted(s', x, max)
  {
    hide Heaped, IsHeap, InSlots, Unslotted, State.Senders;
    assert Counted(s, x, max);
    if m in s.inMap { SendersMoved(s, s', t, x); }
  }

  lemma TakeSets(s: State, t: Tid, s': State, max: nat)
    requires Next(s, Take(t), s', max)
    ensures var m := s.At(t).m;
      && s.At(t).Shifted? && s'.At(t) == (if m in s.inMap then Popped(m) else Idle)
      && s'.StageOf(m) == (if m in s.inMap then AtPopped(t) else Gone)
      && s'.Past(m) == s.Past(m).(byTimer := s'.Past(m).byTimer)
  {
  }

  lemma TakeKeepsPlaces(s: State, t: Tid, s': State, max: nat)
    requires Inv(s, max) && Next(s, Take(t), s', max)
    ensures Places(s')
  {
    hide IsHeap, InSlots, State.Senders, State.At, State.StageOf, State.Past, State.IndexOf, Counted;
    OnlyChanges(s, s', t, s.At(t).m);
    TakeSets(s, t, s', max);
    IndexesKept(s, s');
    assert CarriedBy(s, t) && Located(s, s.At(t).m);
    CarriedKept(s, s', t, s.At(t).m);
    assert Heaped(s');
    assert Unslotted(s');
    assert PushedBefore(s');
  }

  lemma TakeKeepsCounts(s: State, t: Tid, s': State, max: nat, x: Msg)
    requires Inv(s, max) && Next(s, Take(t), s', max)
    ensures Counted(s', x, max)
  {
    hide Heaped, IsHeap, InSlots, Unslotted, State.Senders, State.StageOf, State.Past, State.At;
    assert CarriedBy(s, t);
    var m := s.At(t).m;
    TakeSets(s, t, s', max);
    OnlyChanges(s, s', t, m);
    TakeRegisters(s, t, s', max);
    assert Counted(s, x, max);
    SendersMoved(s, s', t, x);
  }

  lemma TakeRegisters(s: State, t: Tid, s': State, max: nat)
    requires Next(s, Take(t), s', max)
    ensures var m := s.At(t).m;
      && s'.inMap == s.inMap - {m}
      && s'.Past(m).byTimer == s.Past(m).byTimer + (if m in s.inMap then 1 else 0)
      && t in s'.pc && s'.pc == s.pc[t := s'.pc[t]]
  {
  }

  lemma RetrySets(s: State, t: Tid, m: Msg, online: bool, pri: int, s': State, max: nat)
    requires Next(s, Retry(t, m, online, pri), s', max)
    ensures s.At(t).Idle?
    ensures if s'.pc == s.pc then s'.At(t).Idle? && s'.StageOf(m).Gone?
      else s'.At(t) == Starting(m, pri) && s'.StageOf(m) == AtStart(t)
    ensures s'.Past(m) == s.Past(m).(starts := s'.Past(m).starts, retryCount := s'.Past(m).retryCount)
  {
    if s'.pc == s.pc {
      assert s'.At(t) == s.At(t);
    }
  }

  lemma RetryKeepsPlaces(s: State, t: Tid, m: Msg, online: bool, pri: int, s': State, max: nat)
    requires Inv(s, max) && Next(s, Retry(t, m, online, pri), s', max)
    ensures Places(s')
  {
    hide IsHeap, InSlots, State.Senders, State.At, State.StageOf, State.Past, State.IndexOf;
    OnlyChanges(s, s', t, m);
    RetrySets(s, t, m, online, pri, s', max);
    IndexesKept(s, s');
    assert CarriedBy(s, t) && Located(s, m);
    CarriedKept(s, s', t, m);
    assert Heaped(s');
    assert Unslotted(s');
    assert PushedBefore(s');
  }

  lemma RetryKeepsCounts(s: State, t: Tid, m: Msg, online: bool, pri: int, s': State, max: nat, x: Msg)
    requires Inv(s, max) && Next(s, Retry(t, m, online, pri), s', max)
    ensures Counted(s', x, max)
  {
    hide Heaped, IsHeap, InSlots, Unslotted, State.Senders;
    assert Counted(s, x, max);
    if s'.pc != s.pc { SendersMoved(s, s', t, x); } else { SendersSame(s, s', x); }
  }

  // The heap steps.

  lemma PushedSlots(h: seq<Slot>, h': seq<Slot>, x: Slot)
    requires Pushed(h, h', x)
    ensures forall m: Msg :: InSlots(h', m) <==> InSlots(h, m) || m == x.id
  {
    assert x in multiset(h');
    forall m: Msg | InSlots(h', m)
      ensures InSlots(h, m) || m == x.id
    {
      var i :| 0 <= i < |h'| && h'[i].id == m;
      assert h'[i] in multiset(h');
      if h'[i] != x {
        assert h'[i] in multiset(h);
        var j :| 0 <= j < |h| && h[j] == h'[i];
      }
    }
    forall m: Msg | InSlots(h, m)
      ensures InSlots(h', m)
    {
      var i :| 0 <= i < |h| && h[i].id == m;
      assert h[i] in multiset(h) && h[i] in multiset(h');
      var j :| 0 <= j < |h'| && h'[j] == h[i];
    }
    var j :| 0 <= j < |h'| && h'[j] == x;
  }

  lemma RemovedSlots(h: seq<Slot>, h': seq<Slot>, x: Slot)
    requires Removed(h, h', x)
    requires forall i, j :: 0 <= i < j < |h| ==> h[i].id != h[j].id
    ensures forall m: Msg :: InSlots(h', m) <==> InSlots(h, m) && m != x.id
  {
    OnceOnly(h, x);
    forall m: Msg | InSlots(h', m)
      ensures InSlots(h, m) && m != x.id
    {
      var i :| 0 <= i < |h'| && h'[i].id == m;
      assert h'[i] in multiset(h') && h'[i] in multiset(h);
      assert h'[i] != x;
      var j :| 0 <= j < |h| && h[j] == h'[i];
      var k :| 0 <= k < |h| && h[k] == x;
    }
    forall m: Msg | InSlots(h, m) && m != x.id
      ensures InSlots(h', m)
    {
      var i :| 0 <= i < |h| && h[i].id == m;
      assert h[i] in multiset(h) && h[i] in multiset(h');
      var j :| 0 <= j < |h'| && h'[j] == h[i];
    }
  }

  lemma {:induction false} OnceOnly(h: seq<Slot>, x: Slot)
    requires x in h
    requires forall i, j :: 0 <= i < j < |h| ==> h[i].id != h[j].id
    ensures multiset(h)[x] == 1
  {
    var last := |h| - 1;
    assert h == h[..last] + [h[last]];
    if h[last] == x {
      assert x !in h[..last];
    } else {
      OnceOnly(h[..last], x);
    }
  }

  lemma PushSets(s: State, t: Tid, s': State, max: nat)
    requires Next(s, Push(t), s', max)
    ensures var m := s.At(t).m;
      && s.At(t).Mapped? && s'.At(t) == Sending(m) && s'.StageOf(m).InHeap?
      && s'.Past(m) == s.Past(m).(pushes := s.Past(m).pushes + 1)
  {
  }

  lemma PushKeepsPlaces(s: State, t: Tid, s': State, max: nat)
    requires Inv(s, max) && Next(s, Push(t), s', max)
    ensures Places(s')
  {
    hide IsHeap, InSlots, State.Senders, State.At, State.StageOf, State.Past, State.IndexOf;
    var m := s.At(t).m;
    PushedSlots(s.heap, s'.heap, Slot(m, s.At(t).pri));
    OnlyChanges(s, s', t, s.At(t).m);
    PushSets(s, t, s', max);
    assert CarriedBy(s, t) && Located(s, m);
    CarriedKept(s, s', t, m);
    assert Heaped(s');
    assert Unslotted(s');
    assert PushedBefore(s');
  }

  lemma PushKeepsCounts(s: State, t: Tid, s': State, max: nat, x: Msg)
    requires Inv(s, max) && Next(s, Push(t), s', max)
    ensures Counted(s', x, max)
  {
    hide Heaped, IsHeap, InSlots, Unslotted, State.Senders;
    assert CarriedBy(s, t);
    assert Counted(s, x, max);
    SendersMoved(s, s', t, x);
  }

  lemma ShiftSets(s: State, t: Tid, now: int, s': State, max: nat)
    requires Next(s, Shift(t, now), s', max)
    ensures s.heap != [] && Removed(s.heap, s'.heap, s.heap[0])
    ensures var m := s.heap[0].id;
      && s.At(t).Idle? && s'.At(t) == Shifted(m) && s'.StageOf(m) == AtShifted(t) && s'.Past(m) == s.Past(m)
      && Reindexed(s, s', Some(m))
  {
    hide Removed, Reindexed;
  }

  lemma ShiftKeepsPlaces(s: State, t: Tid, now: int, s': State, max: nat)
    requires Inv(s, max) && Next(s, Shift(t, now), s', max)
    ensures Places(s')
  {
    hide IsHeap, InSlots, State.Senders, State.At, State.StageOf, State.Past, State.IndexOf;
    ShiftSets(s, t, now, s', max);
    var m := s.heap[0].id;
    OnlyChanges(s, s', t, m);
    DistinctSlots(s);
    RemovedSlots(s.heap, s'.heap, s.heap[0]);
    InSlot(s.heap, 0);
    assert CarriedBy(s, t) && Located(s, m);
    CarriedKept(s, s', t, m);
    assert Heaped(s');
    assert Unslotted(s');
    assert PushedBefore(s');
  }

  lemma ShiftKeepsCounts(s: State, t: Tid, now: int, s': State, max: nat, x: Msg)
    requires Inv(s, max) && Next(s, Shift(t, now), s', max)
    ensures Counted(s', x, max)
  {
    hide IsHeap, State.Senders;
    InSlot(s.heap, 0);
    assert Counted(s, x, max);
    SendersMoved(s, s', t, x);
  }

  lemma InSlot(h: seq<Slot>, i: nat)
    requires i < |h|
    ensures InSlots(h, h[i].id)
  {
  }

  lemma DistinctSlots(s: State)
    requires Heaped(s)
    ensures forall i, j :: 0 <= i < j < |s.heap| ==> s.heap[i].id != s.heap[j].id
  {
    forall i, j | 0 <= i < j < |s.heap|
      ensures s.heap[i].id != s.heap[j].id
    {
      assert s.IndexOf(s.heap[i].id) == i && s.IndexOf(s.heap[j].id) == j;
    }
  }

  /** The slot that a pushed message's index names, if it names one, is the message's own. */
  lemma IndexIsOwn(s: State, m: Msg)
    requires Heaped(s) && Unslotted(s) && s.Past(m).pushes > 0
    ensures s.IndexOf(m) != -1 ==> 0 <= s.IndexOf(m) < |s.heap| && s.heap[s.IndexOf(m)].id == m
    ensures s.IndexOf(m) == -1 <==> !s.StageOf(m).InHeap?
  {
    if s.StageOf(m).InHeap? {
      assert InSlots(s.heap, m);
      var i :| 0 <= i < |s.heap| && s.heap[i].id == m;
    }
  }

  lemma ClearHeapSets(s: State, t: Tid, s': State, max: nat)
    requires Next(s, ClearHeap(t), s', max)
    ensures var m := s.At(t).m;
      && s.At(t).Acked? && s'.At(t).Idle? && RemovedByIndex(s, s', m)
      && s'.StageOf(m) == (if s.IndexOf(m) == -1 then s.StageOf(m) else Gone)
      && s'.Past(m) == s.Past(m)
  {
    hide RemovedByIndex;
  }

  lemma ClearHeapKeepsPlaces(s: State, t: Tid, s': State, max: nat)
    requires Inv(s, max) && Next(s, ClearHeap(t), s', max) && Timely(s, ClearHeap(t))
    ensures Places(s')
  {
    hide IsHeap, InSlots, State.Senders, State.At, State.StageOf, State.Past, State.IndexOf;
    var m := s.At(t).m;
    ClearHeapSets(s, t, s', max);
    OnlyChanges(s, s', t, m);
    IndexIsOwn(s, m);
    DistinctSlots(s);
    if s.IndexOf(m) != -1 { RemovedSlots(s.heap, s'.heap, s.heap[s.IndexOf(m)]); } else { IndexesKept(s, s'); }
    assert CarriedBy(s, t) && Located(s, m);
    CarriedKept(s, s', t, m);
    assert Heaped(s');
    assert Unslotted(s');
    assert PushedBefore(s');
  }

  lemma ClearHeapKeepsCounts(s: State, t: Tid, s': State, max: nat, x: Msg)
    requires Inv(s, max) && Next(s, ClearHeap(t), s', max) && Timely(s, ClearHeap(t))
    ensures Counted(s', x, max)
  {
    hide IsHeap, InSlots, State.Senders;
    IndexIsOwn(s, s.At(t).m);
    assert Counted(s, x, max);
    SendersMoved(s, s', t, x);
  }

  lemma SubmitSets(s: State, t: Tid, s': State, max: nat)
    requires Next(s, Submit(t), s', max) && s.IndexOf(s.At(t).m) == -1
    ensures var m := s.At(t).m;
      && s.At(t).Popped? && s'.At(t).Idle? && s'.StageOf(m).Queued? && s'.Past(m) == s.Past(m)
      && s'.heap == s.heap && s'.index == s.index && s'.crashed == s.crashed && s'.pending == s.pending + {m}
  {
  }

  lemma SubmitKeepsPlaces(s: State, t: Tid, s': State, max: nat)
    requires Inv(s, max) && Next(s, Submit(t), s', max)
    ensures Places(s')
  {
    hide IsHeap, InSlots, State.Senders, State.At, State.StageOf, State.Past, State.IndexOf;
    var m := s.At(t).m;
    assert CarriedBy(s, t) && Located(s, m);
    assert s.IndexOf(m) == -1;
    SubmitSets(s, t, s', max);
    OnlyChanges(s, s', t, m);
    IndexesKept(s, s');
    CarriedKept(s, s', t, m);
    assert Heaped(s');
    assert Unslotted(s');
    assert PushedBefore(s');
  }

  lemma SubmitKeepsCounts(s: State, t: Tid, s': State, max: nat, x: Msg)
    requires Inv(s, max) && Next(s, Submit(t), s', max)
    ensures Counted(s', x, max)
  {
    hide IsHeap, InSlots, Unslotted, State.Senders;
    assert CarriedBy(s, t);
    assert Counted(s, x, max);
    SendersMoved(s, s', t, x);
  }

  lemma StepKeepsPlaces(s: State, step: Step, s': State, max: nat)
    requires Inv(s, max) && Next(s, step, s', max) && Timely(s, step)
    ensures Places(s')
  {
    hide Inv, Next, Places;
    match step
    case Deliver(t, m, pri) => DeliverKeepsPlaces(s, t, m, pri, s', max);
    case Register(t) => RegisterKeepsPlaces(s, t, s', max);
    case Push(t) => PushKeepsPlaces(s, t, s', max);
    case Send(t) => SendKeepsPlaces(s, t, s', max);
    case Ack(t, m) => AckKeepsPlaces(s, t, m, s', max);
    case ClearHeap(t) => ClearHeapKeepsPlaces(s, t, s', max);
    case Shift(t, now) => ShiftKeepsPlaces(s, t, now, s', max);
    case Take(t) => TakeKeepsPlaces(s, t, s', max);
    case Submit(t) => SubmitKeepsPlaces(s, t, s', max);
    case Retry(t, m, online, pri) => RetryKeepsPlaces(s, t, m, online, pri, s', max);
  }

  lemma StepKeepsCounts(s: State, step: Step, s': State, max: nat, x: Msg)
    requires Inv(s, max) && Next(s, step, s', max) && Timely(s, step)
    ensures Counted(s', x, max)
  {
    hide Inv, Next, Counted;
    match step
    case Deliver(t, m, pri) => DeliverKeepsCounts(s, t, m, pri, s', max, x);
    case Register(t) => RegisterKeepsCounts(s, t, s', max, x);
    case Push(t) => PushKeepsCounts(s, t, s', max, x);
    case Send(t) => SendKeepsCounts(s, t, s', max, x);
    case Ack(t, m) => AckKeepsCounts(s, t, m, s', max, x);
    case ClearHeap(t) => ClearHeapKeepsCounts(s, t, s', max, x);
    case Shift(t, now) => ShiftKeepsCounts(s, t, now, s', max, x);
    case Take(t) => TakeKeepsCounts(s, t, s', max, x);
    case Submit(t) => SubmitKeepsCounts(s, t, s', max, x);
    case Retry(t, m, online, pri) => RetryKeepsCounts(s, t, m, online, pri, s', max, x);
  }

  lemma StepKeepsInv(s: State, step: Step, s': State, max: nat)
    requires Inv(s, max) && Next(s, step, s', max) && Timely(s, step)
    ensures Inv(s', max)
  {
    hide Next, Counted, Places;
    StepKeepsPlaces(s, step, s', max);
    forall x: Msg
      ensures Counted(s', x, max)
    {
      StepKeepsCounts(s, step, s', max, x);
    }
  }

  lemma {:induction false} RunKeepsInv(states: seq<State>, steps: seq<Step>, max: nat, i: nat)
    requires IsRun(states, steps, max) && i < |states| && IsTimely(states, steps, i)
    ensures Inv(states[i], max)
  {
    hide Inv, Next, Timely;
    if i == 0 {
      StartInv(max);
    } else {
      RunKeepsInv(states, steps, max, i - 1);
      StepKeepsInv(states[i - 1], steps[i - 1], states[i], max);
    }
  }

  /** When every ack comes after the first send of its message, every step is timely. */
  lemma {:induction false} AcksAfterSendsAreTimely(states: seq<State>, steps: seq<Step>, max: nat, i: nat)
    requires IsRun(states, steps, max) && i < |states|
    requires forall j :: 0 <= j < |steps| && steps[j].Ack? ==> states[j].Past(steps[j].m).sends > 0
    ensures IsTimely(states, steps, if i < |steps| then i + 1 else i)
    ensures forall t :: states[i].At(t).Acked? ==> states[i].Past(states[i].At(t).m).pushes > 0
  {
    hide Inv, Next;
    if i > 0 {
      AcksAfterSendsAreTimely(states, steps, max, i - 1);
      RunKeepsInv(states, steps, max, i - 1);
      var s, step := states[i - 1], steps[i - 1];
      PushesOnlyGrow(s, step, states[i], max);
      if step.Ack? {
        assert Counted(s, step.m, max) by { InvCounts(s, max, step.m); }
      }
      AckedWerePushed(s, step, states[i], max);
    }
  }

  lemma InvCounts(s: State, max: nat, m: Msg)
    requires Inv(s, max)
    ensures Counted(s, m, max)
  {
  }

  lemma PushesOnlyGrow(s: State, step: Step, s': State, max: nat)
    requires Next(s, step, s', max)
    ensures forall m: Msg :: s'.Past(m).pushes >= s.Past(m).pushes
  {
    hide Removed, Pushed, Reindexed, State.Senders, RemovedByIndex;
  }

  lemma AckedWerePushed(s: State, step: Step, s': State, max: nat)
    requires Next(s, step, s', max) && forall m: Msg :: s'.Past(m).pushes >= s.Past(m).pushes
    requires forall t :: s.At(t).Acked? ==> s.Past(s.At(t).m).pushes > 0
    requires step.Ack? ==> s.Past(step.m).pushes > 0
    ensures forall t :: s'.At(t).Acked? ==> s'.Past(s'.At(t).m).pushes > 0
  {
    hide Removed, Pushed, Reindexed, State.Senders, RemovedByIndex, State.Past;
    forall t | s'.At(t).Acked?
      ensures s'.Past(s'.At(t).m).pushes > 0
    {
      if s'.At(t) == s.At(t) {
        assert s'.Past(s.At(t).m).pushes >= s.Past(s.At(t).m).pushes;
      } else {
        assert step.Ack? && s'.At(t) == Acked(step.m);
        assert s'.Past(step.m).pushes >= s.Past(step.m).pushes;
      }
    }
  }

  // ------------------------------------------------------------ main results

  /** A goroutine is between registering m and pushing it, or between shifting m and taking its registration. */
  ghost predicate InHand(s: State, m: Msg) {
    exists t :: (s.At(t).Mapped? || s.At(t).Shifted?) && s.At(t).m == m
  }

  /**
   * Under any interleaving of timely steps: the heap is in order, slot i holds the message whose index is i, a
   * message that has left the heap carries -1, and every message in the map is in the heap or in the hands of a
   * goroutine that is just pushing it or has just shifted it.
   */
  lemma QueueStaysConsistent(states: seq<State>, steps: seq<Step>, max: nat, i: nat)
    requires IsRun(states, steps, max) && i < |states| && IsTimely(states, steps, i)
    ensures var s := states[i];
      && !s.crashed && IsHeap(s.heap)
      && (forall k :: 0 <= k < |s.heap| ==> s.IndexOf(s.heap[k].id) == k)
      && (forall m: Msg :: s.Past(m).pushes > 0 && !InSlots(s.heap, m) ==> s.IndexOf(m) == -1)
      && (forall m: Msg :: m in s.inMap ==> InSlots(s.heap, m) || InHand(s, m))
  {
    RunKeepsInv(states, steps, max, i);
    var s := states[i];
    forall m: Msg | m in s.inMap
      ensures InSlots(s.heap, m) || InHand(s, m)
    {
      MappedIsSomewhere(s, max, m);
    }
  }

  lemma MappedIsSomewhere(s: State, max: nat, m: Msg)
    requires Inv(s, max) && m in s.inMap
    ensures InSlots(s.heap, m) || InHand(s, m)
  {
    hide InSlots, IsHeap;
    assert Counted(s, m, max) && Located(s, m);
    if !s.StageOf(m).InHeap? {
      var t := s.StageOf(m).t;
      assert (s.At(t).Mapped? || s.At(t).Shifted?) && s.At(t).m == m;
    }
  }

  /** Clearing the heap for m went well: m is not in it any more, and every other message is where it was. */
  ghost predicate ClearedOnly(s: State, s': State, m: Msg) {
    && !s'.crashed
    && (forall x: Msg :: InSlots(s'.heap, x) <==> InSlots(s.heap, x) && x != m)
    && s'.IndexOf(m) == -1
  }

  /**
   * After an ack or a timer pop, clearing the heap takes out that message and no other, exactly when the message
   * was pushed before; after a timer pop it always was. The server does not make an ack wait for that.
   */
  lemma ClearsItsOwnMessage(states: seq<State>, steps: seq<Step>, max: nat, i: nat, t: Tid, m: Msg)
    requires IsRun(states, steps, max) && i < |steps| && IsTimely(states, steps, i)
    requires || (steps[i] == ClearHeap(t) && states[i].At(t) == Acked(m))
             || (steps[i] == Submit(t) && states[i].At(t) == Popped(m))
    ensures ClearedOnly(states[i], states[i + 1], m) <==> states[i].Past(m).pushes > 0
    ensures steps[i] == Submit(t) ==> states[i].Past(m).pushes > 0
  {
    hide Inv, Next;
    RunKeepsInv(states, steps, max, i);
    var s, s' := states[i], states[i + 1];
    assert Next(s, steps[i], s', max);
    ClearsByIndex(s, steps[i], s', max);
    if s.Past(m).pushes > 0 {
      ClearsPushed(s, s', max, m);
    } else {
      ClearsAnother(s, s', max, m);
    }
  }

  lemma ClearsByIndex(s: State, step: Step, s': State, max: nat)
    requires Inv(s, max) && Next(s, step, s', max) && (step.ClearHeap? || step.Submit?)
    ensures RemovedByIndex(s, s', s.At(step.t).m)
    ensures step.Submit? ==> s.Past(s.At(step.t).m).pushes > 0
  {
    hide RemovedByIndex, IsHeap, InSlots, Counted, Heaped;
    assert CarriedBy(s, step.t);
  }

  lemma ClearsPushed(s: State, s': State, max: nat, m: Msg)
    requires Inv(s, max) && RemovedByIndex(s, s', m) && s.Past(m).pushes > 0
    ensures ClearedOnly(s, s', m)
  {
    hide IsHeap, Counted, Carried, PushedBefore;
    IndexIsOwn(s, m);
    DistinctSlots(s);
    if s.IndexOf(m) != -1 { RemovedSlots(s.heap, s'.heap, s.heap[s.IndexOf(m)]); }
  }

  /** A message that was never pushed has index 0, so the first message of the heap goes, if there is one. */
  lemma ClearsAnother(s: State, s': State, max: nat, m: Msg)
    requires Inv(s, max) && RemovedByIndex(s, s', m) && s.Past(m).pushes == 0
    ensures s.heap == [] ==> s'.crashed
    ensures s.heap != [] ==> s.heap[0].id != m && InSlots(s.heap, s.heap[0].id) && !InSlots(s'.heap, s.heap[0].id)
    ensures !ClearedOnly(s, s', m)
  {
    hide IsHeap, Counted, Carried;
    if s.heap != [] {
      InSlot(s.heap, 0);
      DistinctSlots(s);
      RemovedSlots(s.heap, s'.heap, s.heap[0]);
    }
  }

  // A run in which that goes wrong, state by state.

  const REGISTERED := History(1, 0, 0, 1, 0, 0, 0)
  const PUSHED := REGISTERED.(pushes := 1)

  const ONE_STARTED := Start.Goto(0, Starting(1, 10)).To(1, AtStart(0)).Note(1, History(1, 0, 0, 0, 0, 0, 0))
  const ONE_MAPPED := ONE_STARTED.Goto(0, Mapped(1, 10)).To(1, AtMapped(0)).(inMap := {1}).Note(1, REGISTERED)
  const ONE_PUSHED :=
    ONE_MAPPED.Goto(0, Sending(1)).To(1, InHeap).(heap := [Slot(1, 10)], index := map[1 := 0]).Note(1, PUSHED)
  const TWO_STARTED := ONE_PUSHED.Goto(1, Starting(2, 20)).To(2, AtStart(1)).Note(2, History(1, 0, 0, 0, 0, 0, 0))
  const TWO_MAPPED := TWO_STARTED.Goto(1, Mapped(2, 20)).To(2, AtMapped(1)).(inMap := {1, 2}).Note(2, REGISTERED)
  const TWO_ACKED := TWO_MAPPED.Goto(2, Acked(2)).(inMap := {1}).Note(2, REGISTERED.(byAck := 1))
  const ONE_LOST := TWO_ACKED.To(2, Gone).Goto(2, Idle).(heap := [], index := map[1 := -1])

  lemma OneIsPushed(max: nat)
    ensures Next(Start, Deliver(0, 1, 10), ONE_STARTED, max)
    ensures Next(ONE_STARTED, Register(0), ONE_MAPPED, max)
    ensures Next(ONE_MAPPED, Push(0), ONE_PUSHED, max)
  {
    OneSlot(Slot(1, 10));
    assert Reindexed(ONE_MAPPED, ONE_PUSHED, None);
  }

  lemma TwoIsMapped(max: nat)
    ensures Next(ONE_PUSHED, Deliver(1, 2, 20), TWO_STARTED, max)
    ensures Next(TWO_STARTED, Register(1), TWO_MAPPED, max)
  {
    assert {1} + {2} == {1, 2};
  }

  lemma TwoIsAcked(max: nat)
    ensures Next(TWO_MAPPED, Ack(2, 2), TWO_ACKED, max)
  {
    assert {1, 2} - {2} == {1};
  }

  lemma OneIsLost(max: nat)
    ensures Next(TWO_ACKED, ClearHeap(2), ONE_LOST, max)
    ensures !InSlots(ONE_LOST.heap, 1) && !InHand(ONE_LOST, 1) && ONE_LOST.Past(1).byAck == 0
  {
    OneSlot(Slot(1, 10));
    assert TWO_ACKED.IndexOf(2) == 0;
    assert RemovedByIndex(TWO_ACKED, ONE_LOST, 2);
  }

  /**
   * Message 1 is in flight; the ack of message 2 comes between its registration and its push, and clears message 1
   * out of the heap. Message 1 stays registered, and nothing will resend it.
   */
  lemma EarlyAckLosesAnother(max: nat) returns (states: seq<State>, steps: seq<Step>)
    ensures IsRun(states, steps, max) && |steps| == 7 && steps[5] == Ack(2, 2) && steps[6] == ClearHeap(2)
    ensures InSlots(states[6].heap, 1) && 1 in states[7].inMap && states[7].Past(1).byAck == 0
    ensures !InSlots(states[7].heap, 1) && !InHand(states[7], 1)
  {
    hide Next, InHand, State.Past;
    states := [Start, ONE_STARTED, ONE_MAPPED, ONE_PUSHED, TWO_STARTED, TWO_MAPPED, TWO_ACKED, ONE_LOST];
    steps := [Deliver(0, 1, 10), Register(0), Push(0), Deliver(1, 2, 20), Register(1), Ack(2, 2), ClearHeap(2)];
    OneIsPushed(max);
    TwoIsMapped(max);
    TwoIsAcked(max);
    OneIsLost(max);
    assert states[6].heap[0].id == 1;
  }

  lemma OneSlot(x: Slot)
    ensures Pushed([], [x], x) && Removed([x], [], x)
  {
    assert multiset([x]) == multiset{x};
  }

  /** Every registration is consumed at most once, by an ack or by the timer, and by one of them only. */
  lemma ConsumedAtMostOnce(states: seq<State>, steps: seq<Step>, max: nat, i: nat, m: Msg)
    requires IsRun(states, steps, max) && i < |states| && IsTimely(states, steps, i)
    ensures var h := states[i].Past(m);
      h.byAck + h.byTimer <= h.registered <= h.byAck + h.byTimer + 1 && h.byAck <= 1
  {
    hide Carried, Heaped, Unslotted, PushedBefore;
    RunKeepsInv(states, steps, max, i);
    assert Counted(states[i], m, max);
  }

  /** A message is sent once, and resent at most MaxCount times. */
  lemma ResendsAreBounded(states: seq<State>, steps: seq<Step>, max: nat, i: nat, m: Msg)
    requires IsRun(states, steps, max) && i < |states| && IsTimely(states, steps, i)
    ensures states[i].Past(m).sends <= 1 + max
    ensures states[i].Past(m).sends <= 1 + states[i].Past(m).retryCount
  {
    hide Carried, Heaped, Unslotted, PushedBefore;
    RunKeepsInv(states, steps, max, i);
    assert Counted(states[i], m, max);
  }

  /** Once an ack has found the message, no step starts it again. */
  lemma AckEndsRetries(states: seq<State>, steps: seq<Step>, max: nat, i: nat, m: Msg)
    requires IsRun(states, steps, max) && i < |steps| && IsTimely(states, steps, i)
    requires states[i].Past(m).byAck > 0
    ensures states[i + 1].Past(m).starts == states[i].Past(m).starts
  {
    hide Heaped, Unslotted, PushedBefore, Next;
    RunKeepsInv(states, steps, max, i);
    var s, s' := states[i], states[i + 1];
    assert Counted(s, m, max);
    assert Next(s, steps[i], s', max);
    StartsNeedsNewOrPending(s, steps[i], s', max, m);
  }

  /** Only the first delivery and a submitted retry start a message. */
  lemma StartsNeedsNewOrPending(s: State, step: Step, s': State, max: nat, m: Msg)
    requires Next(s, step, s', max)
    ensures s'.Past(m).starts == s.Past(m).starts || s.StageOf(m).New? || m in s.pending
  {
    hide Removed, Pushed, Reindexed, State.Senders, RemovedByIndex, State.At, State.IndexOf;
  }

  // ------------------------------------------------------------ what becomes of a message nobody acks

  /** A retry starts a message again exactly when its user is online and it has not been retried max times. */
  lemma RetryDecides(s: State, t: Tid, m: Msg, online: bool, pri: int, s': State, max: nat)
    requires Next(s, Retry(t, m, online, pri), s', max)
    ensures m in s.pending && m !in s'.pending && s'.Past(m).retryCount == s.Past(m).retryCount + 1
    ensures online && s.Past(m).retryCount < max ==>
      s'.At(t) == Starting(m, pri) && s'.Past(m).starts == s.Past(m).starts + 1
    ensures !online || s.Past(m).retryCount >= max ==>
      s'.At(t) == Idle && s'.StageOf(m) == Gone && s'.Past(m).starts == s.Past(m).starts
  {
  }

  /** The message is in the heap, submitted for a retry, or in the hand of a goroutine on its way to either. */
  ghost predicate InTheWorks(s: State, m: Msg) {
    || InSlots(s.heap, m)
    || m in s.pending
    || exists t :: (s.At(t).Starting? || s.At(t).Mapped? || s.At(t).Shifted? || s.At(t).Popped?) && s.At(t).m == m
  }

  predicate GivesUp(s: State, step: Step, m: Msg, max: nat) {
    step.Retry? && step.m == m && (!step.online || s.Past(m).retryCount >= max)
  }

  /** Before state i, a retry found the user of the message offline or the message retried max times. */
  ghost predicate GivenUp(states: seq<State>, steps: seq<Step>, max: nat, i: nat, m: Msg)
    requires i <= |steps| <= |states|
  {
    exists j :: 0 <= j < i && GivesUp(states[j], steps[j], m, max)
  }

  /**
   * A message that was started and has no ack is in the works, unless it was given up, because its user was offline
   * or it had been retried max times; then it is not. No timer pop goes without a retry, and every message in the
   * heap was sent, or is about to be, once and once more for each retry.
   */
  lemma UnackedIsInTheWorks(states: seq<State>, steps: seq<Step>, max: nat, i: nat, m: Msg)
    requires IsRun(states, steps, max) && i < |states| && IsTimely(states, steps, i)
    ensures var s := states[i];
      && (s.Past(m).starts > 0 && s.Past(m).byAck == 0 ==> (InTheWorks(s, m) <==> !GivenUp(states, steps, max, i, m)))
      && (s.Past(m).byTimer > s.Past(m).retryCount ==> m in s.pending || exists t :: s.At(t) == Popped(m))
      && s.Past(m).retryCount <= s.Past(m).byTimer
      && (InSlots(s.heap, m) ==> s.Past(m).sends + |s.Senders(m)| == 1 + s.Past(m).retryCount)
  {
    hide Next, IsHeap, State.Senders, GivesUp, IsRun, IsTimely;
    RunKeepsInv(states, steps, max, i);
    GoneIsGivenUp(states, steps, max, i, m);
    var s := states[i];
    assert Counted(s, m, max) && Located(s, m);
    if !s.StageOf(m).New? { WorksAreNotGone(s, max, m); }
  }

  lemma WorksAreNotGone(s: State, max: nat, m: Msg)
    requires Inv(s, max) && !s.StageOf(m).New?
    ensures InTheWorks(s, m) <==> !s.StageOf(m).Gone?
    ensures s.StageOf(m).AtPopped? ==> exists t :: s.At(t) == Popped(m)
  {
    hide IsHeap, State.Senders, State.At, State.StageOf, State.Past;
    assert Counted(s, m, max) && Located(s, m);
    if s.StageOf(m).AtStart? || s.StageOf(m).AtMapped? || s.StageOf(m).AtShifted? || s.StageOf(m).AtPopped? {
      var t := s.StageOf(m).t;
      assert (s.At(t).Starting? || s.At(t).Mapped? || s.At(t).Shifted? || s.At(t).Popped?) && s.At(t).m == m;
    }
    forall t | (s.At(t).Starting? || s.At(t).Mapped? || s.At(t).Shifted? || s.At(t).Popped?) && s.At(t).m == m
      ensures !s.StageOf(m).Gone?
    {
      assert CarriedBy(s, t);
    }
  }

  lemma {:induction false} GoneIsGivenUp(states: seq<State>, steps: seq<Step>, max: nat, i: nat, m: Msg)
    requires IsRun(states, steps, max) && i < |states| && IsTimely(states, steps, i)
    ensures GivenUp(states, steps, max, i, m) ==> states[i].StageOf(m).Gone?
    ensures states[i].StageOf(m).Gone? && states[i].Past(m).byAck == 0 ==> GivenUp(states, steps, max, i, m)
  {
    hide Next, Inv, GivesUp, Timely;
    if i > 0 {
      GoneIsGivenUp(states, steps, max, i - 1, m);
      RunKeepsInv(states, steps, max, i - 1);
      GoneStays(states[i - 1], steps[i - 1], states[i], max, m);
      WhoGoes(states[i - 1], steps[i - 1], states[i], max, m);
    }
  }

  lemma GoneStays(s: State, step: Step, s': State, max: nat, m: Msg)
    requires Inv(s, max) && Next(s, step, s', max)
    ensures s.StageOf(m).Gone? || GivesUp(s, step, m, max) ==> s'.StageOf(m).Gone?
    ensures s'.Past(m).byAck >= s.Past(m).byAck
  {
    hide Inv, Next, State.StageOf, State.Past;
    match step
    case Register(_) => GoneIsNotInHand(s, step, s', max, m);
    case Push(_) => GoneIsNotInHand(s, step, s', max, m);
    case Shift(_, _) => GoneIsNotInHand(s, step, s', max, m);
    case Take(_) => GoneIsNotInHand(s, step, s', max, m);
    case Submit(_) => GoneIsNotInHand(s, step, s', max, m);
    case _ => GoneIsLeftAlone(s, step, s', max, m);
  }

  lemma GoneIsNotInHand(s: State, step: Step, s': State, max: nat, m: Msg)
    requires Inv(s, max) && Next(s, step, s', max)
    requires step.Register? || step.Push? || step.Shift? || step.Take? || step.Submit?
    ensures s.StageOf(m).Gone? ==> s'.StageOf(m).Gone?
    ensures s'.Past(m).byAck >= s.Past(m).byAck
  {
    hide IsHeap, State.Senders, Counted, Removed, Pushed, Reindexed, RemovedByIndex, Unslotted, PushedBefore, Located;
    assert !step.Shift? ==> CarriedBy(s, step.t);
    if step.Shift? {
      InSlot(s.heap, 0);
    }
  }

  lemma GoneIsLeftAlone(s: State, step: Step, s': State, max: nat, m: Msg)
    requires Inv(s, max) && Next(s, step, s', max)
    requires step.Deliver? || step.Send? || step.Ack? || step.ClearHeap? || step.Retry?
    ensures s.StageOf(m).Gone? || GivesUp(s, step, m, max) ==> s'.StageOf(m).Gone?
    ensures s'.Past(m).byAck >= s.Past(m).byAck
  {
    hide State.Senders, RemovedByIndex, Counted, Heaped, Unslotted, PushedBefore, CarriedBy, Located;
  }

  lemma WhoGoes(s: State, step: Step, s': State, max: nat, m: Msg)
    requires Inv(s, max) && Next(s, step, s', max)
    ensures !s.StageOf(m).Gone? && s'.StageOf(m).Gone? && s'.Past(m).byAck == 0 ==> GivesUp(s, step, m, max)
  {
    hide Inv, Next, GivesUp, State.StageOf, State.Past;
    match step
    case ClearHeap(t) => ClearHeapGoes(s, t, s', max, m);
    case Take(t) => TakeGoes(s, t, s', max, m);
    case Retry(t, x, online, pri) => RetryGoes(s, t, x, online, pri, s', max, m);
    case _ => OthersDoNotGo(s, step, s', max, m);
  }

  lemma ClearHeapGoes(s: State, t: Tid, s': State, max: nat, m: Msg)
    requires Inv(s, max) && Next(s, ClearHeap(t), s', max)
    ensures s'.StageOf(m).Gone? ==> s.StageOf(m).Gone? || s'.Past(m).byAck > 0
  {
    hide RemovedByIndex, Heaped, Carried, Unslotted, Counted;
  }

  lemma TakeGoes(s: State, t: Tid, s': State, max: nat, m: Msg)
    requires Inv(s, max) && Next(s, Take(t), s', max)
    ensures s'.StageOf(m).Gone? ==> s.StageOf(m).Gone? || s'.Past(m).byAck > 0
  {
    hide Heaped, Unslotted, PushedBefore, Located, State.Senders;
    assert CarriedBy(s, t) && Counted(s, m, max);
  }

  lemma RetryGoes(s: State, t: Tid, x: Msg, online: bool, pri: int, s': State, max: nat, m: Msg)
    requires Next(s, Retry(t, x, online, pri), s', max)
    ensures s'.StageOf(m).Gone? ==> s.StageOf(m).Gone? || GivesUp(s, Retry(t, x, online, pri), m, max)
  {
  }

  lemma OthersDoNotGo(s: State, step: Step, s': State, max: nat, m: Msg)
    requires Next(s, step, s', max) && !step.ClearHeap? && !step.Take? && !step.Retry?
    ensures s'.StageOf(m).Gone? ==> s.StageOf(m).Gone?
  {
    hide Removed, Pushed, Reindexed, RemovedByIndex;
  }
}
