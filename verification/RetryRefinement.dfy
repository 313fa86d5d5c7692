/**
 * The critical sections of the real queue take a state of the machine in RetryProtocol to a successor of it: what
 * the machine's steps say of the heap and of the indexes is what the code does.
 */
module RetryRefinement {
  import opened Wrappers
  import opened Heaps
  import opened InFlightPqueues
  import opened RetryQueues
  import opened P = RetryProtocol

  /** One object for each number and each key. */
  ghost predicate Distinct(all: set<Message>) {
    forall m, n :: m in all && n in all && (m.id == n.id || m.key == n.key) ==> m == n
  }

  /** s is the state of q and of the messages in all. */
  ghost predicate Shows(q: RetryQueue, all: set<Message>, s: P.State)
    reads q, q.inFlightPQ, all
  {
    && Distinct(all)
    && q.inFlightPQ.Items() <= all
    && q.inFlightPQ.Valid()
    && Registered(q, all, s)
    && s.heap == q.inFlightPQ.slots
    && !s.crashed
    && Indexed(all, s)
    && Due(all, s)
  }

  /** The machine's set holds the numbers of the messages in the map. */
  ghost predicate Registered(q: RetryQueue, all: set<Message>, s: P.State)
    reads q
  {
    && (forall k :: k in q.inFlightMessages ==> q.inFlightMessages[k] in all && q.inFlightMessages[k].key == k)
    && (forall m :: m in all ==> (m.id in s.inMap <==> m.key in q.inFlightMessages))
  }

  ghost predicate Indexed(all: set<Message>, s: P.State)
    reads all`index
  {
    forall m :: m in all ==> s.IndexOf(m.id) == m.index
  }

  /** A message that is being started has the due time its goroutine gave it. */
  ghost predicate Due(all: set<Message>, s: P.State)
    reads all`pri
  {
    forall t: P.Tid :: DueAt(all, s, t)
  }

  ghost predicate DueAt(all: set<Message>, s: P.State, t: P.Tid)
    reads all`pri
  {
    s.At(t).Starting? || s.At(t).Mapped? ==> forall m :: m in all && m.id == s.At(t).m ==> m.pri == s.At(t).pri
  }

  lemma DueKept(all: set<Message>, s: P.State, s': P.State, t: P.Tid)
    requires Due(all, s) && (forall u :: u != t ==> s'.At(u) == s.At(u)) && DueAt(all, s', t)
    ensures Due(all, s')
  {
    hide P.State.At;
    forall u: P.Tid
      ensures DueAt(all, s', u)
    {
      assert DueAt(all, s, u);
    }
  }

  /** The machine's indexes after a heap operation: those that the messages now carry. */
  ghost function Indexes(all: set<Message>, s: P.State): map<P.Msg, int>
    requires Distinct(all)
    reads all`index
  {
    s.index + (map m | m in all :: m.id := m.index)
  }

  lemma IndexesShow(all: set<Message>, s: P.State, s': P.State)
    requires Distinct(all) && s'.index == Indexes(all, s)
    ensures Indexed(all, s')
    ensures forall i: P.Msg :: (forall m :: m in all ==> m.id != i) ==> s'.IndexOf(i) == s.IndexOf(i)
  {
  }

  /** Only the messages in the heap and the one taken out of it have new indexes. */
  lemma OnlyHeapReindexed(q: RetryQueue, all: set<Message>, s: P.State, s': P.State, out: Option<P.Msg>)
    requires Distinct(all) && q.inFlightPQ.Items() <= all && q.inFlightPQ.Valid()
    requires s'.heap == q.inFlightPQ.slots && s'.index == Indexes(all, s)
    requires out.Some? ==> exists x :: x in all && x.id == out.value && x.index == -1
    requires forall m :: m in all && m !in q.inFlightPQ.Items() && out != Some(m.id) ==> m.index == s.IndexOf(m.id)
    ensures P.Reindexed(s, s', out)
  {
    hide P.InSlots;
    IndexesShow(all, s, s');
    forall i | 0 <= i < |s'.heap|
      ensures s'.IndexOf(s'.heap[i].id) == i
    {
      assert q.inFlightPQ.pq[i] in q.inFlightPQ.Items();
    }
    forall n: P.Msg | !P.InSlots(s'.heap, n) && out != Some(n)
      ensures s'.IndexOf(n) == s.IndexOf(n)
    {
      if m :| m in all && m.id == n {
        if m in q.inFlightPQ.Items() {
          ItemInSlots(q, m);
        }
      }
    }
  }

  lemma ItemInSlots(q: RetryQueue, m: Message)
    requires q.inFlightPQ.Valid() && m in q.inFlightPQ.Items()
    ensures P.InSlots(q.inFlightPQ.slots, m.id)
  {
    var i :| 0 <= i < |q.inFlightPQ.pq| && q.inFlightPQ.pq[i] == m;
    assert q.inFlightPQ.slots[i].id == m.id;
  }

  // ------------------------------------------------------------ successors

  /** Only goroutine t moves from s to s'. */
  ghost predicate Moves(s: P.State, s': P.State, t: P.Tid) {
    forall u :: u != t ==> s'.At(u) == s.At(u)
  }

  /** A step that leaves the heap alone. */
  ghost predicate HeapKept(s: P.State, s': P.State) {
    s'.heap == s.heap && s'.index == s.index && s'.crashed == s.crashed
  }

  lemma NextRegister(s: P.State, t: P.Tid, max: nat) returns (s': P.State)
    requires s.At(t).Starting?
    ensures P.Next(s, P.Register(t), s', max)
    ensures Moves(s, s', t) && HeapKept(s, s') && s'.inMap == s.inMap + {s.At(t).m}
    ensures s'.At(t) == P.Mapped(s.At(t).m, s.At(t).pri)
  {
    var m, h := s.At(t).m, s.Past(s.At(t).m);
    s' := s.Goto(t, P.Mapped(m, s.At(t).pri)).To(m, P.AtMapped(t)).(inMap := s.inMap + {m})
      .Note(m, if m in s.inMap then h else h.(registered := h.registered + 1));
  }

  lemma NextPush(s: P.State, t: P.Tid, heap: seq<Slot>, index: map<P.Msg, int>, max: nat) returns (s': P.State)
    requires s.At(t).Mapped? && Pushed(s.heap, heap, Slot(s.At(t).m, s.At(t).pri))
    requires P.Reindexed(s, s.(heap := heap, index := index), None)
    ensures P.Next(s, P.Push(t), s', max)
    ensures Moves(s, s', t) && s'.heap == heap && s'.index == index && s'.crashed == s.crashed && s'.inMap == s.inMap
    ensures s'.At(t).Sending?
  {
    hide Pushed;
    var m := s.At(t).m;
    s' := s.Goto(t, P.Sending(m)).To(m, P.InHeap).(heap := heap, index := index)
      .Note(m, s.Past(m).(pushes := s.Past(m).pushes + 1));
    SameIndexes(s, s.(heap := heap, index := index), s', None);
  }

  lemma SameIndexes(s: P.State, r: P.State, s': P.State, out: Option<P.Msg>)
    requires P.Reindexed(s, r, out) && s'.heap == r.heap && s'.index == r.index
    ensures P.Reindexed(s, s', out)
  {
    hide P.InSlots;
    assert forall m: P.Msg :: s'.IndexOf(m) == r.IndexOf(m);
  }

  lemma NextAck(s: P.State, t: P.Tid, m: P.Msg, max: nat) returns (s': P.State)
    requires s.At(t).Idle?
    ensures P.Next(s, P.Ack(t, m), s', max)
    ensures Moves(s, s', t) && HeapKept(s, s') && s'.inMap == s.inMap - {m}
    ensures s'.At(t) == if m in s.inMap then P.Acked(m) else P.Idle
  {
    s' := if m in s.inMap
      then s.Goto(t, P.Acked(m)).(inMap := s.inMap - {m}).Note(m, s.Past(m).(byAck := s.Past(m).byAck + 1))
      else s;
  }

  lemma NextTake(s: P.State, t: P.Tid, max: nat) returns (s': P.State)
    requires s.At(t).Shifted?
    ensures P.Next(s, P.Take(t), s', max)
    ensures Moves(s, s', t) && HeapKept(s, s') && s'.inMap == s.inMap - {s.At(t).m}
    ensures s'.At(t) == if s.At(t).m in s.inMap then P.Popped(s.At(t).m) else P.Idle
  {
    var m := s.At(t).m;
    s' := if m in s.inMap
      then s.Goto(t, P.Popped(m)).To(m, P.AtPopped(t)).(inMap := s.inMap - {m})
        .Note(m, s.Past(m).(byTimer := s.Past(m).byTimer + 1))
      else s.Goto(t, P.Idle).To(m, P.Gone);
  }

  lemma NextShift(s: P.State, t: P.Tid, now: int, heap: seq<Slot>, index: map<P.Msg, int>, max: nat)
    returns (s': P.State)
    requires s.At(t).Idle? && |s.heap| > 0 && s.heap[0].pri <= now && Removed(s.heap, heap, s.heap[0])
    requires P.Reindexed(s, s.(heap := heap, index := index), Some(s.heap[0].id))
    ensures P.Next(s, P.Shift(t, now), s', max)
    ensures Moves(s, s', t) && s'.heap == heap && s'.index == index && s'.crashed == s.crashed && s'.inMap == s.inMap
    ensures s'.At(t) == P.Shifted(s.heap[0].id)
  {
    hide Removed;
    var m := s.heap[0].id;
    s' := s.Goto(t, P.Shifted(m)).To(m, P.AtShifted(t)).(heap := heap, index := index);
    SameIndexes(s, s.(heap := heap, index := index), s', Some(m));
  }

  /** ClearHeap and Submit: what the heap became is r. */
  lemma NextClear(s: P.State, t: P.Tid, r: P.State, max: nat) returns (s': P.State, step: P.Step)
    requires (s.At(t).Acked? || s.At(t).Popped?) && P.RemovedByIndex(s, r, s.At(t).m)
    ensures step == if s.At(t).Acked? then P.ClearHeap(t) else P.Submit(t)
    ensures P.Next(s, step, s', max)
    ensures Moves(s, s', t) && s'.heap == r.heap && s'.index == r.index && s'.crashed == r.crashed
    ensures s'.inMap == s.inMap && s'.At(t).Idle?
  {
    hide P.Reindexed, Removed;
    var m := s.At(t).m;
    if s.At(t).Acked? {
      step := P.ClearHeap(t);
      s' := (if s.IndexOf(m) == -1 then s else s.To(m, P.Gone)).Goto(t, P.Idle)
        .(heap := r.heap, index := r.index, crashed := r.crashed);
    } else {
      step := P.Submit(t);
      s' := s.Goto(t, P.Idle).To(m, P.Queued)
        .(pending := s.pending + {m}, heap := r.heap, index := r.index, crashed := r.crashed);
    }
    SameRemoval(s, r, s', m);
  }

  lemma SameRemoval(s: P.State, r: P.State, s': P.State, m: P.Msg)
    requires P.RemovedByIndex(s, r, m) && s'.heap == r.heap && s'.index == r.index && s'.crashed == r.crashed
    ensures P.RemovedByIndex(s, s', m)
  {
    hide P.Reindexed, Removed;
    if 0 <= s.IndexOf(m) < |s.heap| {
      SameIndexes(s, r, s', Some(s.heap[s.IndexOf(m)].id));
    }
  }

  // ------------------------------------------------------------ the beginning, and steps outside the queue

  /** A new queue, with messages that were never in a heap, shows the first state of the machine. */
  method Begin(all: set<Message>) returns (q: RetryQueue)
    requires Distinct(all) && forall m :: m in all ==> m.index == 0
    ensures fresh(q) && fresh(q.inFlightPQ) && Shows(q, all, P.Start)
  {
    hide IsHeap;
    q := new RetryQueue();
  }

  /** A send, a retry that gives up and an ack of an unknown key touch neither the map nor the heap nor a due time. */
  lemma OutsideKeepsShows(q: RetryQueue, all: set<Message>, s: P.State, step: P.Step, s': P.State, max: nat)
    requires Shows(q, all, s) && P.Next(s, step, s', max)
    requires step.Send? || (step.Retry? && s'.At(step.t).Idle?) || (step.Ack? && step.m !in s.inMap)
    ensures Shows(q, all, s')
  {
    DueKept(all, s, s', step.t);
  }

  // ------------------------------------------------------------ the critical sections

  /** startInFlightTimeout sets the due time of a message that is in no structure: a Deliver or Retry step. */
  method SetDue(q: RetryQueue, all: set<Message>, msg: Message, pri: int,
                ghost s: P.State, ghost s': P.State, ghost step: P.Step, ghost max: nat)
    requires Shows(q, all, s) && msg in all && P.Inv(s, max) && P.Next(s, step, s', max)
    requires (step.Deliver? || step.Retry?) && step.m == msg.id && step.pri == pri
    requires s'.At(step.t) == P.Starting(msg.id, pri)
    modifies msg`pri
    ensures msg.pri == pri && Shows(q, all, s')
  {
    hide P.Inv, P.Next;
    StartsOutside(q, all, msg, s, s', step, max);
    msg.pri := pri;
    forall u: P.Tid
      ensures DueAt(all, s', u)
    {
      assert old(DueAt(all, s, u));
    }
  }

  lemma NextRetry(s: P.State, t: P.Tid, m: P.Msg, online: bool, pri: int, max: nat) returns (s': P.State)
    requires s.At(t).Idle? && m in s.pending
    ensures P.Next(s, P.Retry(t, m, online, pri), s', max)
  {
    var h := s.Past(m).(retryCount := s.Past(m).retryCount + 1);
    var s1 := s.(pending := s.pending - {m});
    s' := if h.retryCount > max || !online then s1.To(m, P.Gone).Note(m, h)
          else s1.Goto(t, P.Starting(m, pri)).To(m, P.AtStart(t)).Note(m, h.(starts := h.starts + 1));
  }

  /**
   * retryDeliveryMsg, up to the critical sections of startInFlightTimeout: the Retry step. The message goes out again
   * exactly when its user is online, on a device that it names, and it was not retried max times before.
   */
  method RetryDelivery(q: RetryQueue, all: set<Message>, msg: Message, online: bool, pri: int, max: nat,
                       ghost s: P.State, ghost t: P.Tid) returns (again: bool, ghost s': P.State)
    requires Shows(q, all, s) && P.Inv(s, max) && msg in all && s.At(t).Idle? && msg.id in s.pending
    requires msg.retryCount == s.Past(msg.id).retryCount
    modifies msg`retryCount, msg`pri
    ensures P.Next(s, P.Retry(t, msg.id, online, pri), s', max) && Shows(q, all, s')
    ensures msg.retryCount == old(msg.retryCount) + 1 == s'.Past(msg.id).retryCount
    ensures again <==> online && old(msg.retryCount) < max
    ensures again ==> msg.pri == pri && s'.At(t) == P.Starting(msg.id, pri)
    ensures !again ==> msg.pri == old(msg.pri) && s'.At(t) == P.Idle
  {
    hide P.Inv, P.Next;
    s' := NextRetry(s, t, msg.id, online, pri, max);
    P.RetryDecides(s, t, msg.id, online, pri, s', max);
    msg.retryCount := msg.retryCount + 1;
    again := false;
    if msg.retryCount > max {
      OutsideKeepsShows(q, all, s, P.Retry(t, msg.id, online, pri), s', max);
      return;
    }
    if !online {
      OutsideKeepsShows(q, all, s, P.Retry(t, msg.id, online, pri), s', max);
      return;
    }
    SetDue(q, all, msg, pri, s, s', P.Retry(t, msg.id, online, pri), max);
    again := true;
  }

  lemma StartsOutside(q: RetryQueue, all: set<Message>, msg: Message, s: P.State, s': P.State, step: P.Step, max: nat)
    requires Shows(q, all, s) && msg in all && P.Inv(s, max) && P.Next(s, step, s', max)
    requires (step.Deliver? || step.Retry?) && step.m == msg.id && s'.At(step.t).Starting?
    ensures msg !in q.inFlightPQ.Items()
    ensures Moves(s, s', step.t) && HeapKept(s, s') && s'.inMap == s.inMap
    ensures forall u :: s.At(u).Starting? || s.At(u).Mapped? ==> s.At(u).m != msg.id
  {
    hide P.InSlots, IsHeap, P.Counted;
    if msg in q.inFlightPQ.Items() {
      ItemInSlots(q, msg);
    }
    forall u | s.At(u).Starting? || s.At(u).Mapped?
      ensures s.At(u).m != msg.id
    {
      assert P.CarriedBy(s, u);
    }
  }

  lemma InvHeap(s: P.State, max: nat)
    requires P.Inv(s, max)
    ensures IsHeap(s.heap)
  {
    hide IsHeap, P.InSlots, P.Counted;
  }

  /** What the machine's invariant says of a message's object. */
  lemma InvShows(q: RetryQueue, all: set<Message>, msg: Message, s: P.State, max: nat)
    requires Shows(q, all, s) && P.Inv(s, max) && msg in all
    ensures IsHeap(s.heap) && msg.index >= -1
    ensures forall t :: s.At(t).Mapped? && s.At(t).m == msg.id ==> msg !in q.inFlightPQ.Items()
  {
    hide IsHeap, P.InSlots, P.Counted;
    if msg in q.inFlightPQ.Items() {
      ItemInSlots(q, msg);
    }
    forall t | s.At(t).Mapped? && s.At(t).m == msg.id
      ensures msg !in q.inFlightPQ.Items()
    {
      assert P.CarriedBy(s, t);
    }
    if s.Past(msg.id).pushes > 0 {
      P.IndexIsOwn(s, msg.id);
    }
  }

  /** pushInFlightMessage is the Register step. */
  method Register(q: RetryQueue, all: set<Message>, msg: Message, ghost s: P.State, ghost t: P.Tid, ghost max: nat)
    returns (ghost s': P.State)
    requires Shows(q, all, s) && msg in all && s.At(t).Starting? && s.At(t).m == msg.id
    modifies q
    ensures P.Next(s, P.Register(t), s', max) && Shows(q, all, s')
  {
    hide P.Next, P.State.At;
    q.PushInFlightMessage(msg);
    s' := NextRegister(s, t, max);
    assert DueAt(all, s, t);
    DueKept(all, s, s', t);
  }

  /** addToInFlightPQ is the Push step. */
  method Push(q: RetryQueue, all: set<Message>, msg: Message, ghost s: P.State, ghost t: P.Tid, ghost max: nat)
    returns (ghost s': P.State)
    requires Shows(q, all, s) && P.Inv(s, max) && msg in all && s.At(t).Mapped? && s.At(t).m == msg.id
    modifies q.inFlightPQ, q.inFlightPQ.Items()`index, msg`index
    ensures P.Next(s, P.Push(t), s', max) && Shows(q, all, s')
  {
    hide P.Inv, P.Next, P.State.At, IsHeap, P.Reindexed, P.State.IndexOf;
    InvShows(q, all, msg, s, max);
    assert DueAt(all, s, t);
    q.inFlightPQ.Push(msg);
    ghost var index := Indexes(all, s);
    OnlyHeapReindexed(q, all, s, s.(heap := q.inFlightPQ.slots, index := index), None);
    s' := NextPush(s, t, q.inFlightPQ.slots, index, max);
    IndexesShow(all, s, s');
    DueKept(all, s, s', t);
  }

  /** popInFlightMessage is the Ack step of a client, and the Take step of the timer for a message it has shifted. */
  method Pop(q: RetryQueue, all: set<Message>, msg: Message, ghost s: P.State, ghost t: P.Tid, ghost max: nat)
    returns (r: Option<Message>, ghost s': P.State, ghost step: P.Step)
    requires Shows(q, all, s) && msg in all && (s.At(t).Idle? || s.At(t) == P.Shifted(msg.id))
    modifies q
    ensures step == if s.At(t).Idle? then P.Ack(t, msg.id) else P.Take(t)
    ensures P.Next(s, step, s', max) && Shows(q, all, s')
    ensures r == if msg.id in s.inMap then Some(msg) else None
  {
    hide P.Next, P.State.At;
    r := q.PopInFlightMessage(msg.key);
    if s.At(t).Idle? {
      step := P.Ack(t, msg.id);
      s' := NextAck(s, t, msg.id, max);
    } else {
      step := P.Take(t);
      s' := NextTake(s, t, max);
    }
    DueKept(all, s, s', t);
  }

  /** PeekAndShift is the Shift step when a message is due, and changes nothing otherwise. */
  method Shift(q: RetryQueue, all: set<Message>, now: int, ghost s: P.State, ghost t: P.Tid, ghost max: nat)
    returns (x: Message?, ghost s': P.State)
    requires Shows(q, all, s) && P.Inv(s, max) && s.At(t).Idle?
    modifies q.inFlightPQ, q.inFlightPQ.Items()`index
    ensures Shows(q, all, s')
    ensures x != null ==> P.Next(s, P.Shift(t, now), s', max) && s'.At(t) == P.Shifted(x.id)
    ensures x == null ==> s' == s && (s.heap == [] || s.heap[0].pri > now)
  {
    hide P.Inv, P.Next, P.State.At, IsHeap, P.Reindexed, P.State.IndexOf;
    InvHeap(s, max);
    var left;
    s' := s;
    x, left := q.inFlightPQ.PeekAndShift(now);
    if x == null {
      return;
    }
    ghost var index := Indexes(all, s);
    OnlyHeapReindexed(q, all, s, s.(heap := q.inFlightPQ.slots, index := index), Some(x.id));
    s' := NextShift(s, t, now, q.inFlightPQ.slots, index, max);
    IndexesShow(all, s, s');
    DueKept(all, s, s', t);
  }

  /**
   * removeFromInFlightPQ is the ClearHeap step after an ack, and the heap's part of the Submit step after a timer
   * pop; where it panics, the machine crashes.
   */
  method Clear(q: RetryQueue, all: set<Message>, msg: Message, ghost s: P.State, ghost t: P.Tid, ghost max: nat)
    returns (panicked: bool, ghost s': P.State, ghost step: P.Step)
    requires Shows(q, all, s) && P.Inv(s, max) && msg in all
    requires s.At(t) == P.Acked(msg.id) || s.At(t) == P.Popped(msg.id)
    modifies q.inFlightPQ, q.inFlightPQ.Items()`index
    ensures step == if s.At(t).Acked? then P.ClearHeap(t) else P.Submit(t)
    ensures P.Next(s, step, s', max) && s'.crashed == panicked
    ensures !panicked ==> Shows(q, all, s')
  {
    hide P.Inv, P.Next, P.State.At, IsHeap, P.RemovedByIndex, Shows, P.State.IndexOf;
    InvShows(q, all, msg, s, max);
    InvHeap(s, max);
    ghost var r;
    panicked, r := RemoveByIndex(q, all, msg, s);
    s', step := NextClear(s, t, r, max);
    if !panicked {
      ShowsAfterMove(q, all, s, r, s', t);
    }
  }

  /** The heap's part: r is s with what removeFromInFlightPQ did to it. */
  method RemoveByIndex(q: RetryQueue, all: set<Message>, msg: Message, ghost s: P.State)
    returns (panicked: bool, ghost r: P.State)
    requires Shows(q, all, s) && msg in all && IsHeap(s.heap) && msg.index >= -1
    modifies q.inFlightPQ, q.inFlightPQ.Items()`index
    ensures P.RemovedByIndex(s, r, msg.id) && r == s.(heap := r.heap, index := r.index, crashed := panicked)
    ensures !panicked ==> Shows(q, all, r)
    ensures Due(all, s)
  {
    hide P.State.At, IsHeap, P.Reindexed, P.State.IndexOf, Due;
    assert s.IndexOf(msg.id) == msg.index;
    ghost var i := msg.index;
    r := s;
    panicked := q.RemoveFromInFlightPQ(msg);
    if panicked {
      r := s.(crashed := true);
    } else if i != -1 {
      r := s.(heap := q.inFlightPQ.slots, index := Indexes(all, s));
      OnlyHeapReindexed(q, all, s, r, Some(s.heap[i].id));
      IndexesShow(all, s, r);
      SameDue(all, s, r);
    }
  }

  lemma SameDue(all: set<Message>, s: P.State, r: P.State)
    requires Due(all, s) && r.pc == s.pc
    ensures Due(all, r)
  {
    forall t: P.Tid
      ensures DueAt(all, r, t)
    {
      assert DueAt(all, s, t);
    }
  }

  lemma ShowsAfterMove(q: RetryQueue, all: set<Message>, s: P.State, r: P.State, s': P.State, t: P.Tid)
    requires Shows(q, all, r) && Due(all, s) && r.inMap == s.inMap && Moves(s, s', t) && s'.At(t).Idle?
    requires s'.heap == r.heap && s'.index == r.index && s'.crashed == r.crashed && s'.inMap == r.inMap
    ensures Shows(q, all, s')
  {
    hide P.State.At;
    assert forall m: P.Msg :: s'.IndexOf(m) == r.IndexOf(m);
    DueKept(all, s, s', t);
  }
}
