/**
 * The per-key lock (keylock.go): reference-counted mutexes in a shared table, created on demand by Lock and
 * removed by Clean. The model is a machine whose steps are the critical sections of the code; any number of
 * threads take them in any order, with Clean in between at any time.
 */
module KeyLocks {

  type Key = string
  type Thread = nat
  type LockId = nat

  /** Where a thread is in Lock(key) or Unlock(key). */
  datatype PC =
    | Idle
    | Missed(key: Key)                    // did not find the key under the read lock
    | Waiting(key: Key, lock: LockId)     // counted, about to acquire the inner mutex
    | Holding(key: Key, lock: LockId)     // Lock has returned, Unlock has not been called
    | Releasing(key: Key, lock: LockId)   // uncounted, about to release the inner mutex
  {
    /** The thread is counted in the reference count of l. */
    predicate Uses(l: LockId) { (Waiting? || Holding?) && lock == l }

    /** The thread has acquired the mutex of l and not released it. */
    predicate Owns(l: LockId) { (Holding? || Releasing?) && lock == l }
  }

  /** The shared table, the inner locks by identity, and the threads. */
  datatype State = State(
    locks: map<Key, LockId>,
    count: map<LockId, int>,
    locked: set<LockId>,
    pc: map<Thread, PC>,
    crashed: bool)
  {
    function At(t: Thread): PC { if t in pc then pc[t] else Idle }

    function Goto(t: Thread, p: PC): State { this.(pc := pc[t := p]) }

    ghost function Users(l: LockId): set<Thread> { set t | t in pc && pc[t].Uses(l) }
  }

  datatype Step =
    | FastFind(t: Thread, key: Key)
    | SlowFind(t: Thread, created: LockId)
    | Acquire(t: Thread)
    | Done(t: Thread)
    | Release(t: Thread)
    | Clean

  const Start := State(map[], map[], {}, map[], false)

  /** Which step a thread can take next; a caller unlocks the key it holds, and nothing else. */
  predicate Enabled(s: State, step: Step) {
    match step
    case FastFind(t, _) => s.At(t).Idle?
    case SlowFind(t, created) => s.At(t).Missed? && created !in s.count
    case Acquire(t) => s.At(t).Waiting? && s.At(t).lock !in s.locked
    case Done(t) => s.At(t).Holding?
    case Release(t) => s.At(t).Releasing?
    case Clean => true
  }

  function Counted(s: State, l: LockId, delta: int): State {
    s.(count := s.count[l := (if l in s.count then s.count[l] else 0) + delta])
  }

  function Cleaned(locks: map<Key, LockId>, count: map<LockId, int>): map<Key, LockId> {
    map k | k in locks && (locks[k] in count ==> count[locks[k]] != 0) :: locks[k]
  }

  function Apply(s: State, step: Step): State
    requires Enabled(s, step)
  {
    match step
    case FastFind(t, key) =>
      if key in s.locks then Counted(s, s.locks[key], 1).Goto(t, Waiting(key, s.locks[key]))
      else s.Goto(t, Missed(key))
    case SlowFind(t, created) =>
      var key := s.At(t).key;
      var s' := if key in s.locks then s
                else s.(locks := s.locks[key := created], count := s.count[created := 0]);
      Counted(s', s'.locks[key], 1).Goto(t, Waiting(key, s'.locks[key]))
    case Acquire(t) =>
      var l := s.At(t).lock;
      s.(locked := s.locked + {l}).Goto(t, Holding(s.At(t).key, l))
    case Done(t) =>
      // Unlock looks the key up again; it never asks which lock Lock had acquired.
      var key := s.At(t).key;
      if key in s.locks then Counted(s, s.locks[key], -1).Goto(t, Releasing(key, s.locks[key]))
      else s.Goto(t, Idle)
    case Release(t) =>
      // Releasing a mutex that is not locked is a fatal error.
      var l := s.At(t).lock;
      if l in s.locked then s.(locked := s.locked - {l}).Goto(t, Idle)
      else s.(crashed := true)
    case Clean =>
      s.(locks := Cleaned(s.locks, s.count))
  }

  /** A finite execution: the states before, between and after the steps. */
  ghost predicate IsRun(states: seq<State>, steps: seq<Step>) {
    && |states| == |steps| + 1 && states[0] == Start
    && forall i :: 0 <= i < |steps| ==>
        Enabled(states[i], steps[i]) && states[i + 1] == Apply(states[i], steps[i])
  }

  ghost predicate Inv(s: State) {
    && !s.crashed
    // the table refers to known locks, each under one key
    && (forall k :: k in s.locks ==> s.locks[k] in s.count)
    && (forall k, k' :: k in s.locks && k' in s.locks && k != k' ==> s.locks[k] != s.locks[k'])
    // a thread that waits or holds does so on the lock the table has for its key
    && (forall t, l :: s.At(t).Uses(l) ==> s.At(t).key in s.locks && s.locks[s.At(t).key] == l)
    // reference counts are exact
    && (forall l :: l in s.count ==> s.count[l] == |s.Users(l)|)
    // a mutex is locked exactly when a thread owns it, and then only one does
    && (forall t, l :: s.At(t).Owns(l) ==> l in s.locked && l in s.count)
    && (forall l :: l in s.locked ==> exists t :: s.At(t).Owns(l))
    && (forall t, t', l :: s.At(t).Owns(l) && s.At(t').Owns(l) ==> t == t')
  }

  lemma StartInv()
    ensures Inv(Start)
  {
  }

  lemma NoUsers(s: State, l: LockId)
    requires forall t :: !s.At(t).Uses(l)
    ensures s.Users(l) == {}
  {
    assert forall t :: t in s.Users(l) ==> s.At(t).Uses(l);
  }

  /** Moving one thread changes the users of a lock by that thread at most. */
  lemma UsersMoved(s: State, s': State, t: Thread, l: LockId)
    requires t in s'.pc && s'.pc == s.pc[t := s'.pc[t]]
    ensures |s'.Users(l)| == |s.Users(l)| + (if s'.At(t).Uses(l) then 1 else 0) - (if s.At(t).Uses(l) then 1 else 0)
  {
    if s'.At(t).Uses(l) {
      assert s'.Users(l) == s.Users(l) + {t};
    } else {
      assert s'.Users(l) == s.Users(l) - {t};
    }
  }

  lemma FastFindKeepsInv(s: State, t: Thread, key: Key)
    requires Inv(s) && Enabled(s, FastFind(t, key))
    ensures Inv(Apply(s, FastFind(t, key)))
  {
    hide State.Users;
    var s' := Apply(s, FastFind(t, key));
    forall l ensures |s'.Users(l)| == |s.Users(l)| + if s'.At(t).Uses(l) then 1 else 0 {
      UsersMoved(s, s', t, l);
    }
    assert forall u :: u != t ==> s'.At(u) == s.At(u);
  }

  lemma SlowFindKeepsInv(s: State, t: Thread, created: LockId)
    requires Inv(s) && Enabled(s, SlowFind(t, created))
    ensures Inv(Apply(s, SlowFind(t, created)))
  {
    hide State.Users;
    var s' := Apply(s, SlowFind(t, created));
    forall l ensures |s'.Users(l)| == |s.Users(l)| + if s'.At(t).Uses(l) then 1 else 0 {
      UsersMoved(s, s', t, l);
    }
    assert forall u :: u != t ==> s'.At(u) == s.At(u);
    assert forall u :: !s.At(u).Uses(created);
    NoUsers(s, created);
  }

  lemma AcquireKeepsInv(s: State, t: Thread)
    requires Inv(s) && Enabled(s, Acquire(t))
    ensures Inv(Apply(s, Acquire(t)))
  {
    hide State.Users;
    var s' := Apply(s, Acquire(t));
    forall l ensures |s'.Users(l)| == |s.Users(l)| {
      UsersMoved(s, s', t, l);
    }
    assert forall u :: u != t ==> s'.At(u) == s.At(u);
    var l := s.At(t).lock;
    assert s.At(t).Uses(l) && s'.At(t).Owns(l);
    forall m | m in s'.locked ensures exists u :: s'.At(u).Owns(m) {
      if m != l {
        var u :| s.At(u).Owns(m);
        assert s'.At(u).Owns(m);
      }
    }
  }

  lemma DoneKeepsInv(s: State, t: Thread)
    requires Inv(s) && Enabled(s, Done(t))
    ensures Inv(Apply(s, Done(t)))
    ensures Apply(s, Done(t)).At(t) == Releasing(s.At(t).key, s.At(t).lock)
  {
    hide State.Users;
    var s' := Apply(s, Done(t));
    var l := s.At(t).lock;
    assert s.At(t).Uses(l) && s.At(t).Owns(l);
    forall m ensures |s'.Users(m)| == |s.Users(m)| - if m == l then 1 else 0 {
      UsersMoved(s, s', t, m);
    }
    assert forall u :: u != t ==> s'.At(u) == s.At(u);
    assert forall m :: s'.At(t).Owns(m) <==> s.At(t).Owns(m);
    forall m | m in s'.locked ensures exists u :: s'.At(u).Owns(m) {
      var u :| s.At(u).Owns(m);
      assert s'.At(u).Owns(m);
    }
  }

  lemma ReleaseKeepsInv(s: State, t: Thread)
    requires Inv(s) && Enabled(s, Release(t))
    ensures Inv(Apply(s, Release(t)))
  {
    hide State.Users;
    var s' := Apply(s, Release(t));
    var l := s.At(t).lock;
    assert s.At(t).Owns(l);
    forall m ensures |s'.Users(m)| == |s.Users(m)| {
      UsersMoved(s, s', t, m);
    }
    assert forall u :: u != t ==> s'.At(u) == s.At(u);
    forall m | m in s'.locked ensures exists u :: s'.At(u).Owns(m) {
      var u :| s.At(u).Owns(m);
      assert s'.At(u).Owns(m);
    }
  }

  lemma CleanKeepsInv(s: State)
    requires Inv(s)
    ensures Inv(Apply(s, Clean))
  {
    var s' := Apply(s, Clean);
    forall t, l | s'.At(t).Uses(l)
      ensures s'.At(t).key in s'.locks && s'.locks[s'.At(t).key] == l
    {
      assert s.At(t).Uses(l) && t in s.Users(l);
    }
    forall l ensures s'.Users(l) == s.Users(l) { }
    forall m | m in s'.locked ensures exists u :: s'.At(u).Owns(m) {
      var u :| s.At(u).Owns(m);
      assert s'.At(u).Owns(m);
    }
    assert forall u :: s'.At(u) == s.At(u);
  }

  lemma StepKeepsInv(s: State, step: Step)
    requires Inv(s) && Enabled(s, step)
    ensures Inv(Apply(s, step))
  {
    hide Inv, Apply;
    match step
    case FastFind(t, key) => FastFindKeepsInv(s, t, key);
    case SlowFind(t, created) => SlowFindKeepsInv(s, t, created);
    case Acquire(t) => AcquireKeepsInv(s, t);
    case Done(t) => DoneKeepsInv(s, t);
    case Release(t) => ReleaseKeepsInv(s, t);
    case Clean => CleanKeepsInv(s);
  }

  lemma {:induction false} RunKeepsInv(states: seq<State>, steps: seq<Step>, i: nat)
    requires IsRun(states, steps) && i < |states|
    ensures Inv(states[i])
  {
    hide Inv, Apply, Enabled;
    if i == 0 {
      StartInv();
    } else {
      RunKeepsInv(states, steps, i - 1);
      assert Enabled(states[i - 1], steps[i - 1]);
      StepKeepsInv(states[i - 1], steps[i - 1]);
    }
  }

  // ------------------------------------------------------------ main results

  /** At most one thread is between the return of Lock(key) and its call of Unlock(key). */
  lemma MutualExclusion(states: seq<State>, steps: seq<Step>, i: nat, t: Thread, t': Thread)
    requires IsRun(states, steps) && i < |states|
    requires states[i].At(t).Holding? && states[i].At(t').Holding?
    requires states[i].At(t).key == states[i].At(t').key
    ensures t == t'
  {
    RunKeepsInv(states, steps, i);
    var s := states[i];
    assert s.At(t).Uses(s.At(t).lock) && s.At(t').Uses(s.At(t').lock);
    assert s.At(t).Owns(s.At(t).lock) && s.At(t').Owns(s.At(t').lock);
  }

  /** While a thread waits for a key or holds it, the table keeps the very lock the thread is on, Clean or not. */
  lemma LockInUseStays(states: seq<State>, steps: seq<Step>, i: nat, t: Thread)
    requires IsRun(states, steps) && i < |states|
    requires states[i].At(t).Waiting? || states[i].At(t).Holding?
    ensures states[i].At(t).key in states[i].locks
    ensures states[i].locks[states[i].At(t).key] == states[i].At(t).lock
  {
    RunKeepsInv(states, steps, i);
    assert states[i].At(t).Uses(states[i].At(t).lock);
  }

  /** Unlock always finds the lock that Lock acquired, and never releases a mutex that is not locked. */
  lemma UnlockReleasesItsLock(states: seq<State>, steps: seq<Step>, i: nat, t: Thread)
    requires IsRun(states, steps) && i < |steps|
    ensures steps[i] == Done(t) ==>
              states[i + 1].At(t) == Releasing(states[i].At(t).key, states[i].At(t).lock)
    ensures steps[i] == Release(t) ==>
              states[i].At(t).lock in states[i].locked && states[i + 1].At(t) == Idle
    ensures !states[i + 1].crashed
  {
    RunKeepsInv(states, steps, i);
    RunKeepsInv(states, steps, i + 1);
    assert Enabled(states[i], steps[i]) && states[i + 1] == Apply(states[i], steps[i]);
    if steps[i] == Done(t) {
      DoneKeepsInv(states[i], t);
    } else if steps[i] == Release(t) {
      assert states[i].At(t).Owns(states[i].At(t).lock);
    }
  }

  /** No deadlock: a thread that waits can acquire, or some other thread can take a step towards releasing. */
  lemma WaitingMeansProgress(states: seq<State>, steps: seq<Step>, i: nat, t: Thread)
    requires IsRun(states, steps) && i < |states|
    requires states[i].At(t).Waiting?
    ensures Enabled(states[i], Acquire(t)) || exists u ::
              u != t && states[i].At(u).Owns(states[i].At(t).lock)
              && (Enabled(states[i], Done(u)) || Enabled(states[i], Release(u)))
  {
    RunKeepsInv(states, steps, i);
    var s := states[i];
    if s.At(t).lock in s.locked {
      var u :| s.At(u).Owns(s.At(t).lock);
      assert u != t;
    }
  }

  /** Nothing leaks: once no thread is inside Lock or Unlock, Clean leaves an empty table. */
  lemma IdleCleanEmpties(states: seq<State>, steps: seq<Step>, i: nat)
    requires IsRun(states, steps) && i < |states|
    requires forall t :: states[i].At(t).Idle?
    ensures Apply(states[i], Clean).locks == map[]
    ensures states[i].locked == {}
  {
    RunKeepsInv(states, steps, i);
    var s := states[i];
    forall l | l in s.count ensures s.count[l] == 0 {
      assert forall t :: !s.At(t).Uses(l);
      NoUsers(s, l);
    }
    assert forall t, l :: !s.At(t).Owns(l);
  }

  // ------------------------------------------------- the critical sections as code

  class InnerLock {
    const id: LockId
    var count: int

    constructor (id: LockId)
      ensures this.id == id && count == 0
    {
      this.id := id;
      count := 0;
    }

    method Add()
      modifies this
      ensures count == old(count) + 1
    {
      count := count + 1;
    }

    method Done()
      modifies this
      ensures count == old(count) - 1
    {
      count := count - 1;
    }
  }

  /** The table with real lock objects; each method is one section under the table's mutex. */
  class KeyLock {
    var locks: map<Key, InnerLock>

    /** The machine's view of this table, when its threads are in pc and its mutexes are as in locked. */
    ghost predicate Shows(s: State)
      reads this, locks.Values
    {
      Describes(s, locks)
    }

    static ghost predicate Describes(s: State, locks: map<Key, InnerLock>)
      reads locks.Values
    {
      && s.locks == (map k | k in locks :: locks[k].id)
      && (forall k :: k in locks ==> locks[k].id in s.count && s.count[locks[k].id] == locks[k].count)
      && (forall k, k' :: k in locks && k' in locks && k != k' ==> locks[k].id != locks[k'].id)
    }

    /** The first half of Lock, under the read lock: FastFind. */
    method Find(key: Key, ghost s: State, ghost t: Thread) returns (found: InnerLock?)
      requires Shows(s) && Enabled(s, FastFind(t, key))
      modifies locks.Values
      ensures Shows(Apply(s, FastFind(t, key)))
      ensures found == if key in locks then locks[key] else null
      ensures found != null ==> found.id == Apply(s, FastFind(t, key)).At(t).lock
    {
      found := null;
      if key in locks {
        found := locks[key];
        found.Add();
      }
    }

    /** The second half of Lock's lookup, under the write lock: SlowFind. */
    method FindOrCreate(key: Key, id: LockId, ghost s: State, ghost t: Thread) returns (found: InnerLock)
      requires Shows(s) && Enabled(s, SlowFind(t, id)) && s.At(t).key == key
      modifies this, locks.Values
      ensures Shows(Apply(s, SlowFind(t, id)))
      ensures key in locks && found == locks[key] && found.id == Apply(s, SlowFind(t, id)).At(t).lock
    {
      if key in locks {
        found := locks[key];
      } else {
        found := new InnerLock(id);
        locks := locks[key := found];
      }
      found.Add();
    }

    /** The lookup in Unlock: Done. */
    method FindAndDone(key: Key, ghost s: State, ghost t: Thread) returns (found: InnerLock?)
      requires Shows(s) && Enabled(s, Done(t)) && s.At(t).key == key
      modifies locks.Values
      ensures Shows(Apply(s, Done(t)))
      ensures found == if key in locks then locks[key] else null
    {
      found := null;
      if key in locks {
        found := locks[key];
        found.Done();
      }
    }

    method CleanUp(ghost s: State)
      requires Shows(s)
      modifies this
      ensures Shows(Apply(s, Clean))
    {
      hide Describes, Apply;
      var todo := locks.Keys;
      ghost var all := locks;
      while todo != {}
        invariant todo <= all.Keys
        invariant Swept(all, todo)
        decreases |todo|
      {
        var k :| k in todo;
        if locks[k].count == 0 {
          locks := locks - {k};
        }
        todo := todo - {k};
      }
      SweptShows(s, all);
    }

    /** Of the locks in all, those that are not in todo and not in use have been taken out. */
    ghost predicate Swept(all: map<Key, InnerLock>, todo: set<Key>)
      reads this, all.Values
    {
      && (forall k :: k in locks <==> k in all && (k in todo || all[k].count != 0))
      && (forall k :: k in locks ==> locks[k] == all[k])
    }

    lemma SweptShows(s: State, all: map<Key, InnerLock>)
      requires Describes(s, all) && Swept(all, {})
      ensures Shows(Apply(s, Clean))
    {
      var t := Apply(s, Clean);
      assert t.locks == map k | k in locks :: locks[k].id;
    }
  }
}
