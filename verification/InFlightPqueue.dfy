/** The in-flight priority queue (in_flight_pqueue.go): a binary heap of messages that know their slot. */
module InFlightPqueues {
  import opened Heaps

  class Message {
    const id: nat
    const key: string
    var index: int
    var pri: int
    var retryCount: int

    constructor (id: nat, key: string)
      ensures this.id == id && this.key == key && index == 0 && retryCount == 0
    {
      this.id := id;
      this.key := key;
      index, pri, retryCount := 0, 0, 0;
    }
  }

  class InFlightPqueue {
    var pq: seq<Message>
    var capacity: nat
    ghost var slots: seq<Slot>   // what the queue holds, as values

    ghost function Items(): set<Message>
      reads this
    {
      set m | m in pq
    }

    /** Every slot holds the message that knows it, with the priority it was pushed with. */
    ghost predicate Valid()
      reads this, Items()
    {
      && |slots| == |pq| <= capacity && capacity > 0
      && forall i :: 0 <= i < |pq| ==> pq[i].index == i && slots[i] == Slot(pq[i].id, pq[i].pri)
    }

    constructor (capacity: nat)
      requires capacity > 0
      ensures Valid() && pq == [] && slots == [] && this.capacity == capacity
    {
      pq, slots, this.capacity := [], [], capacity;
    }

    method Swap(i: nat, j: nat)
      requires Valid() && i < |pq| && j < |pq|
      modifies this`pq, this`slots, Items()`index
      ensures Valid()
      ensures pq == Swapped(old(pq), i, j) && slots == Swapped(old(slots), i, j)
      ensures Items() == old(Items()) && multiset(slots) == old(multiset(slots))
    {
      SwappedIsPermutation(slots, i, j);
      SwappedIsPermutation(pq, i, j);
      pq := pq[i := pq[j]][j := pq[i]];
      slots := Swapped(slots, i, j);
      pq[i].index := i;
      pq[j].index := j;
    }

    /** The slots from n on, and everything about the queue but its order, are as in another state of it. */
    ghost predicate Reorders(pq0: seq<Message>, slots0: seq<Slot>, items0: set<Message>, n: nat)
      reads this
    {
      && |pq| == |pq0| && |slots| == |slots0| == |pq|
      && Items() == items0
      && multiset(slots) == multiset(slots0)
      && forall k :: n <= k < |pq| ==> pq[k] == pq0[k] && slots[k] == slots0[k]
    }

    method Up(start: nat, ghost n: nat)
      requires Valid() && start < n <= |pq| && HeapButUp(slots, n, start)
      modifies this`pq, this`slots, Items()`index
      ensures Valid() && Reorders(old(pq), old(slots), old(Items()), n) && HeapUpTo(slots, n)
    {
      hide HeapButUp, HeapUpTo, EdgeOk, Swapped;
      var j: nat := start;
      while true
        invariant j < n <= |pq| && Valid() && Reorders(old(pq), old(slots), old(Items()), n)
        invariant HeapButUp(slots, n, j)
        decreases j
      {
        var i := Parent(j);
        if i == j || pq[j].pri >= pq[i].pri {
          SiftUpEnd(slots, n, j);
          break;
        }
        SiftUpStep(slots, n, j);
        SwappedIsPermutation(slots, i, j);
        SwappedIsPermutation(pq, i, j);
        Swap(i, j);
        j := i;
      }
    }

    /** The child of i with the smaller priority, the right one when they are equal. */
    method SmallerChild(i: nat, n: nat) returns (j: nat)
      requires Valid() && 2 * i + 1 < n <= |pq|
      ensures i < j < n && Parent(j) == i
      ensures forall k :: 0 < k < n && Parent(k) == i ==> slots[j].pri <= slots[k].pri
    {
      hide Parent;
      Children(i);
      var j1 := 2 * i + 1;
      j := j1;
      var j2 := j1 + 1;
      if j2 < n && pq[j1].pri >= pq[j2].pri {
        j := j2;
      }
    }

    method Down(start: nat, n: nat)
      requires Valid() && start < n <= |pq| && HeapButDown(slots, n, start)
      modifies this`pq, this`slots, Items()`index
      ensures Valid() && Reorders(old(pq), old(slots), old(Items()), n) && HeapButUp(slots, n, start)
      ensures start == 0 ==> HeapUpTo(slots, n)
    {
      hide HeapButUp, HeapUpTo, EdgeOk, Swapped, HeapButDown, Parent;
      var i: nat := start;
      while true
        invariant i < n <= |pq| && Valid() && Reorders(old(pq), old(slots), old(Items()), n)
        invariant HeapButDown(slots, n, i) && (i == start || EdgeOk(slots, i))
        decreases n - i
      {
        var j1 := 2 * i + 1;
        if j1 >= n {
          Children(i);
          SiftDownEnd(slots, n, start, i);
          break;
        }
        var j := SmallerChild(i, n);
        if pq[j].pri >= pq[i].pri {
          SiftDownEnd(slots, n, start, i);
          break;
        }
        SiftDownStep(slots, n, i, j);
        SwappedIsPermutation(slots, i, j);
        SwappedIsPermutation(pq, i, j);
        Swap(i, j);
        i := j;
      }
    }

    /** Adds a message; the table doubles when it is full. */
    method Push(x: Message)
      requires Valid() && IsHeap(slots) && x !in pq
      modifies this, Items()`index, x`index
      ensures Valid() && Pushed(old(slots), slots, Slot(x.id, x.pri))
      ensures Items() == old(Items()) + {x}
      ensures capacity == if |old(pq)| + 1 > old(capacity) then old(capacity) * 2 else old(capacity)
    {
      hide HeapButUp, HeapUpTo, IsHeap;
      var n := |pq|;
      if n + 1 > capacity {
        capacity := capacity * 2;
      }
      AddedAtEnd(slots, Slot(x.id, x.pri));
      pq := pq + [x];
      slots := slots + [Slot(x.id, x.pri)];
      x.index := n;
      Up(n, n + 1);
      AllSlots(slots);
    }

    /** Cuts off the last slot. */
    method DropLast(ghost h0: seq<Slot>) returns (x: Message)
      requires Valid() && |pq| > 0 && HeapUpTo(slots, |pq| - 1) && multiset(slots) == multiset(h0)
      modifies this`pq, this`slots, Items()`index
      ensures Valid() && x == old(pq)[|old(pq)| - 1] && x.index == -1
      ensures Removed(h0, slots, Slot(x.id, x.pri))
      ensures Items() == old(Items()) - {x}
    {
      hide HeapUpTo, IsHeap;
      var n := |pq|;
      x := pq[n - 1];
      assert Slot(x.id, x.pri) == slots[n - 1] && slots[n - 1] in multiset(h0);
      FirstSlots(slots, n - 1);
      assert forall i :: 0 <= i < n - 1 ==> pq[i] != x;
      x.index := -1;
      pq, slots := pq[..n - 1], slots[..n - 1];
    }

    /** Swaps slot i with the last one; in front of that one, only slot i may now be out of order. */
    method SwapWithLast(i: nat)
      requires Valid() && IsHeap(slots) && i < |pq|
      modifies this`pq, this`slots, Items()`index
      ensures Valid() && |pq| == |old(pq)| && Items() == old(Items()) && multiset(slots) == multiset(old(slots))
      ensures pq[|pq| - 1] == old(pq)[i]
      ensures if i < |pq| - 1 then HeapButDown(slots, |pq| - 1, i) else HeapUpTo(slots, |pq| - 1)
    {
      hide HeapUpTo, IsHeap, HeapButDown, Swapped;
      SwappedEnds(pq, i);
      if i < |pq| - 1 {
        ReplacedByLast(slots, i);
      } else {
        AllButLast(slots);
        SwappedSelf(slots, i);
      }
      Swap(i, |pq| - 1);
    }

    /** Sifts the message in slot i down and up to where it belongs. */
    method Settle(i: nat, n: nat)
      requires Valid() && i < n <= |pq| && HeapButDown(slots, n, i)
      modifies this`pq, this`slots, Items()`index
      ensures Valid() && Reorders(old(pq), old(slots), old(Items()), n) && HeapUpTo(slots, n)
    {
      hide HeapUpTo, HeapButUp, HeapButDown;
      Down(i, n);
      Up(i, n);
    }

    /** Takes out the message in slot i. */
    method Remove(i: nat) returns (x: Message)
      requires Valid() && IsHeap(slots) && i < |pq|
      modifies this, Items()`index
      ensures Valid() && x == old(pq)[i] && x.index == -1
      ensures Removed(old(slots), slots, Slot(x.id, x.pri))
      ensures Items() == old(Items()) - {x}
    {
      hide HeapUpTo, IsHeap, HeapButUp, HeapButDown, Swapped;
      var n := |pq|;
      if n - 1 != i {
        SwapWithLast(i);
        Settle(i, n - 1);
      } else {
        AllButLast(slots);
      }
      x := DropLast(old(slots));
    }

    /** Takes out the message that is due first; the table halves when it is mostly empty. */
    method Pop() returns (x: Message)
      requires Valid() && IsHeap(slots) && |pq| > 0
      modifies this, Items()`index
      ensures Valid() && x == old(pq)[0] && x.index == -1
      ensures Removed(old(slots), slots, Slot(x.id, x.pri))
      ensures Items() == old(Items()) - {x}
      ensures capacity == if |old(pq)| < old(capacity) / 2 && old(capacity) > 25
        then old(capacity) / 2 else old(capacity)
    {
      hide HeapUpTo, IsHeap, HeapButUp, HeapButDown, Swapped;
      var n, c := |pq|, capacity;
      SwapWithLast(0);
      if n > 1 {
        Down(0, n - 1);
      }
      if n < c / 2 && c > 25 {
        capacity := c / 2;
      }
      x := DropLast(old(slots));
    }

    lemma RootIsFirst()
      requires Valid() && IsHeap(slots)
      ensures forall m :: m in Items() ==> |pq| > 0 && pq[0].pri <= m.pri
    {
      hide IsHeap;
      forall m | m in Items()
        ensures |pq| > 0 && pq[0].pri <= m.pri
      {
        var k :| 0 <= k < |pq| && pq[k] == m;
        RootIsMinimal(slots, k);
        assert slots[0] == Slot(pq[0].id, pq[0].pri) && slots[k] == Slot(m.id, m.pri);
      }
    }

    /** Takes out the first message if it is due by max; otherwise says how much later it is due. */
    method PeekAndShift(max: int) returns (x: Message?, left: int)
      requires Valid() && IsHeap(slots)
      modifies this, Items()`index
      ensures Valid() && IsHeap(slots)
      ensures x == null ==> pq == old(pq) && slots == old(slots) && (forall m :: m in Items() ==> m.pri > max)
      ensures x == null ==> left == if pq == [] then 0 else pq[0].pri - max
      ensures x != null <==> |old(pq)| > 0 && old(slots)[0].pri <= max
      ensures x != null ==> x == old(pq)[0] && x in old(Items()) && x.index == -1 && x.pri <= max && left == 0
      ensures x != null ==> Removed(old(slots), slots, Slot(x.id, x.pri)) && Items() == old(Items()) - {x}
      ensures x != null ==> forall m :: m in Items() ==> x.pri <= m.pri
    {
      hide IsHeap;
      RootIsFirst();
      if |pq| == 0 {
        return null, 0;
      }
      var first := pq[0];
      if first.pri > max {
        return null, first.pri - max;
      }
      var popped := Pop();
      return first, 0;
    }
  }

  lemma AllSlots(h: seq<Slot>)
    requires HeapUpTo(h, |h|)
    ensures IsHeap(h)
  {
  }

  lemma AllButLast(h: seq<Slot>)
    requires IsHeap(h) && |h| > 0
    ensures HeapUpTo(h, |h| - 1)
  {
  }

  lemma SwappedSelf<T>(s: seq<T>, i: nat)
    requires i < |s|
    ensures Swapped(s, i, i) == s
  {
  }

  lemma SwappedEnds<T>(s: seq<T>, i: nat)
    requires i < |s|
    ensures Swapped(s, i, |s| - 1)[|s| - 1] == s[i]
  {
  }
}
