/** The retry queue (retry_queue.go): messages in flight, by key in a map and by due time in a heap. */
module RetryQueues {
  import opened Wrappers
  import opened Heaps
  import opened InFlightPqueues

  class RetryQueue {
    const inFlightPQ: InFlightPqueue
    var inFlightMessages: map<string, Message>

    /** Map and heap hold the same messages, except for some that were just shifted out of the heap. */
    ghost predicate Consistent(shifted: set<Message>)
      reads this, inFlightPQ, inFlightPQ.Items()
    {
      && inFlightPQ.Valid() && IsHeap(inFlightPQ.slots)
      && (forall k :: k in inFlightMessages ==> inFlightMessages[k].key == k)
      && inFlightMessages.Values == inFlightPQ.Items() + shifted
      && inFlightPQ.Items() !! shifted
    }

    constructor ()
      ensures Consistent({}) && inFlightMessages == map[] && fresh(inFlightPQ) && inFlightPQ.slots == []
    {
      inFlightPQ := new InFlightPqueue(1024);
      inFlightMessages := map[];
    }

    // ---------------------------------------------- one critical section each

    method PushInFlightMessage(msg: Message)
      modifies this
      ensures inFlightMessages ==
              if msg.key in old(inFlightMessages) then old(inFlightMessages)
              else old(inFlightMessages)[msg.key := msg]
    {
      if msg.key in inFlightMessages {
        return;
      }
      inFlightMessages := inFlightMessages[msg.key := msg];
    }

    method PopInFlightMessage(key: string) returns (r: Option<Message>)
      modifies this
      ensures r == if key in old(inFlightMessages) then Some(old(inFlightMessages)[key]) else None
      ensures inFlightMessages == old(inFlightMessages) - {key}
    {
      if key !in inFlightMessages {
        return None;
      }
      r := Some(inFlightMessages[key]);
      inFlightMessages := inFlightMessages - {key};
    }

    /**
     * Takes out whatever is in the slot that the message's index names, unless the index says that the message has
     * already left the heap. An index beyond the heap panics.
     */
    method RemoveFromInFlightPQ(msg: Message) returns (panicked: bool)
      requires inFlightPQ.Valid() && IsHeap(inFlightPQ.slots) && msg.index >= -1
      modifies inFlightPQ, inFlightPQ.Items()`index
      ensures inFlightPQ.Valid() && IsHeap(inFlightPQ.slots)
      ensures panicked <==> old(msg.index) >= |old(inFlightPQ.pq)|
      ensures panicked || old(msg.index) == -1 ==>
        unchanged(inFlightPQ) && forall m :: m in inFlightPQ.Items() ==> m.index == old(m.index)
      ensures 0 <= old(msg.index) < |old(inFlightPQ.pq)| ==> var x := old(inFlightPQ.pq[msg.index]);
        && Removed(old(inFlightPQ.slots), inFlightPQ.slots, old(inFlightPQ.slots[msg.index]))
        && inFlightPQ.Items() == old(inFlightPQ.Items()) - {x} && x.index == -1
    {
      hide IsHeap;
      if msg.index == -1 {
        return false;
      }
      if msg.index >= |inFlightPQ.pq| {
        return true;
      }
      var x := inFlightPQ.Remove(msg.index);
      return false;
    }

    /** A message in the heap is the one that its index names, so it is taken out itself. */
    lemma IndexNamesItself(msg: Message)
      requires inFlightPQ.Valid() && msg in inFlightPQ.Items()
      ensures 0 <= msg.index < |inFlightPQ.pq| && inFlightPQ.pq[msg.index] == msg
      ensures inFlightPQ.slots[msg.index] == Slot(msg.id, msg.pri)
    {
    }

  // ------------------------------------------------------ whole operations

    /** Registers a message; one whose key is taken goes into the heap alone. */
    method StartInFlightTimeout(msg: Message, pri: int)
      requires Consistent({}) && msg !in inFlightPQ.Items()
      modifies this, msg, inFlightPQ, inFlightPQ.Items()`index
      ensures inFlightPQ.Valid() && IsHeap(inFlightPQ.slots) && msg.pri == pri
      ensures inFlightPQ.Items() == old(inFlightPQ.Items()) + {msg}
      ensures inFlightMessages ==
              if msg.key in old(inFlightMessages) then old(inFlightMessages)
              else old(inFlightMessages)[msg.key := msg]
      ensures msg.key !in old(inFlightMessages) ==> Consistent({})
    {
      hide IsHeap;
      msg.pri := pri;
      PushInFlightMessage(msg);
      inFlightPQ.Push(msg);
      if msg.key !in old(inFlightMessages) {
        ValuesOfUpdate(old(inFlightMessages), msg.key, msg);
      }
    }

    /** finishMessage: an ack, or the timer after it shifted the message; an error if the key is not in flight. */
    method FinishMessage(key: string, ghost shifted: set<Message>) returns (err: bool)
      requires Consistent(shifted) && forall m :: m in shifted ==> m.index == -1
      modifies this, inFlightPQ, inFlightPQ.Items()`index
      ensures err <==> key !in old(inFlightMessages)
      ensures inFlightMessages == old(inFlightMessages) - {key}
      ensures err ==> Consistent(shifted) && inFlightPQ.Items() == old(inFlightPQ.Items())
      ensures !err ==> var msg := old(inFlightMessages)[key];
        && Consistent(shifted - {msg})
        && inFlightPQ.Items() == old(inFlightPQ.Items()) - {msg} && msg.index == -1
    {
      hide IsHeap;
      var r := PopInFlightMessage(key);
      if r.None? {
        assert inFlightMessages == old(inFlightMessages);
        return true;
      }
      assert old(inFlightMessages)[key] in old(inFlightMessages).Values;
      if r.value in inFlightPQ.Items() {
        IndexNamesItself(r.value);
      }
      var panicked := RemoveFromInFlightPQ(r.value);
      ValuesOfRemoval(old(inFlightMessages), key);
      return false;
    }

    /** One round of the timer: shift the first message if it is due, and take its registration. */
    method ShiftAndFinish(t: int) returns (msg: Message?)
      requires Consistent({})
      modifies this, inFlightPQ, inFlightPQ.Items()`index
      ensures Consistent({})
      ensures msg == null ==> inFlightPQ.Items() == old(inFlightPQ.Items())
      ensures msg == null ==> forall m :: m in inFlightPQ.Items() ==> m.pri > t
      ensures msg != null ==> msg in old(inFlightPQ.Items()) && msg.pri <= t && msg.index == -1
      ensures msg != null ==> inFlightPQ.Items() == old(inFlightPQ.Items()) - {msg}
      ensures msg != null ==> forall m :: m in inFlightPQ.Items() ==> msg.pri <= m.pri
    {
      hide IsHeap;
      var left;
      msg, left := inFlightPQ.PeekAndShift(t);
      if msg == null {
        return;
      }
      assert msg in inFlightMessages.Values;
      var err := FinishMessage(msg.key, {msg});
      assert !err;
    }

    /**
     * One timer scan without interference: it hands over exactly the messages that are due, each once and in the
     * order in which they are due, and everything else stays in both structures.
     */
    method ProcessInFlightQueue(t: int) returns (handed: seq<Message>)
      requires Consistent({})
      modifies this, inFlightPQ, inFlightPQ.Items()`index
      ensures Consistent({})
      ensures (set m | m in handed) == set m | m in old(inFlightPQ.Items()) && m.pri <= t
      ensures inFlightPQ.Items() == set m | m in old(inFlightPQ.Items()) && m.pri > t
      ensures forall i, j :: 0 <= i < j < |handed| ==> handed[i] != handed[j] && handed[i].pri <= handed[j].pri
      ensures forall m :: m in handed ==> m.index == -1
    {
      hide Consistent;
      handed := [];
      while true
        invariant Consistent({})
        invariant (set m | m in handed) !! inFlightPQ.Items()
        invariant (set m | m in handed) + inFlightPQ.Items() == old(inFlightPQ.Items())
        invariant forall m :: m in handed ==> m.pri <= t && m.index == -1
        invariant forall m, n :: m in handed && n in inFlightPQ.Items() ==> m.pri <= n.pri
        invariant forall i, j :: 0 <= i < j < |handed| ==> handed[i] != handed[j] && handed[i].pri <= handed[j].pri
        decreases inFlightPQ.Items()
      {
        var msg := ShiftAndFinish(t);
        if msg == null {
          break;
        }
        handed := handed + [msg];
      }
    }
  }

  lemma ValuesOfUpdate(m: map<string, Message>, k: string, v: Message)
    requires k !in m
    ensures m[k := v].Values == m.Values + {v}
  {
    var r := m[k := v];
    forall x | x in m.Values + {v}
      ensures x in r.Values
    {
      if x in m.Values {
        var j :| j in m && m[j] == x;
        assert j in r && r[j] == x;
      } else {
        assert r[k] == x;
      }
    }
  }

  lemma ValuesOfRemoval(m: map<string, Message>, k: string)
    requires k in m && forall j :: j in m ==> m[j].key == j
    ensures (m - {k}).Values == m.Values - {m[k]}
  {
    var r := m - {k};
    forall x | x in m.Values - {m[k]}
      ensures x in r.Values
    {
      var j :| j in m && m[j] == x;
      assert j in r && r[j] == x;
    }
  }
}
