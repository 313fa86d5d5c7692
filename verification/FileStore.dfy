/** The range loads of the message store, each a window of a topic's list (filestore_msg.go). */
module FileStore {
  import opened Bytes
  import opened Wrappers
  import opened Record
  import opened LogFile
  import opened Topics

  /** Messages lo to hi, both included, in order; nothing when the range is empty or not stored. */
  function Range(log: seq<bytes>, lo: int, hi: int): (ms: seq<Message>)
    ensures |ms| == if 1 <= lo <= hi <= |log| then hi - lo + 1 else 0
    ensures forall i :: 0 <= i < |ms| ==> ms[i] == Message(lo + i, log[lo + i - 1])
  {
    if 1 <= lo <= hi <= |log| then Messages(0, log)[lo - 1..hi] else []
  }

  /** Which messages a callback of a range load keeps. */
  datatype Cut = After(end: nat) | Before(end: nat)
  {
    predicate Drops(seqNo: nat) {
      end != 0 && match this
        case After(_) => seqNo <= end
        case Before(_) => seqNo >= end
    }
  }

  /** What a cut leaves of messages lo to hi. */
  function Kept(log: seq<bytes>, cut: Cut, lo: nat, hi: int): seq<Message> {
    match cut
    case After(end) => Range(log, Max(lo, end + 1), hi)
    case Before(end) => Range(log, lo, if end == 0 then hi else Min(hi, end - 1))
  }

  lemma RangeStep(log: seq<bytes>, lo: nat, hi: nat)
    requires 1 <= lo <= hi <= |log|
    ensures Range(log, lo, hi) == Range(log, lo, hi - 1) + [Message(hi, log[hi - 1])]
  {
    hide Messages, Range;
  }

  lemma KeptStep(log: seq<bytes>, cut: Cut, lo: nat, hi: nat)
    requires 1 <= lo <= hi <= |log|
    ensures Kept(log, cut, lo, hi) ==
            Kept(log, cut, lo, hi - 1) + if cut.Drops(hi) then [] else [Message(hi, log[hi - 1])]
  {
    hide Range;
    match cut {
      case After(end) => if end < hi { RangeStep(log, Max(lo, end + 1), hi); }
      case Before(end) => if end == 0 || hi < end { RangeStep(log, lo, hi); }
    }
  }

  /** Runs the callback over the messages read: it skips the ones that the cut drops. */
  method Collect(read: seq<Message>, cut: Cut, ghost log: seq<bytes>, ghost lo: nat) returns (messages: seq<Message>)
    requires 1 <= lo && lo + |read| <= |log| + 1 && read == Range(log, lo, lo + |read| - 1)
    ensures messages == Kept(log, cut, lo, lo + |read| - 1)
  {
    hide Messages, Range, Kept;
    NothingKept(log, cut, lo);
    messages := [];
    for i := 0 to |read|
      invariant messages == Kept(log, cut, lo, lo + i - 1)
    {
      KeptStep(log, cut, lo, lo + i);
      if !cut.Drops(read[i].seqNo) {
        messages := messages + [read[i]];
      }
    }
  }

  lemma NothingKept(log: seq<bytes>, cut: Cut, lo: nat)
    requires lo >= 1
    ensures Kept(log, cut, lo, lo - 1) == []
  {
    hide Messages;
  }

  /** What is read from seqNo on is the range that starts there. */
  lemma SliceIsRange(log: seq<bytes>, seqNo: nat, limit: nat)
    ensures var ms, lo := LogSlice(log, seqNo, limit), Max(seqNo, 1);
      && ms == Range(log, lo, Min(lo + limit - 1, |log|))
      && (lo <= |log| + 1 ==> lo + |ms| <= |log| + 1 && ms == Range(log, lo, lo + |ms| - 1))
      && (lo > |log| + 1 ==> ms == [])
  {
    hide Messages;
  }

  /** readLastMessages: the last limit messages, or all of them. */
  method ReadLastMessages(tp: Topic, limit: nat) returns (out: seq<Message>, err: bool)
    requires tp.Valid()
    ensures out == Range(tp.log, Max(|tp.log| - limit, 0) + 1, |tp.log|)
    ensures err <==> tp.Stale()
  {
    hide Messages, Topic.Holds, LogSlice, Range, Topic.Stale;
    var last := tp.lastMsgSeq;
    var actLimit, actMessageSeq := limit, 0;
    if last < limit {
      actLimit := last + 1;
    } else {
      actMessageSeq := (last - limit + 1) % TWO32;
    }
    SliceIsRange(tp.log, actMessageSeq, actLimit);
    if tp.log != [] { tp.StaleIsEmpty(); }
    out, err := tp.ReadMessages(actMessageSeq, actLimit);
  }

  method LoadLastMsgs(tp: Topic, limit: nat) returns (r: Option<seq<Message>>)
    requires tp.Valid()
    ensures r == if tp.Stale() then None
                 else Some(Range(tp.log, Max(|tp.log| - limit, 0) + 1, |tp.log|))
  {
    var out, err := ReadLastMessages(tp, limit);
    return if err then None else Some(out);
  }

  method LoadLastMsgsWithEnd(tp: Topic, end: uint32, limit: nat) returns (r: Option<seq<Message>>)
    requires tp.Valid()
    ensures r == if tp.Stale() then None
                 else Some(Range(tp.log, Max(Max(|tp.log| - limit, 0), end) + 1, |tp.log|))
  {
    hide Messages;
    var out, err := ReadLastMessages(tp, limit);
    if err {
      return None;
    }
    var messages := Collect(out, After(end), tp.log, Max(|tp.log| - limit, 0) + 1);
    return Some(messages);
  }

  /** What a range load reads, and what its callback keeps of it. */
  method ReadAfter(tp: Topic, from: uint32, limit: nat, end: uint32) returns (messages: seq<Message>, err: bool)
    requires tp.Valid()
    ensures err <==> tp.Stale() && (from != 0 || limit > 0)
    ensures messages == Range(tp.log, Max(Max(from, 1), end + 1), Min(Max(from, 1) + limit - 1, |tp.log|))
  {
    hide Messages, LogSlice, Kept, Range;
    messages := [];
    var out;
    SliceIsRange(tp.log, from, limit);
    out, err := tp.ReadMessages(from, limit);
    if out == [] {
      SmallerIsEmpty(tp.log, Max(from, 1), Max(Max(from, 1), end + 1), Min(Max(from, 1) + limit - 1, |tp.log|));
    } else {
      messages := Collect(out, After(end), tp.log, Max(from, 1));
      KeptAfter(tp.log, end, Max(from, 1), Min(Max(from, 1) + limit - 1, |tp.log|), out);
    }
  }

  lemma SmallerIsEmpty(log: seq<bytes>, lo: nat, higher: nat, hi: int)
    requires 1 <= lo <= higher && hi <= |log| && Range(log, lo, hi) == []
    ensures Range(log, higher, hi) == []
  {
    hide Messages;
  }

  lemma KeptAfter(log: seq<bytes>, end: nat, lo: nat, hi: int, out: seq<Message>)
    requires 1 <= lo && out == Range(log, lo, hi) != []
    ensures Kept(log, After(end), lo, lo + |out| - 1) == Range(log, Max(lo, end + 1), hi)
  {
    hide Messages;
  }

  /**
   * Every stored message above end and above start - limit, up to start. A limit of 2^32 or more is first cut to
   * its low 32 bits; when start is not below those, nothing bounds the load from above.
   */
  method LoadPrevRangeMsgs(tp: Topic, start: uint32, end: uint32, limit: nat)
    returns (messages: seq<Message>, err: bool)
    requires tp.Valid()
    ensures start == 0 ==> err && messages == []
    ensures start > 0 ==> (err <==> tp.Stale() && (limit > 0 || start + 1 < TWO32))
    ensures start > 0 && (limit < TWO32 || start < limit % TWO32) ==>
      messages == Range(tp.log, Max(Max(start - limit, 0), end) + 1, Min(start, |tp.log|))
    ensures start > 0 && limit >= TWO32 && start >= limit % TWO32 ==>
      messages == Range(tp.log, Max(Max((start - limit % TWO32 + 1) % TWO32, 1), end + 1), |tp.log|)
  {
    hide Messages, Range, Topic.Holds, PrevBounds;
    if start == 0 {
      return [], true;
    }
    var actLimit, actStart: uint32 := limit, 0;
    if start < limit % TWO32 {
      actLimit := start;
    } else {
      actStart := (start - limit % TWO32 + 1) % TWO32;
    }
    BoundsAre(start, limit, actStart, actLimit);
    messages, err := ReadAfter(tp, actStart, actLimit, end);
    if limit < TWO32 || start < limit % TWO32 {
      PrevWindow(tp.log, start, end, limit, actStart, actLimit);
    } else {
      PrevUnbounded(tp.log, start, end, limit, actStart, actLimit);
    }
  }

  /** The bounds that LoadPrevRangeMsgs computes. */
  ghost predicate PrevBounds(start: uint32, limit: nat, actStart: uint32, actLimit: nat) {
    && start > 0
    && if start < limit % TWO32 then actStart == 0 && actLimit == start
       else actStart == (start - limit % TWO32 + 1) % TWO32 && actLimit == limit
  }

  lemma BoundsAre(start: uint32, limit: nat, actStart: uint32, actLimit: nat)
    requires start > 0
    requires if start < limit % TWO32 then actStart == 0 && actLimit == start
      else actStart == (start - limit % TWO32 + 1) % TWO32 && actLimit == limit
    ensures PrevBounds(start, limit, actStart, actLimit)
    ensures actStart != 0 || actLimit > 0 <==> limit > 0 || start + 1 < TWO32
  {
    if limit == 0 {
      RemainderIsUnique(0, TWO32, 0, 0);
    }
  }

  lemma PrevWindow(log: seq<bytes>, start: uint32, end: uint32, limit: nat, actStart: uint32, actLimit: nat)
    requires PrevBounds(start, limit, actStart, actLimit) && (limit < TWO32 || start < limit % TWO32)
    ensures Range(log, Max(Max(actStart, 1), end + 1), Min(Max(actStart, 1) + actLimit - 1, |log|))
         == Range(log, Max(Max(start - limit, 0), end) + 1, Min(start, |log|))
  {
    hide Range;
    if limit < TWO32 {
      RemainderIsUnique(limit, TWO32, 0, limit);
      if limit == 0 {
        NothingBelow(log, Max(Max(actStart, 1), end + 1), Min(Max(actStart, 1) - 1, |log|));
        NothingBelow(log, Max(start, end) + 1, Min(start, |log|));
      } else if start >= limit {
        RemainderIsUnique(start - limit + 1, TWO32, 0, start - limit + 1);
      }
    }
  }

  lemma NothingBelow(log: seq<bytes>, lo: int, hi: int)
    requires hi < lo
    ensures Range(log, lo, hi) == []
  {
  }

  lemma PrevUnbounded(log: seq<bytes>, start: uint32, end: uint32, limit: nat, actStart: uint32, actLimit: nat)
    requires PrevBounds(start, limit, actStart, actLimit) && limit >= TWO32 && start >= limit % TWO32
    requires |log| < TWO32
    ensures Range(log, Max(Max(actStart, 1), end + 1), Min(Max(actStart, 1) + actLimit - 1, |log|))
         == Range(log, Max(Max((start - limit % TWO32 + 1) % TWO32, 1), end + 1), |log|)
  {
    hide Messages, Range;
  }

  /** Up to limit messages from start on, cut before end unless that is zero. */
  method LoadNextRangeMsgs(tp: Topic, start: uint32, end: uint32, limit: nat)
    returns (messages: seq<Message>, err: bool)
    requires tp.Valid()
    ensures err <==> tp.Stale() && (start != 0 || limit > 0)
    ensures var first := Max(start, 1);
      var last := Min(first + limit - 1, |tp.log|);
      messages == Range(tp.log, first, if end == 0 then last else Min(last, end - 1))
  {
    hide Messages;
    messages := [];
    var out;
    SliceIsRange(tp.log, start, limit);
    out, err := tp.ReadMessages(start, limit);
    if out != [] {
      messages := Collect(out, Before(end), tp.log, Max(start, 1));
    }
  }
}
