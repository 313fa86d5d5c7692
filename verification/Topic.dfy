/** A topic: one append-only list of messages kept in consecutive segments (topic.go, filestore_msg.go). */
module Topics {
  import opened Bytes
  import opened Wrappers
  import opened Record
  import opened LogFile
  import opened SegmentIndex
  import opened Recovery
  import opened Segments

  /** What readMessages promises: from message max(seqNo, 1) on, at most limit messages of the whole log. */
  function LogSlice(log: seq<bytes>, seqNo: nat, limit: nat): (ms: seq<Message>)
    ensures |ms| == if Max(seqNo, 1) <= |log| then Min(limit, |log| + 1 - Max(seqNo, 1)) else 0
    ensures forall i :: 0 <= i < |ms| ==>
      ms[i] == Message(Max(seqNo, 1) + i, log[Max(seqNo, 1) + i - 1])
  {
    var first := Max(seqNo, 1) - 1;
    if first <= |log| then Window(0, log, first, limit) else []
  }

  /** Part of a log, read as a segment numbered from its base, holds the same messages. */
  lemma MessagesOfPart(log: seq<bytes>, from: nat, to: nat)
    requires from <= to <= |log|
    ensures Messages(from, log[from..to]) == Messages(0, log)[from..to]
  {
  }

  ghost predicate StrictlyIncreasing(bases: seq<uint32>) {
    forall i, j :: 0 <= i < j < |bases| ==> bases[i] < bases[j]
  }

  /** The number of the last message of segment i. */
  function SegmentEnd(bases: seq<uint32>, total: nat, i: nat): nat
    requires i < |bases|
  {
    if i + 1 < |bases| then bases[i + 1] else total
  }

  /** Where a batch was put: the bytes of records, and of index entries, that the segment had before it. */
  datatype Spot = Spot(position: nat, indexed: nat)

  /** The segment was full: in bytes, or its index table of 2 MiB was. */
  predicate IsOver(spot: Spot, maxBytes: nat) {
    spot.position > maxBytes || spot.indexed >= 2_097_152
  }

  predicate RolledAt(spots: seq<Spot>, active: bool, maxBytes: nat) {
    && (forall j :: 0 <= j < |spots| - 1 ==> !IsOver(spots[j], maxBytes))
    && (active && spots != [] ==> !IsOver(spots[|spots| - 1], maxBytes))
    && (!active ==> spots != [] && IsOver(spots[|spots| - 1], maxBytes))
  }

  /** The spots after one more batch for the active segment. */
  function SpotsAfter(spots: seq<seq<Spot>>, spot: Spot, rolls: bool): seq<seq<Spot>>
  {
    if spots == [] then [] else
    var last := |spots| - 1;
    spots[..last] + [spots[last] + [spot]] + if rolls then [[]] else []
  }

  predicate AllRolled(spots: seq<seq<Spot>>, maxBytes: nat) {
    forall i :: 0 <= i < |spots| ==> RolledAt(spots[i], i + 1 == |spots|, maxBytes)
  }

  /** It holds on when a segment is rolled exactly at the batch that finds it full. */
  lemma RolledGrows(spots: seq<seq<Spot>>, spot: Spot, rolls: bool, maxBytes: nat)
    requires spots != [] && AllRolled(spots, maxBytes)
    ensures |SpotsAfter(spots, spot, rolls)| == |spots| + if rolls then 1 else 0
    ensures AllRolled(SpotsAfter(spots, spot, rolls), maxBytes) <==> (rolls <==> IsOver(spot, maxBytes))
  {
    hide IsOver;
    var k, after := |spots| - 1, SpotsAfter(spots, spot, rolls);
    assert after[k] == spots[k] + [spot];
    assert RolledAt(after[k], !rolls, maxBytes) <==> (rolls <==> IsOver(spot, maxBytes)) by {
      assert RolledAt(spots[k], true, maxBytes);
    }
    forall i | 0 <= i < k
      ensures RolledAt(after[i], false, maxBytes)
    {
      assert RolledAt(spots[i], false, maxBytes);
    }
  }

  class Topic {
    const maxBytes: nat
    const maxMessageSize: nat
    var segments: seq<uint32>
    var cache: map<uint32, Segment>
    var lastBase: uint32
    var lastMsgSeq: nat
    ghost var log: seq<bytes>
    ghost var spots: seq<seq<Spot>>    // of the batches of each segment since it was opened

    ghost function Repr(): set<object>
      reads this
    {
      {this} + (set b | b in cache :: cache[b]) + (set b | b in cache :: cache[b].index)
      + (set b | b in cache :: cache[b].index.mmap)
    }

    /** The table of segments, apart from what they hold. */
    ghost predicate Shape()
      reads this
    {
      && |segments| > 0 && segments[0] == 0 && StrictlyIncreasing(segments)
      && (forall b :: b in segments ==> b in cache && cache[b].base == cache[b].index.base == b)
      && (forall b, c :: b in segments && c in segments && b != c ==> cache[b].index.mmap != cache[c].index.mmap)
      && lastBase == segments[|segments| - 1] <= |log|
      && lastMsgSeq == |log| < TWO32
    }

    /** A segment holds this part of the log; only the first one was ever recovered from a file. */
    static ghost predicate Part(seg: Segment, b: nat, part: seq<bytes>)
      reads seg, seg.index, seg.index.mmap
    {
      seg.Valid() && seg.log == part && (b > 0 ==> seg.fileSize == 0 && seg.tail == [])
    }

    ghost predicate Holds(i: nat)
      requires Shape() && i < |segments|
      reads this, cache[segments[i]], cache[segments[i]].index, cache[segments[i]].index.mmap
    {
      var b, end := segments[i], SegmentEnd(segments, |log|, i);
      b <= end <= |log| && Part(cache[b], b, log[b..end])
    }

    ghost predicate Valid()
      reads this, Repr()
    {
      Shape() && forall i :: 0 <= i < |segments| ==> Holds(i)
    }

    /** The restart quirk of a segment without any whole record; it ends with the first append. */
    ghost predicate Stale()
      requires Shape()
      reads this, cache[0]
    {
      cache[0].Stale()
    }

    /** Start-up left bytes of a torn record behind the log; the next append would go behind them. */
    ghost predicate Torn()
      requires Shape()
      reads this, cache[lastBase]
    {
      cache[lastBase].tail != []
    }

    /** The index of every segment is dense enough in what was appended since it was opened. */
    ghost predicate Tracked()
      requires Shape()
      reads this, Repr()
    {
      forall b :: b in segments ==> Dense(cache[b])
    }

    static ghost predicate Dense(seg: Segment)
      reads seg, seg.index, seg.index.mmap
    {
      seg.index.Valid() && seg.Tracked()
    }

    /**
     * Every segment but the active one got exactly one batch when it was already full, its last one; the active
     * segment got none, since it was opened.
     */
    ghost predicate Rolled()
      reads this
    {
      |spots| == |segments| && AllRolled(spots, maxBytes)
    }

    /** Only a topic that holds nothing at all can be stale. */
    lemma StaleIsEmpty()
      requires Valid() && log != []
      ensures !Stale()
    {
      hide Records, Fits, Offset, Indexes, Index.Entries, Index.Valid;
      assert Holds(0);
      var part := cache[0].log;
      OffsetMonotone(0, part, 0, |part|);
      OffsetEnd(0, part);
    }

    /** The bytes that the active segment would hold after one more batch still have 32-bit positions. */
    ghost predicate HasRoom(bodies: seq<bytes>)
      requires Shape()
      reads this, cache[lastBase]
    {
      && |log| + |bodies| < TWO32
      && Fits(lastBase, cache[lastBase].log + bodies)
    }

    /** getSegment for one that is not cached: open its files and run init. */
    static method OpenSegment(base: uint32, file: bytes, indexFile: bytes, maxMessageSize: nat,
                              ghost log0: seq<bytes>, ghost torn: bytes) returns (seg: Segment)
      requires LeftByCrash(file, base, log0, torn) && |file| < TWO32
      requires SegmentIndex.CleanTail(indexFile) && Indexes(base, log0, RecoveredEntries(indexFile))
      ensures fresh(seg) && fresh(seg.index) && fresh(seg.index.mmap) && seg.base == seg.index.base == base
      ensures seg.Valid() && seg.index.Valid() && seg.Tracked() && seg.log == log0
      ensures seg.fileSize == |file| && seg.lastMsgSeq == base + |log0| && seg.position == |Records(base, log0)|
      ensures seg.tail ==
        if TornKept(file, base, log0, torn, RecoveredEntries(indexFile), maxMessageSize) then torn else []
      ensures seg.index.Entries() == RecoveredEntries(indexFile) && seg.file == Records(base, log0) + seg.tail
      ensures seg.since == Since(seg.position, |RecoveredEntries(indexFile)|, [])
    {
      hide Indexes, LeftByCrash, TornKept, SanityCheck, LastSeq, Records, SegmentIndex.CleanTail, RecoveredEntries,
        Index.Entries, Index.Valid, Segment.Tracked;
      seg := new Segment(base, file, indexFile, maxMessageSize);
      var err := seg.Init(log0, torn);
    }

    /**
     * newTopic: segment files live one directory below the one that is listed, so a restart always
     * opens segment 0 alone.
     */
    constructor Open(file: bytes, indexFile: bytes, maxBytes: nat, maxMessageSize: nat,
                     ghost log0: seq<bytes>, ghost torn: bytes)
      requires LeftByCrash(file, 0, log0, torn) && |file| < TWO32
      requires SegmentIndex.CleanTail(indexFile) && Indexes(0, log0, RecoveredEntries(indexFile))
      ensures Valid() && Tracked() && Rolled() && fresh(Repr()) && log == log0
      ensures segments == [0] && cache[0].file == Records(0, log0) + cache[0].tail
      ensures cache[0].since == Since(|Records(0, log0)|, |RecoveredEntries(indexFile)|, [])
      ensures Torn() <==> TornKept(file, 0, log0, torn, RecoveredEntries(indexFile), maxMessageSize)
      ensures Torn() ==> cache[0].tail == torn
      ensures Stale() <==> log0 == [] && file != []
    {
      hide Indexes, LeftByCrash, TornKept, Fits, Records, SegmentIndex.CleanTail, RecoveredEntries, Segment.Valid,
        Sparse;
      this.maxBytes := maxBytes;
      this.maxMessageSize := maxMessageSize;
      var seg := OpenSegment(0, file, indexFile, maxMessageSize, log0, torn);
      segments, lastBase := [0], 0;
      cache := map[0 := seg];
      log := log0;
      spots := [[]];
      lastMsgSeq := seg.lastMsgSeq;
      new;
      CrashParts(file, 0, log0, torn);
      FitsNumbers(0, log0);
      OnlyEmptyIsEmpty(0, log0);
      TornIsNotEmpty(file, log0, torn, RecoveredEntries(indexFile), maxMessageSize);
      assert log[0..|log|] == log0;
      assert Holds(0);
    }

    // ------------------------------------------------------------ appending

    /** A new, empty segment becomes the active one. */
    method Roll(seqNo: uint32)
      requires seqNo < TWO32
      modifies this`segments, this`lastBase, this`cache, this`lastMsgSeq
      ensures segments == old(segments) + [seqNo] && lastBase == seqNo && lastMsgSeq == seqNo
      ensures seqNo in cache && cache == old(cache)[seqNo := cache[seqNo]]
      ensures fresh(cache[seqNo]) && fresh(cache[seqNo].index) && fresh(cache[seqNo].index.mmap)
      ensures var seg := cache[seqNo];
        && seg.base == seg.index.base == seqNo && Part(seg, seqNo, []) && Dense(seg)
        && seg.tail == [] && seg.since == Since(0, 0, [])
    {
      hide Indexes, LeftByCrash, TornKept, Records, SegmentIndex.CleanTail, RecoveredEntries, Segment.Valid, Sparse;
      EmptySegment(seqNo);
      NothingTorn(seqNo, RecoveredEntries([]), maxMessageSize);
      var seg := OpenSegment(seqNo, [], [], maxMessageSize, [], []);
      lastBase := seqNo;
      segments := segments + [seqNo];
      cache := cache[seqNo := seg];
      lastMsgSeq := seg.lastMsgSeq;
    }

    /** The active segment is full: the next batch is its last. */
    ghost predicate DueForRoll()
      requires Shape()
      reads this, cache[lastBase], cache[lastBase].index
    {
      cache[lastBase].index.IsFull() || cache[lastBase].position > maxBytes
    }

    /** The next numbers, one for each message of the batch. */
    method NumberBatch(bodies: seq<bytes>) returns (msgs: seq<Message>, seqs: seq<nat>)
      modifies this`lastMsgSeq
      ensures lastMsgSeq == old(lastMsgSeq) + |bodies|
      ensures |seqs| == |bodies| && forall i :: 0 <= i < |seqs| ==> seqs[i] == old(lastMsgSeq) + 1 + i
      ensures msgs == Messages(old(lastMsgSeq), bodies)
    {
      msgs, seqs := [], [];
      for i := 0 to |bodies|
        invariant lastMsgSeq == old(lastMsgSeq) + i
        invariant |seqs| == i && forall j :: 0 <= j < i ==> seqs[j] == old(lastMsgSeq) + 1 + j
        invariant |msgs| == i && forall j :: 0 <= j < i ==> msgs[j] == Message(old(lastMsgSeq) + 1 + j, bodies[j])
      {
        lastMsgSeq := lastMsgSeq + 1;
        msgs := msgs + [Message(lastMsgSeq, bodies[i])];
        seqs := seqs + [lastMsgSeq];
      }
    }

    /** Everything is in place except that segment k still lacks the last messages of the log. */
    ghost predicate ValidBut(k: nat, stored: nat)
      requires Shape() && k < |segments|
      reads this, Repr()
    {
      var b := segments[k];
      && (forall i :: 0 <= i < |segments| && i != k ==> Holds(i))
      && b <= stored <= SegmentEnd(segments, |log|, k) == |log|
      && Part(cache[b], b, log[b..stored])
    }

    /** Gives a batch its numbers; the log is ahead of the active segment until it is written. */
    method NumberMessages(bodies: seq<bytes>) returns (msgs: seq<Message>, seqs: seq<nat>)
      requires Valid() && bodies != [] && |log| + |bodies| < TWO32
      modifies this`lastMsgSeq, this`log, this`spots
      ensures log == old(log) + bodies && msgs == Messages(|old(log)|, bodies)
      ensures spots == SpotsAfter(old(spots), Spot(old(cache[lastBase].position), old(cache[lastBase].index.position)),
        old(DueForRoll()))
      ensures |seqs| == |bodies| && forall i :: 0 <= i < |seqs| ==> seqs[i] == |old(log)| + 1 + i
      ensures Shape() && ValidBut(|segments| - 1, |old(log)|)
    {
      hide Indexes, Fits, Records, Index.Entries, Index.Valid, Offset, Messages, Segment.Valid;
      ghost var k := |segments| - 1;
      assert Holds(k);
      spots := SpotsAfter(spots, Spot(cache[lastBase].position, cache[lastBase].index.position), DueForRoll());
      msgs, seqs := NumberBatch(bodies);
      // The numbers are new, so the branch for a batch that is already stored is never taken.
      assert seqs[|seqs| - 1] > |log|;
      log := log + bodies;
      assert Shape();
      forall i | 0 <= i < k
        ensures Holds(i)
      {
        assert old(Holds(i));
        SlicesOfPrefix(old(log), bodies, segments[i], segments[i + 1]);
      }
      SlicesOfPrefix(old(log), bodies, segments[k], |old(log)|);
    }

    /** Opens a new segment, for what will follow the batch just numbered, if the active one is full. */
    method RollIfFull(seqNo: uint32, ghost stored: nat)
      requires Shape() && ValidBut(|segments| - 1, stored) && stored < seqNo == |log|
      modifies this
      ensures unchanged(`log) && unchanged(`spots) && Shape()
      ensures segments == old(segments) + if old(DueForRoll()) then [seqNo] else []
      ensures ValidBut(|old(segments)| - 1, stored) && (old(Tracked()) ==> Tracked())
      ensures forall b :: b in old(segments) ==> cache[b] == old(cache)[b]
      ensures forall b :: b in segments && b !in old(segments) ==>
        fresh(cache[b]) && fresh(cache[b].index) && fresh(cache[b].index.mmap) && Dense(cache[b])
        && cache[b].tail == [] && cache[b].since == Since(0, 0, [])
    {
      hide Part, Dense, Index.Valid;
      var active := cache[lastBase];
      ghost var k := |segments| - 1;
      if active.index.IsFull() || active.position > maxBytes {
        Roll(seqNo);
        assert Shape();
        assert log[seqNo..|log|] == [];
        assert Holds(k + 1);
        forall i | 0 <= i < k
          ensures Holds(i)
        {
          assert old(Holds(i));
        }
        if old(Tracked()) {
          forall b | b in segments
            ensures Dense(cache[b])
          {
            assert b in old(segments) ==> old(Dense(cache[b]));
          }
        }
      }
    }

    method NumberAndRoll(bodies: seq<bytes>) returns (msgs: seq<Message>, seqs: seq<nat>)
      requires Valid() && bodies != [] && |log| + |bodies| < TWO32
      modifies this
      ensures log == old(log) + bodies && msgs == Messages(|old(log)|, bodies)
      ensures spots == SpotsAfter(old(spots), Spot(old(cache[lastBase].position), old(cache[lastBase].index.position)),
        old(DueForRoll()))
      ensures |seqs| == |bodies| && forall i :: 0 <= i < |seqs| ==> seqs[i] == |old(log)| + 1 + i
      ensures Shape() && segments == old(segments) + if old(DueForRoll()) then [|log|] else []
      ensures ValidBut(|old(segments)| - 1, |old(log)|) && (old(Tracked()) ==> Tracked())
      ensures forall b :: b in old(segments) ==> cache[b] == old(cache)[b]
      ensures forall b :: b in segments && b !in old(segments) ==>
        fresh(cache[b]) && fresh(cache[b].index) && fresh(cache[b].index.mmap) && Dense(cache[b])
        && cache[b].tail == [] && cache[b].since == Since(0, 0, [])
    {
      hide Messages, ValidBut, Segment.Valid, Holds;
      ghost var stored := |log|;
      msgs, seqs := NumberMessages(bodies);
      RollIfFull(seqs[|seqs| - 1], stored);
    }

    /** Torn bytes keep segment k from holding what was written to it after the first stored messages. */
    ghost predicate Misses(k: nat, stored: nat)
      requires Shape() && k < |segments|
      reads this, Repr()
    {
      var b := segments[k];
      && (forall i :: 0 <= i < |segments| && i != k ==> Holds(i))
      && b <= stored <= |log| && cache[b].Readable() && cache[b].log == log[b..stored]
    }

    /**
     * The batch still goes to the segment that was active before, also when a new one was just opened. Behind torn
     * bytes it is written as well, but it is not held.
     */
    method AppendMessages(bodies: seq<bytes>) returns (seqs: seq<nat>, n: nat)
      requires Valid() && bodies != [] && HasRoom(bodies)
      modifies this, cache[lastBase], cache[lastBase].index, cache[lastBase].index.mmap
      ensures Shape() && log == old(log) + bodies
      ensures segments == old(segments) + if old(DueForRoll()) then [|log|] else []
      ensures if old(Torn()) then Misses(|old(segments)| - 1, |old(log)|) else Valid() && !Torn()
      ensures |seqs| == |bodies| && forall i :: 0 <= i < |seqs| ==> seqs[i] == |old(log)| + 1 + i
      ensures var seg := old(cache[lastBase]);
        && n == |FirstBytes(Messages(|old(log)|, bodies), |bodies|)|
        && seg.file == old(seg.file) + FirstBytes(Messages(|old(log)|, bodies), |bodies|)
        && seg.position == old(seg.position) + n && seg.tail == old(seg.tail)
        && seg.since == SinceAfter(old(seg.since), n, EntryDue(old(seg.bytesSince), n, old(seg.index.IsFull())))
        && seg.bytesSince == BytesAfter(old(seg.bytesSince), n)
      ensures old(Tracked()) ==> Tracked()
      ensures old(cache[lastBase].position) > maxBytes || old(cache[lastBase].index.position) >= 2_097_152 ==>
        lastBase == |log|
      ensures old(cache[lastBase].position) <= maxBytes && old(cache[lastBase].index.position) < 2_097_152 ==>
        lastBase == old(lastBase)
      ensures spots == SpotsAfter(old(spots), Spot(old(cache[lastBase].position), old(cache[lastBase].index.position)),
        old(DueForRoll()))
      ensures old(Rolled()) ==> Rolled()
      ensures forall b :: b in old(segments) ==> cache[b] == old(cache)[b]
      ensures forall b :: b in segments && b !in old(segments) ==>
        fresh(cache[b]) && fresh(cache[b].index) && fresh(cache[b].index.mmap) && Dense(cache[b])
        && cache[b].tail == [] && cache[b].since == Since(0, 0, [])
    {
      hide Indexes, Fits, Records, Messages, ValidBut, Tracked, Dense, AllRolled, SpotsAfter, Segment.Valid, Misses,
        FirstBytes;
      ghost var k := |segments| - 1;
      var active := cache[lastBase];
      assert Holds(k);
      ActiveSegment(lastBase, log, active.log, bodies);
      var msgs;
      msgs, seqs := NumberAndRoll(bodies);
      n := Store(active, msgs, k, |old(log)|);
      if old(Rolled()) {
        RolledGrows(old(spots), Spot(old(active.position), old(active.index.position)), old(DueForRoll()), maxBytes);
      }
    }

    /** Writes the batch to segment k, which was the active one when the batch was numbered. */
    method Store(active: Segment, msgs: seq<Message>, ghost k: nat, ghost stored: nat) returns (n: nat)
      requires Shape() && k < |segments| && active == cache[segments[k]] && ValidBut(k, stored) && stored < |log|
      requires msgs == Messages(stored, log[stored..]) && Fits(active.base, log[active.base..])
      modifies active, active.index, active.index.mmap
      ensures Shape() && if old(active.tail) == [] then Valid() else Misses(k, stored)
      ensures n == |FirstBytes(msgs, |msgs|)| && active.file == old(active.file) + FirstBytes(msgs, |msgs|)
      ensures active.position == old(active.position) + n && active.tail == old(active.tail)
      ensures active.since
           == SinceAfter(old(active.since), n, EntryDue(old(active.bytesSince), n, old(active.index.IsFull())))
      ensures active.bytesSince == BytesAfter(old(active.bytesSince), n)
      ensures old(Tracked()) ==> Tracked()
    {
      hide Indexes, Fits, Records, Index.Entries, Index.Valid, Offset, Sparse, Messages, Bodies, Segment.Valid,
        Segment.Tracked, FirstBytes;
      BatchOf(log, segments[k], stored);
      n := active.AppendMessages(msgs);
      if old(active.tail) == [] { assert Holds(k); }
      if old(Tracked()) {
        assert old(Dense(active));
        assert Dense(active);
        forall b | b in segments
          ensures Dense(cache[b])
        {
          assert old(Dense(cache[b]));
        }
      }
    }

    // -------------------------------------------------------------- reading

    /** The first segment whose numbers reach messageSeq; both ends of a segment's range belong to it. */
    method CalcBaseMessageSeq(messageSeq: uint32) returns (r: Option<uint32>, ghost k: nat)
      requires Shape()
      ensures r.Some? && k < |segments| && r.value == segments[k]
      ensures k > 0 ==> segments[k] < messageSeq
      ensures k + 1 < |segments| ==> messageSeq <= segments[k + 1]
    {
      k := 0;
      for i := 0 to |segments|
        invariant i < |segments| ==> i == 0 || segments[i] < messageSeq
        invariant i == |segments| ==> false
      {
        if i + 1 < |segments| {
          if messageSeq >= segments[i] && messageSeq <= segments[i + 1] {
            return Some(segments[i]), i;
          }
        } else {
          if messageSeq >= segments[i] {
            return Some(segments[i]), i;
          }
        }
      }
    }

    /** The base after the given one, or none when it is the last. */
    method NextBaseMessageSeq(base: uint32, ghost k: nat) returns (r: Option<uint32>)
      requires Shape() && k < |segments| && segments[k] == base
      ensures r == if k + 1 < |segments| then Some(segments[k + 1]) else None
    {
      for i := 0 to |segments|
        invariant i <= k
      {
        if segments[i] == base {
          if i + 1 < |segments| {
            return Some(segments[i + 1]);
          }
          return None;
        }
      }
      return None;
    }

    /** A window of segment k is a window of the whole log, cut at the segment's end. */
    lemma WindowOfSegment(k: nat, first: nat, limit: nat)
      requires Valid() && k < |segments| && segments[k] <= first <= SegmentEnd(segments, |log|, k)
      ensures var b, end := segments[k], SegmentEnd(segments, |log|, k);
        && b <= end <= |log| && cache[b].Valid() && cache[b].log == log[b..end]
        && Window(b, cache[b].log, first - b, limit) == Messages(0, log)[first..Min(first + limit, end)]
    {
      hide Messages, Segment.Valid;
      assert Holds(k);
      var b, end := segments[k], SegmentEnd(segments, |log|, k);
      MessagesOfPart(log, b, end);
      var part, stop := Messages(0, log)[b..end], Min(first + limit, end);
      SliceOfSlice(Messages(0, log), b, end, first - b, stop - b);
    }

    lemma SegmentFacts(k: nat)
      requires Valid() && k < |segments|
      ensures var b, end := segments[k], SegmentEnd(segments, |log|, k);
        && cache[b].Valid() && cache[b].Readable() && cache[b].base == b <= end <= |log| && |cache[b].log| == end - b
        && (b > 0 ==> !cache[b].Stale())
        && (k > 0 ==> b > 0)
        && (b == 0 && Stale() ==> log == [] && |segments| == 1)
    {
      hide Segment.Valid, Segment.Readable;
      assert Holds(k);
      cache[segments[k]].ValidIsReadable();
      if Stale() && log != [] { StaleIsEmpty(); }
    }

    /** The messages of a later segment, from its first one on. */
    method ReadFromStart(base: uint32, limit: nat, ghost k: nat) returns (out: seq<Message>, err: bool)
      requires Valid() && 0 < k < |segments| && base == segments[k]
      ensures !err && base <= SegmentEnd(segments, |log|, k) <= |log|
      ensures out == Messages(0, log)[base..Min(base + limit, SegmentEnd(segments, |log|, k))]
    {
      hide Messages, Segment.Valid, Segment.Stale, Holds, StrictlyIncreasing;
      SegmentFacts(k);
      WindowOfSegment(k, base, limit);
      OffsetStart(base, cache[base].log);
      LaterSegment(cache[base], limit);
      out, err := cache[base].ReadMessagesAtPosition(0, limit);
    }

    /** What has been read when every segment up to k has been visited. */
    ghost predicate ReadUpTo(k: nat, first: nat, limit: nat, out: seq<Message>)
      requires Shape()
      reads this
    {
      && k < |segments|
      && (first > |log| ==> out == [] && k == |segments| - 1)
      && (first <= |log| ==>
          && first <= SegmentEnd(segments, |log|, k) <= |log|
          && out == Messages(0, log)[first..Min(first + limit, SegmentEnd(segments, |log|, k))])
    }

    /** One more segment. */
    lemma ReadGoesOn(k: nat, first: nat, limit: nat, out: seq<Message>, more: seq<Message>)
      requires Shape() && ReadUpTo(k, first, limit, out) && |out| < limit && k + 1 < |segments|
      requires segments[k + 1] <= SegmentEnd(segments, |log|, k + 1) <= |log|
      requires more == Messages(0, log)[segments[k + 1]
                         ..Min(segments[k + 1] + limit - |out|, SegmentEnd(segments, |log|, k + 1))]
      ensures ReadUpTo(k + 1, first, limit, out + more)
    {
      hide Messages, StrictlyIncreasing;
      if first <= |log| {
        JoinSlices(Messages(0, log), first, segments[k + 1],
          Min(first + limit, SegmentEnd(segments, |log|, k + 1)));
      }
    }

    /** The limit is reached, or the last segment. */
    lemma ReadIsDone(k: nat, messageSeq: uint32, limit: nat, out: seq<Message>)
      requires Shape() && ReadUpTo(k, Max(messageSeq, 1) - 1, limit, out)
      requires |out| >= limit || k + 1 == |segments| || log == []
      ensures out == LogSlice(log, messageSeq, limit)
    {
      hide Messages, StrictlyIncreasing;
    }

    /** What the segment that messageSeq belongs to gives is all there is up to its end. */
    lemma FirstShare(k: nat, messageSeq: uint32, limit: nat, out: seq<Message>)
      requires Valid() && k < |segments|
      requires (k > 0 ==> segments[k] < messageSeq) && (k + 1 < |segments| ==> messageSeq <= segments[k + 1])
      requires var b := segments[k];
        var part := cache[b].log;
        out == if messageSeq == b then Window(b, part, 0, limit)
               else if b < messageSeq <= b + |part| then Window(b, part, messageSeq - b - 1, limit) else []
      ensures ReadUpTo(k, Max(messageSeq, 1) - 1, limit, out)
    {
      hide Messages, Segment.Valid, Segment.Stale, Holds, StrictlyIncreasing, Segment.Readable, Window;
      var first := Max(messageSeq, 1) - 1;
      SegmentFacts(k);
      if first <= |log| { WindowOfSegment(k, first, limit); }
    }

    /** The segment that messageSeq belongs to, and what it gives. */
    method ReadFirstSegment(messageSeq: uint32, limit: nat)
      returns (base: uint32, ghost k: nat, out: seq<Message>, err: bool)
      requires Valid()
      ensures k < |segments| && ReadUpTo(k, Max(messageSeq, 1) - 1, limit, out) && base == segments[k]
      ensures err <==> Stale() && (messageSeq != 0 || limit > 0)
      ensures err ==> log == [] && |segments| == 1
    {
      hide Messages, Segment.Valid, Segment.Stale, Holds, StrictlyIncreasing, Segment.Readable, Reads, Floor,
        Index.Entries, Index.Valid, ReadUpTo, Window;
      var found;
      found, k := CalcBaseMessageSeq(messageSeq);
      base := found.value;
      SegmentFacts(0);
      SegmentFacts(k);
      out, err := cache[base].ReadMessages(messageSeq, limit);
      FirstShare(k, messageSeq, limit, out);
    }

    /**
     * Up to limit messages from messageSeq on, across segments: exactly a slice of the one list. The only
     * error is the one a topic gives that was recovered without a single whole record.
     */
    method ReadMessages(messageSeq: uint32, limit: nat) returns (out: seq<Message>, err: bool)
      requires Valid()
      ensures out == LogSlice(log, messageSeq, limit)
      ensures err <==> Stale() && (messageSeq != 0 || limit > 0)
    {
      hide Messages, Holds, StrictlyIncreasing, Stale, Segment.Valid, Index.Valid, ReadUpTo, LogSlice;
      ghost var first := Max(messageSeq, 1) - 1;
      var base;
      ghost var k;
      base, k, out, err := ReadFirstSegment(messageSeq, limit);
      if err {
        ReadIsDone(k, messageSeq, limit, out);
        return;
      }
      while |out| < limit
        invariant k < |segments| && ReadUpTo(k, first, limit, out) && base == segments[k] && !err
        decreases |segments| - k
      {
        var next := NextBaseMessageSeq(base, k);
        if next.None? {
          ReadIsDone(k, messageSeq, limit, out);
          return;
        }
        base := next.value;
        k := k + 1;
        var more;
        more, err := ReadFromStart(base, limit - |out|, k);
        assert !err;
        ReadGoesOn(k - 1, first, limit, out, more);
        out := out + more;
      }
      ReadIsDone(k, messageSeq, limit, out);
    }
  }

  lemma JoinSlices<T>(s: seq<T>, a: nat, b: nat, c: nat)
    requires a <= b <= c <= |s|
    ensures s[a..b] + s[b..c] == s[a..c]
  {
  }

  lemma SlicesOfPrefix(log: seq<bytes>, more: seq<bytes>, from: nat, to: nat)
    requires from <= to <= |log|
    ensures (log + more)[from..to] == log[from..to]
  {
  }

  lemma BatchOf(log: seq<bytes>, base: nat, stored: nat)
    requires base <= stored <= |log|
    ensures Bodies(Messages(stored, log[stored..])) == log[stored..]
    ensures log[base..stored] + log[stored..] == log[base..] == log[base..|log|]
    ensures forall i :: 0 <= i < |log| - stored ==> Messages(stored, log[stored..])[i].seqNo == stored + 1 + i
  {
  }

  lemma ActiveSegment(base: nat, log: seq<bytes>, tail: seq<bytes>, bodies: seq<bytes>)
    requires base <= |log| && tail == log[base..]
    ensures Bodies(Messages(|log|, bodies)) == bodies
    ensures (log + bodies)[base..] == tail + bodies
  {
  }

  /** A file that does not exist yet is what a crash leaves of an empty log. */
  lemma EmptySegment(base: uint32)
    ensures LeftByCrash([], base, [], []) && Indexes(base, [], [])
    ensures SegmentIndex.CleanTail([]) && RecoveredEntries([]) == []
    ensures Records(base, []) == []
  {
    hide SegmentIndex.CleanTail, RecoveredEntries, Offset;
    EmptyFileHasNoEntries();
    OffsetStart(base, []);
    var m := Message(0, []);
    assert Encodable(m) && [] < Encode(m);
  }

  lemma LaterSegment(seg: Segment, limit: nat)
    requires seg.Valid() && !seg.Stale()
    ensures ReadFrom(seg.file, seg.GetFileSize(), 0, limit) == (Window(seg.base, seg.log, 0, limit), false)
  {
    hide Records, Offset, Fits, Indexes, Index.Valid, Messages;
    OnlyEmptyIsEmpty(seg.base, seg.log);
    OffsetStart(seg.base, seg.log);
    ReadsFromIs(seg.base, seg.log, seg.tail, seg.GetFileSize(), 0, limit);
  }

  lemma TornIsNotEmpty(file: bytes, log: seq<bytes>, torn: bytes, es: seq<Entry>, maxMessageSize: nat)
    ensures TornKept(file, 0, log, torn, es, maxMessageSize) ==> torn != []
  {
  }

  lemma NothingTorn(base: uint32, es: seq<Entry>, maxMessageSize: nat)
    ensures !TornKept([], base, [], [], es, maxMessageSize)
  {
  }
}
