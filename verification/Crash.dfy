/**
 * Crashes of the process during an append, and what a restart and the appends after it make of the files (segment.go,
 * segment_index.go). An index entry is written at once.
 */
module Crashes {
  import opened Bytes
  import opened Wrappers
  import opened Record
  import opened LogFile
  import opened SegmentIndex
  import opened Recovery
  import opened Segments
  import opened Topics
  import opened Packets
  import Protocol
  import ServerMessages

  // ---------------------------------------------------- a crash during an append

  /** Any first part of a batch is a number of whole records and a torn one. */
  lemma {:induction false} CutBatch(msgs: seq<Message>, n: nat, k: nat) returns (j: nat, torn: bytes)
    requires n <= |msgs| && k <= |FirstBytes(msgs, n)|
    ensures j <= n && FirstBytes(msgs, n)[..k] == FirstBytes(msgs, j) + torn
    ensures if j == n then torn == [] else torn < Encode(msgs[j])
  {
    hide Encode, FirstBytes;
    if n == 0 {
      EmptyBatch(msgs);
      return 0, [];
    }
    EncodeAllStep(msgs, n - 1);
    var before, last := FirstBytes(msgs, n - 1), Encode(msgs[n - 1]);
    if k < |before| {
      j, torn := CutBatch(msgs, n - 1, k);
      assert (before + last)[..k] == before[..k];
    } else if k == |before + last| {
      j, torn := n, [];
      assert (before + last)[..k] == before + last == before + last + torn;
    } else {
      j, torn := n - 1, last[..k - |before|];
      assert (before + last)[..k] == before + torn;
    }
  }

  lemma EmptyBatch(msgs: seq<Message>)
    ensures FirstBytes(msgs, 0) == []
  {
  }

  lemma FirstBytesOfPrefix(msgs: seq<Message>, j: nat)
    requires j <= |msgs|
    ensures FirstBytes(msgs[..j], j) == FirstBytes(msgs, j) && Bodies(msgs[..j]) == Bodies(msgs)[..j]
  {
    hide Encode;
    assert msgs[..j][..j] == msgs[..j];
  }

  lemma FitsPrefix(base: nat, log: seq<bytes>, more: seq<bytes>, j: nat)
    requires Fits(base, log + more) && j <= |more|
    ensures Fits(base, log + more[..j]) && Fits(base, log)
  {
    hide Records, Offset;
    var all, part := log + more, log + more[..j];
    assert part <= all && log <= all;
    OffsetOfPrefix(base, part, all, |part|);
    OffsetOfPrefix(base, log, all, |log|);
    OffsetEnd(base, all);
    OffsetEnd(base, part);
    OffsetEnd(base, log);
    OffsetMonotone(base, all, |part|, |all|);
    OffsetMonotone(base, all, |log|, |all|);
  }

  lemma IndexesPrefix(base: uint32, log: seq<bytes>, more: seq<bytes>, es: seq<Entry>)
    requires Indexes(base, log, es) && Fits(base, log) && Fits(base, log + more)
    ensures Indexes(base, log + more, es)
  {
    hide Records, Offset, Fits, Indexes;
    if more == [] {
      assert log + more == log;
    } else {
      IndexesGrow(base, log, more, es);
    }
  }

  /**
   * A crash after the first k bytes of a batch were written leaves a file of the old log and of the messages of the
   * batch that were written whole, and an index that is correct for it.
   */
  lemma CrashDuringAppend(base: uint32, log: seq<bytes>, msgs: seq<Message>, es: seq<Entry>, k: nat)
    returns (j: nat, torn: bytes)
    requires Fits(base, log + Bodies(msgs)) && Indexes(base, log, es) && k <= |FirstBytes(msgs, |msgs|)|
    requires forall i :: 0 <= i < |msgs| ==> msgs[i].seqNo == base + |log| + 1 + i
    ensures j <= |msgs| && FirstBytes(msgs, |msgs|)[..k] == FirstBytes(msgs, j) + torn
    ensures if j == |msgs| then torn == [] else torn < Encode(msgs[j])
    ensures var all := log + Bodies(msgs)[..j];
      && LeftByCrash(Records(base, log) + FirstBytes(msgs, |msgs|)[..k], base, all, torn)
      && Indexes(base, all, es)
  {
    hide Records, Offset, Encode, FirstBytes, Fits, Indexes;
    j, torn := CutBatch(msgs, |msgs|, k);
    FitsPrefix(base, log, Bodies(msgs), j);
    IndexesPrefix(base, log, Bodies(msgs)[..j], es);
    FirstBytesOfPrefix(msgs, j);
    BatchBytes(base, log, msgs[..j]);
    var whole := Records(base, log);
    assert whole + (FirstBytes(msgs, j) + torn) == (whole + FirstBytes(msgs, j)) + torn;
    if j == |msgs| {
      NothingIsTorn();
    } else {
      var all := log + Bodies(msgs);
      FitsEncodable(base, all, |log| + j);
      assert all[|log| + j] == msgs[j].data;
      assert Message(base + 1 + (|log| + j), all[|log| + j]) == msgs[j];
      assert Encodable(msgs[j]) && torn < Encode(msgs[j]);
    }
  }

  /** What a restart needs of the two files of a segment. */
  ghost predicate Restartable(file: bytes, indexFile: bytes, base: uint32, log: seq<bytes>, torn: bytes) {
    && LeftByCrash(file, base, log, torn)
    && SegmentIndex.CleanTail(indexFile) && Indexes(base, log, RecoveredEntries(indexFile))
  }

  /** What CrashDuringAppend says, of a segment, and of its index file, which is left at its full size. */
  lemma LeftBehind(seg: Segment, bodies: seq<bytes>, msgs: seq<Message>, data: bytes, k: nat)
    returns (j: nat, torn: bytes)
    requires seg.Valid() && Fits(seg.base, seg.log + bodies)
    requires msgs == Messages(seg.base + |seg.log|, bodies) && data == FirstBytes(msgs, |msgs|) && k <= |data|
    requires seg.tail != [] ==> k == 0
    ensures j <= |bodies|
    ensures Restartable(seg.file + data[..k], seg.index.mmap[..], seg.base, seg.log + bodies[..j], torn)
    ensures seg.tail == [] ==>
      && data[..k] == FirstBytes(msgs, j) + torn && |seg.file| + k < TWO32
      && if j == |msgs| then torn == [] else torn < Encode(msgs[j])
    ensures seg.tail != [] ==> j == 0 && torn == seg.tail
  {
    hide Encode, FirstBytes, Records, Fits, Indexes, EntriesIn, SegmentIndex.CleanTail, RecoveredEntries;
    assert Bodies(msgs) == bodies;
    ReopenedIndexIsCorrect(seg.base, seg.log, seg.index.mmap[..], seg.index.position / ENTRY_SIZE, true);
    if seg.tail == [] {
      j, torn := CrashDuringAppend(seg.base, seg.log, msgs, RecoveredEntries(seg.index.mmap[..]), k);
      BatchBytes(seg.base, seg.log, msgs);
      FitsBytes(seg.base, seg.log + bodies);
      assert seg.file == Records(seg.base, seg.log);
    } else {
      j, torn := 0, seg.tail;
      assert seg.log + bodies[..0] == seg.log && seg.file + data[..0] == seg.file;
    }
  }

  /** A topic of one segment, killed after k bytes of a batch were written, and started again from its files. */
  method CrashAndRestart(t: Topic, bodies: seq<bytes>, k: nat) returns (r: Topic, ghost j: nat, ghost torn: bytes)
    requires t.Valid() && t.segments == [0] && t.HasRoom(bodies)
    requires k <= |FirstBytes(Messages(|t.log|, bodies), |bodies|)|
    requires t.Torn() ==> k == 0 && |t.cache[0].file| < TWO32
    ensures fresh(r) && fresh(r.Repr()) && r.Valid() && r.Tracked() && r.segments == [0]
    ensures j <= |bodies| && r.log == t.log + bodies[..j]
    ensures var msgs := Messages(|t.log|, bodies);
      !t.Torn() ==>
        && FirstBytes(msgs, |msgs|)[..k] == FirstBytes(msgs, j) + torn
        && (if j == |msgs| then torn == [] else torn < Encode(msgs[j]))
    ensures t.Torn() ==> j == 0 && torn == t.cache[0].tail
    ensures r.Torn() ==> r.cache[0].tail == torn
  {
    hide Encode, FirstBytes, Records, Fits, Indexes, Messages, Index.Entries, Index.Valid, LeftByCrash,
      SegmentIndex.CleanTail, RecoveredEntries, TornKept;
    assert t.Holds(0);
    var seg := t.cache[0];
    var msgs := Messages(t.lastMsgSeq, bodies);
    var data := FirstBytes(msgs, |msgs|);
    j, torn := LeftBehind(seg, bodies, msgs, data, k);
    r := new Topic.Open(seg.file + data[..k], seg.index.mmap[..], t.maxBytes, t.maxMessageSize, seg.log + bodies[..j],
      torn);
  }

  // ---------------------------------------------------- torn bytes that survive

  /** The largest message the server is configured for (config.go). */
  const EACH_MESSAGE_MAX_SIZE := 2 * 1024 * 1024

  const PAYLOAD_SIZE := 700_000
  const BODY_SIZE := PAYLOAD_SIZE + 32

  /** A message of a user in a group, number n, whose payload consists of bytes 3. */
  function Sent(n: uint32): ServerMessages.Message {
    ServerMessages.Message(Protocol.Flags(false, false, false, false, false),
      RecvPacket(0, [], 0, 1, n, [], [], 0, 0, 0, [103], 2, [], [117], seq(PAYLOAD_SIZE, _ => 3), 0))
  }

  /** Its body as the server stores it. */
  function Stored(n: uint32): bytes {
    ServerMessages.Body(Sent(n), ServerMessages.BODY_VERSION)
  }

  lemma StoredEnd(n: uint32)
    ensures |Stored(n)| == BODY_SIZE && Stored(n)[BODY_SIZE - 1] == 3
  {
    hide PutU32, PutU64;
    assert Short([103]) && Short([117]);
  }

  /** The position of record i in a log of bodies of one size. */
  lemma {:induction false} EqualOffsets(base: nat, log: seq<bytes>, size: nat, i: nat)
    requires i <= |log| && forall k :: 0 <= k < |log| ==> |log[k]| == size
    ensures Offset(base, log, i) == i * (MIN_LEN + size)
  {
    hide Offset;
    OffsetStart(base, log);
    if i > 0 {
      EqualOffsets(base, log, size, i - 1);
      OffsetStep(base, log, i - 1);
    }
  }

  /**
   * Three such messages, appended one by one, and a crash before the last byte of the fourth: its payload ends in
   * the end-magic byte, and a restart of the server keeps the torn record.
   */
  lemma TornCanBeKept() returns (log: seq<bytes>, es: seq<Entry>, file: bytes, torn: bytes)
    ensures log == [Stored(1), Stored(2), Stored(3)] && |torn| == MIN_LEN + BODY_SIZE - 1
    ensures torn < Encode(Message(4, Stored(4))) && LeftByCrash(file, 0, log, torn)
    ensures es == [Entry(1, 0), Entry(2, MIN_LEN + BODY_SIZE), Entry(3, 2 * (MIN_LEN + BODY_SIZE))]
    ensures Indexes(0, log, es)
    ensures SanityCheck(file, LastEntry(0, es), EACH_MESSAGE_MAX_SIZE).file == file != Records(0, log)
  {
    hide Encode, SanityCheck, TornKept, Stored, Records, Offset;
    var size, m := MIN_LEN + BODY_SIZE, Message(4, Stored(4));
    log, es := [Stored(1), Stored(2), Stored(3)], [Entry(1, 0), Entry(2, size), Entry(3, 2 * size)];
    StoredEnd(1);
    StoredEnd(2);
    StoredEnd(3);
    StoredEnd(4);
    torn := Encode(m)[..size - 1];
    file := Records(0, log) + torn;
    EqualOffsets(0, log, BODY_SIZE, 1);
    EqualOffsets(0, log, BODY_SIZE, 2);
    EqualOffsets(0, log, BODY_SIZE, 3);
    OffsetStart(0, log);
    OffsetEnd(0, log);
    assert Encodable(m) && torn < Encode(m);
    TornEnd(m, torn, file, Records(0, log));
    SanityCheckRecovers(file, 0, log, torn, es, EACH_MESSAGE_MAX_SIZE);
    KeptThen(file, 0, log, torn, es, EACH_MESSAGE_MAX_SIZE);
  }

  lemma KeptThen(file: bytes, base: uint32, log: seq<bytes>, torn: bytes, es: seq<Entry>, maxMessageSize: nat)
    requires torn != [] && |file| > maxMessageSize + MIN_LEN && file[|file| - 1..] == END_MAGIC && log != [] && es != []
    ensures TornKept(file, base, log, torn, es, maxMessageSize)
  {
  }

  /** The last byte of a record without its end magic is the last byte of its data. */
  lemma TornEnd(m: Message, torn: bytes, file: bytes, whole: bytes)
    requires Encodable(m) && m.data != [] && m.data[|m.data| - 1] == 3
    requires torn == Encode(m)[..|Encode(m)| - 1] && file == whole + torn
    ensures file[|file| - 1..] == END_MAGIC
  {
    hide Encode;
    EncodeLayout(m);
    var p, n := Encode(m), |m.data|;
    assert p[23..23 + n][n - 1] == p[22 + n];
    assert file[|file| - 1..] == [p[22 + n]];
  }

  // ---------------------------------------------------- an append behind torn bytes

  /** The readers see only what lies at and behind a position. */
  lemma DecodeBehind(front: bytes, b: bytes)
    ensures DecodeMessageAt(front + b, |front|) == DecodeMessageAt(b, 0)
    ensures DecodeMessageSeq(front + b, |front|) == DecodeMessageSeq(b, 0)
  {
    hide DecodeMessage, GetU32, GetU64;
    ReadBehind(front, b, 0, HEADER_LEN);
    ReadBehind(front, b, 3, DATA_LEN_SIZE);
    ReadBehind(front, b, 7, SEQ_SIZE);
    var header := ReadAt(b, 0, HEADER_LEN);
    if header.Full? {
      ReadBehind(front, b, HEADER_LEN + GetU32(header.data[3..7]), |END_MAGIC|);
    }
    var length := RecordLengthAt(b, 0);
    if length.Some? {
      assert (front + b)[|front|..|front| + length.value] == b[0..length.value];
    }
  }

  lemma ReadBehind(front: bytes, b: bytes, offset: nat, n: nat)
    ensures ReadAt(front + b, |front| + offset, n).Full? <==> ReadAt(b, offset, n).Full?
    ensures ReadAt(b, offset, n).Full? ==> ReadAt(front + b, |front| + offset, n) == ReadAt(b, offset, n)
  {
    if offset + n <= |b| {
      assert (front + b)[|front| + offset..|front| + offset + n] == b[offset..offset + n];
    }
  }

  /** What the beginning of a record followed by other bytes reads as: its length decides where it must end. */
  lemma TornThenData(m: Message, t: nat, data: bytes)
    requires Encodable(m) && 15 <= t < |Encode(m)|
    ensures var joined, n := Encode(m)[..t] + data, |m.data|;
      && (DecodeMessageAt(joined, 0).Ok? <==> EndsAt(joined, n))
      && (DecodeMessageAt(joined, 0).Ok? ==>
          DecodeMessageAt(joined, 0).value == (Message(m.seqNo, joined[HEADER_LEN..HEADER_LEN + n]), MIN_LEN + n))
      && DecodeMessageSeq(joined, 0) == Some((m.seqNo, n))
  {
    hide GetU32, GetU64, DecodeMessage;
    var joined, n := Encode(m)[..t] + data, |m.data|;
    HeadStays(m, t, data);
    HeadDecides(joined, m.seqNo, n);
  }

  /** The end magic is where a record with n bytes of data must have it. */
  predicate EndsAt(b: bytes, n: nat) {
    MIN_LEN + n <= |b| && b[HEADER_LEN + n..MIN_LEN + n] == END_MAGIC
  }

  ghost predicate Head(b: bytes, seqNo: nat, n: nat) {
    |b| >= 15 && b[..2] == MAGIC && GetU32(b[3..7]) == n && GetU64(b[7..15]) == seqNo < TWO32
  }

  lemma HeadStays(m: Message, t: nat, data: bytes)
    requires Encodable(m) && 15 <= t < |Encode(m)|
    ensures Head(Encode(m)[..t] + data, m.seqNo, |m.data|)
  {
    hide Encode, GetU32, GetU64;
    EncodeLayout(m);
    var p, joined := Encode(m), Encode(m)[..t] + data;
    assert joined[..2] == p[..2] && joined[3..7] == p[3..7] && joined[7..15] == p[7..15];
  }

  lemma HeadDecides(b: bytes, seqNo: nat, n: nat)
    requires Head(b, seqNo, n)
    ensures DecodeMessageAt(b, 0).Ok? <==> EndsAt(b, n)
    ensures EndsAt(b, n) ==>
      DecodeMessageAt(b, 0).value == (Message(seqNo, b[HEADER_LEN..HEADER_LEN + n]), MIN_LEN + n)
    ensures DecodeMessageSeq(b, 0) == Some((seqNo, n))
  {
    hide GetU32, GetU64, DecodeMessage;
    if EndsAt(b, n) {
      assert b[0..2] == b[..2] && b[23 + n..24 + n] == END_MAGIC;
      LengthFromFields(b, 0, n, seqNo);
      var whole := b[0..MIN_LEN + n];
      DecodeFields(b, whole, seqNo, n);
    } else if |b| >= HEADER_LEN {
      assert b[0..HEADER_LEN][3..7] == b[3..7];
    }
  }

  lemma DecodeFields(b: bytes, whole: bytes, seqNo: nat, n: nat)
    requires Head(b, seqNo, n) && EndsAt(b, n) && whole == b[0..MIN_LEN + n]
    ensures DecodeMessage(whole) == Ok(Message(seqNo, b[HEADER_LEN..HEADER_LEN + n]))
  {
    hide GetU32, GetU64;
    SliceOfSlice(b, 0, MIN_LEN + n, 0, 2);
    SliceOfSlice(b, 0, MIN_LEN + n, 3, 7);
    SliceOfSlice(b, 0, MIN_LEN + n, 7, 15);
    SliceOfSlice(b, 0, MIN_LEN + n, 23, 23 + n);
    SliceOfSlice(b, 0, MIN_LEN + n, 23 + n, 24 + n);
  }

  /** Where a batch was written behind torn bytes, earlier messages are still read, if no more is asked for. */
  lemma EarlierReadsStay(base: uint32, log: seq<bytes>, rest: bytes, fileSize: nat, es: seq<Entry>, due: bool,
                         messageSeq: uint32, limit: nat)
    requires Fits(base, log) && Indexes(base, log, es) && |Records(base, log)| <= fileSize
    requires base < messageSeq <= base + |log| && messageSeq - base - 1 + limit <= |log|
    requires base + |log| + 1 < TWO32
    ensures var all := EntriesAfter(es, |log| + 1, |Records(base, log)|, due);
      Reads(Records(base, log) + rest, fileSize, Floor(base, all, messageSeq), messageSeq, limit)
      == (Window(base, log, messageSeq - base - 1, limit), false)
  {
    hide Records, Offset, Fits, Indexes, Messages, ReadTargetPosition, DecodeMessageAt, Floor;
    FitsBytes(base, log);
    FloorBefore(base, es, Entry(|log| + 1, |Records(base, log)|), messageSeq);
    var i := FloorIsRecord(base, log, es, messageSeq);
    TargetAhead(base, log, rest, fileSize, i, messageSeq);
    ReadsRecords(base, log, rest, fileSize, messageSeq - base - 1, limit);
    var window := Window(base, log, messageSeq - base - 1, limit);
    assert window + [] == window;
  }

  lemma FloorBefore(base: uint32, es: seq<Entry>, e: Entry, target: uint32)
    requires base + e.relative > target
    ensures Floor(base, es + [e], target) == Floor(base, es, target)
  {
    assert (es + [e])[..|es|] == es;
  }

  lemma FloorAt(base: uint32, es: seq<Entry>, e: Entry, target: uint32)
    requires base + e.relative == target
    ensures Floor(base, es + [e], target) == SeqPosition(target, e.position)
  {
  }

  /**
   * The first message written behind torn bytes has the number of the torn record, and reading it finds that record:
   * its beginning with the new bytes behind it. They are taken for a message if the end magic happens to be where
   * the torn record would have had it; otherwise the read fails.
   */
  lemma ReadOfTheNew(base: uint32, log: seq<bytes>, m: Message, t: nat, data: bytes, es: seq<Entry>, due: bool,
                     limit: nat)
    requires Fits(base, log) && Indexes(base, log, es) && data != [] && limit > 0
    requires Encodable(m) && m.seqNo == base + |log| + 1 && 15 <= t < |Encode(m)|
    ensures var joined, all := Encode(m)[..t] + data, EntriesAfter(es, |log| + 1, |Records(base, log)|, due);
      var r := Reads(Records(base, log) + joined, |Records(base, log)| + |data|, Floor(base, all, m.seqNo), m.seqNo,
        limit);
      if EndsAt(joined, |m.data|)
      then r.0 != [] && r.0[0] == Message(m.seqNo, joined[HEADER_LEN..HEADER_LEN + |m.data|])
      else r == ([], true)
  {
    hide Records, Offset, Fits, Indexes, Messages, DecodeMessageAt, DecodeMessageSeq, Encode, EndsAt;
    FitsBytes(base, log);
    var end, joined := |Records(base, log)|, Encode(m)[..t] + data;
    TornThenData(m, t, data);
    DecodeBehind(Records(base, log), joined);
    if due {
      FloorAt(base, es, Entry(|log| + 1, end), m.seqNo);
    } else {
      var i := FloorIsRecord(base, log, es, m.seqNo);
      TargetAhead(base, log, joined, end + |data|, i, m.seqNo);
    }
  }

  lemma BatchIsNotEmpty(msgs: seq<Message>)
    requires msgs != []
    ensures FirstBytes(msgs, |msgs|) != []
  {
    hide FirstBytes, Encode;
    EncodeAllStep(msgs, |msgs| - 1);
    assert |Encode(msgs[|msgs| - 1])| > 0;
  }

  /** An append to a segment with torn bytes, and the next read of what it wrote. */
  method AppendAndRead(seg: Segment, msgs: seq<Message>, limit: nat, ghost m: Message)
    returns (out: seq<Message>, err: bool)
    requires seg.Valid() && msgs != [] && limit > 0 && Fits(seg.base, seg.log + Bodies(msgs))
    requires forall i :: 0 <= i < |msgs| ==> msgs[i].seqNo == seg.base + |seg.log| + 1 + i
    requires Encodable(m) && m.seqNo == msgs[0].seqNo && 15 <= |seg.tail| && seg.tail < Encode(m)
    modifies seg, seg.index`position, seg.index.mmap
    ensures var joined := old(seg.tail) + FirstBytes(msgs, |msgs|);
      if EndsAt(joined, |m.data|)
      then out != [] && out[0] == Message(m.seqNo, joined[HEADER_LEN..HEADER_LEN + |m.data|])
      else out == [] && err
  {
    hide Encode, FirstBytes, Records, Fits, Indexes, Index.Entries, Index.Valid, Reads, EndsAt, Bodies;
    ghost var es, log, tail := seg.index.Entries(), seg.log, seg.tail;
    ghost var data := FirstBytes(msgs, |msgs|);
    ghost var due := EntryDue(seg.bytesSince, |data|, seg.index.IsFull());
    FitsPrefix(seg.base, log, Bodies(msgs), 0);
    BatchIsNotEmpty(msgs);
    var n := seg.AppendMessages(msgs);
    assert tail == Encode(m)[..|tail|];
    assert Records(seg.base, log) + tail + data == Records(seg.base, log) + (tail + data);
    ReadOfTheNew(seg.base, log, m, |tail|, data, es, due, limit);
    out, err := seg.ReadMessages(msgs[0].seqNo, limit);
  }
}
