/** One file of a topic's log, its write position and its sparse index (segment.go). */
module Segments {
  import opened Bytes
  import opened Wrappers
  import opened Chunks
  import opened Record
  import opened LogFile
  import opened SegmentIndex
  import opened Recovery

  const INDEX_INTERVAL := 4 * 1024

  /** The messages of a window of a log: from record i on, at most limit. */
  function Window(base: nat, log: seq<bytes>, i: nat, limit: nat): seq<Message>
    requires i <= |log|
  {
    Messages(base, log)[i..Min(i + limit, |log|)]
  }

  function Bodies(ms: seq<Message>): (log: seq<bytes>)
    ensures |log| == |ms|
    ensures forall i :: 0 <= i < |ms| ==> log[i] == ms[i].data
  {
    seq(|ms|, i requires 0 <= i < |ms| => ms[i].data)
  }

  /**
   * What a segment went through since it was opened: where its records ended then, how many index entries it had,
   * and the sizes of the batches, in order, that got an entry.
   */
  datatype Since = Since(origin: nat, kept: nat, batches: seq<nat>)

  /** A batch of n bytes gets an entry when it is long, or when enough was written since the last entry. */
  predicate EntryDue(bytesSince: nat, n: nat, full: bool) {
    !full && (bytesSince > 4096 || n > 4096)
  }

  /** Bounds on how far a lookup has to scan in what was appended since the segment was opened. */
  ghost predicate Sparse(es: seq<Entry>, since: Since, position: nat, bytesSince: nat, full: bool) {
    var (origin, kept, batches) := (since.origin, since.kept, since.batches);
    && |es| == kept + |batches|
    && (batches == [] && !full ==> position - origin == bytesSince <= 8192)
    && (batches != [] ==> origin <= es[kept].position <= origin + 8192)
    && (forall j :: 0 <= j < |batches| - 1 ==>
        es[kept + j + 1].position - es[kept + j].position <= Max(8192, batches[j]))
    && (batches != [] && !full ==>
        position - es[|es| - 1].position == bytesSince <= Max(8192, batches[|batches| - 1]))
  }

  /** The bytes of the first i messages of a batch. */
  function FirstBytes(msgs: seq<Message>, i: nat): bytes
    requires i <= |msgs|
  {
    Flatten(EncodeAll(msgs[..i]))
  }

  lemma EncodeAllStep(msgs: seq<Message>, i: nat)
    requires i < |msgs|
    ensures FirstBytes(msgs, i + 1) == FirstBytes(msgs, i) + Encode(msgs[i])
    ensures FirstBytes(msgs, 0) == []
  {
    hide Encode;
    assert EncodeAll(msgs[..i + 1]) == EncodeAll(msgs[..i]) + [Encode(msgs[i])];
    FlattenAppend(EncodeAll(msgs[..i]), [Encode(msgs[i])]);
    FlattenOne(Encode(msgs[i]));
  }

  method EncodeBatch(msgs: seq<Message>) returns (firstData: bytes)
    requires |msgs| > 0
    ensures firstData == FirstBytes(msgs, |msgs|)
  {
    hide Encode;
    firstData := Encode(msgs[0]);
    EncodeAllStep(msgs, 0);
    var i := 1;
    while i < |msgs|
      invariant 1 <= i <= |msgs|
      invariant firstData == FirstBytes(msgs, i)
    {
      EncodeAllStep(msgs, i);
      firstData := firstData + Encode(msgs[i]);
      i := i + 1;
    }
  }

  /** The index after a batch of n bytes at position, its first message having this relative number. */
  function EntriesAfter(es: seq<Entry>, number: nat, position: nat, due: bool): seq<Entry>
    requires due ==> number < TWO32 && position < TWO32
  {
    if due then es + [Entry(number, position)] else es
  }

  function SinceAfter(since: Since, n: nat, due: bool): Since {
    if due then since.(batches := since.batches + [n]) else since
  }

  function BytesAfter(bytesSince: nat, n: nat): nat {
    if bytesSince > 4096 || n > 4096 then n else bytesSince + n
  }

  /** Appending a batch keeps the entries dense, whether or not it gets one. */
  lemma SparseGrow(es: seq<Entry>, since: Since, position: nat, bytesSince: nat, full: bool, n: nat, number: uint32,
                   fullNow: bool)
    requires position + n < TWO32 && Sparse(es, since, position, bytesSince, full) && (full ==> fullNow)
    ensures var due := EntryDue(bytesSince, n, full);
      (!due ==> fullNow == full) ==>
        Sparse(EntriesAfter(es, number, position, due), SinceAfter(since, n, due), position + n,
               BytesAfter(bytesSince, n), fullNow)
  {
    if EntryDue(bytesSince, n, full) {
      var (kept, batches) := (since.kept, since.batches);
      var es', batches' := es + [Entry(number, position)], batches + [n];
      forall j | 0 <= j < |batches'| - 1
        ensures es'[kept + j + 1].position - es'[kept + j].position <= Max(8192, batches'[j])
      {
        assert es'[kept + j] == es[kept + j] && batches'[j] == batches[j];
        if j < |batches| - 1 { assert es'[kept + j + 1] == es[kept + j + 1]; }
      }
    }
  }

  /** The bytes of a batch are the records it adds to the file. */
  lemma BatchBytes(base: nat, log: seq<bytes>, msgs: seq<Message>)
    requires forall i :: 0 <= i < |msgs| ==> msgs[i].seqNo == base + |log| + 1 + i
    ensures Records(base, log + Bodies(msgs)) == Records(base, log) + FirstBytes(msgs, |msgs|)
  {
    hide Encode, EncodeAll, Flatten;
    assert Messages(base + |log|, Bodies(msgs)) == msgs == msgs[..|msgs|];
    RecordsAppend(base, log, Bodies(msgs));
  }

  /** The index stays correct when the log grows, with or without an entry for the new batch. */
  lemma IndexesGrow(base: uint32, log: seq<bytes>, more: seq<bytes>, es: seq<Entry>)
    requires Indexes(base, log, es) && Fits(base, log) && Fits(base, log + more) && more != []
    ensures Indexes(base, log + more, es)
    ensures Indexes(base, log + more, es + [Entry(|log| + 1, |Records(base, log)|)])
  {
    hide Records, Offset;
    FitsNumbers(base, log + more);
    FitsBytes(base, log);
    forall i | 0 <= i <= |log|
      ensures Offset(base, log + more, i) == Offset(base, log, i)
    {
      OffsetOfPrefix(base, log, log + more, i);
    }
    OffsetEnd(base, log);
  }

  lemma IndexesOrdered(base: uint32, log: seq<bytes>, es: seq<Entry>)
    requires Indexes(base, log, es)
    ensures Ordered(base, es)
  {
  }

  lemma NoBytes(msgs: seq<Message>)
    requires msgs == []
    ensures FirstBytes(msgs, |msgs|) == []
  {
  }

  lemma OnlyEmptyIsEmpty(base: nat, log: seq<bytes>)
    ensures Records(base, log) == [] <==> log == []
  {
    hide Records, Offset;
    OffsetStart(base, log);
    OffsetEnd(base, log);
    OffsetMonotone(base, log, 0, |log|);
  }

  /** All that one batch changes, on values. */
  lemma BatchGrows(base: uint32, log: seq<bytes>, msgs: seq<Message>, es: seq<Entry>)
    requires Indexes(base, log, es) && Fits(base, log) && Fits(base, log + Bodies(msgs)) && msgs != []
    requires forall i :: 0 <= i < |msgs| ==> msgs[i].seqNo == base + |log| + 1 + i
    ensures var all := log + Bodies(msgs);
      && Records(base, all) == Records(base, log) + FirstBytes(msgs, |msgs|)
      && |Records(base, log)| + |FirstBytes(msgs, |msgs|)| < TWO32
      && base + |log| + |msgs| < TWO32 && |all| == |log| + |msgs|
      && Indexes(base, all, es)
      && Indexes(base, all, es + [Entry(|log| + 1, |Records(base, log)|)])
  {
    hide Records, Offset, Indexes, Fits, FirstBytes;
    BatchBytes(base, log, msgs);
    IndexesGrow(base, log, Bodies(msgs), es);
    FitsNumbers(base, log + Bodies(msgs));
    FitsBytes(base, log + Bodies(msgs));
  }

  datatype Target = Found(position: nat) | NotData | Failed

  /** Scans from one message to the next until the one with the wanted number. */
  function ReadTargetPosition(file: bytes, fileSize: nat, start: nat, target: uint32): Target
    decreases if start <= fileSize then fileSize - start else 0
  {
    if start >= fileSize then NotData else
    match DecodeMessageSeq(file, start)
    case None => Failed
    case Some((seqNo, dataLen)) =>
      if seqNo == target then Found(start)
      else ReadTargetPosition(file, fileSize, start + MIN_LEN + dataLen, target)
  }

  /** All that start-up concludes from a file left by a crash. */
  lemma CrashRecovered(file: bytes, base: uint32, log: seq<bytes>, torn: bytes, es: seq<Entry>, maxMessageSize: nat)
    requires LeftByCrash(file, base, log, torn) && Indexes(base, log, es)
    ensures var o := SanityCheck(file, LastEntry(base, es), maxMessageSize);
      && LastSeq(o, base) == Some(base + |log|) && o.position == |Records(base, log)| && Fits(base, log)
      && o.file == Records(base, log) + if TornKept(file, base, log, torn, es, maxMessageSize) then torn else []
    ensures TornKept(file, base, log, torn, es, maxMessageSize) ==> log != []
  {
    hide SanityCheck, Records, LeftByCrash, Indexes, LastSeq, LastEntry, Fits;
    SanityCheckRecovers(file, base, log, torn, es, maxMessageSize);
    CrashParts(file, base, log, torn);
    assert Records(base, log) + [] == Records(base, log);
    var o := SanityCheck(file, LastEntry(base, es), maxMessageSize);
    assert Records(base, log) <= o.file;
    LastSeqRecovered(o, base, log);
  }

  /** The scan over whole records finds the message if it lies ahead, and otherwise goes on behind them. */
  lemma {:induction false} TargetAhead(base: uint32, log: seq<bytes>, rest: bytes, fileSize: nat, i: nat,
                                       target: uint32)
    requires Fits(base, log) && i <= |log| && |Records(base, log)| <= fileSize
    ensures var file := Records(base, log) + rest;
      ReadTargetPosition(file, fileSize, Offset(base, log, i), target) ==
      if base + i < target <= base + |log| then Found(Offset(base, log, target - base - 1))
      else ReadTargetPosition(file, fileSize, |Records(base, log)|, target)
    decreases |log| - i
  {
    hide Records, Offset, Fits, DecodeMessageSeq, DecodeMessageAt, NextMessageIsValid;
    OffsetEnd(base, log);
    OffsetMonotone(base, log, i, |log|);
    if i < |log| {
      RecordsAt(base, log, rest, i);
      TargetAhead(base, log, rest, fileSize, i + 1, target);
    }
  }

  /** On a file of whole records the scan finds the message if it lies ahead, and otherwise reaches their end. */
  lemma TargetIs(base: uint32, log: seq<bytes>, tail: bytes, fileSize: nat, i: nat, target: uint32)
    requires Fits(base, log) && i <= |log|
    requires if log == [] then tail == [] else fileSize == |Records(base, log)|
    ensures ReadTargetPosition(Records(base, log) + tail, fileSize, Offset(base, log, i), target) ==
            if log == [] && fileSize > 0 then Failed
            else if base + i < target <= base + |log| then Found(Offset(base, log, target - base - 1))
            else NotData
  {
    hide Records, Offset, Fits, DecodeMessageSeq;
    OffsetStart(base, log);
    TargetAhead(base, log, tail, fileSize, i, target);
    if log == [] {
      NothingPastTheEnd(Records(base, log) + tail, 0);
    }
  }

  /** What the reading loop delivers from a position on, and whether it ends in an error. */
  function ReadFrom(file: bytes, fileSize: nat, start: nat, limit: nat): (seq<Message>, bool)
    decreases limit
  {
    if start >= fileSize || limit == 0 then ([], false) else
    var decoded := DecodeMessageAt(file, start);
    if !decoded.Ok? then ([], true) else
    var rest := ReadFrom(file, fileSize, start + decoded.value.1, limit - 1);
    ([decoded.value.0] + rest.0, rest.1)
  }

  /** Reading delivers the messages of the records that lie ahead, then whatever comes behind them. */
  lemma {:induction false} ReadsRecords(base: nat, log: seq<bytes>, rest: bytes, fileSize: nat, i: nat, limit: nat)
    requires Fits(base, log) && i <= |log| && |Records(base, log)| <= fileSize
    ensures var file := Records(base, log) + rest;
      var n := Min(limit, |log| - i);
      var more := ReadFrom(file, fileSize, |Records(base, log)|, limit - n);
      ReadFrom(file, fileSize, Offset(base, log, i), limit) == (Window(base, log, i, limit) + more.0, more.1)
    decreases |log| - i
  {
    hide Records, Offset, Fits, DecodeMessageSeq, DecodeMessageAt, NextMessageIsValid, Messages;
    OffsetEnd(base, log);
    OffsetMonotone(base, log, i, |log|);
    var file := Records(base, log) + rest;
    if i < |log| && limit > 0 {
      RecordsAt(base, log, rest, i);
      ReadsRecords(base, log, rest, fileSize, i + 1, limit - 1);
      assert Window(base, log, i, limit) == [Message(base + 1 + i, log[i])] + Window(base, log, i + 1, limit - 1);
      var more := ReadFrom(file, fileSize, |Records(base, log)|, limit - Min(limit, |log| - i));
      assert [Message(base + 1 + i, log[i])] + (Window(base, log, i + 1, limit - 1) + more.0)
        == Window(base, log, i, limit) + more.0;
    } else {
      var more := ReadFrom(file, fileSize, |Records(base, log)|, limit);
      assert Window(base, log, i, limit) == [] && [] + more.0 == more.0;
    }
  }

  /** The whole of readMessages: look up, scan to the message, read from there. */
  function Reads(file: bytes, fileSize: nat, at: SeqPosition, messageSeq: uint32, limit: nat): (seq<Message>, bool) {
    if at.seqNo == messageSeq then ReadFrom(file, fileSize, at.position, limit) else
    match ReadTargetPosition(file, fileSize, at.position, messageSeq)
    case NotData => ([], false)
    case Failed => ([], true)
    case Found(p) => ReadFrom(file, fileSize, p, limit)
  }

  /** A lookup yields the position of a record at or before the wanted one. */
  lemma FloorIsRecord(base: uint32, log: seq<bytes>, es: seq<Entry>, messageSeq: uint32) returns (i: nat)
    requires Fits(base, log) && Indexes(base, log, es)
    ensures var at := Floor(base, es, messageSeq);
      && i <= |log| && at.position == Offset(base, log, i)
      && (at.seqNo == messageSeq ==>
          (messageSeq == base && i == 0) || (messageSeq == base + i + 1 && i < |log|))
      && (base < messageSeq ==> base + i < messageSeq)
      && (base == messageSeq ==> at.seqNo == messageSeq)
  {
    hide Records, Offset, Fits;
    var at := Floor(base, es, messageSeq);
    FloorIsEntry(base, es, messageSeq);
    OffsetStart(base, log);
    i := if exists j :: 0 <= j < |es| && at == SeqPosition(base + es[j].relative, es[j].position)
         then at.seqNo - base - 1 else 0;
  }

  /** On a segment in good order readMessages delivers the window from the number on. */
  lemma ReadsAre(base: uint32, log: seq<bytes>, tail: bytes, fileSize: nat, es: seq<Entry>, messageSeq: uint32,
                 limit: nat)
    requires Fits(base, log) && Indexes(base, log, es)
    requires if log == [] then tail == [] else fileSize == |Records(base, log)|
    ensures var stale := log == [] && fileSize > 0;
      Reads(Records(base, log) + tail, fileSize, Floor(base, es, messageSeq), messageSeq, limit) ==
      ( if messageSeq == base then Window(base, log, 0, limit)
        else if base < messageSeq <= base + |log| then Window(base, log, messageSeq - base - 1, limit) else [],
        stale && (messageSeq != base || limit > 0))
  {
    hide Records, Offset, Fits, Floor, Indexes, Messages, ReadTargetPosition, ReadFrom, Window;
    var i := FloorIsRecord(base, log, es, messageSeq);
    OffsetStart(base, log);
    FitsNumbers(base, log);
    TargetIs(base, log, tail, fileSize, i, messageSeq);
    if messageSeq == base {
      ReadsFromIs(base, log, tail, fileSize, i, limit);
    } else if base < messageSeq <= base + |log| {
      ReadsFromIs(base, log, tail, fileSize, messageSeq - base - 1, limit);
    }
  }

  lemma ReadsFromIs(base: uint32, log: seq<bytes>, tail: bytes, fileSize: nat, i: nat, limit: nat)
    requires Fits(base, log) && i <= |log|
    requires if log == [] then tail == [] else fileSize == |Records(base, log)|
    ensures ReadFrom(Records(base, log) + tail, fileSize, Offset(base, log, i), limit) ==
            (Window(base, log, i, limit), log == [] && fileSize > 0 && limit > 0)
  {
    hide Records, Offset, Fits, Messages, DecodeMessageAt;
    OffsetStart(base, log);
    ReadsRecords(base, log, tail, fileSize, i, limit);
    var window := Window(base, log, i, limit);
    assert window + [] == window;
    if log == [] {
      NothingPastTheEnd(Records(base, log) + tail, 0);
    }
  }

  /** What Floor returns is the base, when every entry is above the target, or an entry. */
  lemma {:induction false} FloorIsEntry(base: uint32, es: seq<Entry>, target: uint32)
    requires Ordered(base, es)
    ensures var r := Floor(base, es, target);
      || (r == SeqPosition(base, 0) && forall j :: 0 <= j < |es| ==> base + es[j].relative > target)
      || (r.seqNo <= target && exists j :: 0 <= j < |es| && r == SeqPosition(base + es[j].relative, es[j].position))
  {
    if es != [] {
      var last, rest := |es| - 1, es[..|es| - 1];
      FloorIsEntry(base, rest, target);
      var r := Floor(base, rest, target);
      if base + es[last].relative > target && r.seqNo <= target &&
         exists j :: 0 <= j < |rest| && r == SeqPosition(base + rest[j].relative, rest[j].position) {
        var j :| 0 <= j < |rest| && r == SeqPosition(base + rest[j].relative, rest[j].position);
        assert r == SeqPosition(base + es[j].relative, es[j].position);
      } else if base + es[last].relative <= target {
        assert Floor(base, es, target) == SeqPosition(base + es[last].relative, es[last].position);
      }
    }
  }

  class Segment {
    const base: uint32
    const index: Index
    const maxMessageSize: nat
    var file: bytes
    var position: nat
    var lastMsgSeq: nat
    var fileSize: nat
    var bytesSince: nat
    ghost var log: seq<bytes>
    ghost var tail: bytes          // bytes of a torn record that start-up left in the file
    ghost var since: Since

    ghost function Repr(): set<object> {
      {this, index, index.mmap}
    }

    ghost predicate Valid()
      reads this, index, index.mmap
    {
      && index.Valid() && index.base == base
      && Fits(base, log)
      && file == Records(base, log) + tail
      && (log == [] ==> tail == []) && TornRecord(tail)
      && position == |Records(base, log)|
      && lastMsgSeq == base + |log|
      && Indexes(base, log, index.Entries())
    }

    /** The entries made since the segment was opened are dense enough. */
    ghost predicate Tracked()
      requires index.Valid()
      reads this, index, index.mmap
    {
      Sparse(index.Entries(), since, position, bytesSince, index.IsFull())
    }

    /** newSegment: nothing is known about the file before init. */
    constructor (base: uint32, file: bytes, indexFile: bytes, maxMessageSize: nat)
      ensures this.base == base && this.file == file && this.maxMessageSize == maxMessageSize
      ensures position == 0 && fileSize == 0 && bytesSince == 0 && log == []
      ensures fresh(index) && fresh(index.mmap) && index.base == base
      ensures SegmentIndex.CleanTail(indexFile) ==> index.Valid() && index.Entries() == RecoveredEntries(indexFile)
    {
      this.base := base;
      this.file := file;
      this.maxMessageSize := maxMessageSize;
      index := new Index.Open(indexFile, base);
      position, lastMsgSeq, fileSize, bytesSince := 0, 0, 0, 0;
      log, tail, since := [], [], Since(0, 0, []);
    }

    // ------------------------------------------------------------ recovery

    method Check() returns (lastStart: nat)
      requires |file| < TWO32
      modifies this`file, this`position
      ensures Opened(position, lastStart, file) == FullCheck(old(file))
    {
      hide NextMessageIsValid;
      var checkPosition: nat, lastMsgLen: nat := 0, 0;
      while checkPosition < |file|
        invariant lastMsgLen <= checkPosition <= |file|
        invariant FullScan(file, 0, 0) == FullScan(file, checkPosition, lastMsgLen)
      {
        var probe := NextMessageIsValid(file, checkPosition);
        if !probe.Valid? {
          break;
        }
        checkPosition := checkPosition + probe.len;
        lastMsgLen := probe.len;
      }
      position := checkPosition;
      if position != |file| {
        file := file[..position];
      }
      lastStart := checkPosition - lastMsgLen;
    }

    /** The loop of the simple check. */
    method ScanFrom(start: nat) returns (checkPosition: nat, lastMsgLen: nat)
      ensures SimpleScan(file, start, 0) == Scan(checkPosition, lastMsgLen)
    {
      hide NextMessageIsValid;
      checkPosition, lastMsgLen := start, 0;
      while checkPosition < |file|
        invariant start <= checkPosition && lastMsgLen <= checkPosition
        invariant SimpleScan(file, start, 0) == SimpleScan(file, checkPosition, lastMsgLen)
      {
        var probe := NextMessageIsValid(file, checkPosition);
        match probe {
          case EndOfFile(_) =>
            break;
          case Corrupt(read) =>
            checkPosition := checkPosition + read;
          case Valid(len) =>
            lastMsgLen := len;
            checkPosition := checkPosition + len;
        }
      }
    }

    method SanitySimpleCheck() returns (ok: bool, lastStart: nat)
      requires index.Valid()
      modifies this`position
      ensures var o := SimpleCheck(file, LastEntry(index.base, index.Entries()), maxMessageSize);
        && (ok <==> o.Some?)
        && (ok ==> position == o.value.position && lastStart == o.value.lastStart)
        && (!ok ==> position == old(position))
    {
      hide SimpleScan, Index.Entries;
      lastStart := 0;
      if maxMessageSize + MIN_LEN >= |file| {
        return false, 0;
      }
      var last := index.LastPosition();
      if last.position == 0 && last.seqNo == 0 {
        return false, 0;
      }
      var checkPosition, lastMsgLen := ScanFrom(last.position);
      if lastMsgLen == 0 {
        return false, 0;
      }
      position := checkPosition;
      return true, checkPosition - lastMsgLen;
    }

    method CheckSanity() returns (lastStart: nat)
      requires |file| < TWO32 && index.Valid() && position == 0
      modifies this`file, this`position
      ensures Opened(position, lastStart, file)
           == SanityCheck(old(file), LastEntry(index.base, index.Entries()), maxMessageSize)
    {
      if |file| == 0 {
        return 0;
      }
      if file[|file| - 1..] != END_MAGIC {
        lastStart := Check();
        return;
      }
      if |file| <= maxMessageSize + MIN_LEN {
        lastStart := Check();
        return;
      }
      var ok;
      ok, lastStart := SanitySimpleCheck();
      if !ok {
        lastStart := Check();
      }
    }

    /** The end of init: the number of the last message. */
    method ReadLastSeq(lastStart: nat) returns (err: bool)
      modifies this`lastMsgSeq
      ensures var seqNo := LastSeq(Opened(position, lastStart, file), base);
        (err <==> seqNo.None?) && (!err ==> lastMsgSeq == seqNo.value)
    {
      hide DecodeMessageSeq;
      if lastStart == 0 {
        lastMsgSeq := if position > 0 then (base + 1) % TWO32 else base;
      } else {
        var decoded := DecodeMessageSeq(file, lastStart);
        if decoded.None? {
          return true;
        }
        lastMsgSeq := decoded.value.0;
      }
      return false;
    }

    /** init; the ghost parameters name the log a crash may have left, for the last clause. */
    method Init(ghost log0: seq<bytes>, ghost torn: bytes) returns (err: bool)
      requires |file| < TWO32 && index.Valid() && index.base == base
      requires position == 0 && fileSize == 0 && bytesSince == 0
      modifies this
      ensures fileSize == |old(file)| && Tracked()
      ensures since == Since(position, |index.Entries()|, [])
      ensures var o := SanityCheck(old(file), LastEntry(base, index.Entries()), maxMessageSize);
        && position == o.position && file == o.file
        && (err <==> LastSeq(o, base).None?)
        && (!err ==> lastMsgSeq == LastSeq(o, base).value)
      ensures LeftByCrash(old(file), base, log0, torn) && Indexes(base, log0, index.Entries()) ==>
        && !err && Valid() && log == log0
        && position == |Records(base, log0)| && lastMsgSeq == base + |log0|
        && tail == if TornKept(old(file), base, log0, torn, index.Entries(), maxMessageSize) then torn else []
    {
      hide SanityCheck, LastSeq, Records, LeftByCrash, Indexes, Index.Entries, TornKept, Fits;
      fileSize := |file|;
      ghost var es := index.Entries();
      ghost var start := file;
      var lastStart := CheckSanity();
      ghost var o := SanityCheck(start, LastEntry(base, es), maxMessageSize);
      log, since := log0, Since(position, |es|, []);
      tail := if TornKept(start, base, log0, torn, es, maxMessageSize) then torn else [];
      err := ReadLastSeq(lastStart);
      if LeftByCrash(start, base, log0, torn) && Indexes(base, log0, es) {
        CrashRecovered(start, base, log0, torn, es, maxMessageSize);
        CrashParts(start, base, log0, torn);
        NothingIsTorn();
      }
    }

    // ------------------------------------------------------------ appending

    method Append(data: bytes) returns (n: nat)
      requires position + |data| < TWO32
      modifies this`file, this`position
      ensures file == old(file) + data && position == old(position) + n && n == |data|
    {
      file := file + data;
      n := |data|;
      position := position + n;
    }

    /** The second half of appendMessages: add an index entry for the batch just written if one is due. */
    method IndexBatch(first: uint32, n: nat)
      requires index.Valid() && index.base == base < first && n <= position < TWO32
      modifies this`bytesSince, this`since, index`position, index.mmap
      ensures index.Valid()
      ensures var due := EntryDue(old(bytesSince), n, old(index.IsFull()));
        && index.Entries() == EntriesAfter(old(index.Entries()), first - base, position - n, due)
        && since == SinceAfter(old(since), n, due)
        && bytesSince == BytesAfter(old(bytesSince), n)
      ensures old(Sparse(index.Entries(), since, position - n, bytesSince, index.IsFull())) ==> Tracked()
    {
      hide Index.Entries, Sparse;
      ghost var es := index.Entries();
      ghost var due := EntryDue(bytesSince, n, index.IsFull());
      if Sparse(es, since, position - n, bytesSince, index.IsFull()) {
        SparseGrow(es, since, position - n, bytesSince, index.IsFull(), n, first - base,
          |EntriesAfter(es, first - base, position - n, due)| * ENTRY_SIZE >= MAX_BYTES);
      }
      since := SinceAfter(since, n, due);
      if bytesSince > INDEX_INTERVAL || n > INDEX_INTERVAL {
        index.Append(first, position - n);
        bytesSince := 0;
      }
      bytesSince := bytesSince + n;
    }

    /**
     * Writes a batch at the end of the file. Behind torn bytes it is not where position says: the log of what can be
     * read stays as it was.
     */
    method AppendMessages(msgs: seq<Message>) returns (n: nat)
      requires Valid() && Fits(base, log + Bodies(msgs))
      requires forall i :: 0 <= i < |msgs| ==> msgs[i].seqNo == base + |log| + 1 + i
      modifies this, index`position, index.mmap
      ensures n == |FirstBytes(msgs, |msgs|)|
      ensures file == old(file) + FirstBytes(msgs, |msgs|) && position == old(position) + n < TWO32
      ensures lastMsgSeq == old(lastMsgSeq) + |msgs| < TWO32 && tail == old(tail) && fileSize == old(fileSize)
      ensures if old(tail) == [] || msgs == [] then Valid() && log == old(log) + Bodies(msgs) else log == old(log)
      ensures Readable()
      ensures var due := msgs != [] && EntryDue(old(bytesSince), n, old(index.IsFull()));
        && index.Entries() == EntriesAfter(old(index.Entries()), |old(log)| + 1, old(position), due)
        && since == SinceAfter(old(since), n, due)
      ensures bytesSince == if msgs == [] then old(bytesSince) else BytesAfter(old(bytesSince), n)
      ensures |index.Entries()| == |old(index.Entries())|
        + if msgs != [] && !old(index.IsFull()) && (old(bytesSince) > 4096 || n > 4096) then 1 else 0
      ensures old(Tracked()) ==> Tracked()
    {
      hide Records, Encode, Offset, Index.Entries, Fits, Indexes, Sparse, FirstBytes, Index.Valid, Bodies, Messages,
        Ordered;
      if |msgs| == 0 {
        n := 0;
        NoBytes(msgs);
        FitsNumbers(base, log);
        FitsBytes(base, log);
        IndexesOrdered(base, log, index.Entries());
        assert log + Bodies(msgs) == log && file + [] == file;
        return;
      }
      ghost var es := index.Entries();
      ghost var all := log + Bodies(msgs);
      BatchGrows(base, log, msgs, es);
      var firstData := EncodeBatch(msgs);
      n := Append(firstData);
      IndexBatch(msgs[0].seqNo, n);
      IndexesOrdered(base, all, index.Entries());
      if tail == [] { log := all; }
      lastMsgSeq := lastMsgSeq + |msgs|;
    }

    // -------------------------------------------------------------- reading

    function GetFileSize(): nat
      reads this
    {
      if position == 0 then fileSize else position
    }

    /** A segment recovered without a single whole record still remembers the size of the torn file. */
    ghost predicate Stale()
      reads this
    {
      position == 0 && fileSize > 0
    }

    /** What reading needs, also when something was written behind torn bytes. */
    ghost predicate Readable()
      reads this, index, index.mmap
    {
      index.Valid() && index.base == base && Ordered(base, index.Entries())
    }

    lemma ValidIsReadable()
      requires Valid()
      ensures Readable()
    {
      hide Index.Valid, Index.Entries, Fits, Records, Offset, Ordered;
      IndexesOrdered(base, log, index.Entries());
    }

    method ReadMessagesAtPosition(start: nat, limit: nat) returns (out: seq<Message>, err: bool)
      ensures (out, err) == ReadFrom(file, GetFileSize(), start, limit)
    {
      hide DecodeMessageAt;
      var count, from: nat := 0, start;
      out, err := [], false;
      ghost var all := ReadFrom(file, GetFileSize(), start, limit);
      assert [] + all.0 == all.0;
      while from < GetFileSize() && count < limit
        invariant count <= limit && !err
        invariant var rest := ReadFrom(file, GetFileSize(), from, limit - count);
          out + rest.0 == all.0 && rest.1 == all.1 && out + [] == out
        decreases limit - count
      {
        var decoded := DecodeMessageAt(file, from);
        if !decoded.Ok? {
          err := true;
          return;
        }
        ghost var rest := ReadFrom(file, GetFileSize(), from + decoded.value.1, limit - count - 1).0;
        assert out + ([decoded.value.0] + rest) == (out + [decoded.value.0]) + rest;
        from := from + decoded.value.1;
        out := out + [decoded.value.0];
        count := count + 1;
      }
    }

    /** The index has room, or the message comes before its last entry. */
    ghost predicate Covers(messageSeq: uint32)
      requires index.Valid() && Tracked()
      reads this, index, index.mmap
    {
      index.IsFull() ==>
        since.batches != [] && messageSeq < base + index.Entries()[|index.Entries()| - 1].relative
    }

    /**
     * The position a lookup starts scanning from. It lies at most two index intervals, or the batch that was indexed
     * there, before the wanted message, as far as that was written since the opening.
     */
    method LookupPosition(messageSeq: uint32) returns (at: SeqPosition)
      requires Readable()
      ensures at == Floor(base, index.Entries(), messageSeq)
      ensures Valid() && Tracked() && base < messageSeq <= base + |log| && Covers(messageSeq) ==>
        ScanBounded(at.position, Offset(base, log, messageSeq - base - 1), index.Entries(), since)
    {
      hide Records, Offset, Index.Entries, Fits, Index.Valid, Indexes, Floor, Sparse, ScanBounded;
      at := index.Lookup(messageSeq);
      if Valid() && Tracked() && base < messageSeq <= base + |log| && Covers(messageSeq) {
        LookupScanIsBounded(base, log, index.Entries(), since, bytesSince, index.IsFull(), messageSeq);
      }
    }

    /** Everything from messageSeq on, at most limit; a number the segment does not hold gives nothing. */
    method ReadMessages(messageSeq: uint32, limit: nat) returns (out: seq<Message>, err: bool)
      requires Readable()
      ensures (out, err)
           == Reads(file, GetFileSize(), Floor(base, index.Entries(), messageSeq), messageSeq, limit)
      ensures Valid() ==>
        && out == (if messageSeq == base then Window(base, log, 0, limit)
                   else if base < messageSeq <= base + |log| then Window(base, log, messageSeq - base - 1, limit)
                   else [])
        && (err <==> Stale() && (messageSeq != base || limit > 0))
    {
      hide Records, Index.Entries, Fits, Index.Valid, Indexes, Floor, Sparse, ReadTargetPosition, ReadFrom, Ordered;
      if Valid() {
        OnlyEmptyIsEmpty(base, log);
        ReadsAre(base, log, tail, GetFileSize(), index.Entries(), messageSeq, limit);
      }
      var at := LookupPosition(messageSeq);
      var startPosition := 0;
      if at.seqNo == messageSeq {
        startPosition := at.position;
      } else {
        var target := ReadTargetPosition(file, GetFileSize(), at.position, messageSeq);
        match target {
          case NotData => return [], false;
          case Failed => return [], true;
          case Found(p) => startPosition := p;
        }
      }
      out, err := ReadMessagesAtPosition(startPosition, limit);
    }

    /** One message by its number. */
    method ReadMessageAt(messageSeq: uint32) returns (r: Option<Message>)
      requires Valid()
      ensures r == if base < messageSeq <= base + |log|
                   then Some(Message(messageSeq, log[messageSeq - base - 1])) else None
    {
      hide Records, Offset, Index.Entries, Fits, Index.Valid, Floor, DecodeMessageSeq, DecodeMessageAt,
        NextMessageIsValid;
      OffsetStart(base, log);
      OffsetEnd(base, log);
      OffsetMonotone(base, log, 0, |log|);
      FitsNumbers(base, log);
      var at := LookupPosition(messageSeq);
      ghost var i := FloorIsRecord(base, log, index.Entries(), messageSeq);
      var target := ReadTargetPosition(file, GetFileSize(), at.position, messageSeq);
      TargetIs(base, log, tail, GetFileSize(), i, messageSeq);
      if !target.Found? {
        return None;
      }
      RecordsAt(base, log, tail, messageSeq - base - 1);
      var decoded := DecodeMessageAt(file, target.position);
      r := if decoded.Ok? then Some(decoded.value.0) else None;
    }
  }

  /** How far the scan for a message goes beyond the entry it starts at, or beyond what was there at opening. */
  ghost predicate ScanBounded(start: nat, position: nat, es: seq<Entry>, since: Since)
    requires |es| == since.kept + |since.batches|
  {
    || (position - Max(start, since.origin) <= 8192)
    || (exists j :: 0 <= j < |since.batches| && start == es[since.kept + j].position
          && position - start <= Max(8192, since.batches[j]))
  }

  /**
   * While the index has room, or for a message before its last entry: the scan passes over at most two index
   * intervals, or the batch that was indexed, of what was appended since the segment was opened.
   */
  lemma LookupScanIsBounded(base: uint32, log: seq<bytes>, es: seq<Entry>, since: Since, bytesSince: nat, full: bool,
                            seqNo: uint32)
    requires Fits(base, log) && Indexes(base, log, es)
    requires Sparse(es, since, |Records(base, log)|, bytesSince, full)
    requires base < seqNo <= base + |log|
    requires full ==> since.batches != [] && seqNo < base + es[|es| - 1].relative
    ensures ScanBounded(Floor(base, es, seqNo).position, Offset(base, log, seqNo - base - 1), es, since)
  {
    hide Records, Offset, Fits, Floor;
    var (kept, batches) := (since.kept, since.batches);
    var k := seqNo - base - 1;
    OffsetEnd(base, log);
    OffsetMonotone(base, log, k, |log|);
    if batches != [] && base + es[kept].relative > seqNo {
      OffsetMonotone(base, log, k, es[kept].relative - 1);
    } else if batches != [] {
      var last := LastAtOrBelow(base, es, seqNo);
      FloorIs(base, es, seqNo, last);
      var j := last - kept;
      if last < |es| - 1 { OffsetMonotone(base, log, k, es[kept + j + 1].relative - 1); }
      assert Offset(base, log, k) - es[kept + j].position <= Max(8192, batches[j]);
    }
  }

  lemma {:induction false} LastAtOrBelow(base: uint32, es: seq<Entry>, seqNo: uint32) returns (j: nat)
    requires Ordered(base, es)
    requires exists j :: 0 <= j < |es| && base + es[j].relative <= seqNo
    ensures Splits(base, es, j, seqNo)
  {
    j := |es| - 1;
    while base + es[j].relative > seqNo
      invariant 0 <= j < |es|
      invariant forall i :: j < i < |es| ==> base + es[i].relative > seqNo
    {
      j := j - 1;
    }
  }
}
