/** What the start-up checks of a segment find in a file, as functions of its bytes (segment.go). */
module Recovery {
  import opened Bytes
  import opened Wrappers
  import opened Record
  import opened LogFile
  import opened SegmentIndex

  /** Where a scan stopped, and the length of the last message it accepted. */
  datatype Scan = Scan(end: nat, lastLen: nat)

  /** check: accept messages until one is not valid. */
  function FullScan(file: bytes, from: nat, lastLen: nat): (s: Scan)
    requires lastLen <= from <= |file|
    ensures s.lastLen <= s.end <= |file|
    decreases |file| - from
  {
    if from == |file| then Scan(from, lastLen) else
    match NextMessageIsValid(file, from)
    case Valid(len) => FullScan(file, from + len, len)
    case _ => Scan(from, lastLen)
  }

  /** sanitySimpleCheck: like check, but bytes that are no message are stepped over, two or seven at a time. */
  function SimpleScan(file: bytes, from: nat, lastLen: nat): (s: Scan)
    ensures s.lastLen <= Max(s.end, lastLen)
    ensures lastLen <= from ==> s.lastLen <= s.end
    ensures from <= s.end
    decreases |file| - from
  {
    if from >= |file| then Scan(from, lastLen) else
    match NextMessageIsValid(file, from)
    case Valid(len) => SimpleScan(file, from + len, len)
    case Corrupt(read) => SimpleScan(file, from + read, lastLen)
    case EndOfFile(_) => Scan(from, lastLen)
  }

  /** The full check stops at the first bytes that are no message, and at no others. */
  lemma {:induction false} FullScanEnds(file: bytes, from: nat, lastLen: nat)
    requires lastLen <= from <= |file|
    requires lastLen > 0 ==> NextMessageIsValid(file, from - lastLen) == Probe.Valid(lastLen)
    ensures var s := FullScan(file, from, lastLen);
      && from <= s.end <= |file|
      && (s.end < |file| ==> !NextMessageIsValid(file, s.end).Valid?)
      && (s.lastLen > 0 ==> NextMessageIsValid(file, s.end - s.lastLen) == Probe.Valid(s.lastLen))
      && (s.end == from <==> from == |file| || !NextMessageIsValid(file, from).Valid?)
    decreases |file| - from
  {
    hide NextMessageIsValid;
    if from < |file| && NextMessageIsValid(file, from).Valid? {
      var len := NextMessageIsValid(file, from).len;
      FullScanEnds(file, from + len, len);
    }
  }

  /** The simple check stops only where the file ends; what is no message in front of that, it steps over. */
  lemma {:induction false} SimpleScanEnds(file: bytes, from: nat, lastLen: nat)
    ensures var s := SimpleScan(file, from, lastLen);
      && (s.end >= |file| || NextMessageIsValid(file, s.end).EndOfFile?)
      && (s.lastLen == lastLen ||
          exists at :: from <= at < s.end && NextMessageIsValid(file, at) == Probe.Valid(s.lastLen))
      && (NextMessageIsValid(file, from).Valid? ==> s.end >= from + NextMessageIsValid(file, from).len)
    decreases |file| - from
  {
    hide NextMessageIsValid;
    if from < |file| {
      match NextMessageIsValid(file, from)
      case Valid(len) =>
        SimpleScanEnds(file, from + len, len);
      case Corrupt(read) =>
        SimpleScanEnds(file, from + read, lastLen);
      case EndOfFile(_) =>
    }
  }

  /** What opening a segment concludes: the write position, the start of the last message, the file kept. */
  datatype Opened = Opened(position: nat, lastStart: nat, file: bytes)

  function FullCheck(file: bytes): Opened {
    var s := FullScan(file, 0, 0);
    Opened(s.end, s.end - s.lastLen, file[..s.end])
  }

  /** The simple check starts at the last index entry; None when it gives up. */
  function SimpleCheck(file: bytes, last: SeqPosition, maxMessageSize: nat): Option<Opened> {
    if maxMessageSize + MIN_LEN >= |file| then None else
    if last.position == 0 && last.seqNo == 0 then None else
    var s := SimpleScan(file, last.position, 0);
    if s.lastLen == 0 then None else Some(Opened(s.end, s.end - s.lastLen, file))
  }

  function SanityCheck(file: bytes, last: SeqPosition, maxMessageSize: nat): Opened {
    if file == [] then Opened(0, 0, []) else
    if file[|file| - 1..] != END_MAGIC then FullCheck(file) else
    if |file| <= maxMessageSize + MIN_LEN then FullCheck(file) else
    match SimpleCheck(file, last, maxMessageSize)
    case Some(o) => o
    case None => FullCheck(file)
  }

  // ---------------------------------------------- files left by a process crash

  /** A proper prefix of a record. */
  ghost predicate TornRecord(torn: bytes) {
    exists m :: Encodable(m) && torn < Encode(m)
  }

  lemma NothingIsTorn()
    ensures TornRecord([])
  {
    hide Encode;
    var m := Message(0, []);
    assert Encodable(m) && [] < Encode(m);
  }

  /** The records of a log followed by a proper prefix of one more record. */
  ghost predicate LeftByCrash(file: bytes, base: nat, log: seq<bytes>, torn: bytes) {
    && Fits(base, log)
    && file == Records(base, log) + torn
    && TornRecord(torn)
  }

  /** Every index entry is the number and position of a record of the log. */
  ghost predicate Indexes(base: uint32, log: seq<bytes>, es: seq<Entry>) {
    && Ordered(base, es)
    && forall i :: 0 <= i < |es| ==>
        1 <= es[i].relative <= |log| && es[i].position == Offset(base, log, es[i].relative - 1)
  }

  function LastEntry(base: uint32, es: seq<Entry>): SeqPosition {
    if es == [] then SeqPosition(base, 0)
    else SeqPosition((base + es[|es| - 1].relative) % TWO32, es[|es| - 1].position)
  }

  function LastLen(log: seq<bytes>, from: nat): nat {
    if from < |log| then MIN_LEN + |log[|log| - 1]| else 0
  }

  lemma CrashParts(file: bytes, base: nat, log: seq<bytes>, torn: bytes)
    requires LeftByCrash(file, base, log, torn)
    ensures Fits(base, log) && file == Records(base, log) + torn && TornRecord(torn)
  {
  }

  lemma TornProbe(file: bytes, base: nat, log: seq<bytes>, torn: bytes)
    requires LeftByCrash(file, base, log, torn)
    ensures NextMessageIsValid(file, |Records(base, log)|).EndOfFile?
  {
    var start := |Records(base, log)|;
    var m :| Encodable(m) && torn < Encode(m);
    assert file[start..] == torn;
    TornRecordIsEndOfFile(file, start, m);
  }

  /** From any record start, both scans walk the whole records and stop where the torn one begins. */
  lemma {:induction false} ScansStopAtTorn(file: bytes, base: nat, log: seq<bytes>, torn: bytes, i: nat, lastLen: nat)
    requires LeftByCrash(file, base, log, torn) && i <= |log|
    requires lastLen <= Offset(base, log, i) <= |file|
    ensures var stop := Scan(|Records(base, log)|, if i < |log| then LastLen(log, i) else lastLen);
      && FullScan(file, Offset(base, log, i), lastLen) == stop
      && SimpleScan(file, Offset(base, log, i), lastLen) == stop
    decreases |log| - i
  {
    hide NextMessageIsValid, DecodeMessageAt, DecodeMessageSeq, Encode, Records, LeftByCrash;
    CrashParts(file, base, log, torn);
    if i < |log| {
      RecordsAt(base, log, torn, i);
      ScansStopAtTorn(file, base, log, torn, i + 1, MIN_LEN + |log[i]|);
    } else {
      OffsetEnd(base, log);
      TornProbe(file, base, log, torn);
    }
  }

  /** What a restart should conclude from a log: the end of the records and the start of the last one. */
  ghost predicate Finds(o: Opened, base: nat, log: seq<bytes>) {
    && o.position == |Records(base, log)|
    && o.lastStart == if log == [] then 0 else Offset(base, log, |log| - 1)
  }

  lemma ScanEnd(base: nat, log: seq<bytes>, i: nat)
    requires i < |log|
    ensures LastLen(log, i) > 0
    ensures |Records(base, log)| - LastLen(log, i) == Offset(base, log, |log| - 1)
  {
    OffsetStep(base, log, |log| - 1);
    OffsetEnd(base, log);
  }

  /** The full check keeps exactly the whole records, whatever was torn. */
  lemma FullCheckKeepsWholeRecords(file: bytes, base: nat, log: seq<bytes>, torn: bytes)
    requires LeftByCrash(file, base, log, torn)
    ensures Finds(FullCheck(file), base, log)
    ensures FullCheck(file).file == Records(base, log)
  {
    hide Records, LeftByCrash, FullScan, SimpleScan, LastLen, Offset;
    CrashParts(file, base, log, torn);
    OffsetStart(base, log);
    ScansStopAtTorn(file, base, log, torn, 0, 0);
    if log != [] { ScanEnd(base, log, 0); }
  }

  /** The simple check succeeds when it is tried on at least one record, and then agrees with the full check. */
  lemma SimpleCheckAgrees(file: bytes, base: uint32, log: seq<bytes>, torn: bytes, es: seq<Entry>, maxMessageSize: nat)
    requires LeftByCrash(file, base, log, torn) && Indexes(base, log, es)
    ensures var o := SimpleCheck(file, LastEntry(base, es), maxMessageSize);
      && (o.Some? <==> |file| > maxMessageSize + 24 && log != [] && (es != [] || base > 0))
      && (o.Some? ==> Finds(o.value, base, log) && o.value.file == file)
      && (o.Some? ==> o.value.position == FullCheck(file).position && o.value.lastStart == FullCheck(file).lastStart)
  {
    hide Records, LeftByCrash, FullScan, SimpleScan, LastLen, Offset, FullCheck;
    FullCheckKeepsWholeRecords(file, base, log, torn);
    CrashParts(file, base, log, torn);
    OffsetStart(base, log);
    var i := if es == [] then 0 else es[|es| - 1].relative - 1;
    OffsetMonotone(base, log, i, |log|);
    OffsetEnd(base, log);
    ScansStopAtTorn(file, base, log, torn, i, 0);
    if log != [] { ScanEnd(base, log, i); }
  }

  /** The one case in which bytes of a torn record survive the start-up check: it stopped at the simple one. */
  ghost predicate TornKept(file: bytes, base: uint32, log: seq<bytes>, torn: bytes, es: seq<Entry>,
    maxMessageSize: nat) {
    && torn != []
    && |file| > maxMessageSize + 24
    && file[|file| - 1..] == END_MAGIC
    && log != [] && (es != [] || base > 0)
  }

  /**
   * Start-up always finds the right end and last message. It also cuts the file back to the whole records,
   * unless the torn part happens to end in the end-magic byte and the simple check is the one that runs.
   */
  lemma SanityCheckRecovers(file: bytes, base: uint32, log: seq<bytes>, torn: bytes, es: seq<Entry>,
    maxMessageSize: nat)
    requires LeftByCrash(file, base, log, torn) && Indexes(base, log, es)
    ensures var o := SanityCheck(file, LastEntry(base, es), maxMessageSize);
      && Finds(o, base, log)
      && (o.file == Records(base, log) || o.file == file)
      && (o.file != Records(base, log) <==> TornKept(file, base, log, torn, es, maxMessageSize))
  {
    hide Records, LeftByCrash, SimpleCheck, Offset, FullCheck;
    CrashParts(file, base, log, torn);
    OffsetStart(base, log);
    OffsetEnd(base, log);
    FullCheckKeepsWholeRecords(file, base, log, torn);
    SimpleCheckAgrees(file, base, log, torn, es, maxMessageSize);
    OffsetMonotone(base, log, 0, |log|);
    assert torn == [] ==> file == Records(base, log);
    assert torn != [] ==> |file| > |Records(base, log)|;
  }

  /** init: the number of the last message, from where it starts. */
  function LastSeq(o: Opened, base: uint32): Option<nat> {
    if o.lastStart == 0 then
      if o.position > 0 then Some((base + 1) % TWO32) else Some(base)
    else
      var decoded := DecodeMessageSeq(o.file, o.lastStart);
      if decoded.None? then None else Some(decoded.value.0)
  }

  lemma LastSeqRecovered(o: Opened, base: uint32, log: seq<bytes>)
    requires Fits(base, log) && Finds(o, base, log) && Records(base, log) <= o.file
    ensures LastSeq(o, base) == Some(base + |log|)
  {
    hide Records, Offset, DecodeMessageSeq, DecodeMessageAt, NextMessageIsValid;
    FitsNumbers(base, log);
    OffsetStart(base, log);
    OffsetEnd(base, log);
    if log != [] {
      var tail := o.file[|Records(base, log)|..];
      assert o.file == Records(base, log) + tail;
      RecordsAt(base, log, tail, |log| - 1);
      OffsetMonotone(base, log, 0, |log| - 1);
      OffsetMonotone(base, log, 0, |log|);
    }
  }

  /** Entries strictly increase in number and position, and each points at the record with its number. */
  lemma IndexPointsAtRecords(base: uint32, log: seq<bytes>, es: seq<Entry>, j: nat, k: nat)
    requires Fits(base, log) && Indexes(base, log, es) && j < k < |es|
    ensures es[j].relative < es[k].relative && es[j].position < es[k].position
    ensures DecodeMessageSeq(Records(base, log), es[j].position).Some?
    ensures DecodeMessageSeq(Records(base, log), es[j].position).value.0 == base + es[j].relative
  {
    hide Records, Offset, Fits, DecodeMessageSeq, DecodeMessageAt, NextMessageIsValid;
    OffsetMonotone(base, log, es[j].relative - 1, es[k].relative - 1);
    RecordsAt(base, log, [], es[j].relative - 1);
    assert Records(base, log) == Records(base, log) + [];
  }

  /**
   * The index file of a segment that was closed, or left behind by a crash, gives a restart an index that is
   * correct for the same log.
   */
  lemma ReopenedIndexIsCorrect(base: uint32, log: seq<bytes>, memory: bytes, n: nat, crashed: bool)
    requires n <= MAX_ENTRIES && ZeroFrom(memory, n) && Indexes(base, log, EntriesIn(memory, n))
    ensures var indexFile := if crashed then memory else memory[..n * ENTRY_SIZE];
      && SegmentIndex.CleanTail(indexFile)
      && Indexes(base, log, RecoveredEntries(indexFile))
      && RecoveredEntries(indexFile) == EntriesIn(memory, n)[..Min(n, 262_143)]
  {
    hide SegmentIndex.CleanTail, RecoveredEntries, EntriesIn, Offset, Mapped, RecoveredCount;
    ReopenRecovers(memory, n, crashed);
  }
}
