/** The contents of a segment file: consecutive records numbered from base + 1. */
module LogFile {
  import opened Bytes
  import opened Chunks
  import opened Record

  /** The messages a file holds, in order. */
  function Messages(base: nat, log: seq<bytes>): (ms: seq<Message>)
    ensures |ms| == |log|
    ensures forall i :: 0 <= i < |log| ==> ms[i] == Message(base + 1 + i, log[i])
  {
    seq(|log|, i requires 0 <= i < |log| => Message(base + 1 + i, log[i]))
  }

  function EncodeAll(ms: seq<Message>): (parts: seq<bytes>)
    ensures |parts| == |ms|
    ensures forall i :: 0 <= i < |ms| ==> parts[i] == Encode(ms[i])
  {
    seq(|ms|, i requires 0 <= i < |ms| => Encode(ms[i]))
  }

  function Records(base: nat, log: seq<bytes>): bytes {
    Flatten(EncodeAll(Messages(base, log)))
  }

  /** Where record i starts (i == |log|: where the file ends). */
  function Offset(base: nat, log: seq<bytes>, i: nat): nat
    requires i <= |log|
  {
    Start(EncodeAll(Messages(base, log)), i)
  }

  /** Numbers and positions fit the 32 bits the store keeps them in. */
  ghost predicate Fits(base: nat, log: seq<bytes>) {
    base + |log| < TWO32 && |Records(base, log)| < TWO32
  }

  lemma OffsetOfPrefix(base: nat, prefix: seq<bytes>, log: seq<bytes>, i: nat)
    requires prefix <= log && i <= |prefix|
    ensures Offset(base, prefix, i) == Offset(base, log, i)
  {
    assert Messages(base, prefix) <= Messages(base, log);
    assert EncodeAll(Messages(base, prefix)) <= EncodeAll(Messages(base, log));
    StartOfPrefix(EncodeAll(Messages(base, prefix)), EncodeAll(Messages(base, log)), i);
  }

  lemma OffsetStart(base: nat, log: seq<bytes>)
    ensures Offset(base, log, 0) == 0
    ensures log == [] ==> Records(base, log) == []
  {
  }

  lemma FitsNumbers(base: nat, log: seq<bytes>)
    requires Fits(base, log)
    ensures base + |log| < TWO32
  {
  }

  lemma FitsBytes(base: nat, log: seq<bytes>)
    requires Fits(base, log)
    ensures |Records(base, log)| < TWO32
  {
  }

  lemma OffsetEnd(base: nat, log: seq<bytes>)
    ensures Offset(base, log, |log|) == |Records(base, log)|
  {
  }

  lemma OffsetStep(base: nat, log: seq<bytes>, i: nat)
    requires i < |log|
    ensures Offset(base, log, i + 1) == Offset(base, log, i) + MIN_LEN + |log[i]|
  {
  }

  lemma OffsetMonotone(base: nat, log: seq<bytes>, i: nat, j: nat)
    requires i <= j <= |log|
    ensures Offset(base, log, i) <= Offset(base, log, j)
    ensures i < j ==> Offset(base, log, i) + MIN_LEN <= Offset(base, log, j)
  {
    hide Encode;
    var parts := EncodeAll(Messages(base, log));
    StartMonotone(parts, i, j);
    if i < j {
      OffsetStep(base, log, i);
      StartMonotone(parts, i + 1, j);
    }
  }

  /** Appending to the log appends the new records to the file. */
  lemma RecordsAppend(base: nat, log: seq<bytes>, more: seq<bytes>)
    ensures Records(base, log + more) == Records(base, log) + Records(base + |log|, more)
  {
    var kept, added := EncodeAll(Messages(base, log)), EncodeAll(Messages(base + |log|, more));
    assert EncodeAll(Messages(base, log + more)) == kept + added;
    FlattenAppend(kept, added);
  }

  lemma FitsEncodable(base: nat, log: seq<bytes>, i: nat)
    requires Fits(base, log) && i < |log|
    ensures Encodable(Message(base + 1 + i, log[i]))
  {
    OffsetStep(base, log, i);
    OffsetMonotone(base, log, i + 1, |log|);
  }

  /** Record i lies at Offset(i) of any file that starts with the log, and every reader sees it there. */
  lemma RecordsAt(base: nat, log: seq<bytes>, tail: bytes, i: nat)
    requires Fits(base, log) && i < |log|
    ensures var file, start, m := Records(base, log) + tail, Offset(base, log, i), Message(base + 1 + i, log[i]);
      && start + MIN_LEN + |log[i]| == Offset(base, log, i + 1) <= |Records(base, log)|
      && NextMessageIsValid(file, start) == Valid(MIN_LEN + |log[i]|)
      && DecodeMessageAt(file, start).Ok?
      && DecodeMessageAt(file, start).value == (m, MIN_LEN + |log[i]|)
      && DecodeMessageSeq(file, start).Some?
      && DecodeMessageSeq(file, start).value == (base + 1 + i, |log[i]|)
  {
    hide NextMessageIsValid, DecodeMessageAt, DecodeMessageSeq, Encode;
    PartAt(EncodeAll(Messages(base, log)), tail, i);
    FitsEncodable(base, log, i);
    ReadersAtRecord(Records(base, log) + tail, Offset(base, log, i), Message(base + 1 + i, log[i]));
  }
}
