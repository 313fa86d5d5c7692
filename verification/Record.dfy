/** Framing of one stored message, and of a file that holds consecutive ones (message.go, const.go). */
module Record {
  import opened Bytes
  import opened Wrappers

  const MAGIC: bytes := [0x15, 0x16]
  const VERSION: bytes := [0x01]
  const END_MAGIC: bytes := [0x03]
  const DATA_LEN_SIZE := 4
  const SEQ_SIZE := 8
  const APPLI_INDEX_SIZE := 8

  // The fields before the data, and the whole frame around it.
  const HEADER_LEN := |MAGIC| + |VERSION| + DATA_LEN_SIZE + SEQ_SIZE + APPLI_INDEX_SIZE
  const MIN_LEN := HEADER_LEN + |END_MAGIC|

  /** A message as the store sees it: its number and an opaque body. */
  datatype Message = Message(seqNo: nat, data: bytes)

  /** The bytes of one record, field by field. */
  function Encode(m: Message): (p: bytes)
    ensures |p| == MIN_LEN + |m.data|
  {
    MAGIC + VERSION + PutU32(|m.data|) + PutU64(m.seqNo) + PutU64(0) + m.data + END_MAGIC
  }

  method EncodeMessage(seqNo: uint32, data: bytes) returns (p: bytes)
    ensures p == Encode(Message(seqNo, data))
  {
    p := [];
    p := p + MAGIC;
    p := p + VERSION;
    p := p + PutU32(|data|);
    p := p + PutU64(seqNo);
    p := p + PutU64(0);
    p := p + data;
    p := p + END_MAGIC;
  }

  /** A slice expression msg[from:to], which panics outside the slice. */
  function Slice(msg: bytes, from: nat, to: nat): Outcome<bytes>
    requires from <= to
  {
    if to <= |msg| then Ok(msg[from..to]) else Panic
  }

  function DecodeMessage(msg: bytes): Outcome<Message> {
    var magic :- Slice(msg, 0, 2);
    if magic != MAGIC then Err else
    var version :- Slice(msg, 2, 3);
    var lenBytes :- Slice(msg, 3, 7);
    var dataLen := GetU32(lenBytes);
    var seqBytes :- Slice(msg, 7, 15);
    var appliIndex :- Slice(msg, 15, 23);
    var data :- Slice(msg, 23, 23 + dataLen);
    var end :- Slice(msg, 23 + dataLen, 24 + dataLen);
    if end != END_MAGIC then Err else
    Ok(Message(GetU64(seqBytes) % TWO32, data))
  }

  // ------------------------------------------------------------------ files

  /** io.ReaderAt.ReadAt on a file: all n bytes, or end of file after the bytes that are there. */
  datatype ReadResult = Full(data: bytes) | Eof(n: nat)

  function ReadAt(file: bytes, offset: nat, n: nat): (r: ReadResult)
    ensures r.Full? ==> |r.data| == n
  {
    if offset + n <= |file| then Full(file[offset..offset + n])
    else Eof(if offset <= |file| then |file| - offset else 0)
  }

  /** The outcome of probing for one message: its length, or how many bytes were read before giving up. */
  datatype Probe = Valid(len: nat) | EndOfFile(read: nat) | Corrupt(read: nat)

  function NextMessageIsValid(file: bytes, start: nat): (p: Probe)
    ensures p.Valid? ==> MIN_LEN <= p.len && start + p.len <= |file|
    ensures p.Corrupt? ==> 2 <= p.read && start + 2 <= |file|
  {
    var magic := ReadAt(file, start, |MAGIC|);
    if magic.Eof? then EndOfFile(magic.n) else
    if magic.data != MAGIC then Corrupt(|MAGIC|) else
    var len := ReadAt(file, start + 3, DATA_LEN_SIZE);
    if len.Eof? then EndOfFile(|MAGIC| + len.n) else
    var dataLen := GetU32(len.data);
    var end := ReadAt(file, start + MIN_LEN + dataLen - |END_MAGIC|, |END_MAGIC|);
    if end.Eof? then EndOfFile(|MAGIC| + DATA_LEN_SIZE + end.n) else
    if end.data != END_MAGIC then Corrupt(|MAGIC| + DATA_LEN_SIZE + |END_MAGIC|) else
    Valid(MIN_LEN + dataLen)
  }

  /** The first half of decoding at a position: both magics and the length of the whole record. */
  function RecordLengthAt(file: bytes, start: nat): (r: Option<nat>)
    ensures r.Some? ==> MIN_LEN <= r.value && start + r.value <= |file|
  {
    var header := ReadAt(file, start, HEADER_LEN);
    if header.Eof? || header.data[..2] != MAGIC then None else
    var dataLen := GetU32(header.data[3..7]);
    var end := ReadAt(file, start + HEADER_LEN + dataLen, |END_MAGIC|);
    if end.Eof? || end.data != END_MAGIC then None else
    Some(HEADER_LEN + dataLen + |END_MAGIC|)
  }

  /** Reads and decodes the message at a position, with its length in bytes. */
  function DecodeMessageAt(file: bytes, start: nat): (r: Outcome<(Message, nat)>)
    ensures r.Ok? ==> MIN_LEN <= r.value.1 && start + r.value.1 <= |file|
  {
    var length := RecordLengthAt(file, start);
    if length.None? then Err else
    var m :- DecodeMessage(file[start..start + length.value]);
    Ok((m, length.value))
  }

  /** Reads only the number and the data length of the message at a position. */
  function DecodeMessageSeq(file: bytes, position: nat): Option<(uint32, nat)> {
    var size := ReadAt(file, position + 3, DATA_LEN_SIZE);
    if size.Eof? then None else
    var number := ReadAt(file, position + 7, SEQ_SIZE);
    if number.Eof? then None else
    Some((GetU64(number.data) % TWO32, GetU32(size.data)))
  }

  // ---------------------------------------------------------- one record

  predicate Encodable(m: Message) {
    m.seqNo < TWO32 && |m.data| < TWO32
  }

  /** Where each field of a record is. */
  lemma EncodeLayout(m: Message)
    requires Encodable(m)
    ensures var p := Encode(m);
      && p[..2] == MAGIC
      && GetU32(p[3..7]) == |m.data|
      && GetU64(p[7..15]) == m.seqNo
      && p[23..23 + |m.data|] == m.data
      && p[23 + |m.data|..] == END_MAGIC
  {
    hide PutU32, PutU64, GetU32, GetU64;
    var p := Encode(m);
    assert p[3..7] == PutU32(|m.data|);
    assert p[7..15] == PutU64(m.seqNo);
    GetPutU32(|m.data|);
    GetPutU64(m.seqNo);
  }

  /** Decoding what EncodeMessage wrote gives back the number and the body. */
  lemma DecodeEncode(m: Message)
    requires Encodable(m)
    ensures DecodeMessage(Encode(m)) == Ok(m)
  {
    hide PutU32, PutU64, GetU32, GetU64;
    EncodeLayout(m);
  }

  ghost predicate RecordAt(file: bytes, start: nat, m: Message) {
    start + MIN_LEN + |m.data| <= |file| && file[start..start + MIN_LEN + |m.data|] == Encode(m)
  }

  lemma SliceOfSlice<T>(s: seq<T>, a: nat, b: nat, i: nat, j: nat)
    requires a <= b <= |s| && i <= j <= b - a
    ensures s[a..b][i..j] == s[a + i..a + j]
  {
    var x, y := s[a..b][i..j], s[a + i..a + j];
    forall k | 0 <= k < j - i
      ensures x[k] == y[k]
    {
      assert s[a..b][i + k] == s[a + i + k];
    }
  }

  lemma FieldsAtRecord(file: bytes, start: nat, m: Message)
    requires Encodable(m) && RecordAt(file, start, m)
    ensures file[start..start + 2] == MAGIC
    ensures GetU32(file[start + 3..start + 7]) == |m.data|
    ensures GetU64(file[start + 7..start + 15]) == m.seqNo
    ensures file[start + 23 + |m.data|..start + 24 + |m.data|] == END_MAGIC
  {
    EncodeLayout(m);
    var stop := start + MIN_LEN + |m.data|;
    SliceOfSlice(file, start, stop, 0, 2);
    SliceOfSlice(file, start, stop, 3, 7);
    SliceOfSlice(file, start, stop, 7, 15);
    SliceOfSlice(file, start, stop, 23 + |m.data|, 24 + |m.data|);
  }

  /** What the readers look at around a record: both magics, the length and the number. */
  ghost predicate FieldsAt(file: bytes, start: nat, dataLen: nat, seqNo: nat) {
    && start + MIN_LEN + dataLen <= |file|
    && file[start..start + 2] == MAGIC
    && GetU32(file[start + 3..start + 7]) == dataLen
    && GetU64(file[start + 7..start + 15]) == seqNo
    && file[start + 23 + dataLen..start + 24 + dataLen] == END_MAGIC
  }

  lemma LengthFromFields(file: bytes, start: nat, dataLen: nat, seqNo: nat)
    requires FieldsAt(file, start, dataLen, seqNo)
    ensures RecordLengthAt(file, start) == Some(MIN_LEN + dataLen)
  {
    var header := ReadAt(file, start, HEADER_LEN);
    assert header.data[..2] == file[start..start + 2] by { SliceOfSlice(file, start, start + HEADER_LEN, 0, 2); }
    assert header.data[3..7] == file[start + 3..start + 7] by { SliceOfSlice(file, start, start + HEADER_LEN, 3, 7); }
  }

  lemma ProbeFromFields(file: bytes, start: nat, dataLen: nat, seqNo: nat)
    requires FieldsAt(file, start, dataLen, seqNo) && seqNo < TWO32
    ensures NextMessageIsValid(file, start) == Valid(MIN_LEN + dataLen)
    ensures DecodeMessageSeq(file, start) == Some((seqNo, dataLen))
  {
  }

  /** The three readers agree on a position where a whole record lies. */
  lemma ReadersAtRecord(file: bytes, start: nat, m: Message)
    requires Encodable(m) && RecordAt(file, start, m)
    ensures NextMessageIsValid(file, start) == Valid(MIN_LEN + |m.data|)
    ensures DecodeMessageAt(file, start) == Ok((m, MIN_LEN + |m.data|))
    ensures DecodeMessageSeq(file, start) == Some((m.seqNo, |m.data|))
  {
    hide Encode, NextMessageIsValid, DecodeMessageSeq, RecordLengthAt, DecodeMessage, GetU32, GetU64;
    var n := |m.data|;
    assert FieldsAt(file, start, n, m.seqNo) by { FieldsAtRecord(file, start, m); }
    assert DecodeMessage(file[start..start + MIN_LEN + n]) == Ok(m) by { DecodeEncode(m); }
    LengthFromFields(file, start, n, m.seqNo);
    ProbeFromFields(file, start, n, m.seqNo);
  }

  lemma NothingPastTheEnd(file: bytes, start: nat)
    requires start >= |file|
    ensures DecodeMessageAt(file, start) == Err
    ensures DecodeMessageSeq(file, start) == None
  {
  }

  /** A proper prefix of a record at the end of a file always reads as end of file, never as corrupt. */
  lemma TornRecordIsEndOfFile(file: bytes, start: nat, m: Message)
    requires Encodable(m) && start <= |file|
    requires file[start..] < Encode(m)
    ensures NextMessageIsValid(file, start).EndOfFile?
  {
    EncodeLayout(m);
    var torn := file[start..];
    var p := Encode(m);
    if |torn| >= 2 {
      assert file[start..start + 2] == torn[..2] == p[..2];
    }
    if |torn| >= 7 {
      assert file[start + 3..start + 7] == torn[3..7] == p[3..7];
    }
  }
}
