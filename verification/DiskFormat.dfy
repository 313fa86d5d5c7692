/**
 * The bytes on disk in numbers, independent of the constants of the coders: records and when they are read, index
 * entries, stream items and the bodies of server messages (const.go, message.go, segment_index.go, model.go).
 */
module DiskFormat {
  import opened Bytes
  import opened Wrappers
  import opened Codec
  import opened Packets
  import opened Record
  import opened SegmentIndex
  import opened Refusals
  import Protocol
  import ServerMessages
  import Streams

  /** Four bytes as a number, high byte first. */
  function Number(a: int, b: int, c: int, d: int): int {
    a * 0x100_0000 + b * 0x1_0000 + c * 0x100 + d
  }

  function NumberAt(s: bytes, i: nat): int
    requires i + 4 <= |s|
  {
    Number(s[i], s[i + 1], s[i + 2], s[i + 3])
  }

  lemma NumberIs(s: bytes, i: nat)
    requires i + 4 <= |s|
    ensures GetU32(s[i..i + 4]) == NumberAt(s, i)
  {
  }

  lemma LongNumberIs(s: bytes, i: nat)
    requires i + 8 <= |s|
    ensures GetU64(s[i..i + 8]) == NumberAt(s, i) * 0x1_0000_0000 + NumberAt(s, i + 4)
    ensures GetU64(s[i..i + 8]) % 0x1_0000_0000 == NumberAt(s, i + 4)
  {
    var b := s[i..i + 8];
    assert b[0] == s[i] && b[4] == s[i + 4];
    RemainderIsUnique(GetU64(b), 0x1_0000_0000, NumberAt(s, i), NumberAt(s, i + 4));
  }

  // ------------------------------------------------------------ records

  /**
   * A record has 24 bytes more than its data: 21, 22, version 1, the length, the number in eight bytes, eight bytes
   * of zero, and behind the data a 3.
   */
  lemma RecordLayout(m: Message)
    requires m.seqNo < 0x1_0000_0000 && |m.data| < 0x1_0000_0000
    ensures var p, n := Encode(m), |m.data|;
      && |p| == 24 + n && p[0] == 21 && p[1] == 22 && p[2] == 1 && NumberAt(p, 3) == n
      && NumberAt(p, 7) == 0 && NumberAt(p, 11) == m.seqNo
      && NumberAt(p, 15) == 0 && NumberAt(p, 19) == 0
      && p[23..23 + n] == m.data && p[23 + n] == 3
  {
    hide PutU32, PutU64, GetU32, GetU64;
    EncodeLayout(m);
    var p, n := Encode(m), |m.data|;
    assert p[0] == p[..2][0] && p[1] == p[..2][1];
    NumberIs(p, 3);
    LongNumberIs(p, 7);
    assert p[15..23] == PutU64(0);
    ZeroWord();
    assert p[15] == p[15..23][0] && p[16] == p[15..23][1] && p[17] == p[15..23][2] && p[18] == p[15..23][3];
    assert p[19] == p[15..23][4] && p[20] == p[15..23][5] && p[21] == p[15..23][6] && p[22] == p[15..23][7];
    assert p[23 + n] == p[23 + n..][0];
  }

  lemma ZeroWord()
    ensures PutU64(0) == [0, 0, 0, 0, 0, 0, 0, 0]
  {
  }

  /** There is a record at a position: both magics, and the length between them. */
  predicate IsRecord(file: bytes, start: nat) {
    && start + 24 <= |file| && file[start] == 21 && file[start + 1] == 22
    && start + 24 + NumberAt(file, start + 3) <= |file|
    && file[start + 23 + NumberAt(file, start + 3)] == 3
  }

  /** What is there is decoded if and only if it is a record; the probe of the start-up checks accepts the same. */
  lemma RecordIsRead(file: bytes, start: nat)
    ensures DecodeMessageAt(file, start).Ok? <==> IsRecord(file, start)
    ensures NextMessageIsValid(file, start).Valid? <==> IsRecord(file, start)
    ensures IsRecord(file, start) ==> var n := NumberAt(file, start + 3);
      && DecodeMessageAt(file, start).value
        == (Message(NumberAt(file, start + 11), file[start + 23..start + 23 + n]), 24 + n)
      && NextMessageIsValid(file, start) == Probe.Valid(24 + n)
  {
    hide GetU32, GetU64, DecodeMessage;
    ProbeIs(file, start);
    if start + 23 <= |file| {
      var header := file[start..start + 23];
      SliceOfSlice(file, start, start + 23, 0, 2);
      SliceOfSlice(file, start, start + 23, 3, 7);
      assert header[..2] == header[0..2];
      NumberIs(file, start + 3);
      var n := NumberAt(file, start + 3);
      assert file[start..start + 2] == [file[start], file[start + 1]];
      if start + 24 + n <= |file| {
        assert file[start + 23 + n..start + 24 + n] == [file[start + 23 + n]];
      }
      if IsRecord(file, start) {
        WholeIsDecoded(file, start);
      }
    }
  }

  lemma WholeIsDecoded(file: bytes, start: nat)
    requires IsRecord(file, start)
    ensures var n := NumberAt(file, start + 3);
      DecodeMessage(file[start..start + 24 + n])
      == Ok(Message(NumberAt(file, start + 11), file[start + 23..start + 23 + n]))
  {
    hide GetU32, GetU64;
    var n := NumberAt(file, start + 3);
    var stop := start + 24 + n;
    NumberIs(file, start + 3);
    LongNumberIs(file, start + 7);
    SliceOfSlice(file, start, stop, 0, 2);
    SliceOfSlice(file, start, stop, 3, 7);
    SliceOfSlice(file, start, stop, 7, 15);
    SliceOfSlice(file, start, stop, 23, 23 + n);
    SliceOfSlice(file, start, stop, 23 + n, 24 + n);
    assert file[start..start + 2] == [21, 22] && file[start + 23 + n..start + 24 + n] == [3];
  }

  /** The probe steps over two bytes that are no magic and over seven when the end is wrong; else the file ends. */
  lemma ProbeIs(file: bytes, start: nat)
    ensures var p := NextMessageIsValid(file, start);
      && (start + 2 <= |file| && !(file[start] == 21 && file[start + 1] == 22) ==> p == Probe.Corrupt(2))
      && (start + 2 <= |file| && file[start] == 21 && file[start + 1] == 22 ==>
          if start + 7 > |file| then p.EndOfFile?
          else
            var n := NumberAt(file, start + 3);
            if start + 24 + n > |file| then p.EndOfFile?
            else p == if file[start + 23 + n] == 3 then Probe.Valid(24 + n) else Probe.Corrupt(7))
      && (start + 2 > |file| ==> p.EndOfFile?)
  {
    hide GetU32;
    if start + 2 <= |file| {
      assert file[start..start + 2] == [file[start], file[start + 1]];
      if start + 7 <= |file| {
        NumberIs(file, start + 3);
        var n := NumberAt(file, start + 3);
        if start + 24 + n <= |file| {
          assert file[start + 23 + n..start + 24 + n] == [file[start + 23 + n]];
        }
      }
    }
  }

  // ------------------------------------------------------------ the index

  /** Eight bytes an entry, the relative number first, and a table of 2 MiB, which is 262144 entries. */
  lemma EntryLayout(e: Entry)
    ensures var b := EncodeEntry(e);
      |b| == 8 && NumberAt(b, 0) == e.relative && NumberAt(b, 4) == e.position
    ensures MAX_ENTRIES == 262_144 && MAX_BYTES == 2_097_152
  {
    hide PutU32, GetU32;
    var b := EncodeEntry(e);
    GetPutU32(e.relative);
    GetPutU32(e.position);
    assert b[0..4] == PutU32(e.relative) && b[4..8] == PutU32(e.position);
    NumberIs(b, 0);
    NumberIs(b, 4);
  }

  // ------------------------------------------------------------ stream items

  lemma ShortString(s: bytes)
    requires |s| < 256
    ensures PutString(s) == [0, |s|] + s
  {
  }

  lemma SampleNumbers()
    ensures PutU32(0x0102_0304) == [1, 2, 3, 4]
    ensures PutU32(0x0A0B_0C0D) == [10, 11, 12, 13]
    ensures PutU32(-3) == [255, 255, 255, 253]
    ensures PutU32(2) == [0, 0, 0, 2]
    ensures PutU64(0x0102_0304_0506_0708) == [1, 2, 3, 4, 5, 6, 7, 8]
  {
  }

  /** Magic, version, name, number, blob, end magic. */
  lemma StreamItemBytes()
    ensures Streams.Encode(Streams.StreamItem([109, 110], 0x0102_0304, [7, 8])) ==
      [21, 22] + ([1] + ([0, 2, 109, 110] + ([1, 2, 3, 4] + ([0, 0, 0, 2] + ([7, 8] + [3])))))
  {
    hide PutU32, PutString;
    SampleNumbers();
    ShortString([109, 110]);
  }

  lemma CutBytes(b: bytes, t: bytes, k: nat)
    requires k <= |b + t|
    ensures k < |b| ==> Streams.TakeBytes((b + t)[..k], |b|) == Err
    ensures k >= |b| ==> Streams.TakeBytes((b + t)[..k], |b|) == Ok(Read(b, t[..k - |b|]))
  {
    if k >= |b| {
      assert (b + t)[..k] == b + t[..k - |b|];
      Streams.TakeFront(b, t[..k - |b|]);
    }
  }

  /** An item cut short is an error, and so is one without its magic. */
  lemma CutItemIsRefused(s: Streams.StreamItem, k: nat, readBlob: bool)
    requires |s.clientMsgNo| < 0x1_0000 && |s.blob| < 0x1_0000_0000 && k < |Streams.Encode(s)|
    ensures Streams.ItemAt(Streams.Encode(s)[..k], readBlob) == Err
  {
    hide PutU16, PutU32, GetU16, GetU32, Streams.TakeBytes;
    var t7: bytes := [3];
    var t6 := s.blob + t7;
    var t5 := PutU32(|s.blob|) + t6;
    var t4 := PutU32(s.streamSeq) + t5;
    var t3 := s.clientMsgNo + t4;
    var t2 := PutU16(|s.clientMsgNo|) + t3;
    var t1 := [1] + t2;
    Streams.EncodeThen(s, []);
    assert Streams.Encode(s) + [] == Streams.Encode(s) == [21, 22] + t1;
    GetPutU16(|s.clientMsgNo|);
    GetPutU32(|s.blob|);
    var left := k;
    CutBytes([21, 22], t1, left);
    if left < 2 { return; }
    left := left - 2;
    CutBytes([1], t2, left);
    if left < 1 { return; }
    left := left - 1;
    CutBytes(PutU16(|s.clientMsgNo|), t3, left);
    if left < 2 { return; }
    left := left - 2;
    CutBytes(s.clientMsgNo, t4, left);
    if left < |s.clientMsgNo| { return; }
    left := left - |s.clientMsgNo|;
    CutBytes(PutU32(s.streamSeq), t5, left);
    if left < 4 { return; }
    left := left - 4;
    CutBytes(PutU32(|s.blob|), t6, left);
    if left < 4 { return; }
    left := left - 4;
    CutBytes(s.blob, t7, left);
    if left < |s.blob| { return; }
    left := left - |s.blob|;
    assert t7 + [] == t7;
    CutBytes(t7, [], left);
  }

  /** Both magics are checked, the version is not. */
  lemma ItemMagics(s: bytes, readBlob: bool)
    ensures Streams.ItemAt(s, readBlob).Ok? ==>
      var r := Streams.ItemAt(s, readBlob).value;
      && |s| >= 14 + |r.rest| && s[0] == 21 && s[1] == 22 && s[|s| - |r.rest| - 1] == 3
  {
    hide GetU16, GetU32;
  }

  // ------------------------------------------------------------ bodies of server messages

  /**
   * Header, version, setting, message, sequence, number, stream with its sequence and flag, time, sender, channel,
   * type, expire, payload.
   */
  lemma StoredBytes()
    ensures ServerMessages.Body(ServerMessages.Message(Protocol.Flags(false, true, false, false, false),
      RecvPacket(4, [107], 0x0102_0304, 0x0102_0304_0506_0708, 0x0A0B_0C0D, [109], [115], 2, 9, -3, [99], 1, [116],
        [102], [104, 105], 0)), 1) ==
      [0x52] + ([1] + ([4] + ([1, 2, 3, 4, 5, 6, 7, 8] + ([10, 11, 12, 13] + ([0, 1, 109] + ([0, 1, 115] + (
      [0, 0, 0, 2] + ([9] + ([255, 255, 255, 253] + ([0, 1, 102] + ([0, 1, 99] + ([1] + ([1, 2, 3, 4]
      + [104, 105])))))))))))))
  {
    hide PutU32, PutU64, PutString;
    SampleNumbers();
    ShortString([109]);
    ShortString([115]);
    ShortString([102]);
    ShortString([99]);
  }

  /** The server stores version 1, of 30 bytes and its strings and payload; bit 2 of the setting adds the stream. */
  lemma StoredLength(m: ServerMessages.Message)
    ensures var p, b := m.packet, ServerMessages.Body(m, ServerMessages.BODY_VERSION);
      && |b| == 30 + |p.clientMsgNo| + |p.fromUID| + |p.channelID| + |p.payload|
        + (if p.setting / 4 % 2 == 1 then 7 + |p.streamNo| else 0)
      && b[0] / 16 == 5 && b[1] == 1 && b[2] == p.setting
  {
    hide PutU32, PutU64;
  }

  /** What comes back of a stored message: not its key, topic and client number, and the stream if bit 2 is set. */
  lemma StoredComesBack(m: ServerMessages.Message)
    requires ServerMessages.Fits(m)
    ensures var p := m.packet;
      var stream := p.setting / 4 % 2 == 1;
      ServerMessages.Parse(ServerMessages.Body(m, ServerMessages.BODY_VERSION)) == Ok(ServerMessages.Message(
        Protocol.Flags(m.flags.noPersist, m.flags.redDot, m.flags.syncOnce, m.flags.dup, false),
        RecvPacket(p.setting, [], p.expire, p.messageID, p.messageSeq, p.clientMsgNo,
          if stream then p.streamNo else [], if stream then p.streamSeq else 0, if stream then p.streamFlag else 0,
          p.timestamp, p.channelID, p.channelType, [], p.fromUID, p.payload, 0)))
  {
    hide ServerMessages.Body, ServerMessages.Parse, ServerMessages.Fits;
    ServerMessages.BodyRoundTrip(m, ServerMessages.BODY_VERSION);
  }

  function StreamBytes(p: RecvPacket, t: bytes): bytes {
    if p.setting / 4 % 2 == 1 then PutString(p.streamNo) + (PutU32(p.streamSeq) + ([p.streamFlag] + t)) else t
  }

  lemma StreamPartCut(p: RecvPacket, t: bytes, k: nat)
    requires (p.setting / 4 % 2 == 1 ==> |p.streamNo| <= 32_767) && k <= |StreamBytes(p, t)|
    ensures var size, r := |StreamBytes(p, t)| - |t|, ServerMessages.TakeStreamPart(StreamBytes(p, t)[..k], p.setting);
      && (k < size ==> r == Err)
      && (k >= size ==> r.Ok? && r.value.rest == t[..k - size])
  {
    hide PutU32, PutString, TakeU8, TakeU32, TakeString;
    if p.setting / 4 % 2 == 1 {
      var t2 := [p.streamFlag] + t;
      var t1 := PutU32(p.streamSeq) + t2;
      CutString(p.streamNo, t1, k);
      if k < 2 + |p.streamNo| { return; }
      var left := k - (2 + |p.streamNo|);
      CutU32(p.streamSeq, t2, left);
      if left < 4 { return; }
      CutU8(p.streamFlag, t, left - 4);
    }
  }

  /** A stored body cut short in front of its payload is an error. */
  lemma CutStoredIsRefused(m: ServerMessages.Message, k: nat)
    requires ServerMessages.Fits(m)
    requires k < |ServerMessages.Body(m, ServerMessages.BODY_VERSION)| - |m.packet.payload|
    ensures ServerMessages.Parse(ServerMessages.Body(m, ServerMessages.BODY_VERSION)[..k]) == Err
  {
    hide PutU32, PutU64, PutString, TakeU8, TakeU32, TakeI32, TakeI64, TakeString, ServerMessages.Header,
      ServerMessages.TakeStreamPart, StreamBytes;
    var p := m.packet;
    var t12 := p.payload;
    var t11 := PutU32(p.expire) + t12;
    var t10 := [p.channelType] + t11;
    var t9 := PutString(p.channelID) + t10;
    var t8 := PutString(p.fromUID) + t9;
    var t7 := PutU32(p.timestamp) + t8;
    var t6 := StreamBytes(p, t7);
    var t5 := PutString(p.clientMsgNo) + t6;
    var t4 := PutU32(p.messageSeq) + t5;
    var t3 := PutU64(p.messageID) + t4;
    var t2 := [p.setting] + t3;
    var t1 := [1] + t2;
    StoredParts(m);
    var left := k;
    CutU8(ServerMessages.Header(m), t1, left);
    if left < 1 { return; }
    left := left - 1;
    CutU8(1, t2, left);
    if left < 1 { return; }
    left := left - 1;
    CutU8(p.setting, t3, left);
    if left < 1 { return; }
    left := left - 1;
    CutU64(p.messageID, t4, left);
    if left < 8 { return; }
    left := left - 8;
    CutU32(p.messageSeq, t5, left);
    if left < 4 { return; }
    left := left - 4;
    CutString(p.clientMsgNo, t6, left);
    if left < 2 + |p.clientMsgNo| { return; }
    left := left - (2 + |p.clientMsgNo|);
    StreamPartCut(p, t7, left);
    if left < |t6| - |t7| { return; }
    left := left - (|t6| - |t7|);
    CutU32(p.timestamp, t8, left);
    if left < 4 { return; }
    left := left - 4;
    CutString(p.fromUID, t9, left);
    if left < 2 + |p.fromUID| { return; }
    left := left - (2 + |p.fromUID|);
    CutString(p.channelID, t10, left);
    if left < 2 + |p.channelID| { return; }
    left := left - (2 + |p.channelID|);
    CutU8(p.channelType, t11, left);
    if left < 1 { return; }
    left := left - 1;
    CutU32(p.expire, t12, left);
  }

  lemma StoredParts(m: ServerMessages.Message)
    ensures var p := m.packet;
      ServerMessages.Body(m, ServerMessages.BODY_VERSION) == [ServerMessages.Header(m)] + ([1] + ([p.setting]
        + (PutU64(p.messageID) + (PutU32(p.messageSeq) + (PutString(p.clientMsgNo)
        + StreamBytes(p, PutU32(p.timestamp) + (PutString(p.fromUID) + (PutString(p.channelID)
        + ([p.channelType] + (PutU32(p.expire) + p.payload))))))))))
  {
    hide PutU32, PutU64, PutString, ServerMessages.Header;
  }
}
