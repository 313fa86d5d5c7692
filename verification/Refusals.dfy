/**
 * Bytes that are no frame: what the decoder says to bodies cut short, to lengths and types that it does not take and
 * to strings of negative length (protocol.go, decoder.go). A cut body is an error, never a panic and never a packet.
 */
module Refusals {
  import opened Bytes
  import opened Wrappers
  import opened Codec
  import opened Packets
  import opened Protocol

  // ------------------------------------------------------------ single fields

  /** A string is read by its signed 16-bit length: beyond the end it is an error, below zero a panic. */
  lemma StringOutcome(s: bytes)
    ensures |s| < 2 ==> TakeString(s) == Err
    ensures |s| >= 2 && s[0] >= 128 ==> TakeString(s) == Outcome.Panic
    ensures |s| >= 2 && s[0] < 128 ==> var high: int, low: int := s[0], s[1];
      var n := high * 256 + low;
      TakeString(s) == if 2 + n > |s| then Err else Ok(Read(s[2..2 + n], s[2 + n..]))
  {
    if |s| >= 2 {
      var high: int, low: int := s[0], s[1];
      var n := high * 256 + low;
      assert GetU16(s[..2]) == n;
      if s[0] < 128 && 2 + n <= |s| {
        assert s[2..][..n] == s[2..2 + n] && s[2..][n..] == s[2 + n..];
      }
    }
  }

  lemma CutString(b: bytes, t: bytes, k: nat)
    requires |b| <= 32_767 && k <= |PutString(b) + t|
    ensures k < 2 + |b| ==> TakeString((PutString(b) + t)[..k]) == Err
    ensures k >= 2 + |b| ==> TakeString((PutString(b) + t)[..k]) == Ok(Read(b, t[..k - 2 - |b|]))
  {
    hide PutU16, GetU16;
    var s := PutString(b) + t;
    if k >= 2 + |b| {
      assert s[..k] == PutString(b) + t[..k - 2 - |b|];
      StringRoundTrip(b, t[..k - 2 - |b|]);
    } else if k >= 2 {
      assert s[..k][..2] == PutU16(|b|);
      GetPutU16(|b|);
    }
  }

  lemma CutU8(b: byte, t: bytes, k: nat)
    requires k <= |[b] + t|
    ensures k < 1 ==> TakeU8(([b] + t)[..k]) == Err
    ensures k >= 1 ==> TakeU8(([b] + t)[..k]) == Ok(Read(b, t[..k - 1]))
  {
    if k >= 1 {
      assert ([b] + t)[..k] == [b] + t[..k - 1];
      TakePutU8(b, t[..k - 1]);
    }
  }

  lemma CutU32(v: int, t: bytes, k: nat)
    requires k <= |PutU32(v) + t|
    ensures k < 4 ==> TakeU32((PutU32(v) + t)[..k]) == Err && TakeI32((PutU32(v) + t)[..k]) == Err
    ensures k >= 4 ==> TakeU32((PutU32(v) + t)[..k]) == Ok(Read(v % TWO32, t[..k - 4]))
    ensures k >= 4 && -TWO31 <= v < TWO31 ==> TakeI32((PutU32(v) + t)[..k]) == Ok(Read(v, t[..k - 4]))
  {
    hide PutU32, GetU32, TakeU32, TakeI32;
    if k >= 4 {
      assert (PutU32(v) + t)[..k] == PutU32(v) + t[..k - 4];
      TakePutU32(v, t[..k - 4]);
      if -TWO31 <= v < TWO31 { TakePutI32(v, t[..k - 4]); }
    } else {
      TooShort((PutU32(v) + t)[..k]);
    }
  }

  lemma CutU64(v: int, t: bytes, k: nat)
    requires k <= |PutU64(v) + t| && -TWO63 <= v < TWO63
    ensures k < 8 ==> TakeI64((PutU64(v) + t)[..k]) == Err
    ensures k >= 8 ==> TakeI64((PutU64(v) + t)[..k]) == Ok(Read(v, t[..k - 8]))
  {
    hide PutU64, GetU64;
    if k >= 8 {
      assert (PutU64(v) + t)[..k] == PutU64(v) + t[..k - 8];
      TakePutI64(v, t[..k - 8]);
    }
  }

  lemma TooShort(s: bytes)
    requires |s| < 4
    ensures TakeU32(s) == Err && TakeI32(s) == Err
  {
  }

  // ------------------------------------------------------------ bodies cut short

  lemma ConnectCut(p: ConnectPacket, k: nat)
    requires ConnectFits(p) && k < |ConnectBody(p)|
    ensures ParseConnect(ConnectBody(p)[..k]) == Err
  {
    hide PutU32, PutU64, PutString, TakeU8, TakeU32, TakeI32, TakeI64, TakeString, IsSet;
    var t7: bytes := [];
    var t6 := PutString(p.clientKey) + t7;
    var t5 := PutU64(p.clientTimestamp) + t6;
    var t4 := PutString(p.token) + t5;
    var t3 := PutString(p.uid) + t4;
    var t2 := PutString(p.deviceID) + t3;
    var t1 := [p.deviceFlag] + t2;
    var left := k;
    CutU8(p.protoVersion, t1, left);
    if left < 1 { return; }
    left := left - 1;
    CutU8(p.deviceFlag, t2, left);
    if left < 1 { return; }
    left := left - 1;
    CutString(p.deviceID, t3, left);
    if left < 2 + |p.deviceID| { return; }
    left := left - (2 + |p.deviceID|);
    CutString(p.uid, t4, left);
    if left < 2 + |p.uid| { return; }
    left := left - (2 + |p.uid|);
    CutString(p.token, t5, left);
    if left < 2 + |p.token| { return; }
    left := left - (2 + |p.token|);
    CutU64(p.clientTimestamp, t6, left);
    if left < 8 { return; }
    left := left - 8;
    CutString(p.clientKey, t7, left);
  }

  lemma ConnackCut(p: ConnackPacket, hasServerVersion: bool, k: nat)
    requires ConnackFits(p, hasServerVersion) && k < |ConnackBody(p, hasServerVersion)|
    ensures ParseConnack(ConnackBody(p, hasServerVersion)[..k], hasServerVersion) == Err
  {
    hide PutU32, PutU64, PutString, TakeU8, TakeU32, TakeI32, TakeI64, TakeString, IsSet;
    var t5: bytes := [];
    var t4 := PutString(p.salt) + t5;
    var t3 := PutString(p.serverKey) + t4;
    var t2 := [p.reasonCode] + t3;
    var t1 := PutU64(p.timeDiff) + t2;
    var left := k;
    if hasServerVersion {
      CutU8(p.serverVersion, t1, left);
      if left < 1 { return; }
      left := left - 1;
    }
    CutU64(p.timeDiff, t2, left);
    if left < 8 { return; }
    left := left - 8;
    CutU8(p.reasonCode, t3, left);
    if left < 1 { return; }
    left := left - 1;
    CutString(p.serverKey, t4, left);
    if left < 2 + |p.serverKey| { return; }
    left := left - (2 + |p.serverKey|);
    CutString(p.salt, t5, left);
  }

  /** The second half of a SEND: what comes after the channel. */
  function SendEnd(s: bytes, setting: byte, version: byte): Outcome<bytes> {
    var channelType :- TakeU8(s);
    var expire :- if version >= 3 then TakeU32(channelType.rest) else Ok(Read(0, channelType.rest));
    var msgKey :- TakeString(expire.rest);
    var topic :- if IsSet(setting, SETTING_TOPIC) then TakeString(msgKey.rest) else Ok(Read([], msgKey.rest));
    Ok(topic.rest)
  }

  function SendEndBytes(p: SendPacket, version: byte): bytes {
    var t9 := p.payload;
    var t8 := if IsSet(p.setting, SETTING_TOPIC) then PutString(p.topic) + t9 else t9;
    var t7 := PutString(p.msgKey) + t8;
    var t6 := if version >= 3 then PutU32(p.expire) + t7 else t7;
    [p.channelType] + t6
  }

  lemma SendEndCut(p: SendPacket, version: byte, k: nat)
    requires SendFits(p, version) && k < |SendEndBytes(p, version)| - |p.payload|
    ensures SendEnd(SendEndBytes(p, version)[..k], p.setting, version) == Err
  {
    hide PutU32, PutU64, PutString, TakeU8, TakeU32, TakeI32, TakeI64, TakeString, IsSet;
    var t9 := p.payload;
    var t8 := if IsSet(p.setting, SETTING_TOPIC) then PutString(p.topic) + t9 else t9;
    var t7 := PutString(p.msgKey) + t8;
    var t6 := if version >= 3 then PutU32(p.expire) + t7 else t7;
    var left := k;
    CutU8(p.channelType, t6, left);
    if left < 1 { return; }
    left := left - 1;
    if version >= 3 {
      CutU32(p.expire, t7, left);
      if left < 4 { return; }
      left := left - 4;
    }
    CutString(p.msgKey, t8, left);
    if left < 2 + |p.msgKey| { return; }
    left := left - (2 + |p.msgKey|);
    if IsSet(p.setting, SETTING_TOPIC) {
      CutString(p.topic, t9, left);
    }
  }

  lemma SendCut(p: SendPacket, version: byte, k: nat)
    requires SendFits(p, version) && k < |SendBody(p, version)| - |p.payload|
    ensures ParseSend(SendBody(p, version)[..k], version) == Err
  {
    hide PutU32, PutU64, PutString, TakeU8, TakeU32, TakeI32, TakeI64, TakeString, IsSet, SendEndBytes, SendEnd,
      SendBody, ParseSend;
    var t4 := PutString(p.channelID) + SendEndBytes(p, version);
    var t3 := if version >= 2 && IsSet(p.setting, SETTING_STREAM) then PutString(p.streamNo) + t4 else t4;
    var t2 := PutString(p.clientMsgNo) + t3;
    var t1 := PutU32(p.clientSeq) + t2;
    SendParts(p, version, SendBody(p, version)[..k]);
    var left := k;
    CutU8(p.setting, t1, left);
    if left < 1 { return; }
    left := left - 1;
    CutU32(p.clientSeq, t2, left);
    if left < 4 { return; }
    left := left - 4;
    CutString(p.clientMsgNo, t3, left);
    if left < 2 + |p.clientMsgNo| { return; }
    left := left - (2 + |p.clientMsgNo|);
    if version >= 2 && IsSet(p.setting, SETTING_STREAM) {
      CutString(p.streamNo, t4, left);
      if left < 2 + |p.streamNo| { return; }
      left := left - (2 + |p.streamNo|);
    }
    CutString(p.channelID, SendEndBytes(p, version), left);
    if left < 2 + |p.channelID| { return; }
    left := left - (2 + |p.channelID|);
    SendEndCut(p, version, left);
  }

  /** The first half of reading a SEND. */
  function SendFront(s: bytes, version: byte): Outcome<Read<byte>> {
    var setting :- TakeU8(s);
    var clientSeq :- TakeU32(setting.rest);
    var clientMsgNo :- TakeString(clientSeq.rest);
    var streamNo :- if version >= 2 && IsSet(setting.value, SETTING_STREAM) then TakeString(clientMsgNo.rest)
      else Ok(Read([], clientMsgNo.rest));
    var channelID :- TakeString(streamNo.rest);
    Ok(Read(setting.value, channelID.rest))
  }

  /** A SEND is its two halves. */
  lemma SendParts(p: SendPacket, version: byte, s: bytes)
    ensures SendBody(p, version) == [p.setting] + (PutU32(p.clientSeq) + (PutString(p.clientMsgNo) +
      (if version >= 2 && IsSet(p.setting, SETTING_STREAM)
       then PutString(p.streamNo) + (PutString(p.channelID) + SendEndBytes(p, version))
       else PutString(p.channelID) + SendEndBytes(p, version))))
    ensures var front := SendFront(s, version);
      && (front.Err? ==> ParseSend(s, version) == Err)
      && (front.Ok? && SendEnd(front.value.rest, front.value.value, version).Err? ==> ParseSend(s, version) == Err)
  {
    hide PutU32, PutU64, PutString, TakeU8, TakeU32, TakeI32, TakeI64, TakeString, IsSet;
  }

  lemma SendackCut(p: SendackPacket, k: nat)
    requires k < |SendackBody(p)|
    ensures ParseSendack(SendackBody(p)[..k]) == Err
  {
    hide PutU32, PutU64, PutString, TakeU8, TakeU32, TakeI32, TakeI64, TakeString, IsSet;
    var t4: bytes := [];
    var t3 := [p.reasonCode] + t4;
    var t2 := PutU32(p.messageSeq) + t3;
    var t1 := PutU32(p.clientSeq) + t2;
    var left := k;
    CutU64(p.messageID, t1, left);
    if left < 8 { return; }
    left := left - 8;
    CutU32(p.clientSeq, t2, left);
    if left < 4 { return; }
    left := left - 4;
    CutU32(p.messageSeq, t3, left);
    if left < 4 { return; }
    left := left - 4;
    CutU8(p.reasonCode, t4, left);
  }

  /** The second half of a RECV: what comes after the message number. */
  function RecvEnd(s: bytes, setting: byte, version: byte): Outcome<bytes> {
    var stream := version >= 2 && IsSet(setting, SETTING_STREAM);
    var streamNo :- if stream then TakeString(s) else Ok(Read([], s));
    var streamSeq :- if stream then TakeU32(streamNo.rest) else Ok(Read(0, streamNo.rest));
    var streamFlag :- if stream then TakeU8(streamSeq.rest) else Ok(Read(0, streamSeq.rest));
    var messageID :- TakeI64(streamFlag.rest);
    var messageSeq :- TakeU32(messageID.rest);
    var timestamp :- TakeI32(messageSeq.rest);
    var topic :- if IsSet(setting, SETTING_TOPIC) then TakeString(timestamp.rest) else Ok(Read([], timestamp.rest));
    Ok(topic.rest)
  }

  function RecvEndBytes(p: RecvPacket, version: byte): bytes {
    var t14 := p.payload;
    var t13 := if IsSet(p.setting, SETTING_TOPIC) then PutString(p.topic) + t14 else t14;
    var t12 := PutU32(p.timestamp) + t13;
    var t11 := PutU32(p.messageSeq) + t12;
    var t10 := PutU64(p.messageID) + t11;
    var t9 := if version >= 2 && IsSet(p.setting, SETTING_STREAM) then [p.streamFlag] + t10 else t10;
    var t8 := if version >= 2 && IsSet(p.setting, SETTING_STREAM) then PutU32(p.streamSeq) + t9 else t9;
    if version >= 2 && IsSet(p.setting, SETTING_STREAM) then PutString(p.streamNo) + t8 else t8
  }

  lemma RecvEndCut(p: RecvPacket, version: byte, k: nat)
    requires RecvFits(p, version) && k < |RecvEndBytes(p, version)| - |p.payload|
    ensures RecvEnd(RecvEndBytes(p, version)[..k], p.setting, version) == Err
  {
    hide PutU32, PutU64, PutString, TakeU8, TakeU32, TakeI32, TakeI64, TakeString, IsSet;
    var t14 := p.payload;
    var t13 := if IsSet(p.setting, SETTING_TOPIC) then PutString(p.topic) + t14 else t14;
    var t12 := PutU32(p.timestamp) + t13;
    var t11 := PutU32(p.messageSeq) + t12;
    var t10 := PutU64(p.messageID) + t11;
    var t9 := if version >= 2 && IsSet(p.setting, SETTING_STREAM) then [p.streamFlag] + t10 else t10;
    var t8 := if version >= 2 && IsSet(p.setting, SETTING_STREAM) then PutU32(p.streamSeq) + t9 else t9;
    var left := k;
    if version >= 2 && IsSet(p.setting, SETTING_STREAM) {
      CutString(p.streamNo, t8, left);
      if left < 2 + |p.streamNo| { return; }
      left := left - (2 + |p.streamNo|);
      CutU32(p.streamSeq, t9, left);
      if left < 4 { return; }
      left := left - 4;
      CutU8(p.streamFlag, t10, left);
      if left < 1 { return; }
      left := left - 1;
    }
    CutU64(p.messageID, t11, left);
    if left < 8 { return; }
    left := left - 8;
    CutU32(p.messageSeq, t12, left);
    if left < 4 { return; }
    left := left - 4;
    CutU32(p.timestamp, t13, left);
    if left < 4 { return; }
    left := left - 4;
    if IsSet(p.setting, SETTING_TOPIC) {
      CutString(p.topic, t14, left);
    }
  }

  lemma RecvCut(p: RecvPacket, version: byte, k: nat)
    requires RecvFits(p, version) && k < |RecvBody(p, version)| - |p.payload|
    ensures ParseRecv(RecvBody(p, version)[..k], version) == Err
  {
    hide PutU32, PutU64, PutString, TakeU8, TakeU32, TakeI32, TakeI64, TakeString, IsSet, RecvEndBytes, RecvEnd,
      RecvBody, ParseRecv;
    var t7 := RecvEndBytes(p, version);
    var t6 := PutString(p.clientMsgNo) + t7;
    var t5 := if version >= 3 then PutU32(p.expire) + t6 else t6;
    var t4 := [p.channelType] + t5;
    var t3 := PutString(p.channelID) + t4;
    var t2 := PutString(p.fromUID) + t3;
    var t1 := PutString(p.msgKey) + t2;
    RecvParts(p, version, RecvBody(p, version)[..k]);
    var left := k;
    CutU8(p.setting, t1, left);
    if left < 1 { return; }
    left := left - 1;
    CutString(p.msgKey, t2, left);
    if left < 2 + |p.msgKey| { return; }
    left := left - (2 + |p.msgKey|);
    CutString(p.fromUID, t3, left);
    if left < 2 + |p.fromUID| { return; }
    left := left - (2 + |p.fromUID|);
    CutString(p.channelID, t4, left);
    if left < 2 + |p.channelID| { return; }
    left := left - (2 + |p.channelID|);
    CutU8(p.channelType, t5, left);
    if left < 1 { return; }
    left := left - 1;
    if version >= 3 {
      CutU32(p.expire, t6, left);
      if left < 4 { return; }
      left := left - 4;
    }
    CutString(p.clientMsgNo, t7, left);
    if left < 2 + |p.clientMsgNo| { return; }
    left := left - (2 + |p.clientMsgNo|);
    RecvEndCut(p, version, left);
  }

  /** The first half of reading a RECV. */
  function RecvFront(s: bytes, version: byte): Outcome<Read<byte>> {
    var setting :- TakeU8(s);
    var msgKey :- TakeString(setting.rest);
    var fromUID :- TakeString(msgKey.rest);
    var channelID :- TakeString(fromUID.rest);
    var channelType :- TakeU8(channelID.rest);
    var expire :- if version >= 3 then TakeU32(channelType.rest) else Ok(Read(0, channelType.rest));
    var clientMsgNo :- TakeString(expire.rest);
    Ok(Read(setting.value, clientMsgNo.rest))
  }

  /** A RECV is its two halves. */
  lemma RecvParts(p: RecvPacket, version: byte, s: bytes)
    ensures RecvBody(p, version) == [p.setting] + (PutString(p.msgKey) + (PutString(p.fromUID) + (PutString(p.channelID)
      + ([p.channelType] +
      (if version >= 3 then PutU32(p.expire) + (PutString(p.clientMsgNo) + RecvEndBytes(p, version))
       else PutString(p.clientMsgNo) + RecvEndBytes(p, version))))))
    ensures var front := RecvFront(s, version);
      && (front.Err? ==> ParseRecv(s, version) == Err)
      && (front.Ok? && RecvEnd(front.value.rest, front.value.value, version).Err? ==> ParseRecv(s, version) == Err)
  {
    hide PutU32, PutU64, PutString, TakeU8, TakeU32, TakeI32, TakeI64, TakeString, IsSet;
  }

  lemma RecvackCut(p: RecvackPacket, k: nat)
    requires k < |RecvackBody(p)|
    ensures ParseRecvack(RecvackBody(p)[..k]) == Err
  {
    hide PutU32, PutU64, PutString, TakeU8, TakeU32, TakeI32, TakeI64, TakeString, IsSet;
    var t2: bytes := [];
    var t1 := PutU32(p.messageSeq) + t2;
    var left := k;
    CutU64(p.messageID, t1, left);
    if left < 8 { return; }
    left := left - 8;
    CutU32(p.messageSeq, t2, left);
  }

  lemma DisconnectCut(p: DisconnectPacket, k: nat)
    requires DisconnectFits(p) && k < |DisconnectBody(p)|
    ensures ParseDisconnect(DisconnectBody(p)[..k]) == Err
  {
    hide PutU32, PutU64, PutString, TakeU8, TakeU32, TakeI32, TakeI64, TakeString, IsSet;
    var t2: bytes := [];
    var t1 := PutString(p.reason) + t2;
    var left := k;
    CutU8(p.reasonCode, t1, left);
    if left < 1 { return; }
    left := left - 1;
    CutString(p.reason, t2, left);
  }

  lemma SubCut(p: SubPacket, k: nat)
    requires SubFits(p) && k < |SubBody(p)|
    ensures ParseSub(SubBody(p)[..k]) == Err
  {
    hide PutU32, PutU64, PutString, TakeU8, TakeU32, TakeI32, TakeI64, TakeString, IsSet;
    var t6: bytes := [];
    var t5 := PutString(p.param) + t6;
    var t4 := [p.action] + t5;
    var t3 := [p.channelType] + t4;
    var t2 := PutString(p.channelID) + t3;
    var t1 := PutString(p.subNo) + t2;
    var left := k;
    CutU8(p.setting, t1, left);
    if left < 1 { return; }
    left := left - 1;
    CutString(p.subNo, t2, left);
    if left < 2 + |p.subNo| { return; }
    left := left - (2 + |p.subNo|);
    CutString(p.channelID, t3, left);
    if left < 2 + |p.channelID| { return; }
    left := left - (2 + |p.channelID|);
    CutU8(p.channelType, t4, left);
    if left < 1 { return; }
    left := left - 1;
    CutU8(p.action, t5, left);
    if left < 1 { return; }
    left := left - 1;
    CutString(p.param, t6, left);
  }

  lemma SubackCut(p: SubackPacket, k: nat)
    requires SubackFits(p) && k < |SubackBody(p)|
    ensures ParseSuback(SubackBody(p)[..k]) == Err
  {
    hide PutU32, PutU64, PutString, TakeU8, TakeU32, TakeI32, TakeI64, TakeString, IsSet;
    var t5: bytes := [];
    var t4 := [p.reasonCode] + t5;
    var t3 := [p.action] + t4;
    var t2 := [p.channelType] + t3;
    var t1 := PutString(p.channelID) + t2;
    var left := k;
    CutString(p.subNo, t1, left);
    if left < 2 + |p.subNo| { return; }
    left := left - (2 + |p.subNo|);
    CutString(p.channelID, t2, left);
    if left < 2 + |p.channelID| { return; }
    left := left - (2 + |p.channelID|);
    CutU8(p.channelType, t3, left);
    if left < 1 { return; }
    left := left - 1;
    CutU8(p.action, t4, left);
    if left < 1 { return; }
    left := left - 1;
    CutU8(p.reasonCode, t5, left);
  }

  /** What a body ends in that may be of any length. */
  function PayloadSize(p: Packet): nat {
    match p
    case Send(s) => |s.payload|
    case Recv(r) => |r.payload|
    case _ => 0
  }

  /** A body cut short in front of its payload is an error. */
  lemma CutBodyIsRefused(f: Frame, version: byte, k: nat)
    requires !Bare(f.packet) && StringsFit(f, version) && k + PayloadSize(f.packet) < |Body(f, version)|
    ensures ParseBody(FrameType(f.packet), f.flags.hasServerVersion, Body(f, version)[..k], version) == Err
  {
    hide ConnectBody, ConnackBody, SendBody, SendackBody, RecvBody, RecvackBody, DisconnectBody, SubBody, SubackBody,
      ParseConnect, ParseConnack, ParseSend, ParseSendack, ParseRecv, ParseRecvack, ParseDisconnect, ParseSub,
      ParseSuback, ConnectFits, ConnackFits, SendFits, RecvFits, DisconnectFits, SubFits, SubackFits;
    match f.packet
    case Connect(p) => ConnectCut(p, k);
    case Connack(p) => ConnackCut(p, f.flags.hasServerVersion, k);
    case Send(p) => SendCut(p, version, k);
    case Sendack(p) => SendackCut(p, k);
    case Recv(p) => RecvCut(p, version, k);
    case Recvack(p) => RecvackCut(p, k);
    case Disconnect(p) => DisconnectCut(p, k);
    case Sub(p) => SubCut(p, k);
    case Suback(p) => SubackCut(p, k);
  }

  // ------------------------------------------------------------ whole frames

  /** A first byte, a length and what follows it: whatever the type, but for 0, PING and PONG. */
  lemma FrameOutcome(head: byte, n: nat, rest: bytes, version: byte)
    requires 0 < n < 0x1000_0000 && head / 16 != 0 && head / 16 != 7 && head / 16 != 8
    ensures var r := DecodeFrameOf([head] + (PutLength(n) + rest), version);
      && (n > 1_048_576 ==> r == Bad)
      && (n <= 1_048_576 && |rest| < n ==> r == More)
      && (n <= 1_048_576 && |rest| >= n ==> match
          ParseBody(head / 16, FlagsOf(head).hasServerVersion, rest[..n], version)
          case Ok(p) => r.Got? && r.packet == p && r.size == 1 + |PutLength(n)| + n
          case Err => r == Bad
          case Panic => r == Decoded.Panic)
  {
    hide ReadLength, PutLength, NoLastDigit, ParseBody, FlagsOf;
    var s := [head] + (PutLength(n) + rest);
    ShortLengthIsWhole(n, rest);
    assert s[1..] == PutLength(n) + rest;
    if |rest| >= n {
      assert s[1 + |PutLength(n)|..1 + |PutLength(n)| + n] == rest[..n];
    }
  }

  /** Type 0 asks for more, types from 12 on have no decoder, PING and PONG need nothing else. */
  lemma TypeOutcome(head: byte, n: nat, rest: bytes, version: byte)
    requires 0 < n <= 1_048_576 && n <= |rest|
    ensures var r := DecodeFrameOf([head] + (PutLength(n) + rest), version);
      && (head / 16 == 0 ==> r == More)
      && (head / 16 >= 12 ==> r == Bad)
      && (head / 16 == 7 ==> r.Got? && r.packet == Ping && r.size == 1)
      && (head / 16 == 8 ==> r.Got? && r.packet == Pong && r.size == 1)
    ensures DecodeFrameOf([], version) == Decoded.Panic
  {
    hide ReadLength, PutLength, NoLastDigit;
    if head / 16 >= 12 {
      FrameOutcome(head, n, rest, version);
    }
  }

  /** A frame whose length and body were cut alike is refused, whatever follows it. */
  lemma CutFrameIsRefused(f: Frame, version: byte, k: nat, rest: bytes)
    requires Decodable(f, version) && !Bare(f.packet) && 0 < k && k + PayloadSize(f.packet) < |Body(f, version)|
    ensures DecodeFrameOf([HeaderByte(f)] + (PutLength(k) + (Body(f, version)[..k] + rest)), version) == Bad
  {
    hide PutLength, ParseBody, Body, StringsFit, HeaderByte, FlagsOf, DecodeFrameOf;
    SizeIsBodyLength(f, version);
    HeaderRoundTrip(f);
    FlagsAgreeAt(f, version, Body(f, version)[..k]);
    CutBodyIsRefused(f, version, k);
    var cut := Body(f, version)[..k];
    assert (cut + rest)[..k] == cut;
    FrameOutcome(HeaderByte(f), k, cut + rest, version);
  }

  lemma FlagsAgreeAt(f: Frame, version: byte, body: bytes)
    requires !Bare(f.packet)
    ensures ParseBody(FrameType(f.packet), SentFlags(f).hasServerVersion, body, version)
      == ParseBody(FrameType(f.packet), f.flags.hasServerVersion, body, version)
    ensures FrameType(f.packet) !in {0, 7, 8}
  {
    hide ParseConnect, ParseConnack, ParseSend, ParseSendack, ParseRecv, ParseRecvack, ParseDisconnect, ParseSub,
      ParseSuback, WrapOutcome;
  }
}
