/**
 * The nine packets that have a body (connect.go, connack.go, send.go, sendack.go, recv.go, recvack.go,
 * disconnect.go, sub.go, suback.go): for each, the bytes of its body, their number as the source computes it
 * up front, and how a body is read back.
 */
module Packets {
  import opened Bytes
  import opened Wrappers
  import opened Codec

  type uint64 = x: int | 0 <= x < TWO64

  const SETTING_TOPIC := 8    // bit 3
  const SETTING_STREAM := 4   // bit 2

  /** Setting.IsSet for a flag of one bit. */
  predicate IsSet(setting: byte, flag: int)
    requires flag > 0
  {
    setting / flag % 2 == 1
  }

  predicate Short(s: bytes) { |s| <= MAX_STRING }

  datatype ConnectPacket = ConnectPacket(
    protoVersion: byte, clientKey: bytes, deviceID: bytes, deviceFlag: byte, clientTimestamp: int64,
    uid: bytes, token: bytes)

  datatype ConnackPacket = ConnackPacket(
    serverVersion: byte, serverKey: bytes, salt: bytes, timeDiff: int64, reasonCode: byte)

  datatype SendPacket = SendPacket(
    setting: byte, msgKey: bytes, expire: uint32, clientSeq: uint64, clientMsgNo: bytes, streamNo: bytes,
    channelID: bytes, channelType: byte, topic: bytes, payload: bytes)

  datatype SendackPacket = SendackPacket(
    messageID: int64, messageSeq: uint32, clientSeq: uint64, clientMsgNo: bytes, reasonCode: byte)

  datatype RecvPacket = RecvPacket(
    setting: byte, msgKey: bytes, expire: uint32, messageID: int64, messageSeq: uint32, clientMsgNo: bytes,
    streamNo: bytes, streamSeq: uint32, streamFlag: byte, timestamp: int32, channelID: bytes,
    channelType: byte, topic: bytes, fromUID: bytes, payload: bytes, clientSeq: uint64)

  datatype RecvackPacket = RecvackPacket(
    messageID: int64, messageSeq: uint32)

  datatype DisconnectPacket = DisconnectPacket(
    reasonCode: byte, reason: bytes)

  datatype SubPacket = SubPacket(
    setting: byte, subNo: bytes, channelID: bytes, channelType: byte, action: byte, param: bytes)

  datatype SubackPacket = SubackPacket(
    subNo: bytes, channelID: bytes, channelType: byte, action: byte, reasonCode: byte)

  // ---------------------------------------------------------------- connect

  /** The body of a CONNECT, last field first. */
  function ConnectBody(p: ConnectPacket): bytes
  {
    var t8: bytes := [];
    var t7 := PutString(p.clientKey) + t8;
    var t6 := PutU64(p.clientTimestamp) + t7;
    var t5 := PutString(p.token) + t6;
    var t4 := PutString(p.uid) + t5;
    var t3 := PutString(p.deviceID) + t4;
    var t2 := [p.deviceFlag] + t3;
    [p.protoVersion] + t2
  }

  function ConnectSize(p: ConnectPacket): nat
  {
    1
    + 1
    + (|p.deviceID| + 2)
    + (|p.uid| + 2)
    + (|p.token| + 2)
    + 8
    + (|p.clientKey| + 2)
  }

  function ParseConnect(s: bytes): Outcome<ConnectPacket> {
    var protoVersion :- TakeU8(s);
    var deviceFlag :- TakeU8(protoVersion.rest);
    var deviceID :- TakeString(deviceFlag.rest);
    var uid :- TakeString(deviceID.rest);
    var token :- TakeString(uid.rest);
    var clientTimestamp :- TakeI64(token.rest);
    var clientKey :- TakeString(clientTimestamp.rest);
    Ok(ConnectPacket(protoVersion.value, clientKey.value, deviceID.value, deviceFlag.value, clientTimestamp.value,
      uid.value, token.value))
  }

  /** Every string that is written can be read back. */
  predicate ConnectFits(p: ConnectPacket)
  {
    && Short(p.deviceID)
    && Short(p.uid)
    && Short(p.token)
    && Short(p.clientKey)
  }

  lemma ConnectSizeIsLength(p: ConnectPacket)
    ensures |ConnectBody(p)| == ConnectSize(p) > 0
  {
  }

  lemma ConnectRoundTrip(p: ConnectPacket)
    requires ConnectFits(p)
    ensures ParseConnect(ConnectBody(p)) == Ok(p)
  {
    hide PutU32, PutU64, PutString, TakeU8, TakeU32, TakeI32, TakeI64, TakeString;
    var t8: bytes := [];
    var t7 := PutString(p.clientKey) + t8;
    var t6 := PutU64(p.clientTimestamp) + t7;
    var t5 := PutString(p.token) + t6;
    var t4 := PutString(p.uid) + t5;
    var t3 := PutString(p.deviceID) + t4;
    var t2 := [p.deviceFlag] + t3;
    TakePutU8(p.protoVersion, t2);
    TakePutU8(p.deviceFlag, t3);
    StringRoundTrip(p.deviceID, t4);
    StringRoundTrip(p.uid, t5);
    StringRoundTrip(p.token, t6);
    TakePutI64(p.clientTimestamp, t7);
    StringRoundTrip(p.clientKey, t8);
  }

  lemma ParsedConnectFits(s: bytes)
    ensures var r := ParseConnect(s); r.Ok? ==> ConnectFits(r.value)
  {
    hide TakeU8, TakeU32, TakeI32, TakeI64, TakeString;
    TakenStringsAreShort();
  }

  // ---------------------------------------------------------------- connack

  /** The body of a CONNACK, last field first. */
  function ConnackBody(p: ConnackPacket, hasServerVersion: bool): bytes
  {
    var t6: bytes := [];
    var t5 := PutString(p.salt) + t6;
    var t4 := PutString(p.serverKey) + t5;
    var t3 := [p.reasonCode] + t4;
    var t2 := PutU64(p.timeDiff) + t3;
    if hasServerVersion then [p.serverVersion] + t2 else t2
  }

  function ConnackSize(p: ConnackPacket, hasServerVersion: bool): nat
  {
    (if hasServerVersion then 1 else 0)
    + 8
    + 1
    + (|p.serverKey| + 2)
    + (|p.salt| + 2)
  }

  function ParseConnack(s: bytes, hasServerVersion: bool): Outcome<ConnackPacket> {
    var serverVersion :- if hasServerVersion then TakeU8(s) else Ok(Read(0, s));
    var timeDiff :- TakeI64(serverVersion.rest);
    var reasonCode :- TakeU8(timeDiff.rest);
    var serverKey :- TakeString(reasonCode.rest);
    var salt :- TakeString(serverKey.rest);
    Ok(ConnackPacket(serverVersion.value, serverKey.value, salt.value, timeDiff.value, reasonCode.value))
  }

  /** The packet without what its body leaves out. */
  function ConnackSent(p: ConnackPacket, hasServerVersion: bool): ConnackPacket
  {
    p.(serverVersion := if hasServerVersion then p.serverVersion else 0)
  }

  /** Every string that is written can be read back. */
  predicate ConnackFits(p: ConnackPacket, hasServerVersion: bool)
  {
    && Short(p.serverKey)
    && Short(p.salt)
  }

  lemma ConnackSizeIsLength(p: ConnackPacket, hasServerVersion: bool)
    ensures |ConnackBody(p, hasServerVersion)| == ConnackSize(p, hasServerVersion) > 0
  {
  }

  lemma ConnackRoundTrip(p: ConnackPacket, hasServerVersion: bool)
    requires ConnackFits(p, hasServerVersion)
    ensures ParseConnack(ConnackBody(p, hasServerVersion), hasServerVersion) == Ok(ConnackSent(p, hasServerVersion))
  {
    hide PutU32, PutU64, PutString, TakeU8, TakeU32, TakeI32, TakeI64, TakeString;
    var t6: bytes := [];
    var t5 := PutString(p.salt) + t6;
    var t4 := PutString(p.serverKey) + t5;
    var t3 := [p.reasonCode] + t4;
    var t2 := PutU64(p.timeDiff) + t3;
    if hasServerVersion { TakePutU8(p.serverVersion, t2); }
    TakePutI64(p.timeDiff, t3);
    TakePutU8(p.reasonCode, t4);
    StringRoundTrip(p.serverKey, t5);
    StringRoundTrip(p.salt, t6);
  }

  lemma ParsedConnackFits(s: bytes, hasServerVersion: bool)
    ensures var r := ParseConnack(s, hasServerVersion); r.Ok? ==> ConnackFits(r.value, hasServerVersion)
  {
    hide TakeU8, TakeU32, TakeI32, TakeI64, TakeString;
    TakenStringsAreShort();
  }

  // ---------------------------------------------------------------- send

  /** The body of a SEND, last field first. */
  function SendBody(p: SendPacket, version: byte): bytes
  {
    var t10 := p.payload;
    var t9 := if IsSet(p.setting, SETTING_TOPIC) then PutString(p.topic) + t10 else t10;
    var t8 := PutString(p.msgKey) + t9;
    var t7 := if version >= 3 then PutU32(p.expire) + t8 else t8;
    var t6 := [p.channelType] + t7;
    var t5 := PutString(p.channelID) + t6;
    var t4 := if version >= 2 && IsSet(p.setting, SETTING_STREAM) then PutString(p.streamNo) + t5 else t5;
    var t3 := PutString(p.clientMsgNo) + t4;
    var t2 := PutU32(p.clientSeq) + t3;
    [p.setting] + t2
  }

  function SendSize(p: SendPacket, version: byte): nat
  {
    1
    + 4
    + (|p.clientMsgNo| + 2)
    + (if version >= 2 && IsSet(p.setting, SETTING_STREAM) then |p.streamNo| + 2 else 0)
    + (|p.channelID| + 2)
    + 1
    + (if version >= 3 then 4 else 0)
    + (|p.msgKey| + 2)
    + (if IsSet(p.setting, SETTING_TOPIC) then |p.topic| + 2 else 0)
    + |p.payload|
  }

  function ParseSend(s: bytes, version: byte): Outcome<SendPacket> {
    var setting :- TakeU8(s);
    var clientSeq :- TakeU32(setting.rest);
    var clientMsgNo :- TakeString(clientSeq.rest);
    var streamNo :- if version >= 2 && IsSet(setting.value, SETTING_STREAM) then TakeString(clientMsgNo.rest)
      else Ok(Read([], clientMsgNo.rest));
    var channelID :- TakeString(streamNo.rest);
    var channelType :- TakeU8(channelID.rest);
    var expire :- if version >= 3 then TakeU32(channelType.rest) else Ok(Read(0, channelType.rest));
    var msgKey :- TakeString(expire.rest);
    var topic :- if IsSet(setting.value, SETTING_TOPIC) then TakeString(msgKey.rest) else Ok(Read([], msgKey.rest));
    Ok(SendPacket(setting.value, msgKey.value, expire.value, clientSeq.value, clientMsgNo.value, streamNo.value,
      channelID.value, channelType.value, topic.value, topic.rest))
  }

  /** The packet without what its body leaves out. */
  function SendSent(p: SendPacket, version: byte): SendPacket
  {
    p.(expire := if version >= 3 then p.expire else 0,
       clientSeq := p.clientSeq % TWO32,
       streamNo := if version >= 2 && IsSet(p.setting, SETTING_STREAM) then p.streamNo else [],
       topic := if IsSet(p.setting, SETTING_TOPIC) then p.topic else [])
  }

  /** Every string that is written can be read back. */
  predicate SendFits(p: SendPacket, version: byte)
  {
    && Short(p.clientMsgNo)
    && (version >= 2 && IsSet(p.setting, SETTING_STREAM) ==> Short(p.streamNo))
    && Short(p.channelID)
    && Short(p.msgKey)
    && (IsSet(p.setting, SETTING_TOPIC) ==> Short(p.topic))
  }

  lemma SendSizeIsLength(p: SendPacket, version: byte)
    ensures |SendBody(p, version)| == SendSize(p, version) > 0
  {
  }

  lemma SendRoundTrip(p: SendPacket, version: byte)
    requires SendFits(p, version)
    ensures ParseSend(SendBody(p, version), version) == Ok(SendSent(p, version))
  {
    hide PutU32, PutU64, PutString, TakeU8, TakeU32, TakeI32, TakeI64, TakeString;
    var t10 := p.payload;
    var t9 := if IsSet(p.setting, SETTING_TOPIC) then PutString(p.topic) + t10 else t10;
    var t8 := PutString(p.msgKey) + t9;
    var t7 := if version >= 3 then PutU32(p.expire) + t8 else t8;
    var t6 := [p.channelType] + t7;
    var t5 := PutString(p.channelID) + t6;
    var t4 := if version >= 2 && IsSet(p.setting, SETTING_STREAM) then PutString(p.streamNo) + t5 else t5;
    var t3 := PutString(p.clientMsgNo) + t4;
    var t2 := PutU32(p.clientSeq) + t3;
    TakePutU8(p.setting, t2);
    TakePutU32(p.clientSeq, t3);
    StringRoundTrip(p.clientMsgNo, t4);
    if version >= 2 && IsSet(p.setting, SETTING_STREAM) { StringRoundTrip(p.streamNo, t5); }
    StringRoundTrip(p.channelID, t6);
    TakePutU8(p.channelType, t7);
    if version >= 3 { TakePutU32(p.expire, t8); }
    StringRoundTrip(p.msgKey, t9);
    if IsSet(p.setting, SETTING_TOPIC) { StringRoundTrip(p.topic, t10); }
  }

  lemma ParsedSendFits(s: bytes, version: byte)
    ensures var r := ParseSend(s, version); r.Ok? ==> SendFits(r.value, version)
  {
    hide TakeU8, TakeU32, TakeI32, TakeI64, TakeString;
    TakenStringsAreShort();
  }

  // ---------------------------------------------------------------- sendack

  /** The body of a SENDACK, last field first. */
  function SendackBody(p: SendackPacket): bytes
  {
    var t5: bytes := [];
    var t4 := [p.reasonCode] + t5;
    var t3 := PutU32(p.messageSeq) + t4;
    var t2 := PutU32(p.clientSeq) + t3;
    PutU64(p.messageID) + t2
  }

  function SendackSize(p: SendackPacket): nat
  {
    8
    + 4
    + 4
    + 1
  }

  function ParseSendack(s: bytes): Outcome<SendackPacket> {
    var messageID :- TakeI64(s);
    var clientSeq :- TakeU32(messageID.rest);
    var messageSeq :- TakeU32(clientSeq.rest);
    var reasonCode :- TakeU8(messageSeq.rest);
    Ok(SendackPacket(messageID.value, messageSeq.value, clientSeq.value, [], reasonCode.value))
  }

  /** The packet without what its body leaves out. */
  function SendackSent(p: SendackPacket): SendackPacket
  {
    p.(clientSeq := p.clientSeq % TWO32,
       clientMsgNo := [])
  }

  lemma SendackSizeIsLength(p: SendackPacket)
    ensures |SendackBody(p)| == SendackSize(p) > 0
  {
  }

  lemma SendackRoundTrip(p: SendackPacket)
    ensures ParseSendack(SendackBody(p)) == Ok(SendackSent(p))
  {
    hide PutU32, PutU64, PutString, TakeU8, TakeU32, TakeI32, TakeI64, TakeString;
    var t5: bytes := [];
    var t4 := [p.reasonCode] + t5;
    var t3 := PutU32(p.messageSeq) + t4;
    var t2 := PutU32(p.clientSeq) + t3;
    TakePutI64(p.messageID, t2);
    TakePutU32(p.clientSeq, t3);
    TakePutU32(p.messageSeq, t4);
    TakePutU8(p.reasonCode, t5);
  }

  // ---------------------------------------------------------------- recv

  /** The body of a RECV, last field first. */
  function RecvBody(p: RecvPacket, version: byte): bytes
  {
    var t15 := p.payload;
    var t14 := if IsSet(p.setting, SETTING_TOPIC) then PutString(p.topic) + t15 else t15;
    var t13 := PutU32(p.timestamp) + t14;
    var t12 := PutU32(p.messageSeq) + t13;
    var t11 := PutU64(p.messageID) + t12;
    var t10 := if version >= 2 && IsSet(p.setting, SETTING_STREAM) then [p.streamFlag] + t11 else t11;
    var t9 := if version >= 2 && IsSet(p.setting, SETTING_STREAM) then PutU32(p.streamSeq) + t10 else t10;
    var t8 := if version >= 2 && IsSet(p.setting, SETTING_STREAM) then PutString(p.streamNo) + t9 else t9;
    var t7 := PutString(p.clientMsgNo) + t8;
    var t6 := if version >= 3 then PutU32(p.expire) + t7 else t7;
    var t5 := [p.channelType] + t6;
    var t4 := PutString(p.channelID) + t5;
    var t3 := PutString(p.fromUID) + t4;
    var t2 := PutString(p.msgKey) + t3;
    [p.setting] + t2
  }

  function RecvSize(p: RecvPacket, version: byte): nat
  {
    1
    + (|p.msgKey| + 2)
    + (|p.fromUID| + 2)
    + (|p.channelID| + 2)
    + 1
    + (if version >= 3 then 4 else 0)
    + (|p.clientMsgNo| + 2)
    + (if version >= 2 && IsSet(p.setting, SETTING_STREAM) then |p.streamNo| + 2 else 0)
    + (if version >= 2 && IsSet(p.setting, SETTING_STREAM) then 4 else 0)
    + (if version >= 2 && IsSet(p.setting, SETTING_STREAM) then 1 else 0)
    + 8
    + 4
    + 4
    + (if IsSet(p.setting, SETTING_TOPIC) then |p.topic| + 2 else 0)
    + |p.payload|
  }

  function ParseRecv(s: bytes, version: byte): Outcome<RecvPacket> {
    var setting :- TakeU8(s);
    var msgKey :- TakeString(setting.rest);
    var fromUID :- TakeString(msgKey.rest);
    var channelID :- TakeString(fromUID.rest);
    var channelType :- TakeU8(channelID.rest);
    var expire :- if version >= 3 then TakeU32(channelType.rest) else Ok(Read(0, channelType.rest));
    var clientMsgNo :- TakeString(expire.rest);
    var streamNo :- if version >= 2 && IsSet(setting.value, SETTING_STREAM) then TakeString(clientMsgNo.rest)
      else Ok(Read([], clientMsgNo.rest));
    var streamSeq :- if version >= 2 && IsSet(setting.value, SETTING_STREAM) then TakeU32(streamNo.rest)
      else Ok(Read(0, streamNo.rest));
    var streamFlag :- if version >= 2 && IsSet(setting.value, SETTING_STREAM) then TakeU8(streamSeq.rest)
      else Ok(Read(0, streamSeq.rest));
    var messageID :- TakeI64(streamFlag.rest);
    var messageSeq :- TakeU32(messageID.rest);
    var timestamp :- TakeI32(messageSeq.rest);
    var topic :- if IsSet(setting.value, SETTING_TOPIC) then TakeString(timestamp.rest)
      else Ok(Read([], timestamp.rest));
    Ok(RecvPacket(setting.value, msgKey.value, expire.value, messageID.value, messageSeq.value, clientMsgNo.value,
      streamNo.value, streamSeq.value, streamFlag.value, timestamp.value, channelID.value, channelType.value,
      topic.value, fromUID.value, topic.rest, 0))
  }

  /** The packet without what its body leaves out. */
  function RecvSent(p: RecvPacket, version: byte): RecvPacket
  {
    p.(expire := if version >= 3 then p.expire else 0,
       streamNo := if version >= 2 && IsSet(p.setting, SETTING_STREAM) then p.streamNo else [],
       streamSeq := if version >= 2 && IsSet(p.setting, SETTING_STREAM) then p.streamSeq else 0,
       streamFlag := if version >= 2 && IsSet(p.setting, SETTING_STREAM) then p.streamFlag else 0,
       topic := if IsSet(p.setting, SETTING_TOPIC) then p.topic else [],
       clientSeq := 0)
  }

  /** Every string that is written can be read back. */
  predicate RecvFits(p: RecvPacket, version: byte)
  {
    && Short(p.msgKey)
    && Short(p.fromUID)
    && Short(p.channelID)
    && Short(p.clientMsgNo)
    && (version >= 2 && IsSet(p.setting, SETTING_STREAM) ==> Short(p.streamNo))
    && (IsSet(p.setting, SETTING_TOPIC) ==> Short(p.topic))
  }

  lemma RecvSizeIsLength(p: RecvPacket, version: byte)
    ensures |RecvBody(p, version)| == RecvSize(p, version) > 0
  {
  }

  lemma RecvRoundTrip(p: RecvPacket, version: byte)
    requires RecvFits(p, version)
    ensures ParseRecv(RecvBody(p, version), version) == Ok(RecvSent(p, version))
  {
    hide PutU32, PutU64, PutString, TakeU8, TakeU32, TakeI32, TakeI64, TakeString;
    var t15 := p.payload;
    var t14 := if IsSet(p.setting, SETTING_TOPIC) then PutString(p.topic) + t15 else t15;
    var t13 := PutU32(p.timestamp) + t14;
    var t12 := PutU32(p.messageSeq) + t13;
    var t11 := PutU64(p.messageID) + t12;
    var t10 := if version >= 2 && IsSet(p.setting, SETTING_STREAM) then [p.streamFlag] + t11 else t11;
    var t9 := if version >= 2 && IsSet(p.setting, SETTING_STREAM) then PutU32(p.streamSeq) + t10 else t10;
    var t8 := if version >= 2 && IsSet(p.setting, SETTING_STREAM) then PutString(p.streamNo) + t9 else t9;
    var t7 := PutString(p.clientMsgNo) + t8;
    var t6 := if version >= 3 then PutU32(p.expire) + t7 else t7;
    var t5 := [p.channelType] + t6;
    var t4 := PutString(p.channelID) + t5;
    var t3 := PutString(p.fromUID) + t4;
    var t2 := PutString(p.msgKey) + t3;
    TakePutU8(p.setting, t2);
    StringRoundTrip(p.msgKey, t3);
    StringRoundTrip(p.fromUID, t4);
    StringRoundTrip(p.channelID, t5);
    TakePutU8(p.channelType, t6);
    if version >= 3 { TakePutU32(p.expire, t7); }
    StringRoundTrip(p.clientMsgNo, t8);
    if version >= 2 && IsSet(p.setting, SETTING_STREAM) { StringRoundTrip(p.streamNo, t9); }
    if version >= 2 && IsSet(p.setting, SETTING_STREAM) { TakePutU32(p.streamSeq, t10); }
    if version >= 2 && IsSet(p.setting, SETTING_STREAM) { TakePutU8(p.streamFlag, t11); }
    TakePutI64(p.messageID, t12);
    TakePutU32(p.messageSeq, t13);
    TakePutI32(p.timestamp, t14);
    if IsSet(p.setting, SETTING_TOPIC) { StringRoundTrip(p.topic, t15); }
  }

  lemma ParsedRecvFits(s: bytes, version: byte)
    ensures var r := ParseRecv(s, version); r.Ok? ==> RecvFits(r.value, version)
  {
    hide TakeU8, TakeU32, TakeI32, TakeI64, TakeString;
    TakenStringsAreShort();
  }

  // ---------------------------------------------------------------- recvack

  /** The body of a RECVACK, last field first. */
  function RecvackBody(p: RecvackPacket): bytes
  {
    var t3: bytes := [];
    var t2 := PutU32(p.messageSeq) + t3;
    PutU64(p.messageID) + t2
  }

  function RecvackSize(p: RecvackPacket): nat
  {
    8
    + 4
  }

  function ParseRecvack(s: bytes): Outcome<RecvackPacket> {
    var messageID :- TakeI64(s);
    var messageSeq :- TakeU32(messageID.rest);
    Ok(RecvackPacket(messageID.value, messageSeq.value))
  }

  lemma RecvackSizeIsLength(p: RecvackPacket)
    ensures |RecvackBody(p)| == RecvackSize(p) > 0
  {
  }

  lemma RecvackRoundTrip(p: RecvackPacket)
    ensures ParseRecvack(RecvackBody(p)) == Ok(p)
  {
    hide PutU32, PutU64, PutString, TakeU8, TakeU32, TakeI32, TakeI64, TakeString;
    var t3: bytes := [];
    var t2 := PutU32(p.messageSeq) + t3;
    TakePutI64(p.messageID, t2);
    TakePutU32(p.messageSeq, t3);
  }

  // ---------------------------------------------------------------- disconnect

  /** The body of a DISCONNECT, last field first. */
  function DisconnectBody(p: DisconnectPacket): bytes
  {
    var t3: bytes := [];
    var t2 := PutString(p.reason) + t3;
    [p.reasonCode] + t2
  }

  function DisconnectSize(p: DisconnectPacket): nat
  {
    1
    + (|p.reason| + 2)
  }

  function ParseDisconnect(s: bytes): Outcome<DisconnectPacket> {
    var reasonCode :- TakeU8(s);
    var reason :- TakeString(reasonCode.rest);
    Ok(DisconnectPacket(reasonCode.value, reason.value))
  }

  /** Every string that is written can be read back. */
  predicate DisconnectFits(p: DisconnectPacket)
  {
    && Short(p.reason)
  }

  lemma DisconnectSizeIsLength(p: DisconnectPacket)
    ensures |DisconnectBody(p)| == DisconnectSize(p) > 0
  {
  }

  lemma DisconnectRoundTrip(p: DisconnectPacket)
    requires DisconnectFits(p)
    ensures ParseDisconnect(DisconnectBody(p)) == Ok(p)
  {
    hide PutU32, PutU64, PutString, TakeU8, TakeU32, TakeI32, TakeI64, TakeString;
    var t3: bytes := [];
    var t2 := PutString(p.reason) + t3;
    TakePutU8(p.reasonCode, t2);
    StringRoundTrip(p.reason, t3);
  }

  lemma ParsedDisconnectFits(s: bytes)
    ensures var r := ParseDisconnect(s); r.Ok? ==> DisconnectFits(r.value)
  {
    hide TakeU8, TakeU32, TakeI32, TakeI64, TakeString;
    TakenStringsAreShort();
  }

  // ---------------------------------------------------------------- sub

  /** The body of a SUB, last field first. */
  function SubBody(p: SubPacket): bytes
  {
    var t7: bytes := [];
    var t6 := PutString(p.param) + t7;
    var t5 := [p.action] + t6;
    var t4 := [p.channelType] + t5;
    var t3 := PutString(p.channelID) + t4;
    var t2 := PutString(p.subNo) + t3;
    [p.setting] + t2
  }

  function SubSize(p: SubPacket): nat
  {
    1
    + (|p.subNo| + 2)
    + (|p.channelID| + 2)
    + 1
    + 1
    + (|p.param| + 2)
  }

  function ParseSub(s: bytes): Outcome<SubPacket> {
    var setting :- TakeU8(s);
    var subNo :- TakeString(setting.rest);
    var channelID :- TakeString(subNo.rest);
    var channelType :- TakeU8(channelID.rest);
    var action :- TakeU8(channelType.rest);
    var param :- TakeString(action.rest);
    Ok(SubPacket(setting.value, subNo.value, channelID.value, channelType.value, action.value, param.value))
  }

  /** Every string that is written can be read back. */
  predicate SubFits(p: SubPacket)
  {
    && Short(p.subNo)
    && Short(p.channelID)
    && Short(p.param)
  }

  lemma SubSizeIsLength(p: SubPacket)
    ensures |SubBody(p)| == SubSize(p) > 0
  {
  }

  lemma SubRoundTrip(p: SubPacket)
    requires SubFits(p)
    ensures ParseSub(SubBody(p)) == Ok(p)
  {
    hide PutU32, PutU64, PutString, TakeU8, TakeU32, TakeI32, TakeI64, TakeString;
    var t7: bytes := [];
    var t6 := PutString(p.param) + t7;
    var t5 := [p.action] + t6;
    var t4 := [p.channelType] + t5;
    var t3 := PutString(p.channelID) + t4;
    var t2 := PutString(p.subNo) + t3;
    TakePutU8(p.setting, t2);
    StringRoundTrip(p.subNo, t3);
    StringRoundTrip(p.channelID, t4);
    TakePutU8(p.channelType, t5);
    TakePutU8(p.action, t6);
    StringRoundTrip(p.param, t7);
  }

  lemma ParsedSubFits(s: bytes)
    ensures var r := ParseSub(s); r.Ok? ==> SubFits(r.value)
  {
    hide TakeU8, TakeU32, TakeI32, TakeI64, TakeString;
    TakenStringsAreShort();
  }

  // ---------------------------------------------------------------- suback

  /** The body of a SUBACK, last field first. */
  function SubackBody(p: SubackPacket): bytes
  {
    var t6: bytes := [];
    var t5 := [p.reasonCode] + t6;
    var t4 := [p.action] + t5;
    var t3 := [p.channelType] + t4;
    var t2 := PutString(p.channelID) + t3;
    PutString(p.subNo) + t2
  }

  function SubackSize(p: SubackPacket): nat
  {
    (|p.subNo| + 2)
    + (|p.channelID| + 2)
    + 1
    + 1
    + 1
  }

  function ParseSuback(s: bytes): Outcome<SubackPacket> {
    var subNo :- TakeString(s);
    var channelID :- TakeString(subNo.rest);
    var channelType :- TakeU8(channelID.rest);
    var action :- TakeU8(channelType.rest);
    var reasonCode :- TakeU8(action.rest);
    Ok(SubackPacket(subNo.value, channelID.value, channelType.value, action.value, reasonCode.value))
  }

  /** Every string that is written can be read back. */
  predicate SubackFits(p: SubackPacket)
  {
    && Short(p.subNo)
    && Short(p.channelID)
  }

  lemma SubackSizeIsLength(p: SubackPacket)
    ensures |SubackBody(p)| == SubackSize(p) > 0
  {
  }

  lemma SubackRoundTrip(p: SubackPacket)
    requires SubackFits(p)
    ensures ParseSuback(SubackBody(p)) == Ok(p)
  {
    hide PutU32, PutU64, PutString, TakeU8, TakeU32, TakeI32, TakeI64, TakeString;
    var t6: bytes := [];
    var t5 := [p.reasonCode] + t6;
    var t4 := [p.action] + t5;
    var t3 := [p.channelType] + t4;
    var t2 := PutString(p.channelID) + t3;
    StringRoundTrip(p.subNo, t2);
    StringRoundTrip(p.channelID, t3);
    TakePutU8(p.channelType, t4);
    TakePutU8(p.action, t5);
    TakePutU8(p.reasonCode, t6);
  }

  lemma ParsedSubackFits(s: bytes)
    ensures var r := ParseSuback(s); r.Ok? ==> SubackFits(r.value)
  {
    hide TakeU8, TakeU32, TakeI32, TakeI64, TakeString;
    TakenStringsAreShort();
  }
}
