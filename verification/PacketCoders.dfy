/**
 * Writing and reading the bodies field by field, as the source does it, with a mutable encoder and decoder.
 * Every method is proved to produce, or to read, the bytes that module Packets defines.
 */
module PacketCoders {
  import opened Bytes
  import opened Wrappers
  import opened Codec
  import opened Packets

  method EncodeConnect(p: ConnectPacket, enc: Encoder)
    modifies enc
    ensures enc.w == old(enc.w) + ConnectBody(p)
  {
    hide PutU32, PutU64, PutString;
    ghost var t8: bytes := [];
    ghost var t7 := PutString(p.clientKey) + t8;
    ghost var t6 := PutU64(p.clientTimestamp) + t7;
    ghost var t5 := PutString(p.token) + t6;
    ghost var t4 := PutString(p.uid) + t5;
    ghost var t3 := PutString(p.deviceID) + t4;
    ghost var t2 := [p.deviceFlag] + t3;
    enc.WriteUint8(p.protoVersion, t2);
    enc.WriteUint8(p.deviceFlag, t3);
    enc.WriteString(p.deviceID, t4);
    enc.WriteString(p.uid, t5);
    enc.WriteString(p.token, t6);
    enc.WriteInt64(p.clientTimestamp, t7);
    enc.WriteString(p.clientKey, t8);
    assert enc.w == enc.w + [];
  }

  method DecodeConnect(data: bytes) returns (r: Outcome<ConnectPacket>)
    ensures r == ParseConnect(data)
  {
    hide TakeU8, TakeU32, TakeI32, TakeI64, TakeString;
    var dec := new Decoder(data);
    assert dec.Rest() == data;
    var protoVersion := dec.Uint8();
    if !protoVersion.Ok? {
      return protoVersion.PropagateFailure();
    }
    var deviceFlag := dec.Uint8();
    if !deviceFlag.Ok? {
      return deviceFlag.PropagateFailure();
    }
    var deviceID := dec.String();
    if !deviceID.Ok? {
      return deviceID.PropagateFailure();
    }
    var uid := dec.String();
    if !uid.Ok? {
      return uid.PropagateFailure();
    }
    var token := dec.String();
    if !token.Ok? {
      return token.PropagateFailure();
    }
    var clientTimestamp := dec.Int64();
    if !clientTimestamp.Ok? {
      return clientTimestamp.PropagateFailure();
    }
    var clientKey := dec.String();
    if !clientKey.Ok? {
      return clientKey.PropagateFailure();
    }
    return Ok(ConnectPacket(protoVersion.value, clientKey.value, deviceID.value, deviceFlag.value,
      clientTimestamp.value, uid.value, token.value));
  }

  method EncodeConnack(p: ConnackPacket, enc: Encoder, hasServerVersion: bool)
    modifies enc
    ensures enc.w == old(enc.w) + ConnackBody(p, hasServerVersion)
  {
    hide PutU32, PutU64, PutString;
    ghost var t6: bytes := [];
    ghost var t5 := PutString(p.salt) + t6;
    ghost var t4 := PutString(p.serverKey) + t5;
    ghost var t3 := [p.reasonCode] + t4;
    ghost var t2 := PutU64(p.timeDiff) + t3;
    if hasServerVersion {
      enc.WriteUint8(p.serverVersion, t2);
    }
    enc.WriteInt64(p.timeDiff, t3);
    enc.WriteUint8(p.reasonCode, t4);
    enc.WriteString(p.serverKey, t5);
    enc.WriteString(p.salt, t6);
    assert enc.w == enc.w + [];
  }

  method DecodeConnack(data: bytes, hasServerVersion: bool) returns (r: Outcome<ConnackPacket>)
    ensures r == ParseConnack(data, hasServerVersion)
  {
    hide TakeU8, TakeU32, TakeI32, TakeI64, TakeString;
    var dec := new Decoder(data);
    assert dec.Rest() == data;
    var serverVersion: byte := 0;
    if hasServerVersion {
      var serverVersionRead := dec.Uint8();
      if !serverVersionRead.Ok? {
        return serverVersionRead.PropagateFailure();
      }
      serverVersion := serverVersionRead.value;
    }
    var timeDiff := dec.Int64();
    if !timeDiff.Ok? {
      return timeDiff.PropagateFailure();
    }
    var reasonCode := dec.Uint8();
    if !reasonCode.Ok? {
      return reasonCode.PropagateFailure();
    }
    var serverKey := dec.String();
    if !serverKey.Ok? {
      return serverKey.PropagateFailure();
    }
    var salt := dec.String();
    if !salt.Ok? {
      return salt.PropagateFailure();
    }
    return Ok(ConnackPacket(serverVersion, serverKey.value, salt.value, timeDiff.value, reasonCode.value));
  }

  method EncodeSend(p: SendPacket, enc: Encoder, version: byte)
    modifies enc
    ensures enc.w == old(enc.w) + SendBody(p, version)
  {
    hide PutU32, PutU64, PutString;
    ghost var t10 := p.payload;
    ghost var t9 := if IsSet(p.setting, SETTING_TOPIC) then PutString(p.topic) + t10 else t10;
    ghost var t8 := PutString(p.msgKey) + t9;
    ghost var t7 := if version >= 3 then PutU32(p.expire) + t8 else t8;
    ghost var t6 := [p.channelType] + t7;
    ghost var t5 := PutString(p.channelID) + t6;
    ghost var t4 := if version >= 2 && IsSet(p.setting, SETTING_STREAM) then PutString(p.streamNo) + t5 else t5;
    ghost var t3 := PutString(p.clientMsgNo) + t4;
    ghost var t2 := PutU32(p.clientSeq) + t3;
    enc.WriteUint8(p.setting, t2);
    enc.WriteInt32(p.clientSeq, t3);
    enc.WriteString(p.clientMsgNo, t4);
    if version >= 2 && IsSet(p.setting, SETTING_STREAM) {
      enc.WriteString(p.streamNo, t5);
    }
    enc.WriteString(p.channelID, t6);
    enc.WriteUint8(p.channelType, t7);
    if version >= 3 {
      enc.WriteInt32(p.expire, t8);
    }
    enc.WriteString(p.msgKey, t9);
    if IsSet(p.setting, SETTING_TOPIC) {
      enc.WriteString(p.topic, t10);
    }
    enc.WriteBytes(p.payload);
  }

  method DecodeSend(data: bytes, version: byte) returns (r: Outcome<SendPacket>)
    ensures r == ParseSend(data, version)
  {
    hide TakeU8, TakeU32, TakeI32, TakeI64, TakeString;
    var dec := new Decoder(data);
    assert dec.Rest() == data;
    var setting := dec.Uint8();
    if !setting.Ok? {
      return setting.PropagateFailure();
    }
    var clientSeq := dec.Uint32();
    if !clientSeq.Ok? {
      return clientSeq.PropagateFailure();
    }
    var clientMsgNo := dec.String();
    if !clientMsgNo.Ok? {
      return clientMsgNo.PropagateFailure();
    }
    var streamNo: bytes := [];
    if version >= 2 && IsSet(setting.value, SETTING_STREAM) {
      var streamNoRead := dec.String();
      if !streamNoRead.Ok? {
        return streamNoRead.PropagateFailure();
      }
      streamNo := streamNoRead.value;
    }
    var channelID := dec.String();
    if !channelID.Ok? {
      return channelID.PropagateFailure();
    }
    var channelType := dec.Uint8();
    if !channelType.Ok? {
      return channelType.PropagateFailure();
    }
    var expire: uint32 := 0;
    if version >= 3 {
      var expireRead := dec.Uint32();
      if !expireRead.Ok? {
        return expireRead.PropagateFailure();
      }
      expire := expireRead.value;
    }
    var msgKey := dec.String();
    if !msgKey.Ok? {
      return msgKey.PropagateFailure();
    }
    var topic: bytes := [];
    if IsSet(setting.value, SETTING_TOPIC) {
      var topicRead := dec.String();
      if !topicRead.Ok? {
        return topicRead.PropagateFailure();
      }
      topic := topicRead.value;
    }
    var payload := dec.BinaryAll();
    return Ok(SendPacket(setting.value, msgKey.value, expire, clientSeq.value, clientMsgNo.value, streamNo,
      channelID.value, channelType.value, topic, payload));
  }

  method EncodeSendack(p: SendackPacket, enc: Encoder)
    modifies enc
    ensures enc.w == old(enc.w) + SendackBody(p)
  {
    hide PutU32, PutU64, PutString;
    ghost var t5: bytes := [];
    ghost var t4 := [p.reasonCode] + t5;
    ghost var t3 := PutU32(p.messageSeq) + t4;
    ghost var t2 := PutU32(p.clientSeq) + t3;
    enc.WriteInt64(p.messageID, t2);
    enc.WriteInt32(p.clientSeq, t3);
    enc.WriteInt32(p.messageSeq, t4);
    enc.WriteUint8(p.reasonCode, t5);
    assert enc.w == enc.w + [];
  }

  method DecodeSendack(data: bytes) returns (r: Outcome<SendackPacket>)
    ensures r == ParseSendack(data)
  {
    hide TakeU8, TakeU32, TakeI32, TakeI64, TakeString;
    var dec := new Decoder(data);
    assert dec.Rest() == data;
    var messageID := dec.Int64();
    if !messageID.Ok? {
      return messageID.PropagateFailure();
    }
    var clientSeq := dec.Uint32();
    if !clientSeq.Ok? {
      return clientSeq.PropagateFailure();
    }
    var messageSeq := dec.Uint32();
    if !messageSeq.Ok? {
      return messageSeq.PropagateFailure();
    }
    var reasonCode := dec.Uint8();
    if !reasonCode.Ok? {
      return reasonCode.PropagateFailure();
    }
    return Ok(SendackPacket(messageID.value, messageSeq.value, clientSeq.value, [], reasonCode.value));
  }

  method EncodeRecv(p: RecvPacket, enc: Encoder, version: byte)
    modifies enc
    ensures enc.w == old(enc.w) + RecvBody(p, version)
  {
    hide PutU32, PutU64, PutString;
    ghost var t15 := p.payload;
    ghost var t14 := if IsSet(p.setting, SETTING_TOPIC) then PutString(p.topic) + t15 else t15;
    ghost var t13 := PutU32(p.timestamp) + t14;
    ghost var t12 := PutU32(p.messageSeq) + t13;
    ghost var t11 := PutU64(p.messageID) + t12;
    ghost var t10 := if version >= 2 && IsSet(p.setting, SETTING_STREAM) then [p.streamFlag] + t11 else t11;
    ghost var t9 := if version >= 2 && IsSet(p.setting, SETTING_STREAM) then PutU32(p.streamSeq) + t10 else t10;
    ghost var t8 := if version >= 2 && IsSet(p.setting, SETTING_STREAM) then PutString(p.streamNo) + t9 else t9;
    ghost var t7 := PutString(p.clientMsgNo) + t8;
    ghost var t6 := if version >= 3 then PutU32(p.expire) + t7 else t7;
    ghost var t5 := [p.channelType] + t6;
    ghost var t4 := PutString(p.channelID) + t5;
    ghost var t3 := PutString(p.fromUID) + t4;
    ghost var t2 := PutString(p.msgKey) + t3;
    enc.WriteUint8(p.setting, t2);
    enc.WriteString(p.msgKey, t3);
    enc.WriteString(p.fromUID, t4);
    enc.WriteString(p.channelID, t5);
    enc.WriteUint8(p.channelType, t6);
    if version >= 3 {
      enc.WriteInt32(p.expire, t7);
    }
    enc.WriteString(p.clientMsgNo, t8);
    if version >= 2 && IsSet(p.setting, SETTING_STREAM) {
      enc.WriteString(p.streamNo, t9);
      enc.WriteInt32(p.streamSeq, t10);
      enc.WriteUint8(p.streamFlag, t11);
    }
    enc.WriteInt64(p.messageID, t12);
    enc.WriteInt32(p.messageSeq, t13);
    enc.WriteInt32(p.timestamp, t14);
    if IsSet(p.setting, SETTING_TOPIC) {
      enc.WriteString(p.topic, t15);
    }
    enc.WriteBytes(p.payload);
  }

  method DecodeRecv(data: bytes, version: byte) returns (r: Outcome<RecvPacket>)
    ensures r == ParseRecv(data, version)
  {
    hide TakeU8, TakeU32, TakeI32, TakeI64, TakeString;
    var dec := new Decoder(data);
    assert dec.Rest() == data;
    var setting := dec.Uint8();
    if !setting.Ok? {
      return setting.PropagateFailure();
    }
    var msgKey := dec.String();
    if !msgKey.Ok? {
      return msgKey.PropagateFailure();
    }
    var fromUID := dec.String();
    if !fromUID.Ok? {
      return fromUID.PropagateFailure();
    }
    var channelID := dec.String();
    if !channelID.Ok? {
      return channelID.PropagateFailure();
    }
    var channelType := dec.Uint8();
    if !channelType.Ok? {
      return channelType.PropagateFailure();
    }
    var expire: uint32 := 0;
    if version >= 3 {
      var expireRead := dec.Uint32();
      if !expireRead.Ok? {
        return expireRead.PropagateFailure();
      }
      expire := expireRead.value;
    }
    var clientMsgNo := dec.String();
    if !clientMsgNo.Ok? {
      return clientMsgNo.PropagateFailure();
    }
    var streamNo: bytes := [];
    var streamSeq: uint32 := 0;
    var streamFlag: byte := 0;
    if version >= 2 && IsSet(setting.value, SETTING_STREAM) {
      var streamNoRead := dec.String();
      if !streamNoRead.Ok? {
        return streamNoRead.PropagateFailure();
      }
      streamNo := streamNoRead.value;
      var streamSeqRead := dec.Uint32();
      if !streamSeqRead.Ok? {
        return streamSeqRead.PropagateFailure();
      }
      streamSeq := streamSeqRead.value;
      var streamFlagRead := dec.Uint8();
      if !streamFlagRead.Ok? {
        return streamFlagRead.PropagateFailure();
      }
      streamFlag := streamFlagRead.value;
    }
    var messageID := dec.Int64();
    if !messageID.Ok? {
      return messageID.PropagateFailure();
    }
    var messageSeq := dec.Uint32();
    if !messageSeq.Ok? {
      return messageSeq.PropagateFailure();
    }
    var timestamp := dec.Int32();
    if !timestamp.Ok? {
      return timestamp.PropagateFailure();
    }
    var topic: bytes := [];
    if IsSet(setting.value, SETTING_TOPIC) {
      var topicRead := dec.String();
      if !topicRead.Ok? {
        return topicRead.PropagateFailure();
      }
      topic := topicRead.value;
    }
    var payload := dec.BinaryAll();
    return Ok(RecvPacket(setting.value, msgKey.value, expire, messageID.value, messageSeq.value, clientMsgNo.value,
      streamNo, streamSeq, streamFlag, timestamp.value, channelID.value, channelType.value, topic, fromUID.value,
      payload, 0));
  }

  method EncodeRecvack(p: RecvackPacket, enc: Encoder)
    modifies enc
    ensures enc.w == old(enc.w) + RecvackBody(p)
  {
    hide PutU32, PutU64, PutString;
    ghost var t3: bytes := [];
    ghost var t2 := PutU32(p.messageSeq) + t3;
    enc.WriteInt64(p.messageID, t2);
    enc.WriteInt32(p.messageSeq, t3);
    assert enc.w == enc.w + [];
  }

  method DecodeRecvack(data: bytes) returns (r: Outcome<RecvackPacket>)
    ensures r == ParseRecvack(data)
  {
    hide TakeU8, TakeU32, TakeI32, TakeI64, TakeString;
    var dec := new Decoder(data);
    assert dec.Rest() == data;
    var messageID := dec.Int64();
    if !messageID.Ok? {
      return messageID.PropagateFailure();
    }
    var messageSeq := dec.Uint32();
    if !messageSeq.Ok? {
      return messageSeq.PropagateFailure();
    }
    return Ok(RecvackPacket(messageID.value, messageSeq.value));
  }

  method EncodeDisconnect(p: DisconnectPacket, enc: Encoder)
    modifies enc
    ensures enc.w == old(enc.w) + DisconnectBody(p)
  {
    hide PutU32, PutU64, PutString;
    ghost var t3: bytes := [];
    ghost var t2 := PutString(p.reason) + t3;
    enc.WriteUint8(p.reasonCode, t2);
    enc.WriteString(p.reason, t3);
    assert enc.w == enc.w + [];
  }

  method DecodeDisconnect(data: bytes) returns (r: Outcome<DisconnectPacket>)
    ensures r == ParseDisconnect(data)
  {
    hide TakeU8, TakeU32, TakeI32, TakeI64, TakeString;
    var dec := new Decoder(data);
    assert dec.Rest() == data;
    var reasonCode := dec.Uint8();
    if !reasonCode.Ok? {
      return reasonCode.PropagateFailure();
    }
    var reason := dec.String();
    if !reason.Ok? {
      return reason.PropagateFailure();
    }
    return Ok(DisconnectPacket(reasonCode.value, reason.value));
  }

  method EncodeSub(p: SubPacket, enc: Encoder)
    modifies enc
    ensures enc.w == old(enc.w) + SubBody(p)
  {
    hide PutU32, PutU64, PutString;
    ghost var t7: bytes := [];
    ghost var t6 := PutString(p.param) + t7;
    ghost var t5 := [p.action] + t6;
    ghost var t4 := [p.channelType] + t5;
    ghost var t3 := PutString(p.channelID) + t4;
    ghost var t2 := PutString(p.subNo) + t3;
    enc.WriteUint8(p.setting, t2);
    enc.WriteString(p.subNo, t3);
    enc.WriteString(p.channelID, t4);
    enc.WriteUint8(p.channelType, t5);
    enc.WriteUint8(p.action, t6);
    enc.WriteString(p.param, t7);
    assert enc.w == enc.w + [];
  }

  method DecodeSub(data: bytes) returns (r: Outcome<SubPacket>)
    ensures r == ParseSub(data)
  {
    hide TakeU8, TakeU32, TakeI32, TakeI64, TakeString;
    var dec := new Decoder(data);
    assert dec.Rest() == data;
    var setting := dec.Uint8();
    if !setting.Ok? {
      return setting.PropagateFailure();
    }
    var subNo := dec.String();
    if !subNo.Ok? {
      return subNo.PropagateFailure();
    }
    var channelID := dec.String();
    if !channelID.Ok? {
      return channelID.PropagateFailure();
    }
    var channelType := dec.Uint8();
    if !channelType.Ok? {
      return channelType.PropagateFailure();
    }
    var action := dec.Uint8();
    if !action.Ok? {
      return action.PropagateFailure();
    }
    var param := dec.String();
    if !param.Ok? {
      return param.PropagateFailure();
    }
    return Ok(SubPacket(setting.value, subNo.value, channelID.value, channelType.value, action.value, param.value));
  }

  method EncodeSuback(p: SubackPacket, enc: Encoder)
    modifies enc
    ensures enc.w == old(enc.w) + SubackBody(p)
  {
    hide PutU32, PutU64, PutString;
    ghost var t6: bytes := [];
    ghost var t5 := [p.reasonCode] + t6;
    ghost var t4 := [p.action] + t5;
    ghost var t3 := [p.channelType] + t4;
    ghost var t2 := PutString(p.channelID) + t3;
    enc.WriteString(p.subNo, t2);
    enc.WriteString(p.channelID, t3);
    enc.WriteUint8(p.channelType, t4);
    enc.WriteUint8(p.action, t5);
    enc.WriteUint8(p.reasonCode, t6);
    assert enc.w == enc.w + [];
  }

  method DecodeSuback(data: bytes) returns (r: Outcome<SubackPacket>)
    ensures r == ParseSuback(data)
  {
    hide TakeU8, TakeU32, TakeI32, TakeI64, TakeString;
    var dec := new Decoder(data);
    assert dec.Rest() == data;
    var subNo := dec.String();
    if !subNo.Ok? {
      return subNo.PropagateFailure();
    }
    var channelID := dec.String();
    if !channelID.Ok? {
      return channelID.PropagateFailure();
    }
    var channelType := dec.Uint8();
    if !channelType.Ok? {
      return channelType.PropagateFailure();
    }
    var action := dec.Uint8();
    if !action.Ok? {
      return action.PropagateFailure();
    }
    var reasonCode := dec.Uint8();
    if !reasonCode.Ok? {
      return reasonCode.PropagateFailure();
    }
    return Ok(SubackPacket(subNo.value, channelID.value, channelType.value, action.value, reasonCode.value));
  }
}
