/** The body of a stored record: a RECV packet as the server writes it to the log (internal/server/model.go). */
module ServerMessages {
  import opened Bytes
  import opened Wrappers
  import opened Codec
  import opened Packets
  import Protocol
  import Record

  const BODY_VERSION := 1

  /** The embedded packet with its flags; the fields that are only used in memory are never stored. */
  datatype Message = Message(flags: Protocol.Flags, packet: RecvPacket)

  predicate IsStream(setting: byte) { IsSet(setting, SETTING_STREAM) }

  function Header(m: Message): byte {
    Protocol.HeaderByte(Protocol.Frame(m.flags, Protocol.Recv(m.packet)))
  }

  /** The body, last field first. */
  function Body(m: Message, version: byte): bytes {
    var p := m.packet;
    var t14 := p.payload;
    var t13 := if version >= 1 then PutU32(p.expire) + t14 else t14;
    var t12 := [p.channelType] + t13;
    var t11 := PutString(p.channelID) + t12;
    var t10 := PutString(p.fromUID) + t11;
    var t9 := PutU32(p.timestamp) + t10;
    var t8 := if IsStream(p.setting) then [p.streamFlag] + t9 else t9;
    var t7 := if IsStream(p.setting) then PutU32(p.streamSeq) + t8 else t8;
    var t6 := if IsStream(p.setting) then PutString(p.streamNo) + t7 else t7;
    var t5 := PutString(p.clientMsgNo) + t6;
    var t4 := PutU32(p.messageSeq) + t5;
    var t3 := PutU64(p.messageID) + t4;
    var t2 := [p.setting] + t3;
    var t1 := [version] + t2;
    [Header(m)] + t1
  }

  datatype StreamPart = StreamPart(no: bytes, seqNo: uint32, flag: byte)

  /** The fields that only a message of a stream has. */
  function TakeStreamPart(s: bytes, setting: byte): Outcome<Read<StreamPart>> {
    if !IsStream(setting) then Ok(Read(StreamPart([], 0, 0), s))
    else
      var no :- TakeString(s);
      var seqNo :- TakeU32(no.rest);
      var flag :- TakeU8(seqNo.rest);
      Ok(Read(StreamPart(no.value, seqNo.value, flag.value), flag.rest))
  }

  function Parse(s: bytes): Outcome<Message> {
    var header :- TakeU8(s);
    var version :- TakeU8(header.rest);
    var setting :- TakeU8(version.rest);
    var messageID :- TakeI64(setting.rest);
    var messageSeq :- TakeU32(messageID.rest);
    var clientMsgNo :- TakeString(messageSeq.rest);
    var stream :- TakeStreamPart(clientMsgNo.rest, setting.value);
    var timestamp :- TakeI32(stream.rest);
    var fromUID :- TakeString(timestamp.rest);
    var channelID :- TakeString(fromUID.rest);
    var channelType :- TakeU8(channelID.rest);
    var expire :- if version.value >= 1 then TakeU32(channelType.rest) else Ok(Read(0, channelType.rest));
    Ok(Message(Protocol.FlagsOf(header.value),
      RecvPacket(setting.value, [], expire.value, messageID.value, messageSeq.value, clientMsgNo.value,
        stream.value.no, stream.value.seqNo, stream.value.flag, timestamp.value, channelID.value, channelType.value, [],
        fromUID.value, expire.rest, 0)))
  }

  /** What is stored of a message: neither its topic nor its message key is. */
  function Stored(m: Message, version: byte): Message {
    var p := m.packet;
    Message(m.flags.(hasServerVersion := false),
      p.(msgKey := [], topic := [], clientSeq := 0,
         expire := if version >= 1 then p.expire else 0,
         streamNo := if IsStream(p.setting) then p.streamNo else [],
         streamSeq := if IsStream(p.setting) then p.streamSeq else 0,
         streamFlag := if IsStream(p.setting) then p.streamFlag else 0))
  }

  predicate Fits(m: Message) {
    var p := m.packet;
    && Short(p.clientMsgNo)
    && (IsStream(p.setting) ==> Short(p.streamNo))
    && Short(p.fromUID)
    && Short(p.channelID)
  }

  // ------------------------------------------------------------ coding

  method MarshalMessage(version: byte, m: Message) returns (b: bytes)
    ensures b == Body(m, version)
  {
    hide Body;
    var enc := new Encoder();
    WriteBody(version, m, enc);
    assert [] + Body(m, version) == Body(m, version);
    return enc.w;
  }

  method WriteBody(version: byte, m: Message, enc: Encoder)
    modifies enc
    ensures enc.w == old(enc.w) + Body(m, version)
  {
    hide PutU32, PutU64, PutString, Header, IsStream;
    var p := m.packet;
    ghost var t14 := p.payload;
    ghost var t13 := if version >= 1 then PutU32(p.expire) + t14 else t14;
    ghost var t12 := [p.channelType] + t13;
    ghost var t11 := PutString(p.channelID) + t12;
    ghost var t10 := PutString(p.fromUID) + t11;
    ghost var t9 := PutU32(p.timestamp) + t10;
    ghost var t8 := if IsStream(p.setting) then [p.streamFlag] + t9 else t9;
    ghost var t7 := if IsStream(p.setting) then PutU32(p.streamSeq) + t8 else t8;
    ghost var t6 := if IsStream(p.setting) then PutString(p.streamNo) + t7 else t7;
    ghost var t5 := PutString(p.clientMsgNo) + t6;
    ghost var t4 := PutU32(p.messageSeq) + t5;
    ghost var t3 := PutU64(p.messageID) + t4;
    ghost var t2 := [p.setting] + t3;
    ghost var t1 := [version] + t2;
    enc.WriteUint8(Header(m), t1);
    enc.WriteUint8(version, t2);
    enc.WriteUint8(p.setting, t3);
    enc.WriteInt64(p.messageID, t4);
    enc.WriteInt32(p.messageSeq, t5);
    enc.WriteString(p.clientMsgNo, t6);
    if IsStream(p.setting) {
      enc.WriteString(p.streamNo, t7);
      enc.WriteInt32(p.streamSeq, t8);
      enc.WriteUint8(p.streamFlag, t9);
    }
    enc.WriteInt32(p.timestamp, t10);
    enc.WriteString(p.fromUID, t11);
    enc.WriteString(p.channelID, t12);
    enc.WriteUint8(p.channelType, t13);
    if version >= 1 {
      enc.WriteInt32(p.expire, t14);
    }
    enc.WriteBytes(p.payload);
  }

  method UnmarshalStreamPart(dec: Decoder, setting: byte) returns (r: Outcome<StreamPart>)
    requires dec.Valid()
    modifies dec
    ensures dec.Moved(r, TakeStreamPart(old(dec.Rest()), setting))
  {
    hide TakeU8, TakeU32, TakeString, IsStream;
    if !IsStream(setting) {
      return Ok(StreamPart([], 0, 0));
    }
    var no := dec.String();
    if !no.Ok? {
      return no.PropagateFailure();
    }
    var seqNo := dec.Uint32();
    if !seqNo.Ok? {
      return seqNo.PropagateFailure();
    }
    var flag := dec.Uint8();
    if !flag.Ok? {
      return flag.PropagateFailure();
    }
    return Ok(StreamPart(no.value, seqNo.value, flag.value));
  }

  method UnmarshalMessage(data: bytes) returns (r: Outcome<Message>)
    ensures r == Parse(data)
  {
    hide TakeU8, TakeU32, TakeI32, TakeI64, TakeString, TakeStreamPart, Protocol.FlagsOf;
    var dec := new Decoder(data);
    assert dec.Rest() == data;
    var header := dec.Uint8();
    if !header.Ok? {
      return header.PropagateFailure();
    }
    var version := dec.Uint8();
    if !version.Ok? {
      return version.PropagateFailure();
    }
    var setting := dec.Uint8();
    if !setting.Ok? {
      return setting.PropagateFailure();
    }
    var messageID := dec.Int64();
    if !messageID.Ok? {
      return messageID.PropagateFailure();
    }
    var messageSeq := dec.Uint32();
    if !messageSeq.Ok? {
      return messageSeq.PropagateFailure();
    }
    var clientMsgNo := dec.String();
    if !clientMsgNo.Ok? {
      return clientMsgNo.PropagateFailure();
    }
    var stream := UnmarshalStreamPart(dec, setting.value);
    if !stream.Ok? {
      return stream.PropagateFailure();
    }
    var timestamp := dec.Int32();
    if !timestamp.Ok? {
      return timestamp.PropagateFailure();
    }
    var fromUID := dec.String();
    if !fromUID.Ok? {
      return fromUID.PropagateFailure();
    }
    var channelID := dec.String();
    if !channelID.Ok? {
      return channelID.PropagateFailure();
    }
    var channelType := dec.Uint8();
    if !channelType.Ok? {
      return channelType.PropagateFailure();
    }
    var expire: uint32 := 0;
    if version.value >= 1 {
      var expireRead := dec.Uint32();
      if !expireRead.Ok? {
        return expireRead.PropagateFailure();
      }
      expire := expireRead.value;
    }
    var payload := dec.BinaryAll();
    return Ok(Message(Protocol.FlagsOf(header.value),
      RecvPacket(setting.value, [], expire, messageID.value, messageSeq.value, clientMsgNo.value,
        stream.value.no, stream.value.seqNo, stream.value.flag, timestamp.value, channelID.value, channelType.value, [],
        fromUID.value, payload, 0)));
  }

  // ------------------------------------------------------------ the body

  lemma FittingBodyComesBack(m: Message, version: byte)
    requires Fits(m)
    ensures Parse(Body(m, version)) == Ok(Stored(m, version))
  {
    hide PutU32, PutU64, PutString, TakeU8, TakeU32, TakeI32, TakeI64, TakeString, IsSet, Protocol.FlagsOf, Header;
    var p := m.packet;
    var t14 := p.payload;
    var t13 := if version >= 1 then PutU32(p.expire) + t14 else t14;
    var t12 := [p.channelType] + t13;
    var t11 := PutString(p.channelID) + t12;
    var t10 := PutString(p.fromUID) + t11;
    var t9 := PutU32(p.timestamp) + t10;
    var t8 := if IsStream(p.setting) then [p.streamFlag] + t9 else t9;
    var t7 := if IsStream(p.setting) then PutU32(p.streamSeq) + t8 else t8;
    var t6 := if IsStream(p.setting) then PutString(p.streamNo) + t7 else t7;
    var t5 := PutString(p.clientMsgNo) + t6;
    var t4 := PutU32(p.messageSeq) + t5;
    var t3 := PutU64(p.messageID) + t4;
    var t2 := [p.setting] + t3;
    var t1 := [version] + t2;
    HeaderFlags(m);
    TakePutU8(Header(m), t1);
    TakePutU8(version, t2);
    TakePutU8(p.setting, t3);
    TakePutI64(p.messageID, t4);
    TakePutU32(p.messageSeq, t5);
    StringRoundTrip(p.clientMsgNo, t6);
    if IsStream(p.setting) {
      StringRoundTrip(p.streamNo, t7);
      TakePutU32(p.streamSeq, t8);
      TakePutU8(p.streamFlag, t9);
    }
    TakePutI32(p.timestamp, t10);
    StringRoundTrip(p.fromUID, t11);
    StringRoundTrip(p.channelID, t12);
    TakePutU8(p.channelType, t13);
    if version >= 1 {
      TakePutU32(p.expire, t14);
    }
  }

  lemma HeaderFlags(m: Message)
    ensures Protocol.FlagsOf(Header(m)) == m.flags.(hasServerVersion := false)
  {
    Protocol.HeaderRoundTrip(Protocol.Frame(m.flags, Protocol.Recv(m.packet)));
  }

  lemma ParsedFits(s: bytes)
    ensures Parse(s).Ok? ==> Fits(Parse(s).value)
  {
    hide TakeU8, TakeU32, TakeI32, TakeI64, TakeString, IsSet, Protocol.FlagsOf;
    TakenStringsAreShort();
  }

  /** A body comes back, without its topic and message key, exactly when its strings are at most 32767 bytes long. */
  lemma BodyRoundTrip(m: Message, version: byte)
    ensures Parse(Body(m, version)) == Ok(Stored(m, version)) <==> Fits(m)
  {
    hide Parse, Body;
    if Fits(m) {
      FittingBodyComesBack(m, version);
    } else {
      ParsedFits(Body(m, version));
    }
  }

  // ------------------------------------------------------------ the record

  /** Encode and Decode: the body in a record of the log. The number in the record overrides the one in the body. */
  function Encode(m: Message): bytes {
    Record.Encode(Record.Message(m.packet.messageSeq, Body(m, BODY_VERSION)))
  }

  function Decode(msg: bytes): Outcome<Message> {
    var record :- Record.DecodeMessage(msg);
    var m :- Parse(record.data);
    Ok(m.(packet := m.packet.(messageSeq := record.seqNo)))
  }

  method EncodeMessage(m: Message) returns (b: bytes)
    ensures b == Encode(m)
  {
    var data := MarshalMessage(BODY_VERSION, m);
    b := Record.EncodeMessage(m.packet.messageSeq, data);
  }

  method DecodeMessage(msg: bytes) returns (r: Outcome<Message>)
    ensures r == Decode(msg)
  {
    hide Parse;
    var record := Record.DecodeMessage(msg);
    if !record.Ok? {
      return record.PropagateFailure();
    }
    var m := UnmarshalMessage(record.value.data);
    if !m.Ok? {
      return m.PropagateFailure();
    }
    return Ok(m.value.(packet := m.value.packet.(messageSeq := record.value.seqNo)));
  }

  /** A stored message comes back with its number, its strings permitting. */
  lemma MessageRoundTrip(m: Message)
    requires |Body(m, BODY_VERSION)| < TWO32
    ensures Decode(Encode(m)) == Ok(Stored(m, BODY_VERSION)) <==> Fits(m)
  {
    hide Parse, Body, Record.DecodeMessage, Record.Encode;
    Record.DecodeEncode(Record.Message(m.packet.messageSeq, Body(m, BODY_VERSION)));
    BodyRoundTrip(m, BODY_VERSION);
    ParsedFits(Body(m, BODY_VERSION));
  }
}
