/**
 * The bytes on the wire in numbers, independent of the constants of the coders: packet types, header flags, lengths,
 * which fields a version and a setting add, and one frame of each kind byte by byte (common.go, setting.go).
 */
module WireFormat {
  import opened Bytes
  import opened Wrappers
  import opened Codec
  import opened Packets
  import opened Protocol

  // ------------------------------------------------------------ header and length

  function TypeNumber(p: Packet): int {
    match p
    case Connect(_) => 1
    case Connack(_) => 2
    case Send(_) => 3
    case Sendack(_) => 4
    case Recv(_) => 5
    case Recvack(_) => 6
    case Ping => 7
    case Pong => 8
    case Disconnect(_) => 9
    case Sub(_) => 10
    case Suback(_) => 11
  }

  /** The high four bits of the first byte are the type, the low four the flags. */
  lemma HeaderBits(f: Frame, version: byte)
    ensures var b := FrameBytes(f, version);
      && b != [] && b[0] / 16 == TypeNumber(f.packet)
      && (Bare(f.packet) ==> b == [TypeNumber(f.packet) * 16])
      && (f.packet.Connack? ==> b[0] % 16 == if f.flags.hasServerVersion then 1 else 0)
      && (!Bare(f.packet) && !f.packet.Connack? ==>
          && (b[0] % 2 == 1 <==> f.flags.noPersist)
          && (b[0] / 2 % 2 == 1 <==> f.flags.redDot)
          && (b[0] / 4 % 2 == 1 <==> f.flags.syncOnce)
          && (b[0] / 8 % 2 == 1 <==> f.flags.dup))
  {
    hide PutLength, Body, BodySize, HeaderByte, SentFlags, FlagsOf;
    if !Bare(f.packet) {
      FirstByte(f, version);
      HeaderRoundTrip(f);
      FlagBits(f);
    }
  }

  lemma FirstByte(f: Frame, version: byte)
    requires !Bare(f.packet)
    ensures FrameBytes(f, version) != [] && FrameBytes(f, version)[0] == HeaderByte(f)
  {
  }

  lemma FlagBits(f: Frame)
    requires !Bare(f.packet) && FlagsOf(HeaderByte(f)) == SentFlags(f)
    ensures var v := HeaderByte(f);
      && (f.packet.Connack? ==> v % 16 == if f.flags.hasServerVersion then 1 else 0)
      && (!f.packet.Connack? ==>
          && (v % 2 == 1 <==> f.flags.noPersist)
          && (v / 2 % 2 == 1 <==> f.flags.redDot)
          && (v / 4 % 2 == 1 <==> f.flags.syncOnce)
          && (v / 8 % 2 == 1 <==> f.flags.dup))
  {
  }

  /** Base 128, low digit first, every digit but the last with its high bit set. */
  lemma LengthDigits(d0: nat, d1: nat, d2: nat, d3: nat)
    requires d0 < 128 && d1 < 128 && d2 < 128 && d3 < 128
    ensures PutLength(d0 + 128 * d1 + 16_384 * d2 + 2_097_152 * d3) ==
      if d3 > 0 then [d0 + 128, d1 + 128, d2 + 128, d3]
      else if d2 > 0 then [d0 + 128, d1 + 128, d2]
      else if d1 > 0 then [d0 + 128, d1]
      else if d0 > 0 then [d0]
      else []
  {
    hide PutLength;
    OneDigit(d0, d1 + 128 * d2 + 16_384 * d3);
    OneDigit(d1, d2 + 128 * d3);
    OneDigit(d2, d3);
    OneDigit(d3, 0);
  }

  lemma OneDigit(d: nat, more: nat)
    requires d < 128
    ensures PutLength(d + 128 * more) ==
      if more > 0 then [d + 128] + PutLength(more) else if d > 0 then [d] else []
  {
    RemainderIsUnique(d + 128 * more, 128, more, d);
  }

  /** Every flag of a received byte is its bit; a CONNACK has its server version in the bit of noPersist as well. */
  lemma FlagsAre(v: byte)
    ensures FlagsOf(v) == Flags(v % 2 == 1, v / 2 % 2 == 1, v / 4 % 2 == 1, v / 8 % 2 == 1, v / 16 == 2 && v % 2 == 1)
  {
  }

  // ------------------------------------------------------------ which fields there are

  /** Bit 3 of the setting: the packet has a topic. */
  predicate HasTopic(setting: byte) { setting / 8 % 2 == 1 }

  /** Bit 2: it belongs to a stream. */
  predicate HasStream(setting: byte) { setting / 4 % 2 == 1 }

  /** The number of bytes of each body: expire from version 3 on, the stream fields from version 2 on. */
  lemma BodyLength(f: Frame, version: byte)
    requires !Bare(f.packet)
    ensures |Body(f, version)| == match f.packet
      case Connect(p) => 18 + |p.deviceID| + |p.uid| + |p.token| + |p.clientKey|
      case Connack(p) => 13 + |p.serverKey| + |p.salt| + (if f.flags.hasServerVersion then 1 else 0)
      case Send(p) =>
        12 + |p.clientMsgNo| + |p.channelID| + |p.msgKey| + |p.payload|
        + (if version >= 2 && HasStream(p.setting) then 2 + |p.streamNo| else 0) + (if version >= 3 then 4 else 0)
        + (if HasTopic(p.setting) then 2 + |p.topic| else 0)
      case Sendack(p) => 17
      case Recv(p) =>
        26 + |p.msgKey| + |p.fromUID| + |p.channelID| + |p.clientMsgNo| + |p.payload|
        + (if version >= 2 && HasStream(p.setting) then 7 + |p.streamNo| else 0) + (if version >= 3 then 4 else 0)
        + (if HasTopic(p.setting) then 2 + |p.topic| else 0)
      case Recvack(p) => 12
      case Disconnect(p) => 3 + |p.reason|
      case Sub(p) => 9 + |p.subNo| + |p.channelID| + |p.param|
      case Suback(p) => 7 + |p.subNo| + |p.channelID|
  {
    SizeIsBodyLength(f, version);
  }

  /** What the receiver of a frame learns of it besides the packet. */
  lemma FramerComesBack(f: Frame, version: byte, rest: bytes)
    requires Decodable(f, version) && !Bare(f.packet)
    ensures var r, w := DecodeFrameOf(FrameBytes(f, version) + rest, version), FrameBytes(f, version);
      && r.Got? && r.size == |w| && r.framer.frameType == TypeNumber(f.packet)
      && r.framer.remainingLength == |Body(f, version)| && r.framer.frameSize == |w| + |rest|
      && r.framer.flags ==
        if f.packet.Connack? then Flags(f.flags.hasServerVersion, false, false, false, f.flags.hasServerVersion)
        else Flags(f.flags.noPersist, f.flags.redDot, f.flags.syncOnce, f.flags.dup, false)
  {
    hide FrameBytes, DecodeFrameOf, Decodable, Body, BodySize;
    FrameRoundTrip(f, version, rest);
    SizeIsBodyLength(f, version);
  }

  /** What the receiver of any packet gets but of a SEND or RECV: all of it, but for what has no place in the body. */
  lemma PacketComesBack(f: Frame, version: byte, rest: bytes)
    requires Decodable(f, version) && !f.packet.Send? && !f.packet.Recv?
    ensures var r := DecodeFrameOf(FrameBytes(f, version) + rest, version);
      r.Got? && r.packet == match f.packet
        case Connack(p) =>
          Connack(ConnackPacket(if f.flags.hasServerVersion then p.serverVersion else 0, p.serverKey, p.salt,
            p.timeDiff, p.reasonCode))
        case Sendack(p) =>
          Sendack(SendackPacket(p.messageID, p.messageSeq, p.clientSeq % 0x1_0000_0000, [], p.reasonCode))
        case other => other
  {
    hide FrameBytes, DecodeFrameOf, Decodable;
    FrameRoundTrip(f, version, rest);
  }

  /** What the receiver of a SEND gets. */
  lemma SendComesBack(flags: Flags, p: SendPacket, version: byte, rest: bytes)
    requires Decodable(Frame(flags, Send(p)), version)
    ensures var r := DecodeFrameOf(FrameBytes(Frame(flags, Send(p)), version) + rest, version);
      r.Got? && r.packet == Send(SendPacket(p.setting, p.msgKey, if version >= 3 then p.expire else 0,
        p.clientSeq % 0x1_0000_0000, p.clientMsgNo, if version >= 2 && HasStream(p.setting) then p.streamNo else [],
        p.channelID, p.channelType, if HasTopic(p.setting) then p.topic else [], p.payload))
  {
    hide FrameBytes, DecodeFrameOf, Decodable;
    FrameRoundTrip(Frame(flags, Send(p)), version, rest);
  }

  /** What the receiver of a RECV gets. */
  lemma RecvComesBack(flags: Flags, p: RecvPacket, version: byte, rest: bytes)
    requires Decodable(Frame(flags, Recv(p)), version)
    ensures var r := DecodeFrameOf(FrameBytes(Frame(flags, Recv(p)), version) + rest, version);
      var stream := version >= 2 && HasStream(p.setting);
      r.Got? && r.packet == Recv(RecvPacket(p.setting, p.msgKey, if version >= 3 then p.expire else 0, p.messageID,
        p.messageSeq, p.clientMsgNo, if stream then p.streamNo else [], if stream then p.streamSeq else 0,
        if stream then p.streamFlag else 0, p.timestamp, p.channelID, p.channelType,
        if HasTopic(p.setting) then p.topic else [], p.fromUID, p.payload, 0))
  {
    hide FrameBytes, DecodeFrameOf, Decodable;
    FrameRoundTrip(Frame(flags, Recv(p)), version, rest);
  }

  /** A frame is decodable when each string that it has is at most 32767 bytes and its body at most 1 MiB. */
  lemma DecodableIs(f: Frame, version: byte)
    ensures Decodable(f, version) <==>
      && (Bare(f.packet) || |Body(f, version)| <= 1_048_576)
      && match f.packet
         case Connect(p) =>
           |p.deviceID| <= 32_767 && |p.uid| <= 32_767 && |p.token| <= 32_767 && |p.clientKey| <= 32_767
         case Connack(p) => |p.serverKey| <= 32_767 && |p.salt| <= 32_767
         case Send(p) =>
           && |p.clientMsgNo| <= 32_767 && |p.channelID| <= 32_767 && |p.msgKey| <= 32_767
           && (version >= 2 && HasStream(p.setting) ==> |p.streamNo| <= 32_767)
           && (HasTopic(p.setting) ==> |p.topic| <= 32_767)
         case Recv(p) =>
           && |p.msgKey| <= 32_767 && |p.fromUID| <= 32_767 && |p.channelID| <= 32_767 && |p.clientMsgNo| <= 32_767
           && (version >= 2 && HasStream(p.setting) ==> |p.streamNo| <= 32_767)
           && (HasTopic(p.setting) ==> |p.topic| <= 32_767)
         case Disconnect(p) => |p.reason| <= 32_767
         case Sub(p) => |p.subNo| <= 32_767 && |p.channelID| <= 32_767 && |p.param| <= 32_767
         case Suback(p) => |p.subNo| <= 32_767 && |p.channelID| <= 32_767
         case _ => true
  {
    hide Body, BodySize;
    if !Bare(f.packet) { SizeIsBodyLength(f, version); }
  }

  // ------------------------------------------------------------ one body of each kind, field by field

  lemma SampleNumbers()
    ensures PutU32(0x0A0B_0C0D) == [10, 11, 12, 13]
    ensures PutU32(0x0102_0304) == [1, 2, 3, 4]
    ensures PutU32(0x1112_1314) == [17, 18, 19, 20]
    ensures PutU32(-3) == [255, 255, 255, 253]
    ensures PutU64(-2) == [255, 255, 255, 255, 255, 255, 255, 254]
    ensures PutU64(0x0102_0304_0506_0708) == [1, 2, 3, 4, 5, 6, 7, 8]
  {
  }

  lemma ShortString(s: bytes)
    requires |s| < 256
    ensures PutString(s) == [0, |s|] + s
  {
  }

  /** CONNECT: version, device flag, device, user, token, time, key. */
  lemma ConnectBytes()
    ensures ConnectBody(ConnectPacket(3, [107], [100, 101], 1, -2, [117], [116, 111])) ==
      [3] + ([1] + ([0, 2, 100, 101] + ([0, 1, 117] + ([0, 2, 116, 111] + (
      [255, 255, 255, 255, 255, 255, 255, 254] + ([0, 1, 107] + []))))))
  {
    hide PutU32, PutU64, PutString;
    SampleNumbers();
    ShortString([100, 101]);
    ShortString([117]);
    ShortString([116, 111]);
    ShortString([107]);
  }

  /** CONNACK with its server version: version, time difference, reason, key, salt. */
  lemma ConnackBytes()
    ensures ConnackBody(ConnackPacket(4, [107, 49], [115], 0x0102_0304_0506_0708, 5), true) ==
      [4] + ([1, 2, 3, 4, 5, 6, 7, 8] + ([5] + ([0, 2, 107, 49] + ([0, 1, 115] + []))))
  {
    hide PutU32, PutU64, PutString;
    SampleNumbers();
    ShortString([107, 49]);
    ShortString([115]);
  }

  /** SEND: setting, sequence, number, stream, channel, type, expire, key, topic, payload. */
  lemma SendBytes()
    ensures
      SendBody(SendPacket(12, [107], 0x0102_0304, 0x0A0B_0C0D, [109, 110], [115], [99, 104], 2, [116], [104]), 3) ==
      [12] + ([10, 11, 12, 13] + ([0, 2, 109, 110] + ([0, 1, 115] + ([0, 2, 99, 104] + ([2] + ([1, 2, 3, 4] + (
      [0, 1, 107] + ([0, 1, 116] + [104]))))))))
  {
    hide PutU32, PutU64, PutString;
    SampleNumbers();
    ShortString([109, 110]);
    ShortString([115]);
    ShortString([99, 104]);
    ShortString([107]);
    ShortString([116]);
  }

  /** Version 1, with all settings but those two bits. */
  lemma PlainSendBytes()
    ensures SendBody(SendPacket(0xF3, [107], 9, 0x0A0B_0C0D, [109], [115], [99], 1, [116], [104]), 1) ==
      [243] + ([10, 11, 12, 13] + ([0, 1, 109] + ([0, 1, 99] + ([1] + ([0, 1, 107] + [104])))))
  {
    hide PutU32, PutU64, PutString;
    SampleNumbers();
    ShortString([109]);
    ShortString([99]);
    ShortString([107]);
  }

  /** SENDACK: message, client sequence, message sequence, reason. */
  lemma SendackBytes()
    ensures SendackBody(SendackPacket(-2, 0x0102_0304, 0x0A0B_0C0D, [109], 7)) ==
      [255, 255, 255, 255, 255, 255, 255, 254] + ([10, 11, 12, 13] + ([1, 2, 3, 4] + ([7] + [])))
  {
    hide PutU32, PutU64, PutString;
    SampleNumbers();
  }

  /** RECV: setting, key, sender, channel, type, expire, number, stream with its sequence and flag, message, its
   * sequence, time, topic, payload. */
  lemma RecvBytes()
    ensures
      RecvBody(RecvPacket(12, [107], 0x0102_0304, 0x0102_0304_0506_0708, 0x0A0B_0C0D, [109], [115], 0x1112_1314, 2,
      -3, [99], 1, [116], [102], [104, 105], 0), 3) ==
      [12] + ([0, 1, 107] + ([0, 1, 102] + ([0, 1, 99] + ([1] + ([1, 2, 3, 4] + ([0, 1, 109] + ([0, 1, 115] + (
      [17, 18, 19, 20] + ([2] + ([1, 2, 3, 4, 5, 6, 7, 8] + ([10, 11, 12, 13] + ([255, 255, 255, 253] + (
      [0, 1, 116] + [104, 105])))))))))))))
  {
    hide PutU32, PutU64, PutString;
    SampleNumbers();
    ShortString([107]);
    ShortString([102]);
    ShortString([99]);
    ShortString([109]);
    ShortString([115]);
    ShortString([116]);
  }

  /** Version 2, with all settings but those two bits. */
  lemma PlainRecvBytes()
    ensures
      RecvBody(RecvPacket(0xF3, [107], 5, -2, 0x0A0B_0C0D, [109], [115], 3, 4, -3, [99], 1, [116], [102], [104], 0),
      2) ==
      [243] + ([0, 1, 107] + ([0, 1, 102] + ([0, 1, 99] + ([1] + ([0, 1, 109] + (
      [255, 255, 255, 255, 255, 255, 255, 254] + ([10, 11, 12, 13] + ([255, 255, 255, 253] + [104]))))))))
  {
    hide PutU32, PutU64, PutString;
    SampleNumbers();
    ShortString([107]);
    ShortString([102]);
    ShortString([99]);
    ShortString([109]);
  }

  /** RECVACK: message, sequence. */
  lemma RecvackBytes()
    ensures RecvackBody(RecvackPacket(0x0102_0304_0506_0708, 0x0A0B_0C0D)) ==
      [1, 2, 3, 4, 5, 6, 7, 8] + ([10, 11, 12, 13] + [])
  {
    hide PutU32, PutU64, PutString;
    SampleNumbers();
  }

  /** DISCONNECT: reason code, reason. */
  lemma DisconnectBytes()
    ensures DisconnectBody(DisconnectPacket(3, [98, 121])) ==
      [3] + ([0, 2, 98, 121] + [])
  {
    hide PutU32, PutU64, PutString;
    SampleNumbers();
    ShortString([98, 121]);
  }

  /** SUB: setting, number, channel, type, action, parameter. */
  lemma SubBytes()
    ensures SubBody(SubPacket(1, [110], [99, 104], 2, 3, [112])) ==
      [1] + ([0, 1, 110] + ([0, 2, 99, 104] + ([2] + ([3] + ([0, 1, 112] + [])))))
  {
    hide PutU32, PutU64, PutString;
    SampleNumbers();
    ShortString([110]);
    ShortString([99, 104]);
    ShortString([112]);
  }

  /** SUBACK: number, channel, type, action, reason. */
  lemma SubackBytes()
    ensures SubackBody(SubackPacket([110], [99, 104], 2, 3, 4)) ==
      [0, 1, 110] + ([0, 2, 99, 104] + ([2] + ([3] + ([4] + []))))
  {
    hide PutU32, PutU64, PutString;
    SampleNumbers();
    ShortString([110]);
    ShortString([99, 104]);
  }
}
