/** Whole frames: header byte, length prefix, body (protocol.go, common.go). */
module Protocol {
  import opened Bytes
  import opened Wrappers
  import opened Codec
  import opened Packets
  import opened PacketCoders

  const UNKNOWN := 0
  const CONNECT := 1
  const CONNACK := 2
  const SEND := 3
  const SENDACK := 4
  const RECV := 5
  const RECVACK := 6
  const PING := 7
  const PONG := 8
  const DISCONNECT := 9
  const SUB := 10
  const SUBACK := 11

  const MAX_REMAINING := 1024 * 1024

  datatype Flags = Flags(noPersist: bool, redDot: bool, syncOnce: bool, dup: bool, hasServerVersion: bool)

  datatype Packet =
    | Connect(connect: ConnectPacket)
    | Connack(connack: ConnackPacket)
    | Send(send: SendPacket)
    | Sendack(sendack: SendackPacket)
    | Recv(recv: RecvPacket)
    | Recvack(recvack: RecvackPacket)
    | Disconnect(disconnect: DisconnectPacket)
    | Sub(sub: SubPacket)
    | Suback(suback: SubackPacket)
    | Ping
    | Pong

  datatype Frame = Frame(flags: Flags, packet: Packet)

  /** What a decoded frame knows of its own encoding. */
  datatype Framer = Framer(frameType: int, flags: Flags, remainingLength: nat, frameSize: nat)

  /** DecodeFrame: a frame and its size, a request for more bytes, an error, or a panic. */
  datatype Decoded = Got(framer: Framer, packet: Packet, size: nat) | More | Bad | Panic

  function FrameType(p: Packet): int {
    match p
    case Connect(_) => CONNECT
    case Connack(_) => CONNACK
    case Send(_) => SEND
    case Sendack(_) => SENDACK
    case Recv(_) => RECV
    case Recvack(_) => RECVACK
    case Disconnect(_) => DISCONNECT
    case Sub(_) => SUB
    case Suback(_) => SUBACK
    case Ping => PING
    case Pong => PONG
  }

  predicate Bare(p: Packet) { p.Ping? || p.Pong? }

  // ------------------------------------------------------------ header byte

  function Bit(b: bool): int { if b then 1 else 0 }

  /** ToFixHeaderUint8: a CONNACK carries the server version flag in place of the others. */
  function HeaderByte(f: Frame): byte {
    var low :=
      if f.packet.Connack? then Bit(f.flags.hasServerVersion)
      else Bit(f.flags.dup) * 8 + Bit(f.flags.syncOnce) * 4 + Bit(f.flags.redDot) * 2 + Bit(f.flags.noPersist);
    FrameType(f.packet) * 16 + low
  }

  /** FramerFromUint8. */
  function FlagsOf(v: byte): Flags {
    Flags(v % 2 == 1, v / 2 % 2 == 1, v / 4 % 2 == 1, v / 8 % 2 == 1, v / 16 == CONNACK && v % 2 == 1)
  }

  /** The flags that survive: a CONNACK comes back with noPersist in the bit of the server version. */
  function SentFlags(f: Frame): Flags {
    if Bare(f.packet) then Flags(false, false, false, false, false)
    else if f.packet.Connack? then Flags(f.flags.hasServerVersion, false, false, false, f.flags.hasServerVersion)
    else f.flags.(hasServerVersion := false)
  }

  lemma HeaderRoundTrip(f: Frame)
    requires !Bare(f.packet)
    ensures HeaderByte(f) / 16 == FrameType(f.packet)
    ensures FlagsOf(HeaderByte(f)) == SentFlags(f)
  {
    var g := f.flags;
    if f.packet.Connack? {
      LowBits(FrameType(f.packet), 0, 0, 0, Bit(g.hasServerVersion));
    } else {
      LowBits(FrameType(f.packet), Bit(g.dup), Bit(g.syncOnce), Bit(g.redDot), Bit(g.noPersist));
    }
  }

  lemma LowBits(high: nat, b3: nat, b2: nat, b1: nat, b0: nat)
    requires b3 < 2 && b2 < 2 && b1 < 2 && b0 < 2
    ensures var v := high * 16 + b3 * 8 + b2 * 4 + b1 * 2 + b0;
      v / 16 == high && v % 2 == b0 && v / 2 % 2 == b1 && v / 4 % 2 == b2 && v / 8 % 2 == b3
  {
    var v := high * 16 + b3 * 8 + b2 * 4 + b1 * 2 + b0;
    var half, quarter, eighth := high * 8 + b3 * 4 + b2 * 2 + b1, high * 4 + b3 * 2 + b2, high * 2 + b3;
    RemainderIsUnique(v, 2, half, b0);
    RemainderIsUnique(half, 2, quarter, b1);
    RemainderIsUnique(v, 4, quarter, b1 * 2 + b0);
    RemainderIsUnique(quarter, 2, eighth, b2);
    RemainderIsUnique(v, 8, eighth, b2 * 4 + b1 * 2 + b0);
    RemainderIsUnique(eighth, 2, high, b3);
    RemainderIsUnique(v, 16, high, b3 * 8 + b2 * 4 + b1 * 2 + b0);
  }

  // ------------------------------------------------------------ length prefix

  datatype Length = Length(value: nat, digits: nat)

  /** encodeVariable2: base 128, low digit first; zero writes nothing. */
  function PutLength(n: nat): bytes {
    if n == 0 then [] else if n < 128 then [n] else [n % 128 + 128] + PutLength(n / 128)
  }

  /** The length at the front of s when k digits are already read; at most four digits are read. */
  function ReadLength(s: bytes, k: nat): Option<Length>
    requires k <= 4
    decreases 4 - k
  {
    if k == 4 then Some(Length(0, 0))
    else if s == [] then None
    else if s[0] < 128 then Some(Length(s[0], 1))
    else
      var r := ReadLength(s[1..], k + 1);
      if r.None? then None else Some(Length(s[0] - 128 + 128 * r.value.value, r.value.digits + 1))
  }

  /** All four digits ask for another one. */
  predicate NoLastDigit(s: bytes) {
    |s| >= 4 && s[0] >= 128 && s[1] >= 128 && s[2] >= 128 && s[3] >= 128
  }

  function Pow128(k: nat): (p: nat)
    ensures p >= 1
  {
    if k == 0 then 1 else 128 * Pow128(k - 1)
  }

  lemma {:induction false} LengthTaken(n: nat, k: nat, t: bytes)
    requires k <= 4 && 0 < n < Pow128(4 - k)
    ensures ReadLength(PutLength(n) + t, k) == Some(Length(n, |PutLength(n)|))
    ensures |PutLength(n)| <= 4 - k
    decreases 4 - k
  {
    var s := PutLength(n) + t;
    if n >= 128 {
      LengthTaken(n / 128, k + 1, t);
      assert s[1..] == PutLength(n / 128) + t;
    }
  }

  lemma ReadLengthBounds(s: bytes, k: nat)
    requires k <= 4
    ensures var r := ReadLength(s, k);
      r.Some? ==>
        && r.value.value < Pow128(4 - k) && r.value.digits <= 4 - k && r.value.digits <= |s|
        && (k < 4 ==> r.value.digits > 0)
    decreases 4 - k
  {
    if k < 4 && s != [] {
      ReadLengthBounds(s[1..], k + 1);
    }
  }

  /** A length is read back, with its own number of bytes, exactly when it is neither zero nor above 2^28 - 1. */
  lemma LengthRoundTrip(n: nat, t: bytes)
    ensures ReadLength(PutLength(n) + t, 0) == Some(Length(n, |PutLength(n)|)) <==> 0 < n < 0x1000_0000
  {
    assert Pow128(4) == 0x1000_0000 by {
      assert Pow128(1) == 128 && Pow128(2) == 16384;
    }
    if 0 < n < 0x1000_0000 {
      LengthTaken(n, 0, t);
    } else {
      ReadLengthBounds(PutLength(n) + t, 0);
    }
  }

  /** A proper prefix of a length is not one. */
  lemma {:induction false} CutLength(n: nat, k: nat, j: nat)
    requires k <= 4 && 0 < n < Pow128(4 - k) && j < |PutLength(n)|
    ensures ReadLength(PutLength(n)[..j], k) == None
    decreases 4 - k
  {
    if j > 0 {
      CutLength(n / 128, k + 1, j - 1);
      assert PutLength(n)[..j][1..] == PutLength(n / 128)[..j - 1];
    }
  }

  method EncodeVariable(size: uint32, enc: Encoder)
    modifies enc
    ensures enc.w == old(enc.w) + PutLength(size)
  {
    var n: int := size;
    assert enc.w + PutLength(n) == old(enc.w) + PutLength(size);
    while n > 0
      invariant 0 <= n
      invariant enc.w + PutLength(n) == old(enc.w) + PutLength(size)
    {
      var digit := n % 0x80;
      ghost var tail := PutLength(n / 0x80);
      n := n / 0x80;
      if n > 0 {
        digit := digit + 0x80;
      }
      enc.WriteUint8(digit, tail);
    }
  }

  /** 2^multiplier, for shifting a digit into place. */
  function Weight(multiplier: nat): nat {
    Pow128(multiplier / 7)
  }

  /** v shifted by k digits. */
  function Shifted(v: int, k: nat): int {
    v * Pow128(k)
  }

  /**
   * decodeLength of package proto: the size counts one byte too many when no last digit is found. The source
   * ors each digit in above the ones before it, which adds it.
   */
  method DecodeLength(data: bytes) returns (ok: bool, length: nat, size: nat)
    ensures ok == ReadLength(data, 0).Some?
    ensures ok ==> var r := ReadLength(data, 0).value;
      length == r.value && size == r.digits + Bit(NoLastDigit(data))
  {
    hide ReadLength, Pow128, SoFar, Shifted;
    var multiplier := 0;
    var offset := 0;
    length := 0;
    NothingRead(data);
    while multiplier < 27
      invariant offset <= 4 && multiplier == 7 * offset && offset <= |data|
      invariant length < Pow128(offset)
      invariant forall i | 0 <= i < offset :: data[i] >= 128
      invariant SoFar(data, length, offset)
    {
      if offset >= |data| {
        OutOfDigits(data, length);
        return false, 0, 0;
      }
      var digit: int := data[offset];
      ReadDigit(data, length, offset);
      NextWeight(length, digit % 128, offset);
      length := length + digit % 128 * Weight(multiplier);
      if digit < 128 {
        return true, length, offset + 1;
      }
      multiplier := multiplier + 7;
      offset := offset + 1;
    }
    FourDigitsRead(data, length);
    return true, length, offset + 1;
  }

  lemma NothingRead(data: bytes)
    ensures SoFar(data, 0, 0) && Pow128(0) == 1
  {
    assert data[0..] == data;
    assert forall v {:trigger Shifted(v, 0)} :: Shifted(v, 0) == v;
  }

  lemma OutOfDigits(data: bytes, length: nat)
    requires |data| < 4 && SoFar(data, length, |data|)
    ensures ReadLength(data, 0) == None
  {
    assert data[|data|..] == [];
  }

  lemma FourDigitsRead(data: bytes, length: nat)
    requires |data| >= 4 && SoFar(data, length, 4)
    ensures ReadLength(data, 0) == Some(Length(length, 4))
  {
  }

  /** The next digit lies above the ones before it, so or-ing it in adds it. */
  lemma NextWeight(length: nat, digit: nat, k: nat)
    requires length < Pow128(k) && digit < 128
    ensures length + digit * Weight(7 * k) < Pow128(k + 1)
    ensures digit * Weight(7 * k) == Shifted(digit, k) >= 0
  {
    hide Pow128;
    Pow128Next(k);
    Scaled(digit, Pow128(k));
    assert 7 * k / 7 == k;
  }

  lemma Pow128Next(k: nat)
    ensures Pow128(k + 1) == 128 * Pow128(k)
  {
  }

  lemma Scaled(digit: nat, p: nat)
    requires digit < 128
    ensures 0 <= digit * p <= 127 * p
  {
    assert (127 - digit) * p >= 0;
  }

  /** The digits before offset add up to length. */
  ghost predicate SoFar(data: bytes, length: int, offset: nat)
    requires offset <= 4 && offset <= |data|
  {
    var r, t := ReadLength(data, 0), ReadLength(data[offset..], offset);
    && r.Some? == t.Some?
    && (r.Some? ==>
      && r.value.value == length + Shifted(t.value.value, offset)
      && r.value.digits == offset + t.value.digits)
  }

  lemma ReadDigit(data: bytes, length: nat, offset: nat)
    requires offset < 4 && offset < |data| && SoFar(data, length, offset)
    ensures data[offset] >= 128 ==> SoFar(data, length + Shifted(data[offset] - 128, offset), offset + 1)
    ensures data[offset] < 128 ==>
      && Shifted(data[offset], offset) >= 0
      && ReadLength(data, 0) == Some(Length(length + Shifted(data[offset], offset), offset + 1))
  {
    hide ReadLength, Shifted;
    var t := ReadLength(data[offset + 1..], offset + 1);
    FirstDigit(data[offset..], offset);
    assert data[offset..][1..] == data[offset + 1..];
    if data[offset] < 128 {
      ShiftedIsNat(data[offset], offset);
    } else if t.Some? {
      NextDigit(offset, data[offset] - 128, t.value.value);
    }
  }

  lemma ShiftedIsNat(v: nat, k: nat)
    ensures Shifted(v, k) >= 0
  {
  }

  lemma FirstDigit(s: bytes, k: nat)
    requires k < 4 && s != []
    ensures ReadLength(s, k) ==
      if s[0] < 128 then Some(Length(s[0], 1))
      else
        var r := ReadLength(s[1..], k + 1);
        if r.None? then None else Some(Length(s[0] - 128 + 128 * r.value.value, r.value.digits + 1))
  {
  }

  lemma NextDigit(k: nat, d: int, v: int)
    ensures Shifted(d + 128 * v, k) == Shifted(d, k) + Shifted(v, k + 1)
  {
    hide Pow128;
    var p := Pow128(k);
    Pow128Next(k);
    assert (d + 128 * v) * p == d * p + v * (128 * p);
  }

  // ------------------------------------------------------------ bodies

  function Body(f: Frame, version: byte): bytes
    requires !Bare(f.packet)
  {
    match f.packet
    case Connect(p) => ConnectBody(p)
    case Connack(p) => ConnackBody(p, f.flags.hasServerVersion)
    case Send(p) => SendBody(p, version)
    case Sendack(p) => SendackBody(p)
    case Recv(p) => RecvBody(p, version)
    case Recvack(p) => RecvackBody(p)
    case Disconnect(p) => DisconnectBody(p)
    case Sub(p) => SubBody(p)
    case Suback(p) => SubackBody(p)
  }

  /** The size each encodeXSize announces in the length prefix before the body is written. */
  function BodySize(f: Frame, version: byte): nat
    requires !Bare(f.packet)
  {
    match f.packet
    case Connect(p) => ConnectSize(p)
    case Connack(p) => ConnackSize(p, f.flags.hasServerVersion)
    case Send(p) => SendSize(p, version)
    case Sendack(p) => SendackSize(p)
    case Recv(p) => RecvSize(p, version)
    case Recvack(p) => RecvackSize(p)
    case Disconnect(p) => DisconnectSize(p)
    case Sub(p) => SubSize(p)
    case Suback(p) => SubackSize(p)
  }

  function WrapOutcome<T>(r: Outcome<T>, wrap: T -> Packet): Outcome<Packet> {
    match r
    case Ok(p) => Ok(wrap(p))
    case Err => Err
    case Panic => Outcome.Panic
  }

  /** packetDecodeMap applied to a body; types without an entry are an error. */
  function ParseBody(frameType: int, hasServerVersion: bool, body: bytes, version: byte): Outcome<Packet> {
    if frameType == CONNECT then WrapOutcome(ParseConnect(body), p => Connect(p))
    else if frameType == CONNACK then WrapOutcome(ParseConnack(body, hasServerVersion), p => Connack(p))
    else if frameType == SEND then WrapOutcome(ParseSend(body, version), p => Send(p))
    else if frameType == SENDACK then WrapOutcome(ParseSendack(body), p => Sendack(p))
    else if frameType == RECV then WrapOutcome(ParseRecv(body, version), p => Recv(p))
    else if frameType == RECVACK then WrapOutcome(ParseRecvack(body), p => Recvack(p))
    else if frameType == DISCONNECT then WrapOutcome(ParseDisconnect(body), p => Disconnect(p))
    else if frameType == SUB then WrapOutcome(ParseSub(body), p => Sub(p))
    else if frameType == SUBACK then WrapOutcome(ParseSuback(body), p => Suback(p))
    else Err
  }

  /** The packet without the fields its version and flags leave out. */
  function Sent(f: Frame, version: byte): Packet {
    match f.packet
    case Connack(p) => Connack(ConnackSent(p, f.flags.hasServerVersion))
    case Send(p) => Send(SendSent(p, version))
    case Sendack(p) => Sendack(SendackSent(p))
    case Recv(p) => Recv(RecvSent(p, version))
    case other => other
  }

  /** Every string that goes into the body is at most 32767 bytes long. */
  predicate StringsFit(f: Frame, version: byte) {
    match f.packet
    case Connect(p) => ConnectFits(p)
    case Connack(p) => ConnackFits(p, f.flags.hasServerVersion)
    case Send(p) => SendFits(p, version)
    case Recv(p) => RecvFits(p, version)
    case Disconnect(p) => DisconnectFits(p)
    case Sub(p) => SubFits(p)
    case Suback(p) => SubackFits(p)
    case _ => true
  }

  /** Every announced size is the number of bytes written, and never zero. */
  lemma SizeIsBodyLength(f: Frame, version: byte)
    requires !Bare(f.packet)
    ensures |Body(f, version)| == BodySize(f, version) > 0
  {
    hide ConnectBody, ConnackBody, SendBody, SendackBody, RecvBody, RecvackBody, DisconnectBody, SubBody, SubackBody,
      ConnectSize, ConnackSize, SendSize, SendackSize, RecvSize, RecvackSize, DisconnectSize, SubSize, SubackSize;
    match f.packet
    case Connect(p) => ConnectSizeIsLength(p);
    case Connack(p) => ConnackSizeIsLength(p, f.flags.hasServerVersion);
    case Send(p) => SendSizeIsLength(p, version);
    case Sendack(p) => SendackSizeIsLength(p);
    case Recv(p) => RecvSizeIsLength(p, version);
    case Recvack(p) => RecvackSizeIsLength(p);
    case Disconnect(p) => DisconnectSizeIsLength(p);
    case Sub(p) => SubSizeIsLength(p);
    case Suback(p) => SubackSizeIsLength(p);
  }

  /** A body is read back exactly when its strings fit. */
  lemma BodyRoundTrip(f: Frame, version: byte)
    requires !Bare(f.packet)
    ensures ParseBody(FrameType(f.packet), f.flags.hasServerVersion, Body(f, version), version) == Ok(Sent(f, version))
      <==> StringsFit(f, version)
  {
    hide ConnectBody, ConnackBody, SendBody, SendackBody, RecvBody, RecvackBody, DisconnectBody, SubBody, SubackBody,
      ParseConnect, ParseConnack, ParseSend, ParseSendack, ParseRecv, ParseRecvack, ParseDisconnect, ParseSub,
      ParseSuback;
    if StringsFit(f, version) {
      FittingBodyComesBack(f, version);
    } else {
      LongStringDoesNot(f, version);
    }
  }

  lemma FittingBodyComesBack(f: Frame, version: byte)
    requires !Bare(f.packet) && StringsFit(f, version)
    ensures ParseBody(FrameType(f.packet), f.flags.hasServerVersion, Body(f, version), version) == Ok(Sent(f, version))
  {
    hide ConnectBody, ConnackBody, SendBody, SendackBody, RecvBody, RecvackBody, DisconnectBody, SubBody, SubackBody,
      ParseConnect, ParseConnack, ParseSend, ParseSendack, ParseRecv, ParseRecvack, ParseDisconnect, ParseSub,
      ParseSuback,
      ConnectFits, ConnackFits, SendFits, RecvFits, DisconnectFits, SubFits, SubackFits,
      ConnackSent, SendSent, SendackSent, RecvSent;
    match f.packet
    case Connect(p) => ConnectRoundTrip(p);
    case Connack(p) => ConnackRoundTrip(p, f.flags.hasServerVersion);
    case Send(p) => SendRoundTrip(p, version);
    case Sendack(p) => SendackRoundTrip(p);
    case Recv(p) => RecvRoundTrip(p, version);
    case Recvack(p) => RecvackRoundTrip(p);
    case Disconnect(p) => DisconnectRoundTrip(p);
    case Sub(p) => SubRoundTrip(p);
    case Suback(p) => SubackRoundTrip(p);
  }

  lemma LongStringDoesNot(f: Frame, version: byte)
    requires !Bare(f.packet) && !StringsFit(f, version)
    ensures ParseBody(FrameType(f.packet), f.flags.hasServerVersion, Body(f, version), version) != Ok(Sent(f, version))
  {
    hide ConnectBody, ConnackBody, SendBody, SendackBody, RecvBody, RecvackBody, DisconnectBody, SubBody, SubackBody,
      ParseConnect, ParseConnack, ParseSend, ParseSendack, ParseRecv, ParseRecvack, ParseDisconnect, ParseSub,
      ParseSuback,
      Short;
    var body := Body(f, version);
    if f.packet.Connect? {
      ParsedConnectFits(body);
    } else if f.packet.Connack? {
      ParsedConnackFits(body, f.flags.hasServerVersion);
    } else if f.packet.Send? {
      ParsedSendFits(body, version);
    } else if f.packet.Recv? {
      ParsedRecvFits(body, version);
    } else if f.packet.Disconnect? {
      ParsedDisconnectFits(body);
    } else if f.packet.Sub? {
      ParsedSubFits(body);
    } else if f.packet.Suback? {
      ParsedSubackFits(body);
    }
  }

  // ------------------------------------------------------------ frames

  /** The bytes of a frame. The announced size is a uint32. */
  function FrameBytes(f: Frame, version: byte): bytes {
    if Bare(f.packet) then [FrameType(f.packet) * 16]
    else [HeaderByte(f)] + PutLength(BodySize(f, version) % TWO32) + Body(f, version)
  }

  /** The body of a complete frame that starts with byte head and length l, l.digits bytes of length long. */
  function ParseFrame(data: bytes, l: Length, version: byte): Decoded
    requires data != []
  {
    var frameType := data[0] / 16;
    var end := 1 + l.digits + l.value;
    if l.value > MAX_REMAINING then Bad
    else if |data| < end then More
    else
      match ParseBody(frameType, FlagsOf(data[0]).hasServerVersion, data[1 + l.digits..end], version)
      case Ok(p) => Got(Framer(frameType, FlagsOf(data[0]), l.value, |data|), p, end)
      case Err => Bad
      case Panic => Decoded.Panic
  }

  /** What the source's DecodeFrame makes of data. */
  function DecodeFrameOf(data: bytes, version: byte): Decoded {
    if data == [] then Decoded.Panic
    else
      var frameType := data[0] / 16;
      if frameType == PING then Got(Framer(PING, FlagsOf(data[0]), 0, |data|), Ping, 1)
      else if frameType == PONG then Got(Framer(PONG, FlagsOf(data[0]), 0, |data|), Pong, 1)
      else if frameType == UNKNOWN then More
      else
        var l := ReadLength(data[1..], 0);
        if l.None? then More
        else ParseFrame(data, Length(l.value.value, l.value.digits + Bit(NoLastDigit(data[1..]))), version)
  }

  method EncodeFrame(f: Frame, version: byte) returns (w: bytes)
    ensures w == FrameBytes(f, version)
  {
    if Bare(f.packet) {
      return [FrameType(f.packet) * 16];
    }
    var enc := new Encoder();
    enc.WriteUint8(HeaderByte(f));
    EncodeVariable(BodySize(f, version) % TWO32, enc);
    assert enc.w == [HeaderByte(f)] + PutLength(BodySize(f, version) % TWO32);
    match f.packet {
      case Connect(p) => EncodeConnect(p, enc);
      case Connack(p) => EncodeConnack(p, enc, f.flags.hasServerVersion);
      case Send(p) => EncodeSend(p, enc, version);
      case Sendack(p) => EncodeSendack(p, enc);
      case Recv(p) => EncodeRecv(p, enc, version);
      case Recvack(p) => EncodeRecvack(p, enc);
      case Disconnect(p) => EncodeDisconnect(p, enc);
      case Sub(p) => EncodeSub(p, enc);
      case Suback(p) => EncodeSuback(p, enc);
    }
    return enc.w;
  }

  method DecodeFramer(data: bytes) returns (framer: Framer, lengthSize: nat)
    requires data != []
    ensures framer.frameType != UNKNOWN ==> framer.frameType == data[0] / 16
    ensures framer.frameType == UNKNOWN <==>
      data[0] / 16 == UNKNOWN || (data[0] / 16 !in {PING, PONG} && ReadLength(data[1..], 0).None?)
    ensures framer.frameType != UNKNOWN ==> framer.flags == FlagsOf(data[0]) && framer.frameSize == |data|
    ensures framer.frameType in {PING, PONG} ==> framer.remainingLength == lengthSize == 0
    ensures framer.frameType !in {UNKNOWN, PING, PONG} ==>
      var l := ReadLength(data[1..], 0).value;
      framer.remainingLength == l.value && lengthSize == l.digits + Bit(NoLastDigit(data[1..]))
  {
    hide ReadLength, NoLastDigit, FlagsOf;
    var frameType := data[0] / 16;
    var remaining := 0;
    lengthSize := 0;
    if frameType != PING && frameType != PONG {
      var ok;
      ok, remaining, lengthSize := DecodeLength(data[1..]);
      if !ok {
        return Framer(UNKNOWN, Flags(false, false, false, false, false), 0, 0), 0;
      }
    }
    return Framer(frameType, FlagsOf(data[0]), remaining, |data|), lengthSize;
  }

  method DecodeBody(frameType: int, hasServerVersion: bool, body: bytes, version: byte) returns (r: Outcome<Packet>)
    ensures r == ParseBody(frameType, hasServerVersion, body, version)
  {
    hide ParseConnect, ParseConnack, ParseSend, ParseSendack, ParseRecv, ParseRecvack, ParseDisconnect, ParseSub,
      ParseSuback;
    if frameType == CONNECT {
      var p := DecodeConnect(body);
      return WrapOutcome(p, x => Connect(x));
    } else if frameType == CONNACK {
      var p := DecodeConnack(body, hasServerVersion);
      return WrapOutcome(p, x => Connack(x));
    } else if frameType == SEND {
      var p := DecodeSend(body, version);
      return WrapOutcome(p, x => Send(x));
    } else if frameType == SENDACK {
      var p := DecodeSendack(body);
      return WrapOutcome(p, x => Sendack(x));
    } else if frameType == RECV {
      var p := DecodeRecv(body, version);
      return WrapOutcome(p, x => Recv(x));
    } else if frameType == RECVACK {
      var p := DecodeRecvack(body);
      return WrapOutcome(p, x => Recvack(x));
    } else if frameType == DISCONNECT {
      var p := DecodeDisconnect(body);
      return WrapOutcome(p, x => Disconnect(x));
    } else if frameType == SUB {
      var p := DecodeSub(body);
      return WrapOutcome(p, x => Sub(x));
    } else if frameType == SUBACK {
      var p := DecodeSuback(body);
      return WrapOutcome(p, x => Suback(x));
    }
    return Err;
  }

  method DecodeFrame(data: bytes, version: byte) returns (r: Decoded)
    ensures r == DecodeFrameOf(data, version)
  {
    hide ReadLength, NoLastDigit, FlagsOf, ParseBody;
    if data == [] {
      return Decoded.Panic;
    }
    var framer, lengthSize := DecodeFramer(data);
    if framer.frameType == UNKNOWN {
      return More;
    }
    if framer.frameType == PING {
      return Got(framer, Ping, 1);
    }
    if framer.frameType == PONG {
      return Got(framer, Pong, 1);
    }
    if framer.remainingLength > MAX_REMAINING {
      return Bad;
    }
    var msgLen := framer.remainingLength + 1 + lengthSize;
    if |data| < msgLen {
      return More;
    }
    var body := data[1 + lengthSize..msgLen];
    var packet := DecodeBody(framer.frameType, framer.flags.hasServerVersion, body, version);
    match packet {
      case Ok(p) => return Got(framer, p, 1 + lengthSize + framer.remainingLength);
      case Err => return Bad;
      case Panic => return Decoded.Panic;
    }
  }

  // ------------------------------------------------------------ the round trip

  /** A frame whose bytes can be decoded again. */
  predicate Decodable(f: Frame, version: byte) {
    StringsFit(f, version) && (Bare(f.packet) || BodySize(f, version) <= 1_048_576)
  }

  /** What decoding the bytes of f returns when `after` more bytes follow them. */
  function Received(f: Frame, version: byte, after: nat): Decoded {
    var size := |FrameBytes(f, version)|;
    Got(
      Framer(FrameType(f.packet), SentFlags(f), if Bare(f.packet) then 0 else BodySize(f, version), size + after),
      Sent(f, version), size)
  }

  lemma ShortLengthIsWhole(n: nat, t: bytes)
    requires 0 < n < 0x1000_0000
    ensures ReadLength(PutLength(n) + t, 0) == Some(Length(n, |PutLength(n)|)) && |PutLength(n)| <= 4
    ensures !NoLastDigit(PutLength(n) + t)
  {
    assert Pow128(4) == 0x1000_0000 by {
      assert Pow128(1) == 128 && Pow128(2) == 16384;
    }
    LengthTaken(n, 0, t);
    LastDigit(n, 0, t);
  }

  lemma {:induction false} LastDigit(n: nat, k: nat, t: bytes)
    requires k <= 4 && 0 < n < Pow128(4 - k)
    ensures var i := |PutLength(n)| - 1; 0 <= i < 4 - k && (PutLength(n) + t)[i] < 128
    decreases 4 - k
  {
    if n >= 128 {
      LastDigit(n / 128, k + 1, t);
      var s := PutLength(n / 128) + t;
      assert PutLength(n) + t == [n % 128 + 128] + s;
    }
  }

  /** What the header and the length of an encoded frame decode to. */
  lemma FrontOfFrame(f: Frame, version: byte, rest: bytes)
    requires !Bare(f.packet) && BodySize(f, version) < 0x1000_0000
    ensures var s, n := FrameBytes(f, version) + rest, BodySize(f, version);
      var l := Length(n, |PutLength(n)|);
      && s[0] == HeaderByte(f) && ReadLength(s[1..], 0) == Some(l) && !NoLastDigit(s[1..])
      && |s| == 1 + l.digits + n + |rest| && s[1 + l.digits..1 + l.digits + n] == Body(f, version)
  {
    hide ReadLength, PutLength, NoLastDigit, HeaderByte, Body, BodySize;
    var n, body := BodySize(f, version), Body(f, version);
    SizeIsBodyLength(f, version);
    var p := PutLength(n);
    var s := FrameBytes(f, version) + rest;
    assert FrameBytes(f, version) == [HeaderByte(f)] + p + body;
    assert s[1..] == p + (body + rest);
    ShortLengthIsWhole(n, body + rest);
    assert s[1 + |p|..1 + |p| + n] == body;
  }

  /**
   * Decoding an encoded frame, whatever bytes follow it, gives back the frame and its exact size. It does so
   * exactly when every string is at most 32767 bytes and the body at most 1 MiB.
   */
  lemma FrameRoundTrip(f: Frame, version: byte, rest: bytes)
    ensures DecodeFrameOf(FrameBytes(f, version) + rest, version) == Received(f, version, |rest|)
      <==> Decodable(f, version)
  {
    hide ReadLength, PutLength, NoLastDigit, HeaderByte, Body, BodySize, ParseBody, FlagsOf, SentFlags, Sent,
      StringsFit;
    var s := FrameBytes(f, version) + rest;
    if Bare(f.packet) {
      BareRoundTrip(f, version, rest);
    } else if BodySize(f, version) < 0x1000_0000 {
      FrontOfFrame(f, version, rest);
      HeaderRoundTrip(f);
      BodyRoundTrip(f, version);
      FlagsAgree(f, version);
    } else {
      RemainingIsBounded(s, version);
    }
  }

  lemma BareRoundTrip(f: Frame, version: byte, rest: bytes)
    requires Bare(f.packet)
    ensures DecodeFrameOf(FrameBytes(f, version) + rest, version) == Received(f, version, |rest|)
    ensures Decodable(f, version)
  {
  }

  lemma FlagsAgree(f: Frame, version: byte)
    requires !Bare(f.packet)
    ensures ParseBody(FrameType(f.packet), SentFlags(f).hasServerVersion, Body(f, version), version)
      == ParseBody(FrameType(f.packet), f.flags.hasServerVersion, Body(f, version), version)
    ensures FrameType(f.packet) !in {UNKNOWN, PING, PONG}
  {
    hide ConnectBody, ConnackBody, SendBody, SendackBody, RecvBody, RecvackBody, DisconnectBody, SubBody, SubackBody,
      ParseConnect, ParseConnack, ParseSend, ParseSendack, ParseRecv, ParseRecvack, ParseDisconnect, ParseSub,
      ParseSuback,
      Body, WrapOutcome;
  }

  lemma RemainingIsBounded(s: bytes, version: byte)
    ensures var r := DecodeFrameOf(s, version); r.Got? ==> r.framer.remainingLength <= MAX_REMAINING
  {
  }

  /** The frame size recorded in a decoded frame counts all the bytes that were there. */
  lemma RecordedSizeIsExact(data: bytes, version: byte)
    ensures var r := DecodeFrameOf(data, version);
      r.Got? ==> r.size <= |data| && (r.framer.frameSize == r.size <==> |data| == r.size)
  {
  }

  /** What the header and the length of a frame decode to when its bytes are cut short. */
  lemma FrontOfCutFrame(f: Frame, version: byte, k: nat)
    requires !Bare(f.packet) && BodySize(f, version) <= MAX_REMAINING && 0 < k < |FrameBytes(f, version)|
    ensures var s, n := FrameBytes(f, version)[..k], BodySize(f, version);
      var l := ReadLength(s[1..], 0);
      && s[0] == HeaderByte(f)
      && (l.Some? ==> l.value == Length(n, |PutLength(n)|) && k < 1 + l.value.digits + n && !NoLastDigit(s[1..]))
  {
    hide ReadLength, PutLength, NoLastDigit, HeaderByte, Body, BodySize;
    var n, body := BodySize(f, version), Body(f, version);
    var p, s := PutLength(n), FrameBytes(f, version)[..k];
    SizeIsBodyLength(f, version);
    assert FrameBytes(f, version) == [HeaderByte(f)] + p + body;
    if k - 1 < |p| {
      assert s[1..] == p[..k - 1];
      CutShortLength(n, k - 1);
    } else {
      assert s[1..] == p + body[..k - 1 - |p|];
      ShortLengthIsWhole(n, body[..k - 1 - |p|]);
    }
  }

  /** A frame that is cut short is never mistaken for a frame or for an error. */
  lemma CutFrameAsksForMore(f: Frame, version: byte, k: nat)
    requires !Bare(f.packet) && BodySize(f, version) <= MAX_REMAINING && 0 < k < |FrameBytes(f, version)|
    ensures DecodeFrameOf(FrameBytes(f, version)[..k], version) == More
  {
    hide ReadLength, PutLength, NoLastDigit, HeaderByte, Body, BodySize, ParseBody, FlagsOf, FrameBytes;
    HeaderRoundTrip(f);
    FlagsAgree(f, version);
    FrontOfCutFrame(f, version, k);
  }

  lemma CutShortLength(n: nat, j: nat)
    requires 0 < n < 0x1000_0000 && j < |PutLength(n)|
    ensures ReadLength(PutLength(n)[..j], 0) == None
  {
    assert Pow128(4) == 0x1000_0000 by {
      assert Pow128(1) == 128 && Pow128(2) == 16384;
    }
    CutLength(n, 0, j);
  }
}
