/** From received bytes to delivered frames, in the server (dispatch.go) and in the client (client/common.go). */
module Dispatch {
  import opened Bytes
  import opened Chunks
  import opened Wrappers
  import opened PowersOfTwo
  import opened RingBuffers
  import opened Packets
  import opened Protocol
  import opened Connections

  // ------------------------------------------------------------ cutting at the last whole frame

  /** Where the whole frames at the front of buff end, judged by header types and lengths alone. */
  function UnpackEnd(buff: bytes): (end: nat)
    ensures end <= |buff|
    decreases |buff|
  {
    if buff == [] then 0
    else if buff[0] / 16 == PING || buff[0] / 16 == PONG then 1 + UnpackEnd(buff[1..])
    else
      var l := ReadLength(buff[1..], 0);
      if l.None? then 0
      else
        var dataEnd := 1 + l.value.digits + l.value.value;
        if |buff| >= dataEnd then dataEnd + UnpackEnd(buff[dataEnd..]) else 0
  }

  /** decodeLength of packages server and client: the size is the number of digits read. */
  method DecodeDigits(data: bytes) returns (length: nat, size: nat, has: bool)
    ensures has == ReadLength(data, 0).Some?
    ensures has ==> ReadLength(data, 0).value == Length(length, size)
  {
    hide ReadLength, Pow128, SoFar, Shifted;
    var multiplier := 0;
    var offset := 0;
    length := 0;
    NothingRead(data);
    while multiplier < 27
      invariant offset <= 4 && multiplier == 7 * offset && offset <= |data|
      invariant length < Pow128(offset)
      invariant SoFar(data, length, offset)
    {
      if offset >= |data| {
        OutOfDigits(data, length);
        return 0, 0, false;
      }
      var digit: int := data[offset];
      ReadDigit(data, length, offset);
      NextWeight(length, digit % 128, offset);
      offset := offset + 1;
      length := length + digit % 128 * Weight(multiplier);
      if digit < 128 {
        return length, offset, true;
      }
      multiplier := multiplier + 7;
    }
    FourDigitsRead(data, length);
    return length, offset, true;
  }

  /** One step of the cutting loops, which are the same in the server and twice in the client. */
  lemma UnpackStep(buff: bytes, offset: nat, l: Option<Length>)
    requires offset < |buff| && l == ReadLength(buff[offset + 1..], 0)
    ensures var bare := buff[offset] / 16 == PING || buff[offset] / 16 == PONG;
      && (bare ==> UnpackEnd(buff[offset..]) == 1 + UnpackEnd(buff[offset + 1..]))
      && (!bare && l.None? ==> UnpackEnd(buff[offset..]) == 0)
      && (!bare && l.Some? ==>
        var dataEnd := offset + l.value.digits + l.value.value + 1;
        UnpackEnd(buff[offset..]) == if |buff| >= dataEnd then dataEnd - offset + UnpackEnd(buff[dataEnd..]) else 0)
  {
    assert buff[offset..][1..] == buff[offset + 1..];
    if l.Some? {
      var size := 1 + l.value.digits + l.value.value;
      if |buff| >= offset + size {
        assert buff[offset..][size..] == buff[offset + size..];
      }
    }
  }

  method GnetUnpacket(buff: bytes) returns (data: bytes)
    ensures data == buff[..UnpackEnd(buff)]
  {
    hide UnpackEnd, ReadLength;
    if |buff| <= 0 {
      return [];
    }
    var offset := 0;
    assert buff[0..] == buff;
    while |buff| > offset
      invariant offset <= |buff|
      invariant UnpackEnd(buff) == offset + UnpackEnd(buff[offset..])
    {
      UnpackStep(buff, offset, ReadLength(buff[offset + 1..], 0));
      var packetType := buff[offset] / 16;
      if packetType == PING || packetType == PONG {
        offset := offset + 1;
        continue;
      }
      var reminLen, readSize, has := DecodeDigits(buff[offset + 1..]);
      if !has {
        return buff[..offset];
      }
      var dataEnd := offset + readSize + reminLen + 1;
      if |buff| >= dataEnd {
        offset := dataEnd;
        continue;
      } else {
        return buff[..offset];
      }
    }
    return buff[..offset];
  }

  /** parse of package client copies the frames one by one instead. */
  method Parse(buff: bytes) returns (packetData: bytes, rest: bytes)
    ensures packetData == buff[..UnpackEnd(buff)] && rest == buff[UnpackEnd(buff)..]
  {
    hide UnpackEnd, ReadLength;
    packetData := [];
    var offset := 0;
    assert buff[0..] == buff;
    while |buff| > offset
      invariant offset <= |buff| && packetData == buff[..offset]
      invariant UnpackEnd(buff) == offset + UnpackEnd(buff[offset..])
    {
      UnpackStep(buff, offset, ReadLength(buff[offset + 1..], 0));
      var packetType := buff[offset] / 16;
      if packetType == PING || packetType == PONG {
        packetData := packetData + [buff[offset]];
        offset := offset + 1;
        continue;
      }
      var reminLen, readSize, has := DecodeDigits(buff[offset + 1..]);
      if !has {
        break;
      }
      var dataStart := offset;
      var dataEnd := offset + readSize + reminLen + 1;
      if |buff| >= dataEnd {
        packetData := packetData + buff[dataStart..dataEnd];
        offset := dataEnd;
        continue;
      } else {
        break;
      }
    }
    assert UnpackEnd(buff) == offset;
    rest := buff[|packetData|..];
  }

  // ------------------------------------------------------------ decoding a batch

  datatype Delivered = Delivered(framer: Framer, packet: Packet, size: nat)

  datatype Ending = Finished | Refused | Crashed

  /** The frames decoded from a batch, the bytes they used up, and how it ended. */
  datatype Batch = Batch(frames: seq<Delivered>, used: nat, ending: Ending)

  function DecodeBatch(data: bytes, version: byte): (b: Batch)
    ensures b.used <= |data|
    decreases |data|
  {
    if data == [] then Batch([], 0, Finished)
    else
      match DecodeFrameOf(data, version)
      case Got(framer, packet, size) =>
        RecordedSizeIsExact(data, version);
        SizeIsPositive(data, version);
        var b := DecodeBatch(data[size..], version);
        Batch([Delivered(framer, packet, size)] + b.frames, size + b.used, b.ending)
      case More => Batch([], 0, Finished)
      case Bad => Batch([], 0, Refused)
      case Panic => Batch([], 0, Crashed)
  }

  lemma SizeIsPositive(data: bytes, version: byte)
    ensures var r := DecodeFrameOf(data, version); r.Got? ==> r.size > 0
  {
  }

  // ------------------------------------------------------------ the read path

  datatype Status = Open | Closed | Down

  /**
   * What is buffered, the frames put in the connection's context, the frames handed to the processor, and the state
   * of the connection.
   */
  datatype In = In(buffered: bytes, queued: seq<Delivered>, processed: seq<Delivered>, status: Status)

  /** The state after a batch from the front of the buffer; the processor is not run on a batch that fails. */
  function Settled(s: In, b: Batch): In
    requires b.used <= |s.buffered|
  {
    var queue := s.queued + b.frames;
    match b.ending
    case Finished => In(s.buffered[b.used..], [], s.processed + queue, Open)
    case Refused => In([], queue, s.processed, Closed)
    case Crashed => In(s.buffered, queue, s.processed, Down)
  }

  /** dataIn on an authenticated connection. */
  function Process(s: In, version: byte): In {
    var end := UnpackEnd(s.buffered);
    if end == 0 then s else Settled(s, DecodeBatch(s.buffered[..end], version))
  }

  /** The reactor reads one chunk into the buffer and has it processed. */
  function Receive(s: In, chunk: bytes, version: byte): In {
    if s.status != Open then s
    else if chunk == [] || |s.buffered| + |chunk| > MAX_READ_BUFFER_SIZE then In([], s.queued, s.processed, Closed)
    else Process(s.(buffered := s.buffered + chunk), version)
  }

  // ------------------------------------------------------------ the write path

  function Encoded(fs: seq<Frame>, version: byte): (parts: seq<bytes>)
    ensures |parts| == |fs|
  {
    seq(|fs|, i requires 0 <= i < |fs| => FrameBytes(fs[i], version))
  }

  /** The bytes of all frames in order. */
  function Stream(fs: seq<Frame>, version: byte): bytes {
    Flatten(Encoded(fs, version))
  }

  lemma StreamEmpty(version: byte)
    ensures Stream([], version) == []
  {
  }

  lemma NothingWritten(s: Out)
    ensures Next(s, Write([])) == s
  {
    assert s.written + [] == s.written && s.waiting + [] == s.waiting;
  }

  lemma WrittenTwice(s: Out, a: bytes, b: bytes)
    ensures Next(Next(s, Write(a)), Write(b)) == Next(s, Write(a + b))
  {
    assert s.written + a + b == s.written + (a + b) && s.waiting + a + b == s.waiting + (a + b);
  }

  lemma StreamSnoc(fs: seq<Frame>, i: nat, version: byte)
    requires i < |fs|
    ensures Stream(fs[..i + 1], version) == Stream(fs[..i], version) + FrameBytes(fs[i], version)
  {
    hide FrameBytes;
    assert Encoded(fs[..i + 1], version)[..i] == Encoded(fs[..i], version);
  }

  class Server {
    const conn: Conn
    const version: byte
    var queued: seq<Delivered>
    var processed: seq<Delivered>
    var crashed: bool

    ghost predicate Valid()
      reads this, conn, conn.inbound, conn.outbound
    {
      conn.Valid()
    }

    ghost function View(): In
      requires Valid()
      reads this, conn, conn.inbound, conn.outbound, conn.inbound.buf
    {
      In(conn.inbound.Contents(), queued, processed, if crashed then Down else if conn.closed then Closed else Open)
    }

    constructor (version: byte)
      ensures Valid() && this.version == version && fresh(conn) && fresh(conn.Repr())
      ensures View() == In([], [], [], Open) && conn.Armed()
    {
      conn := new Conn();
      this.version := version;
      queued, processed, crashed := [], [], false;
    }

    /** Decodes frame after frame; the frames found before an error are already in the queue. */
    method DecodeAll(data: bytes) returns (offset: nat, ending: Ending)
      requires Valid()
      modifies this`queued
      ensures var b := DecodeBatch(data, version);
        offset == b.used && ending == b.ending && queued == old(queued) + b.frames
    {
      hide DecodeFrameOf;
      offset := 0;
      ghost var b := DecodeBatch(data, version);
      assert data[0..] == data && old(queued) + b.frames == queued + b.frames;
      while |data| > offset
        invariant offset <= |data|
        invariant Remaining(b, offset, data, version)
        invariant queued + DecodeBatch(data[offset..], version).frames == old(queued) + b.frames
      {
        var r := DecodeFrame(data[offset..], version);
        match r {
          case Bad => return offset, Refused;
          case Panic => return offset, Crashed;
          case More => break;
          case Got(framer, packet, size) =>
            RecordedSizeIsExact(data[offset..], version);
            SizeIsPositive(data[offset..], version);
            assert data[offset..][size..] == data[offset + size..];
            ghost var tail := DecodeBatch(data[offset + size..], version).frames;
            var d := Delivered(framer, packet, size);
            assert queued + ([d] + tail) == (queued + [d]) + tail;
            queued := queued + [d];
            offset := offset + size;
        }
      }
      return offset, Finished;
    }

    /** Hands the queue to the processor. */
    method ProcessFrames()
      modifies this`queued, this`processed
      ensures queued == [] && processed == old(processed) + old(queued)
    {
      processed := processed + queued;
      queued := [];
    }

    /** Discards what was decoded and runs the processor, or closes the connection on an error. */
    method Settle(offset: nat, ending: Ending) returns (err: bool)
      requires Valid() && !conn.closed && !crashed && offset <= |conn.inbound.Contents()|
      modifies this`crashed, this`queued, this`processed, conn, conn.inbound, conn.outbound
      ensures Valid() && conn.Repr() == old(conn.Repr())
      ensures View() == match ending
        case Finished => In(old(conn.inbound.Contents())[offset..], [], old(processed) + old(queued), Open)
        case Refused => In([], old(queued), old(processed), Closed)
        case Crashed => In(old(conn.inbound.Contents()), old(queued), old(processed), Down)
      ensures err <==> conn.closed
      ensures err ==> !crashed
    {
      hide Held;
      match ending {
        case Refused =>
          conn.Close();
          return true;
        case Crashed =>
          crashed := true;
          return false;
        case Finished =>
          var _ := conn.Discard(offset);
          ProcessFrames();
          return false;
      }
    }

    method DataIn() returns (err: bool)
      requires Valid() && !conn.closed && !crashed
      modifies this, conn, conn.inbound, conn.outbound
      ensures Valid() && conn.Repr() == old(conn.Repr())
      ensures View() == Process(old(View()), version)
      ensures err <==> conn.closed
      ensures err ==> !crashed
    {
      hide UnpackEnd, DecodeBatch, Process, Settled, Buffer.Contents, DecodeFrameOf;
      ProcessIs(View(), version);
      err := false;
      var peeked := conn.Peek(-1);
      var buff := peeked.value;
      if |buff| > 0 {
        var data := GnetUnpacket(buff);
        if |data| > 0 {
          err := Handle(data);
        }
      }
    }

    /** The authenticated branch: decode, then discard what was decoded. */
    method Handle(data: bytes) returns (err: bool)
      requires Valid() && !conn.closed && !crashed && data <= conn.inbound.Contents()
      modifies this, conn, conn.inbound, conn.outbound
      ensures Valid() && conn.Repr() == old(conn.Repr())
      ensures View() == Settled(old(View()), DecodeBatch(data, version))
      ensures err <==> conn.closed
      ensures err ==> !crashed
    {
      hide DecodeBatch, Buffer.Contents, DecodeFrameOf;
      var offset, ending := DecodeAll(data);
      err := Settle(offset, ending);
    }

    /** dataOut: all frames go to the outbound buffer in order, and the connection asks for write events. */
    method DataOut(fs: seq<Frame>)
      requires Valid() && forall i :: 0 <= i < |fs| ==> |FrameBytes(fs[i], version)| <= TOP
      modifies conn, conn.outbound, conn.outbound.buf
      ensures Valid() && fresh(conn.Repr() - old(conn.Repr()))
      ensures conn.Outgoing() == Next(old(conn.Outgoing()), Write(Stream(fs, version)))
      ensures conn.inbound.Contents() == old(conn.inbound.Contents())
      ensures old(conn.Armed()) ==> conn.Armed()
      ensures fs != [] ==> conn.watchingWrites
    {
      hide FrameBytes, Stream, Next, Conn.Outgoing, Buffer.Contents;
      ghost var before := conn.Outgoing();
      NothingWritten(before);
      StreamEmpty(version);
      if |fs| == 0 {
        assert fs == [];
        return;
      }
      assert fs[..0] == [];
      for i := 0 to |fs|
        invariant Valid() && fresh(conn.Repr() - old(conn.Repr()))
        invariant conn.Outgoing() == Next(before, Write(Stream(fs[..i], version)))
        invariant conn.inbound.Contents() == old(conn.inbound.Contents())
      {
        var data := EncodeFrame(fs[i], version);
        StreamSnoc(fs, i, version);
        WrittenTwice(before, Stream(fs[..i], version), data);
        var _ := conn.WriteToOutboundBuffer(data);
      }
      assert fs[..|fs|] == fs;
      conn.WakeWrite();
    }

    /** The reactor's read event. */
    method OnReadable(result: ReadResult)
      requires Valid() && !conn.closed && !crashed
      requires result.Data? ==> |result.data| <= 32_768
      modifies this, conn, conn.inbound, conn.outbound, conn.inbound.buf
      ensures Valid() && fresh(conn.Repr() - old(conn.Repr()))
      ensures View() == match result
        case Data(chunk) => Receive(old(View()), chunk, version)
        case ReadAgain => old(View())
        case ReadFailed => Receive(old(View()), [], version)
      ensures result.ReadAgain? ==> !conn.closed && !crashed
      ensures || result.ReadFailed? || result == Data([])
              || (result.Data? && |old(conn.inbound.Contents())| + |result.data| > 5_242_880) ==>
        && conn.closed && !crashed && conn.inbound.Contents() == []
        && queued == old(queued) && processed == old(processed)
    {
      hide UnpackEnd, DecodeBatch, Process;
      var n, err := conn.ReadToInboundBuffer(result);
      if err != NoError {
        if err == Again {
          return;
        }
        conn.Close();
        return;
      }
      if n == 0 {
        conn.Close();
        return;
      }
      var failed := DataIn();
      if failed {
        conn.Close();
      }
    }
  }

  /**
   * What one chunk can do to an open connection. It is closed, with nothing processed, by the end of the stream, by
   * more than 5 MiB, and by a batch that is refused; in every other case no byte is lost but those of whole frames,
   * and the processor gets all that is queued.
   */
  lemma ReceiveEnds(s: In, chunk: bytes, version: byte)
    requires s.status == Open
    ensures var all, t := s.buffered + chunk, Receive(s, chunk, version);
      var b := DecodeBatch(all[..UnpackEnd(all)], version);
      && (t.status == Closed <==> chunk == [] || |all| > 5_242_880 || b.ending == Refused)
      && (t.status == Down <==> chunk != [] && |all| <= 5_242_880 && b.ending == Crashed)
      && (t.status == Closed ==> t.buffered == [] && t.processed == s.processed)
      && (t.status == Down ==> t.buffered == all && t.processed == s.processed)
      && (t.status == Open && UnpackEnd(all) == 0 ==> t == s.(buffered := all))
      && (t.status == Open && UnpackEnd(all) > 0 ==>
          t.buffered == all[b.used..] && t.queued == [] && t.processed == s.processed + (s.queued + b.frames))
  {
    hide DecodeFrameOf;
    if UnpackEnd(s.buffered + chunk) == 0 {
      assert (s.buffered + chunk)[..0] == [];
    }
  }

  lemma ProcessIs(s: In, version: byte)
    ensures var end := UnpackEnd(s.buffered);
      Process(s, version) == if end == 0 then s else Settled(s, DecodeBatch(s.buffered[..end], version))
    ensures s.buffered == [] ==> UnpackEnd(s.buffered) == 0
  {
  }

  ghost predicate Remaining(b: Batch, offset: nat, data: bytes, version: byte)
    requires offset <= |data|
  {
    var t := DecodeBatch(data[offset..], version);
    b.used == offset + t.used && b.ending == t.ending
  }
}
