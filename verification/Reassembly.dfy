/** Any list of frames, sent as one stream and cut into chunks anywhere, is delivered frame by frame. */
module Reassembly {
  import opened Bytes
  import opened Chunks
  import opened Wrappers
  import opened Packets
  import opened Protocol
  import opened RingBuffers
  import opened Connections
  import opened Dispatch

  predicate AllDecodable(fs: seq<Frame>, version: byte) {
    forall i | 0 <= i < |fs| :: Decodable(fs[i], version)
  }

  /** f as delivered when this many bytes follow it in its batch; the recorded frame size counts them. */
  function AsDelivered(f: Frame, version: byte, after: nat): Delivered {
    var r := Received(f, version, after);
    Delivered(r.framer, r.packet, r.size)
  }

  /** A whole batch of frames as delivered. */
  function BatchOf(fs: seq<Frame>, version: byte): (ds: seq<Delivered>)
    ensures |ds| == |fs|
  {
    seq(|fs|, i requires 0 <= i < |fs| => AsDelivered(fs[i], version, |Stream(fs[i + 1..], version)|))
  }

  /** Batch after batch. */
  function BatchesOf(batches: seq<seq<Frame>>, version: byte): (ds: seq<Delivered>)
    ensures |ds| == |Join(batches)|
  {
    if batches == [] then []
    else
      var last := |batches| - 1;
      BatchesOf(batches[..last], version) + BatchOf(batches[last], version)
  }

  function Join<T>(parts: seq<seq<T>>): seq<T> {
    if parts == [] then [] else Join(parts[..|parts| - 1]) + parts[|parts| - 1]
  }

  /** tail is what has arrived of the first of fs: not all of it, and nothing when there is no frame. */
  predicate CutOff(tail: bytes, fs: seq<Frame>, version: byte) {
    if fs == [] then tail == [] else tail < FrameBytes(fs[0], version)
  }

  // ------------------------------------------------------------ single frames

  lemma FrameIsBounded(f: Frame, version: byte)
    requires Decodable(f, version)
    ensures 0 < |FrameBytes(f, version)| <= MAX_REMAINING + 5
  {
    hide StringsFit, Body, BodySize, PutLength;
    if !Bare(f.packet) {
      SizeIsBodyLength(f, version);
      ShortLengthIsWhole(BodySize(f, version), []);
    }
  }

  lemma UnpackFrame(f: Frame, version: byte, rest: bytes)
    requires Decodable(f, version)
    ensures UnpackEnd(FrameBytes(f, version) + rest) == |FrameBytes(f, version)| + UnpackEnd(rest)
  {
    hide StringsFit, Body, BodySize, PutLength, ReadLength;
    var s := FrameBytes(f, version) + rest;
    if Bare(f.packet) {
      assert s[1..] == rest;
    } else {
      FrontOfFrame(f, version, rest);
      HeaderRoundTrip(f);
      FlagsAgree(f, version);
      var end := |FrameBytes(f, version)|;
      assert s[end..] == rest;
    }
  }

  lemma UnpackCut(f: Frame, version: byte, k: nat)
    requires Decodable(f, version) && k < |FrameBytes(f, version)|
    ensures UnpackEnd(FrameBytes(f, version)[..k]) == 0
  {
    hide StringsFit, Body, BodySize, PutLength, ReadLength, HeaderByte, FrameBytes;
    if 0 < k {
      if Bare(f.packet) {
        BareIsOneByte(f, version);
      } else {
        HeaderRoundTrip(f);
        FlagsAgree(f, version);
        FrontOfCutFrame(f, version, k);
      }
    }
  }

  lemma BareIsOneByte(f: Frame, version: byte)
    requires Bare(f.packet)
    ensures |FrameBytes(f, version)| == 1
  {
  }

  lemma DecodeFront(f: Frame, version: byte, rest: bytes)
    requires Decodable(f, version)
    ensures var s, w := FrameBytes(f, version) + rest, |FrameBytes(f, version)|;
      var b, t := DecodeBatch(s, version), DecodeBatch(rest, version);
      && b.used == w + t.used && b.ending == t.ending
      && b.frames == [AsDelivered(f, version, |rest|)] + t.frames
  {
    hide Decodable, DecodeFrameOf, FrameBytes;
    FrameIsBounded(f, version);
    FrameRoundTrip(f, version, rest);
    assert (FrameBytes(f, version) + rest)[|FrameBytes(f, version)|..] == rest;
  }

  // ------------------------------------------------------------ lists of frames

  lemma StreamCons(fs: seq<Frame>, version: byte)
    requires fs != []
    ensures Stream(fs, version) == FrameBytes(fs[0], version) + Stream(fs[1..], version)
  {
    hide FrameBytes;
    assert Encoded(fs, version) == [FrameBytes(fs[0], version)] + Encoded(fs[1..], version);
    FlattenCons(FrameBytes(fs[0], version), Encoded(fs[1..], version));
  }

  lemma StreamAppend(fs: seq<Frame>, gs: seq<Frame>, version: byte)
    ensures Stream(fs + gs, version) == Stream(fs, version) + Stream(gs, version)
  {
    hide FrameBytes;
    assert Encoded(fs + gs, version) == Encoded(fs, version) + Encoded(gs, version);
    FlattenAppend(Encoded(fs, version), Encoded(gs, version));
  }

  /** The cut falls right behind the last whole frame. */
  lemma {:induction false} UnpackStream(fs: seq<Frame>, tail: bytes, next: seq<Frame>, version: byte)
    requires AllDecodable(fs, version) && AllDecodable(next, version) && CutOff(tail, next, version)
    ensures UnpackEnd(Stream(fs, version) + tail) == |Stream(fs, version)|
    decreases |fs|
  {
    hide FrameBytes, UnpackEnd, Decodable;
    if fs == [] {
      assert Stream(fs, version) + tail == tail;
      if next != [] {
        assert tail == FrameBytes(next[0], version)[..|tail|];
        UnpackCut(next[0], version, |tail|);
      } else {
        EmptyUnpacks();
      }
    } else {
      StreamCons(fs, version);
      var first, more := FrameBytes(fs[0], version), Stream(fs[1..], version);
      assert first + more + tail == first + (more + tail);
      UnpackFrame(fs[0], version, more + tail);
      UnpackStream(fs[1..], tail, next, version);
    }
  }

  lemma EmptyUnpacks()
    ensures UnpackEnd([]) == 0
  {
  }

  /** Whole frames are decoded one by one, to the end. */
  lemma {:induction false} DecodeStream(fs: seq<Frame>, version: byte)
    requires AllDecodable(fs, version)
    ensures DecodeBatch(Stream(fs, version), version) == Batch(BatchOf(fs, version), |Stream(fs, version)|, Finished)
    decreases |fs|
  {
    hide FrameBytes, DecodeBatch, AsDelivered, Decodable, Stream;
    if fs == [] {
      StreamEmpty(version);
      EmptyBatch(version);
    } else {
      StreamCons(fs, version);
      DecodeFront(fs[0], version, Stream(fs[1..], version));
      DecodeStream(fs[1..], version);
      assert forall i | 0 < i < |fs| :: fs[1..][i..] == fs[i + 1..] && fs[1..][i - 1] == fs[i];
      var first := AsDelivered(fs[0], version, |Stream(fs[1..], version)|);
      assert BatchOf(fs, version) == [first] + BatchOf(fs[1..], version);
    }
  }

  lemma EmptyBatch(version: byte)
    ensures DecodeBatch([], version) == Batch([], 0, Finished)
  {
  }

  lemma AsDeliveredMatches(f: Frame, version: byte, after: nat)
    ensures Matches(AsDelivered(f, version, after), f, version)
  {
    hide FrameBytes;
  }

  /** Frames at the front of a batch are decoded whatever follows them, and then what follows decides. */
  lemma {:induction false} DecodeStreamThen(fs: seq<Frame>, rest: bytes, version: byte)
    requires AllDecodable(fs, version)
    ensures var b, t := DecodeBatch(Stream(fs, version) + rest, version), DecodeBatch(rest, version);
      && b.used == |Stream(fs, version)| + t.used && b.ending == t.ending && |b.frames| == |fs| + |t.frames|
      && (forall i :: 0 <= i < |fs| ==> Matches(b.frames[i], fs[i], version))
    decreases |fs|
  {
    hide FrameBytes, DecodeBatch, Decodable, Stream, Matches, AsDelivered;
    if fs == [] {
      StreamEmpty(version);
      assert [] + rest == rest;
    } else {
      StreamCons(fs, version);
      var first, more := FrameBytes(fs[0], version), Stream(fs[1..], version);
      assert first + more + rest == first + (more + rest);
      DecodeFront(fs[0], version, more + rest);
      DecodeStreamThen(fs[1..], rest, version);
      AsDeliveredMatches(fs[0], version, |more + rest|);
      var b, c := DecodeBatch(first + (more + rest), version), DecodeBatch(more + rest, version);
      forall i | 0 <= i < |fs|
        ensures Matches(b.frames[i], fs[i], version)
      {
        assert i > 0 ==> b.frames[i] == c.frames[i - 1] && fs[1..][i - 1] == fs[i];
      }
    }
  }

  /**
   * Frames in front of bytes that do not decode: the frames are decoded, in order, and nothing else is. A frame that
   * is refused ends the batch with an error, one that panics ends it so, and an incomplete one is left for later.
   */
  lemma BatchEndsAt(fs: seq<Frame>, bad: bytes, version: byte)
    requires AllDecodable(fs, version) && bad != [] && !DecodeFrameOf(bad, version).Got?
    ensures var b := DecodeBatch(Stream(fs, version) + bad, version);
      && b.used == |Stream(fs, version)| && |b.frames| == |fs|
      && (forall i :: 0 <= i < |fs| ==> Matches(b.frames[i], fs[i], version))
      && (b.ending.Refused? <==> DecodeFrameOf(bad, version).Bad?)
      && (b.ending.Crashed? <==> DecodeFrameOf(bad, version).Panic?)
      && (b.ending.Finished? <==> DecodeFrameOf(bad, version).More?)
  {
    hide FrameBytes, Stream, DecodeFrameOf, Decodable, Matches;
    DecodeStreamThen(fs, bad, version);
  }

  /** The bytes in front of the cut are these frames and then bytes that do not decode. */
  predicate StopsAt(buffered: bytes, fs: seq<Frame>, bad: bytes, version: byte) {
    && AllDecodable(fs, version) && bad != [] && !DecodeFrameOf(bad, version).Got?
    && buffered[..UnpackEnd(buffered)] == Stream(fs, version) + bad
  }

  /**
   * What the server does with them. A frame that is refused closes the connection: what was decoded in front of it
   * is queued and never processed. One that panics takes the server down. The rest of an incomplete one stays.
   */
  method DataInStops(server: Server, ghost fs: seq<Frame>, ghost bad: bytes) returns (err: bool)
    requires server.Valid() && !server.conn.closed && !server.crashed
    requires StopsAt(server.conn.inbound.Contents(), fs, bad, server.version)
    modifies server, server.conn, server.conn.inbound, server.conn.outbound
    ensures server.Valid()
    ensures err <==> DecodeFrameOf(bad, server.version).Bad?
    ensures server.conn.closed <==> DecodeFrameOf(bad, server.version).Bad?
    ensures server.crashed <==> DecodeFrameOf(bad, server.version).Panic?
    ensures var done := if DecodeFrameOf(bad, server.version).More? then server.processed else server.queued;
      var before := if DecodeFrameOf(bad, server.version).More? then old(server.processed + server.queued)
                    else old(server.queued);
      && |done| == |before| + |fs| && done[..|before|] == before
      && (forall i :: 0 <= i < |fs| ==> Matches(done[|before| + i], fs[i], server.version))
    ensures DecodeFrameOf(bad, server.version).More? ==> server.queued == []
    ensures !DecodeFrameOf(bad, server.version).More? ==> server.processed == old(server.processed)
    ensures server.conn.inbound.Contents() == match DecodeFrameOf(bad, server.version)
      case More => old(server.conn.inbound.Contents())[|Stream(fs, server.version)|..]
      case Panic => old(server.conn.inbound.Contents())
      case _ => []
  {
    hide FrameBytes, Stream, DecodeFrameOf, Decodable, DecodeBatch, UnpackEnd, Matches, Buffer.Contents;
    BatchEndsAt(fs, bad, server.version);
    ghost var s := server.View();
    ProcessIs(s, server.version);
    err := server.DataIn();
  }

  /** Any prefix of a stream is some whole frames and the beginning of the next one. */
  lemma {:induction false} PrefixOfStream(fs: seq<Frame>, prefix: bytes, version: byte) returns (j: nat, tail: bytes)
    requires prefix <= Stream(fs, version)
    ensures j <= |fs| && prefix == Stream(fs[..j], version) + tail && CutOff(tail, fs[j..], version)
    decreases |fs|
  {
    hide FrameBytes;
    if fs == [] {
      return 0, [];
    }
    StreamCons(fs, version);
    var first := FrameBytes(fs[0], version);
    if |prefix| < |first| {
      assert prefix == Stream(fs[..0], version) + prefix;
      assert prefix == first[..|prefix|];
      return 0, prefix;
    }
    var rest := prefix[|first|..];
    var k, t := PrefixOfStream(fs[1..], rest, version);
    OneFrameMore(fs, k, version);
    assert prefix == first + rest;
    return k + 1, t;
  }

  lemma OneFrameMore(fs: seq<Frame>, k: nat, version: byte)
    requires k < |fs|
    ensures Stream(fs[..k + 1], version) == FrameBytes(fs[0], version) + Stream(fs[1..][..k], version)
    ensures fs[1..][k..] == fs[k + 1..]
  {
    hide FrameBytes;
    assert fs[..k + 1][1..] == fs[1..][..k];
    StreamCons(fs[..k + 1], version);
  }

  // ------------------------------------------------------------ the read path

  function ReceiveAll(chunks: seq<bytes>, version: byte): In {
    if chunks == [] then In([], [], [], Open)
    else
      var last := |chunks| - 1;
      Receive(ReceiveAll(chunks[..last], version), chunks[last], version)
  }

  /** The frames of these batches, the first of fs, are processed; what is buffered has arrived of the next one. */
  predicate UpTo(s: In, fs: seq<Frame>, batches: seq<seq<Frame>>, version: byte) {
    && s.status == Open
    && s.queued == []
    && s.processed == BatchesOf(batches, version)
    && Join(batches) <= fs
    && CutOff(s.buffered, fs[|Join(batches)|..], version)
  }

  lemma TailIsBounded(tail: bytes, fs: seq<Frame>, version: byte)
    requires AllDecodable(fs, version) && CutOff(tail, fs, version)
    ensures |tail| <= MAX_REMAINING + 4
  {
    hide FrameBytes, Decodable;
    if fs != [] {
      FrameIsBounded(fs[0], version);
    }
  }

  /** The 5 MiB limit leaves room for any tail and any chunk. */
  lemma NeverOverflows(tail: bytes, chunk: bytes, fs: seq<Frame>, version: byte)
    requires AllDecodable(fs, version) && CutOff(tail, fs, version) && |chunk| <= 32_768
    ensures |tail| + |chunk| <= 5_242_880
  {
    TailIsBounded(tail, fs, version);
  }

  /** One chunk more: the frames that are now whole make up one batch. */
  lemma ChunkIsDelivered(s: In, chunk: bytes, fs: seq<Frame>, done: seq<seq<Frame>>, version: byte)
    returns (batch: seq<Frame>)
    requires AllDecodable(fs, version) && UpTo(s, fs, done, version)
    requires 0 < |chunk| <= 32_768 && s.buffered + chunk <= Stream(fs[|Join(done)|..], version)
    ensures var t := Receive(s, chunk, version);
      UpTo(t, fs, done + [batch], version) && s.buffered + chunk == Stream(batch, version) + t.buffered
  {
    hide FrameBytes, UnpackEnd, DecodeBatch, BatchOf, CutOff, Decodable, Stream;
    var j := |Join(done)|;
    var rest, all := fs[j..], s.buffered + chunk;
    NeverOverflows(s.buffered, chunk, rest, version);
    var n, tail := PrefixOfStream(rest, all, version);
    batch := rest[..n];
    var batches := done + [batch];
    assert batches[..|done|] == done;
    assert Join(batches) == Join(done) + batch == fs[..j + n] && rest[n..] == fs[j + n..];
    UnpackStream(batch, tail, fs[j + n..], version);
    DecodeStream(batch, version);
    OneBatch(s, all, batch, tail, version);
  }

  /** What processing whole frames and the beginning of another does. */
  lemma OneBatch(s: In, all: bytes, batch: seq<Frame>, tail: bytes, version: byte)
    requires all == Stream(batch, version) + tail && UnpackEnd(all) == |Stream(batch, version)|
    requires DecodeBatch(Stream(batch, version), version)
      == Batch(BatchOf(batch, version), |Stream(batch, version)|, Finished)
    requires s.status == Open && s.queued == []
    ensures Process(s.(buffered := all), version)
      == In(tail, [], s.processed + BatchOf(batch, version), Open)
  {
    hide UnpackEnd, DecodeBatch, Stream, BatchOf;
    var cut := Stream(batch, version);
    assert all[..|cut|] == cut && all[|cut|..] == tail;
    if cut == [] {
      EmptyStream(batch, version);
      assert all == tail;
      assert s.processed + [] == s.processed;
    } else {
      assert [] + BatchOf(batch, version) == BatchOf(batch, version);
    }
  }

  lemma EmptyStream(batch: seq<Frame>, version: byte)
    requires Stream(batch, version) == []
    ensures batch == []
  {
    if batch != [] {
      StreamCons(batch, version);
      NotEmpty(batch[0], version);
    }
  }

  lemma NotEmpty(f: Frame, version: byte)
    ensures |FrameBytes(f, version)| > 0
  {
  }

  /** The batches are those that the chunks complete: after c chunks, c batches and a proper prefix have arrived. */
  ghost predicate Completes(chunks: seq<bytes>, batches: seq<seq<Frame>>, version: byte) {
    && |batches| == |chunks|
    && forall c :: 0 <= c <= |chunks| ==>
        Flatten(chunks[..c]) == Stream(Join(batches[..c]), version) + ReceiveAll(chunks[..c], version).buffered
  }

  /**
   * Whatever the chunks of at most 32 KiB a stream of frames arrives in, the connection stays open; the frames
   * processed are exactly the ones that have arrived whole, in order, each with the frame size that its batch gives
   * it; and the bytes still buffered are a proper prefix of the next one.
   */
  lemma {:induction false} StreamIsDelivered(fs: seq<Frame>, chunks: seq<bytes>, version: byte)
    returns (batches: seq<seq<Frame>>)
    requires AllDecodable(fs, version)
    requires forall i | 0 <= i < |chunks| :: 0 < |chunks[i]| <= 32_768
    requires Flatten(chunks) <= Stream(fs, version)
    ensures UpTo(ReceiveAll(chunks, version), fs, batches, version)
    ensures Completes(chunks, batches, version)
    decreases |chunks|
  {
    hide FrameBytes, Receive, UpTo, Stream, AllDecodable;
    if chunks == [] {
      NothingReceived(fs, version);
      return [];
    }
    var last := |chunks| - 1;
    var before, chunk := Flatten(chunks[..last]), chunks[last];
    assert Flatten(chunks) == before + chunk;
    assert before <= Stream(fs, version);
    var done := StreamIsDelivered(fs, chunks[..last], version);
    assert chunks[..last][..last] == chunks[..last] && done[..last] == done;
    var batch := OneMoreChunk(ReceiveAll(chunks[..last], version), before, chunk, fs, done, version);
    batches := done + [batch];
    StillCompletes(chunks, done, batch, version);
  }

  lemma StillCompletes(chunks: seq<bytes>, done: seq<seq<Frame>>, batch: seq<Frame>, version: byte)
    requires chunks != [] && Completes(chunks[..|chunks| - 1], done, version)
    requires Flatten(chunks) == Stream(Join(done + [batch]), version) + ReceiveAll(chunks, version).buffered
    ensures Completes(chunks, done + [batch], version)
  {
    hide FrameBytes, Receive, Stream;
    var last, batches := |chunks| - 1, done + [batch];
    forall c | 0 <= c <= |chunks|
      ensures Flatten(chunks[..c]) == Stream(Join(batches[..c]), version) + ReceiveAll(chunks[..c], version).buffered
    {
      if c <= last {
        assert chunks[..last][..c] == chunks[..c] && batches[..c] == done[..c];
      } else {
        assert chunks[..c] == chunks && batches[..c] == batches;
      }
    }
  }

  /** The step of the induction: what came before is the frames so far and the buffered bytes. */
  lemma OneMoreChunk(s: In, before: bytes, chunk: bytes, fs: seq<Frame>, done: seq<seq<Frame>>, version: byte)
    returns (batch: seq<Frame>)
    requires AllDecodable(fs, version) && UpTo(s, fs, done, version)
    requires before == Stream(Join(done), version) + s.buffered
    requires 0 < |chunk| <= 32_768 && before + chunk <= Stream(fs, version)
    ensures var t := Receive(s, chunk, version);
      UpTo(t, fs, done + [batch], version)
      && before + chunk == Stream(Join(done + [batch]), version) + t.buffered
  {
    hide FrameBytes, Receive, CutOff, Decodable, AllDecodable, Stream, BatchesOf;
    var past := Join(done);
    var sent := Stream(past, version);
    assert fs == past + fs[|past|..];
    StreamAppend(past, fs[|past|..], version);
    Regroup(sent, s.buffered, chunk);
    PrefixAfter(sent, s.buffered + chunk, Stream(fs[|past|..], version));
    batch := ChunkIsDelivered(s, chunk, fs, done, version);
    assert (done + [batch])[..|done|] == done;
    StreamAppend(past, batch, version);
    Regroup(sent, Stream(batch, version), Receive(s, chunk, version).buffered);
  }

  lemma Regroup(a: bytes, b: bytes, c: bytes)
    ensures a + b + c == a + (b + c)
  {
  }

  lemma PrefixAfter(done: bytes, a: bytes, b: bytes)
    requires done + a <= done + b
    ensures a <= b
  {
    assert (done + a)[|done|..] == a;
    assert (done + b)[|done|..] == b;
    assert (done + b)[..|done + a|][|done|..] == b[..|a|];
  }

  lemma NothingReceived(fs: seq<Frame>, version: byte)
    ensures UpTo(ReceiveAll([], version), fs, [], version)
    ensures Completes([], [], version)
  {
    if fs != [] {
      NotEmpty(fs[0], version);
    }
    assert Join<Frame>([]) == [];
  }

  /** d is f, whatever frame size is recorded in it. */
  predicate Matches(d: Delivered, f: Frame, version: byte) {
    var r := Received(f, version, 0);
    d.packet == r.packet && d.size == r.size && d.framer.(frameSize := 0) == r.framer.(frameSize := 0)
  }

  /** Batch after batch, the frames delivered are the frames of the batches. */
  lemma {:induction false} BatchesMatch(batches: seq<seq<Frame>>, version: byte)
    ensures forall i :: 0 <= i < |Join(batches)| ==> Matches(BatchesOf(batches, version)[i], Join(batches)[i], version)
    decreases |batches|
  {
    hide FrameBytes, Stream;
    if batches != [] {
      BatchesMatch(batches[..|batches| - 1], version);
    }
  }

  /** Once everything has arrived, everything is processed and nothing is left over. */
  lemma WholeStreamIsDelivered(fs: seq<Frame>, chunks: seq<bytes>, version: byte)
    requires AllDecodable(fs, version)
    requires forall i | 0 <= i < |chunks| :: 0 < |chunks[i]| <= 32_768
    requires Flatten(chunks) == Stream(fs, version)
    ensures var s := ReceiveAll(chunks, version);
      && s.status == Open && s.buffered == [] && s.queued == []
      && |s.processed| == |fs| && forall i :: 0 <= i < |fs| ==> Matches(s.processed[i], fs[i], version)
  {
    hide FrameBytes, Matches, ReceiveAll, Decodable, Stream, BatchesOf;
    var batches := StreamIsDelivered(fs, chunks, version);
    var s, done := ReceiveAll(chunks, version), Join(batches);
    BatchesMatch(batches, version);
    assert chunks[..|chunks|] == chunks && batches[..|chunks|] == batches;
    assert fs == done + fs[|done|..];
    StreamAppend(done, fs[|done|..], version);
    AllArrived(Stream(done, version), s.buffered, fs[|done|..], version);
    assert done == fs;
  }

  lemma AllArrived(sent: bytes, tail: bytes, rest: seq<Frame>, version: byte)
    requires sent + tail == sent + Stream(rest, version) && CutOff(tail, rest, version)
    ensures rest == [] && tail == []
  {
    hide FrameBytes;
    assert (sent + tail)[|sent|..] == tail;
    assert (sent + Stream(rest, version))[|sent|..] == Stream(rest, version);
    if rest != [] {
      StreamCons(rest, version);
      assert false;
    }
  }

  /**
   * The cut and the decoder agree on the size of the first frame of data except when its length has no last digit:
   * then the decoder counts one byte more.
   */
  lemma SizesAgree(data: bytes, version: byte)
    requires data != [] && data[0] / 16 != PING && data[0] / 16 != PONG && DecodeFrameOf(data, version).Got?
    ensures var l := ReadLength(data[1..], 0);
      l.Some? && (DecodeFrameOf(data, version).size == 1 + l.value.digits + l.value.value <==> !NoLastDigit(data[1..]))
  {
    hide ReadLength, NoLastDigit, ParseBody;
  }

  /**
   * A RECVACK whose length 12 is written with four digits that all ask for another: the cut takes 17 bytes, the
   * decoder 18.
   */
  lemma SizesCanDiffer(version: byte)
    ensures var data: bytes := [RECVACK * 16, 140, 128, 128, 128] + seq(13, _ => 0);
      && ReadLength(data[1..], 0) == Some(Length(12, 4)) && UnpackEnd(data) == 17
      && DecodeFrameOf(data, version).Got? && DecodeFrameOf(data, version).size == 18
  {
    var data: bytes := [RECVACK * 16, 140, 128, 128, 128] + seq(13, _ => 0);
    var s := data[1..];
    assert s[0] == 140 && s[1..][0] == 128 && s[1..][1..][0] == 128 && s[1..][1..][1..][0] == 128;
    assert ReadLength(s[1..][1..][1..], 3) == Some(Length(0, 1));
    assert ReadLength(s[1..][1..], 2) == Some(Length(0, 2));
    assert ReadLength(s[1..], 1) == Some(Length(0, 3));
    assert ReadLength(s, 0) == Some(Length(12, 4));
  }
}
