/** One TCP connection between its socket and its two buffers (conn.go, reactor_sub.go). */
module Connections {
  import opened Bytes
  import opened Wrappers
  import opened PowersOfTwo
  import opened RingBuffers

  const MAX_READ_BUFFER_SIZE := 5 * 1024 * 1024

  /** What the operating system answers to a write of some bytes. */
  datatype WriteResult = Wrote(n: nat) | WriteAgain | WriteFailed

  /** What it answers to a read: data, none at the end of the stream. */
  datatype ReadResult = Data(data: bytes) | ReadAgain | ReadFailed

  datatype Error = NoError | Again | Other

  // ------------------------------------------------------------ the outgoing stream as a value

  /** All that was ever handed to the connection to send, what the socket took, and what is waiting. */
  datatype Out = Out(written: bytes, sent: bytes, waiting: bytes, closed: bool)

  datatype OutStep = Write(data: bytes) | Flush(result: WriteResult)

  predicate Possible(s: Out, step: OutStep) {
    step.Flush? && step.result.Wrote? ==> step.result.n <= |s.waiting|
  }

  /** A closed connection is no longer known to the reactor, so nothing is flushed. */
  function Next(s: Out, step: OutStep): Out
    requires Possible(s, step)
  {
    match step
    case Write(data) => s.(written := s.written + data, waiting := s.waiting + data)
    case Flush(result) =>
      if s.closed || s.waiting == [] then s
      else
        match result
        case Wrote(n) => s.(sent := s.sent + s.waiting[..n], waiting := s.waiting[n..])
        case WriteAgain => s
        case WriteFailed => s.(waiting := [], closed := true)
  }

  /** A run: every step is possible in the state it starts from. */
  ghost predicate IsRun(states: seq<Out>, steps: seq<OutStep>) {
    && |states| == |steps| + 1
    && states[0] == Out([], [], [], false)
    && forall i | 0 <= i < |steps| :: Possible(states[i], steps[i]) && states[i + 1] == Next(states[i], steps[i])
  }

  /**
   * Over any run of writes and of flushes that take any part, would block or fail: while the connection is open,
   * the bytes sent followed by the bytes waiting are all bytes ever written, in order. Once it is closed, the
   * bytes sent are still a prefix of them, and no more are sent.
   */
  lemma {:induction false} NothingLostOrReordered(states: seq<Out>, steps: seq<OutStep>, i: nat)
    requires IsRun(states, steps) && i < |states|
    ensures !states[i].closed ==> states[i].sent + states[i].waiting == states[i].written
    ensures states[i].sent <= states[i].written
    ensures i > 0 && states[i - 1].closed ==> states[i].closed && states[i].sent == states[i - 1].sent
  {
    if i > 0 {
      NothingLostOrReordered(states, steps, i - 1);
      var s, step := states[i - 1], steps[i - 1];
      assert states[i] == Next(s, step);
      match step {
        case Write(data) =>
          assert !s.closed ==> s.sent + (s.waiting + data) == s.written + data;
        case Flush(result) =>
          if !s.closed && result.Wrote? {
            assert s.waiting[..result.n] + s.waiting[result.n..] == s.waiting;
          }
      }
    }
  }

  /**
   * A connection is closed by a failed write of waiting bytes and by nothing else; a write that would block changes
   * nothing; otherwise the bytes the socket took, and no others, are sent.
   */
  lemma OnlyFailedWritesClose(states: seq<Out>, steps: seq<OutStep>, i: nat)
    requires IsRun(states, steps) && 0 < i < |states|
    ensures var s, step, s' := states[i - 1], steps[i - 1], states[i];
      && (s'.closed <==> s.closed || (step == Flush(WriteFailed) && s.waiting != []))
      && (step == Flush(WriteAgain) ==> s' == s)
      && (!s.closed ==>
          s'.sent == s.sent + if step.Flush? && step.result.Wrote? then s.waiting[..step.result.n] else [])
      && (!s'.closed ==> |s'.waiting| == |s'.written| - |s'.sent|)
  {
    NothingLostOrReordered(states, steps, i);
    var s, step := states[i - 1], steps[i - 1];
    assert states[i] == Next(s, step);
    assert s.sent + [] == s.sent;
    if !states[i].closed {
      assert |states[i].sent + states[i].waiting| == |states[i].written|;
    }
  }

  // ------------------------------------------------------------ the connection

  class Conn {
    const inbound: Buffer
    const outbound: Buffer
    var closed: bool
    var watchingWrites: bool
    ghost var written: bytes
    ghost var sent: bytes

    ghost predicate Valid()
      reads this, inbound, outbound
    {
      && inbound != outbound
      && inbound.buf != outbound.buf
      && inbound.Valid()
      && outbound.Valid()
    }

    ghost function Repr(): set<object>
      reads this, inbound, outbound
    {
      {this, inbound, outbound, inbound.buf, outbound.buf}
    }

    ghost function Outgoing(): Out
      requires Valid()
      reads this, inbound, outbound, outbound.buf
    {
      Out(written, sent, outbound.Contents(), closed)
    }

    /** While bytes wait, the connection asks for write events. */
    ghost predicate Armed()
      requires Valid()
      reads this, inbound, outbound, outbound.buf
    {
      outbound.Contents() != [] ==> watchingWrites
    }

    constructor ()
      ensures Valid() && fresh(Repr()) && Armed()
      ensures Outgoing() == Out([], [], [], false) && inbound.Contents() == []
    {
      inbound := new Buffer(0);
      outbound := new Buffer(0);
      closed, watchingWrites := false, false;
      written, sent := [], [];
    }

    // ---------------------------------------------------------- outgoing

    method WriteToOutboundBuffer(b: bytes) returns (n: nat)
      requires Valid() && |b| <= TOP
      modifies this, outbound, outbound.buf
      ensures Valid() && fresh(Repr() - old(Repr()))
      ensures n == |b| && Outgoing() == Next(old(Outgoing()), Write(b))
      ensures inbound.Contents() == old(inbound.Contents())
      ensures closed == old(closed) && watchingWrites == old(watchingWrites)
    {
      if |b| == 0 {
        assert b == [];
        return 0;
      }
      var panicked;
      n, panicked := outbound.Write(b);
      written := written + b;
    }

    method WakeWrite()
      requires Valid()
      modifies this`watchingWrites
      ensures watchingWrites && Valid() && Outgoing() == old(Outgoing())
    {
      watchingWrites := true;
    }

    method Close()
      requires Valid()
      modifies this, inbound, outbound
      ensures Valid() && Repr() == old(Repr()) && closed
      ensures Outgoing() == old(Outgoing()).(closed := true,
        waiting := if old(closed) then old(Outgoing()).waiting else [])
      ensures inbound.Contents() == if old(closed) then old(inbound.Contents()) else []
    {
      if closed {
        return;
      }
      closed := true;
      inbound.Reset();
      outbound.Reset();
    }

    /** The socket takes a prefix of what it is given, or nothing. */
    method FdWrite(p: bytes, result: WriteResult) returns (n: int, err: Error)
      requires result.Wrote? ==> result.n <= |p|
      modifies this`sent
      ensures n == (if result.Wrote? then result.n else -1)
      ensures err == match result case Wrote(_) => NoError case WriteAgain => Again case WriteFailed => Other
      ensures sent == old(sent) + (if result.Wrote? then p[..result.n] else [])
    {
      match result {
        case Wrote(k) =>
          sent := sent + p[..k];
          return k, NoError;
        case WriteAgain => return -1, Again;
        case WriteFailed => return -1, Other;
      }
    }

    method WriteDirect(head: bytes, tail: bytes, result: WriteResult) returns (n: int, err: Error)
      requires head + tail != []
      requires result.Wrote? ==> result.n <= |head + tail|
      modifies this`sent
      ensures n == (if result.Wrote? then result.n else -1)
      ensures err == match result case Wrote(_) => NoError case WriteAgain => Again case WriteFailed => Other
      ensures sent == old(sent) + (if result.Wrote? then (head + tail)[..result.n] else [])
    {
      n, err := 0, NoError;
      if |head| > 0 && |tail| > 0 {
        n, err := FdWrite(head + tail, result);
      } else {
        if |head| > 0 {
          assert head + tail == head;
          n, err := FdWrite(head, result);
        } else if |tail| > 0 {
          assert head + tail == tail;
          n, err := FdWrite(tail, result);
        }
      }
    }

    /** Write interest is given up when nothing waits, and only then; a failed write closes the connection. */
    method Flush(result: WriteResult)
      requires Valid() && !closed
      requires result.Wrote? ==> result.n <= |outbound.Contents()|
      modifies this, inbound, outbound
      ensures Valid() && Repr() == old(Repr())
      ensures Outgoing() == Next(old(Outgoing()), OutStep.Flush(result))
      ensures closed <==> result.WriteFailed? && old(outbound.Contents()) != []
      ensures result.WriteAgain? ==> outbound.Contents() == old(outbound.Contents()) && sent == old(sent)
      ensures result.Wrote? ==>
        && outbound.Contents() == old(outbound.Contents())[result.n..]
        && sent == old(sent) + old(outbound.Contents())[..result.n]
      ensures !closed ==> watchingWrites == (old(watchingWrites) && outbound.Contents() != [])
      ensures !closed ==> inbound.Contents() == old(inbound.Contents())
      ensures old(Armed()) ==> Armed()
    {
      if outbound.isEmpty {
        HeldLength(outbound.buf[..], outbound.r, outbound.w, true);
        watchingWrites := false;
        return;
      }
      HeldLength(outbound.buf[..], outbound.r, outbound.w, false);
      var head, tail := outbound.Peek(-1);
      var n, err := WriteDirect(head, tail, result);
      var _ := outbound.Discard(n);
      match err {
        case NoError =>
        case Again => return;
        case Other =>
          Close();
          return;
      }
      HeldLength(outbound.buf[..], outbound.r, outbound.w, outbound.isEmpty);
      if outbound.isEmpty {
        watchingWrites := false;
      }
    }

    // ---------------------------------------------------------- incoming

    method OverflowForInbound(n: nat) returns (over: bool)
      requires Valid()
      ensures over <==> |inbound.Contents()| + n > 5_242_880
    {
      var held := inbound.Buffered();
      return MAX_READ_BUFFER_SIZE > 0 && held + n > MAX_READ_BUFFER_SIZE;
    }

    /** Data that would overflow the buffer is dropped with an error. */
    method ReadToInboundBuffer(result: ReadResult) returns (n: nat, err: Error)
      requires Valid()
      requires result.Data? ==> |result.data| <= 32_768
      modifies inbound, inbound.buf
      ensures Valid() && fresh(Repr() - old(Repr()))
      ensures outbound.Contents() == old(outbound.Contents())
      ensures
        if !result.Data? then
          n == 0 && err == (if result.ReadAgain? then Again else Other) && inbound.Contents() == old(inbound.Contents())
        else if |old(inbound.Contents())| + |result.data| > 5_242_880 && result.data != [] then
          n == 0 && err == Other && inbound.Contents() == old(inbound.Contents())
        else
          n == |result.data| && err == NoError && inbound.Contents() == old(inbound.Contents()) + result.data
    {
      match result {
        case ReadAgain => return 0, Again;
        case ReadFailed => return 0, Other;
        case Data(data) =>
          if |data| == 0 {
            return 0, NoError;
          }
          var over := OverflowForInbound(|data|);
          if over {
            return 0, Other;
          }
          var panicked;
          n, panicked := inbound.Write(data);
          return n, NoError;
      }
    }

    /** A copy of the first n bytes, of all of them when n is not positive; asking for more than there are fails. */
    method Peek(n: int) returns (r: Outcome<bytes>)
      requires Valid()
      ensures r ==
        if n > |inbound.Contents()| then Err
        else Ok(if n <= 0 then inbound.Contents() else inbound.Contents()[..n])
    {
      var count := n;
      var totalLen := inbound.Buffered();
      if count > totalLen {
        return Err;
      } else if count <= 0 {
        count := totalLen;
      }
      HeldLength(inbound.buf[..], inbound.r, inbound.w, inbound.isEmpty);
      if inbound.isEmpty {
        return Ok([]);
      }
      var head, tail := inbound.Peek(count);
      var cache: bytes := [];
      cache := cache + head;
      cache := cache + tail;
      assert cache == head + tail == inbound.Contents()[..count];
      assert n <= 0 ==> cache == inbound.Contents();
      return Ok(cache);
    }

    method Discard(n: int) returns (discarded: nat)
      requires Valid()
      modifies inbound
      ensures Valid() && Repr() == old(Repr())
      ensures discarded == Min(Max(n, 0), |old(inbound.Contents())|)
      ensures inbound.Contents() == old(inbound.Contents())[discarded..]
      ensures outbound.Contents() == old(outbound.Contents())
    {
      discarded := inbound.Discard(n);
    }
  }
}
