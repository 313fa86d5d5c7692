/** The byte encoder and decoder under every packet (encoder.go, decoder.go), and the values they exchange. */
module Codec {
  import opened Bytes
  import opened Wrappers

  type int32 = x: int | -TWO31 <= x < TWO31
  type int64 = x: int | -TWO63 <= x < TWO63

  /** WriteBinary: a 16-bit length and the bytes. Longer contents lose the high bits of the length. */
  function PutString(s: bytes): (b: bytes)
    ensures |b| == 2 + |s|
  {
    PutU16(|s|) + s
  }

  /** A value read, and the bytes after it. */
  datatype Read<+T> = Read(value: T, rest: bytes)

  function TakeU8(s: bytes): Outcome<Read<byte>> {
    if |s| < 1 then Err else Ok(Read(s[0], s[1..]))
  }

  function TakeI16(s: bytes): Outcome<Read<int>> {
    if |s| < 2 then Err else Ok(Read(Signed(GetU16(s[..2]), TWO16), s[2..]))
  }

  function TakeI32(s: bytes): Outcome<Read<int32>> {
    if |s| < 4 then Err else Ok(Read(Signed(GetU32(s[..4]), TWO32), s[4..]))
  }

  function TakeU32(s: bytes): Outcome<Read<uint32>> {
    var r :- TakeI32(s);
    Ok(Read(r.value % TWO32, r.rest))
  }

  function TakeI64(s: bytes): Outcome<Read<int64>> {
    if |s| < 8 then Err else Ok(Read(Signed(GetU64(s[..8]), TWO64), s[8..]))
  }

  /** Binary: the length is signed, and a negative one passes the bounds check and panics in the slice. */
  function TakeString(s: bytes): Outcome<Read<bytes>> {
    var size :- TakeI16(s);
    if size.value > |size.rest| then Err
    else if size.value < 0 then Panic
    else Ok(Read(size.rest[..size.value], size.rest[size.value..]))
  }

  /**
   * Every writer appends its bytes. The ghost argument names what the caller will write next, so that a body
   * defined from its last field to its first can be followed field by field.
   */
  class Encoder {
    var w: bytes

    constructor ()
      ensures w == []
    {
      w := [];
    }

    method WriteUint8(b: byte, ghost rest: bytes := [])
      modifies this
      ensures w == old(w) + [b]
      ensures w + rest == old(w) + ([b] + rest)
    {
      w := w + [b];
    }

    /** WriteInt32 and WriteUint32: the low 32 bits. */
    method WriteInt32(i: int, ghost rest: bytes := [])
      modifies this
      ensures w == old(w) + PutU32(i)
      ensures w + rest == old(w) + (PutU32(i) + rest)
    {
      w := w + PutU32(i);
    }

    method WriteInt64(i: int, ghost rest: bytes := [])
      modifies this
      ensures w == old(w) + PutU64(i)
      ensures w + rest == old(w) + (PutU64(i) + rest)
    {
      w := w + PutU64(i);
    }

    method WriteInt16(i: int)
      modifies this
      ensures w == old(w) + PutU16(i)
    {
      w := w + PutU16(i);
    }

    method WriteBytes(b: bytes, ghost rest: bytes := [])
      modifies this
      ensures w == old(w) + b
      ensures w + rest == old(w) + (b + rest)
    {
      w := w + b;
    }

    method WriteString(s: bytes, ghost rest: bytes := [])
      modifies this
      ensures w == old(w) + PutString(s)
      ensures w + rest == old(w) + (PutString(s) + rest)
    {
      if |s| == 0 {
        WriteInt16(0);
      } else {
        WriteInt16(|s|);
        WriteBytes(s);
      }
      assert w == old(w) + PutString(s);
    }
  }

  class Decoder {
    const p: bytes
    var offset: nat

    constructor (p: bytes)
      ensures this.p == p && offset == 0
    {
      this.p := p;
      offset := 0;
    }

    ghost predicate Valid()
      reads this
    {
      offset <= |p|
    }

    /** What is still to be read. */
    ghost function Rest(): bytes
      requires Valid()
      reads this
    {
      p[offset..]
    }

    /** A read that succeeds moves past what it returned; one that fails leaves the decoder valid. */
    ghost predicate Moved<T>(r: Outcome<T>, spec: Outcome<Read<T>>)
      reads this
    {
      && Valid()
      && match spec
         case Ok(v) => r == Ok(v.value) && Rest() == v.rest
         case Err => r == Err
         case Panic => r == Panic
    }

    method Uint8() returns (r: Outcome<byte>)
      requires Valid()
      modifies this
      ensures Moved(r, TakeU8(old(Rest())))
    {
      if offset + 1 > |p| {
        return Err;
      }
      var b := p[offset];
      offset := offset + 1;
      return Ok(b);
    }

    method Int16() returns (r: Outcome<int>)
      requires Valid()
      modifies this
      ensures Moved(r, TakeI16(old(Rest())))
    {
      if offset + 2 > |p| {
        return Err;
      }
      var b := p[offset..offset + 2];
      assert b == Rest()[..2];
      offset := offset + 2;
      return Ok(Signed(GetU16(b), TWO16));
    }

    method Int32() returns (r: Outcome<int32>)
      requires Valid()
      modifies this
      ensures Moved(r, TakeI32(old(Rest())))
    {
      if offset + 4 > |p| {
        return Err;
      }
      var b := p[offset..offset + 4];
      assert b == Rest()[..4];
      offset := offset + 4;
      return Ok(Signed(GetU32(b), TWO32));
    }

    method Uint32() returns (r: Outcome<uint32>)
      requires Valid()
      modifies this
      ensures Moved(r, TakeU32(old(Rest())))
    {
      var i := Int32();
      if i.Err? {
        return Err;
      }
      return Ok(i.value % TWO32);
    }

    method Int64() returns (r: Outcome<int64>)
      requires Valid()
      modifies this
      ensures Moved(r, TakeI64(old(Rest())))
    {
      if offset + 8 > |p| {
        return Err;
      }
      var b := p[offset..offset + 8];
      assert b == Rest()[..8];
      offset := offset + 8;
      return Ok(Signed(GetU64(b), TWO64));
    }

    method String() returns (r: Outcome<bytes>)
      requires Valid()
      modifies this
      ensures Moved(r, TakeString(old(Rest())))
    {
      var size := Int16();
      if size.Err? {
        return Err;
      }
      if offset + size.value > |p| {
        return Err;
      }
      if size.value < 0 {
        return Panic;
      }
      var b := p[offset..offset + size.value];
      assert b == Rest()[..size.value];
      offset := offset + size.value;
      return Ok(b);
    }

    method BinaryAll() returns (b: bytes)
      requires Valid()
      modifies this
      ensures b == old(Rest()) && Valid() && Rest() == []
    {
      b := p[offset..];
      offset := |p|;
    }
  }

  // ----------------------------------------------------------- round trips

  lemma TakePutU8(b: byte, t: bytes)
    ensures TakeU8([b] + t) == Ok(Read(b, t))
  {
    assert ([b] + t)[1..] == t;
  }

  lemma TakePutU32(v: int, t: bytes)
    ensures TakeU32(PutU32(v) + t) == Ok(Read(v % TWO32, t))
  {
    hide PutU32, GetU32;
    var s := PutU32(v) + t;
    assert s[..4] == PutU32(v) && s[4..] == t;
    GetPutU32(v);
  }

  lemma TakePutI32(v: int, t: bytes)
    requires -TWO31 <= v < TWO31
    ensures TakeI32(PutU32(v) + t) == Ok(Read(v, t))
  {
    hide PutU32, GetU32;
    var s := PutU32(v) + t;
    assert s[..4] == PutU32(v) && s[4..] == t;
    GetPutU32(v);
    SignedRoundTrip(v, TWO32);
  }

  lemma TakePutI64(v: int, t: bytes)
    requires -TWO63 <= v < TWO63
    ensures TakeI64(PutU64(v) + t) == Ok(Read(v, t))
  {
    hide PutU64, GetU64;
    var s := PutU64(v) + t;
    assert s[..8] == PutU64(v) && s[8..] == t;
    GetPutU64(v);
    SignedRoundTrip(v, TWO64);
  }

  const MAX_STRING := 32767

  /** A string comes back exactly when it is at most 32767 bytes long, whatever follows it. */
  lemma StringRoundTrip(b: bytes, t: bytes)
    ensures TakeString(PutString(b) + t) == Ok(Read(b, t)) <==> |b| <= MAX_STRING
  {
    hide PutU16, GetU16;
    var s := PutString(b) + t;
    assert s[..2] == PutU16(|b|) && s[2..] == b + t;
    GetPutU16(|b|);
    if |b| <= MAX_STRING {
      assert (b + t)[..|b|] == b && (b + t)[|b|..] == t;
    }
  }

  /** The decoder never returns a string longer than that. */
  lemma TakenStringIsShort(s: bytes)
    ensures TakeString(s).Ok? ==> |TakeString(s).value.value| <= MAX_STRING
  {
  }

  lemma TakenStringsAreShort()
    ensures forall s: bytes :: TakeString(s).Ok? ==> |TakeString(s).value.value| <= MAX_STRING
  {
    forall s: bytes
      ensures TakeString(s).Ok? ==> |TakeString(s).value.value| <= MAX_STRING
    {
      TakenStringIsShort(s);
    }
  }
}
