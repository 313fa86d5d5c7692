/** Big-endian integers over byte sequences. */
module Bytes {

  type byte = x: int | 0 <= x < 256
  type bytes = seq<byte>

  const TWO16 := 0x1_0000
  const TWO31 := 0x8000_0000
  const TWO32 := 0x1_0000_0000
  const TWO63 := 0x8000_0000_0000_0000
  const TWO64 := 0x1_0000_0000_0000_0000

  type uint32 = x: int | 0 <= x < TWO32

  // Dafny's division by a positive constant rounds down, as Go's >> does on negative integers.

  /** The low 16 bits of v, most significant byte first. */
  function PutU16(v: int): (b: bytes)
    ensures |b| == 2
  {
    [v / 256 % 256, v % 256]
  }

  function PutU32(v: int): (b: bytes)
    ensures |b| == 4
  {
    [v / 0x100_0000 % 256, v / TWO16 % 256, v / 256 % 256, v % 256]
  }

  function PutU64(v: int): (b: bytes)
    ensures |b| == 8
  {
    PutU32(v / TWO32) + PutU32(v)
  }

  function Word16(high: byte, low: byte): (v: int)
    ensures 0 <= v < TWO16
  {
    var h: int, l: int := high, low;
    h * 256 + l
  }

  function Word32(b3: byte, b2: byte, b1: byte, b0: byte): (v: int)
    ensures 0 <= v < TWO32
  {
    Word16(b3, b2) * TWO16 + Word16(b1, b0)
  }

  function GetU16(b: bytes): (v: int)
    requires |b| == 2
    ensures 0 <= v < TWO16
  {
    Word16(b[0], b[1])
  }

  function GetU32(b: bytes): (v: int)
    requires |b| == 4
    ensures 0 <= v < TWO32
  {
    Word32(b[0], b[1], b[2], b[3])
  }

  function GetU64(b: bytes): (v: int)
    requires |b| == 8
    ensures 0 <= v < TWO64
  {
    Word32(b[0], b[1], b[2], b[3]) * TWO32 + Word32(b[4], b[5], b[6], b[7])
  }

  /** Reads an unsigned value of the given modulus as two's complement. */
  function Signed(v: int, modulus: int): int {
    if v < modulus / 2 then v else v - modulus
  }

  lemma WordOfBytes(v: int)
    ensures Word16(v / 256 % 256, v % 256) == v % TWO16
  {
    ModSplit(v, 256, 256);
  }

  lemma GetPutU16(v: int)
    ensures GetU16(PutU16(v)) == v % TWO16
  {
    WordOfBytes(v);
  }

  lemma GetPutU32(v: int)
    ensures GetU32(PutU32(v)) == v % TWO32
  {
    var high := v / TWO16;
    assert v / 0x100_0000 == high / 256;
    WordOfBytes(high);
    WordOfBytes(v);
    assert GetU32(PutU32(v)) == (high % TWO16) * TWO16 + v % TWO16;
    ModSplit(v, TWO16, TWO16);
  }

  lemma GetPutU64(v: int)
    ensures GetU64(PutU64(v)) == v % TWO64
  {
    GetPutU32(v / TWO32);
    GetPutU32(v);
    ModSplit(v, TWO32, TWO32);
  }

  /** Splits a remainder into the digits of a two-digit number. */
  lemma ModSplit(v: int, low: int, high: int)
    requires 0 < low && 0 < high
    ensures 0 < low * high
    ensures v % (low * high) == (v / low % high) * low + v % low
  {
    var q := v / low;
    var e, d := q / high, q % high;
    assert v == q * low + v % low && q == e * high + d;
    TwoDigits(q, low, high, e, d);
    DigitBound(d, low, high);
    RemainderIsUnique(v, low * high, e, d * low + v % low);
  }

  lemma TwoDigits(q: int, low: int, high: int, e: int, d: int)
    requires q == e * high + d
    ensures q * low == (low * high) * e + d * low
  {
    Distribute(e * high, d, low);
    Associate(e, high, low);
  }

  lemma DigitBound(d: int, low: int, high: int)
    requires 0 <= d < high && 0 < low
    ensures 0 <= d * low <= low * high - low
  {
    Distribute(d, high - d - 1, low);
    ProductIsNat(d, low);
    ProductIsNat(high - d - 1, low);
    Distribute(high - 1, 1, low);
    assert high * low == low * high;
  }

  lemma Distribute(a: int, b: int, c: int)
    ensures (a + b) * c == a * c + b * c
  {
  }

  lemma Associate(a: int, b: int, c: int)
    ensures (a * b) * c == (c * b) * a
  {
  }

  lemma ProductIsNat(a: int, b: int)
    requires 0 <= a && 0 <= b
    ensures 0 <= a * b
  {
  }

  lemma RemainderIsUnique(v: int, m: int, q: int, r: int)
    requires 0 < m && 0 <= r < m && v == m * q + r
    ensures v % m == r && v / m == q
  {
    var d := v / m - q;
    assert m * d == r - v % m;
    MultipleOutsideRange(m, d);
  }

  lemma MultipleOutsideRange(m: int, d: int)
    requires 0 < m
    ensures d >= 1 ==> m * d >= m
    ensures d <= -1 ==> m * d <= -m
  {
  }

  /** A signed value that fits its width survives the round trip through its unsigned bytes. */
  lemma SignedRoundTrip(v: int, modulus: int)
    requires modulus == TWO16 || modulus == TWO32 || modulus == TWO64
    ensures Signed(v % modulus, modulus) == v <==> -(modulus / 2) <= v < modulus / 2
  {
  }
}
