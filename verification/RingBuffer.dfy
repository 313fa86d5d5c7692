/** A wrap-around byte buffer that grows on demand (ring_buffer.go), refining a queue of bytes. */
module RingBuffers {
  import opened Bytes
  import opened Wrappers
  import opened PowersOfTwo

  const DEFAULT_BUFFER_SIZE := 1024
  const BUFFER_GROW_THRESHOLD := 4096

  /** The queue a buffer holds: the bytes from r up to w, around the end when w is not above r. */
  function Held(buf: bytes, r: nat, w: nat, isEmpty: bool): bytes
    requires r <= |buf| && w <= |buf|
  {
    if isEmpty then [] else if w > r then buf[r..w] else buf[r..] + buf[..w]
  }

  predicate Placed(size: nat, r: nat, w: nat, isEmpty: bool) {
    && (size == 0 ==> isEmpty)
    && (isEmpty ==> r == 0 && w == 0)
    && (size > 0 ==> r < size && w < size)
  }

  /** copy(s[at..], src). */
  function Overwrite(s: bytes, at: nat, src: bytes): (t: bytes)
    requires at <= |s|
    ensures |t| == |s|
  {
    var k := Min(|src|, |s| - at);
    s[..at] + src[..k] + s[at + k..]
  }

  /** The array after p is written at w, in two pieces when it does not fit before the end. */
  function Stored(buf: bytes, r: nat, w: nat, p: bytes): (t: bytes)
    requires w <= |buf|
    ensures |t| == |buf|
  {
    var c1 := |buf| - w;
    if w >= r && c1 < |p| then Overwrite(Overwrite(buf, w, p[..c1]), 0, p[c1..]) else Overwrite(buf, w, p)
  }

  function Wrapped(at: nat, size: nat): nat {
    if at < size then at else at - size
  }

  lemma HeldAt(buf: bytes, r: nat, w: nat, isEmpty: bool, i: nat)
    requires r < |buf| && w < |buf| && i < |Held(buf, r, w, isEmpty)|
    ensures Held(buf, r, w, isEmpty)[i] == buf[Wrapped(r + i, |buf|)]
  {
  }

  function Count(size: nat, r: nat, w: nat, isEmpty: bool): (n: int) {
    if isEmpty then 0 else if w > r then w - r else size - r + w
  }

  lemma HeldLength(buf: bytes, r: nat, w: nat, isEmpty: bool)
    requires r <= |buf| && w <= |buf|
    ensures |Held(buf, r, w, isEmpty)| == Count(|buf|, r, w, isEmpty)
  {
  }

  lemma OverwriteAt(s: bytes, at: nat, src: bytes, j: nat)
    requires at <= |s| && j < |s|
    ensures Overwrite(s, at, src)[j] == if at <= j < at + |src| then src[j - at] else s[j]
  {
  }

  lemma StoredAt(buf: bytes, r: nat, w: nat, p: bytes, j: nat)
    requires r < |buf| && w < |buf| && j < |buf| && (w >= r ==> |p| <= |buf| - w + r) && (w < r ==> |p| <= r - w)
    ensures Stored(buf, r, w, p)[j] ==
      if w <= j < w + |p| then p[j - w]
      else if w >= r && j + |buf| < w + |p| then p[j + |buf| - w]
      else buf[j]
  {
    hide Overwrite;
    var c1 := |buf| - w;
    if w >= r && c1 < |p| {
      var t := Overwrite(buf, w, p[..c1]);
      OverwriteAt(buf, w, p[..c1], j);
      OverwriteAt(t, 0, p[c1..], j);
    } else {
      OverwriteAt(buf, w, p, j);
    }
  }

  lemma TwoCopies(s: bytes, a: bytes, b: bytes)
    requires |a| + |b| <= |s|
    ensures Overwrite(s, 0, a) == a + s[|a|..]
    ensures Overwrite(Overwrite(s, 0, a), |a|, b) == a + b + s[|a| + |b|..]
  {
    var t := Overwrite(s, 0, a);
    assert t[..|a|] == a && t[|a| + |b|..] == s[|a| + |b|..];
  }

  lemma StoredByte(buf: bytes, r: nat, w: nat, c: byte)
    requires w < |buf|
    ensures Stored(buf, r, w, [c]) == buf[w := c]
  {
  }

  /** The first m bytes held, in one piece or in two. */
  lemma HeldPrefix(buf: bytes, r: nat, w: nat, m: nat)
    requires r < |buf| && w < |buf| && m <= Count(|buf|, r, w, false) == |Held(buf, r, w, false)|
    ensures Held(buf, r, w, false)[..m] == if r + m <= |buf| then buf[r..r + m] else buf[r..] + buf[..m - (|buf| - r)]
  {
  }

  /** Writing p behind what is held appends it, as long as it fits. */
  lemma StoredAppends(buf: bytes, r: nat, w: nat, isEmpty: bool, p: bytes)
    requires 0 < |buf| && Placed(|buf|, r, w, isEmpty) && 0 < |p| <= |buf| - Count(|buf|, r, w, isEmpty)
    ensures var w1 := Wrapped(w + |p|, |buf|);
      Placed(|buf|, r, w1, false) && Held(Stored(buf, r, w, p), r, w1, false) == Held(buf, r, w, isEmpty) + p
  {
    hide Stored, Held;
    var w1, t := Wrapped(w + |p|, |buf|), Stored(buf, r, w, p);
    var before, after := Held(buf, r, w, isEmpty), Held(t, r, w1, false);
    HeldLength(buf, r, w, isEmpty);
    HeldLength(t, r, w1, false);
    forall i | 0 <= i < |after|
      ensures after[i] == (before + p)[i]
    {
      HeldAt(t, r, w1, false, i);
      StoredAt(buf, r, w, p, Wrapped(r + i, |buf|));
      if i < |before| {
        HeldAt(buf, r, w, isEmpty, i);
      }
    }
  }

  /** Moving r forward by n drops the first n bytes. */
  lemma SkippedDrops(buf: bytes, r: nat, w: nat, n: nat)
    requires 0 < |buf| && Placed(|buf|, r, w, false) && n < Count(|buf|, r, w, false)
    ensures (r + n) % |buf| == Wrapped(r + n, |buf|)
    ensures Held(buf, Wrapped(r + n, |buf|), w, false) == Held(buf, r, w, false)[n..]
  {
    hide Held;
    var r1 := Wrapped(r + n, |buf|);
    WrapIsMod(r + n, |buf|);
    HeldLength(buf, r, w, false);
    HeldLength(buf, r1, w, false);
    forall i | 0 <= i < |Held(buf, r1, w, false)|
      ensures Held(buf, r1, w, false)[i] == Held(buf, r, w, false)[n..][i]
    {
      HeldAt(buf, r1, w, false, i);
      HeldAt(buf, r, w, false, n + i);
    }
  }

  lemma WrapIsMod(at: nat, size: nat)
    requires 0 < size && at < 2 * size
    ensures at % size == Wrapped(at, size)
  {
    RemainderIsUnique(at, size, if at < size then 0 else 1, Wrapped(at, size));
  }

  // ------------------------------------------------------------ growth

  /** n += n / 4 until it is at least the target. */
  function ByQuarters(n: nat, target: int): (m: nat)
    requires n >= 4
    ensures m >= n && m >= target
    ensures n < target ==> 4 * m < 5 * target
    decreases target - n
  {
    if n >= target then n else ByQuarters(n + n / 4, target)
  }

  function GrownSize(size: nat, newCap: nat): (m: nat)
    ensures m >= newCap && m >= size
  {
    if size == 0 then
      if newCap <= DEFAULT_BUFFER_SIZE then DEFAULT_BUFFER_SIZE else Smeared(newCap - 1) + 1
    else if newCap > 2 * size then newCap
    else if size < BUFFER_GROW_THRESHOLD then 2 * size
    else ByQuarters(size, newCap)
  }

  /**
   * A first buffer has 1024 bytes, or the power of two that CeilToPowerOfTwo finds; later ones are as large as asked
   * for when that is more than double, else doubled below 4096 bytes, else less than a quarter too large.
   */
  lemma GrowthIsGradual(size: nat, newCap: nat)
    ensures var m := GrownSize(size, newCap);
      && (size == 0 && newCap <= 1024 ==> m == 1024)
      && (size == 0 && newCap > 1024 ==> m == Smeared(newCap - 1) + 1)
      && (size > 0 && newCap > 2 * size ==> m == newCap)
      && (0 < size < 4096 && newCap <= 2 * size ==> m == 2 * size)
      && (size >= 4096 && newCap <= size ==> m == size)
      && (size >= 4096 && size < newCap <= 2 * size ==> newCap <= m && 4 * m < 5 * newCap)
    ensures SizeFor(size, newCap) == if newCap <= size then size else GrownSize(size, newCap)
  {
  }

  /** The capacity after a write that makes the queue this long: unchanged when it fits. */
  function SizeFor(size: nat, length: nat): (m: nat)
    ensures m >= size && m >= length
  {
    if length <= size then size else GrownSize(size, length)
  }

  /** copy(dst[at..], src). */
  method CopyInto(dst: array<byte>, at: nat, src: bytes)
    requires at <= dst.Length
    modifies dst
    ensures dst[..] == Overwrite(old(dst[..]), at, src)
  {
    var k := Min(|src|, dst.Length - at);
    forall i | 0 <= i < k {
      dst[at + i] := src[i];
    }
    assert dst[..] == Overwrite(old(dst[..]), at, src);
  }

  class Buffer {
    var buf: array<byte>
    var size: nat
    var r: nat
    var w: nat
    var isEmpty: bool

    ghost predicate Valid()
      reads this
    {
      buf.Length == size && Placed(size, r, w, isEmpty)
    }

    ghost function Contents(): bytes
      requires Valid()
      reads this, buf
    {
      Held(buf[..], r, w, isEmpty)
    }

    constructor (size: int)
      requires size <= TOP
      ensures Valid() && fresh(buf) && Contents() == []
      ensures this.size == if size == 0 then 0 else if size <= 2 then 2 else Smeared(size - 1) + 1
    {
      var n: nat := 0;
      if size != 0 {
        var c := CeilToPowerOfTwo(size);
        n := c.value;
      }
      buf := new byte[n];
      this.size := n;
      r, w, isEmpty := 0, 0, true;
    }

    /** New panics above 2^62 bytes. */
    static method New(size: int) returns (b: Buffer?)
      ensures b == null <==> size > 0x4000_0000_0000_0000
      ensures b != null ==> fresh(b) && fresh(b.buf) && b.Valid() && b.Contents() == []
      ensures b != null ==> b.size == if size == 0 then 0 else if size <= 2 then 2 else Smeared(size - 1) + 1
    {
      if size > TOP {
        return null;
      }
      b := new Buffer(size);
    }

    method Buffered() returns (n: nat)
      requires Valid()
      ensures n == |Contents()|
    {
      HeldLength(buf[..], r, w, isEmpty);
      if r == w {
        if isEmpty {
          return 0;
        }
        return size;
      }
      if w > r {
        return w - r;
      }
      return size - r + w;
    }

    method Available() returns (n: nat)
      requires Valid()
      ensures n + |Contents()| == size
    {
      HeldLength(buf[..], r, w, isEmpty);
      if r == w {
        if isEmpty {
          return size;
        }
        return 0;
      }
      if w < r {
        return r - w;
      }
      return size - w + r;
    }

    method Reset()
      requires Valid()
      modifies this
      ensures Valid() && buf == old(buf) && size == old(size) && Contents() == []
    {
      isEmpty := true;
      r, w := 0, 0;
    }

    method PeekAll() returns (head: bytes, tail: bytes)
      requires Valid()
      ensures head + tail == Contents()
      ensures head == [] ==> tail == []
    {
      head, tail := [], [];
      if isEmpty {
        return;
      }
      if w > r {
        head := buf[r..w];
        return;
      }
      head := buf[r..];
      if w != 0 {
        tail := buf[..w];
      }
      assert buf[..][r..] == head && buf[..][..w] == tail;
    }

    /** The first n bytes, all of them when n is not positive or too large. */
    method Peek(n: int) returns (head: bytes, tail: bytes)
      requires Valid()
      ensures head + tail == if n <= 0 then Contents() else Contents()[..Min(n, |Contents()|)]
      ensures head == [] ==> tail == []
    {
      head, tail := [], [];
      if isEmpty {
        return;
      }
      if n <= 0 {
        head, tail := PeekAll();
        return;
      }
      HeldLength(buf[..], r, w, isEmpty);
      HeldPrefix(buf[..], r, w, Min(n, |Contents()|));
      if w > r {
        var m := w - r;
        if m > n {
          m := n;
        }
        head := buf[r..r + m];
        return;
      }
      var m := size - r + w;
      if m > n {
        m := n;
      }
      if r + m <= size {
        head := buf[r..r + m];
      } else {
        var c1 := size - r;
        head := buf[r..];
        var c2 := m - c1;
        tail := buf[..c2];
      }
    }

    method Bytes() returns (b: bytes)
      requires Valid()
      ensures b == Contents()
    {
      if isEmpty {
        return [];
      } else if w == r {
        b := [] + buf[r..];
        b := b + buf[..w];
        return b;
      }
      if w > r {
        return [] + buf[r..w];
      }
      b := [] + buf[r..];
      if w != 0 {
        b := b + buf[..w];
      }
    }

    /** Drops the first n bytes, or all of them, and says how many. */
    method Discard(n: int) returns (discarded: nat)
      requires Valid()
      modifies this
      ensures Valid() && buf == old(buf) && size == old(size)
      ensures discarded == Min(Max(n, 0), |old(Contents())|)
      ensures Contents() == old(Contents())[discarded..]
    {
      if n <= 0 {
        return 0;
      }
      discarded := Buffered();
      if n < discarded {
        SkippedDrops(buf[..], r, w, n);
        r := (r + n) % size;
        return n;
      }
      Reset();
    }

    /** Moves the first n bytes out once they are copied. */
    method Skip(n: nat)
      requires Valid() && 0 < n <= |Contents()|
      modifies this
      ensures Valid() && buf == old(buf) && size == old(size)
      ensures Contents() == old(Contents())[n..]
    {
      HeldLength(buf[..], r, w, isEmpty);
      ghost var r0 := r;
      if n < |Contents()| {
        SkippedDrops(buf[..], r, w, n);
      } else {
        WrapIsMod(r + n, size);
      }
      r := (r + n) % size;
      if r == w {
        assert n == |old(Contents())|;
        isEmpty := true;
        r, w := 0, 0;
      }
    }

    method Read(p: array<byte>) returns (n: nat, err: bool)
      requires Valid() && p != buf
      modifies this, p
      ensures Valid() && buf == old(buf) && size == old(size)
      ensures n == Min(p.Length, |old(Contents())|)
      ensures p[..] == old(Contents())[..n] + old(p[..])[n..]
      ensures Contents() == old(Contents())[n..]
      ensures err <==> p.Length > 0 && old(Contents()) == []
    {
      n, err := 0, false;
      HeldLength(buf[..], r, w, isEmpty);
      if p.Length == 0 {
        return;
      }
      if isEmpty {
        return 0, true;
      }
      if w > r {
        n := w - r;
        if n > p.Length {
          n := p.Length;
        }
      } else {
        n := size - r + w;
        if n > p.Length {
          n := p.Length;
        }
      }
      CopyOut(p, n);
      Skip(n);
    }

    /** The copying in Read, from either side of the end. */
    method CopyOut(p: array<byte>, n: nat)
      requires Valid() && p != buf && !isEmpty && n <= |Contents()| && n <= p.Length
      modifies p
      ensures p[..] == Contents()[..n] + old(p[..])[n..]
    {
      hide Held, Overwrite;
      HeldLength(buf[..], r, w, isEmpty);
      HeldPrefix(buf[..], r, w, n);
      if r + n <= size {
        TwoCopies(p[..], buf[r..r + n], []);
        CopyInto(p, 0, buf[r..r + n]);
      } else {
        var c1 := size - r;
        var c2 := n - c1;
        TwoCopies(p[..], buf[r..], buf[..c2]);
        CopyInto(p, 0, buf[r..]);
        CopyInto(p, c1, buf[..c2]);
      }
    }

    method ReadByte() returns (r: Option<byte>)
      requires Valid()
      modifies this
      ensures Valid() && buf == old(buf) && size == old(size)
      ensures r == if old(Contents()) == [] then None else Some(old(Contents())[0])
      ensures Contents() == if old(Contents()) == [] then [] else old(Contents())[1..]
    {
      HeldLength(buf[..], this.r, w, isEmpty);
      if isEmpty {
        return None;
      }
      var b := buf[this.r];
      HeldAt(buf[..], this.r, w, false, 0);
      if |Contents()| > 1 {
        SkippedDrops(buf[..], this.r, w, 1);
      }
      this.r := this.r + 1;
      if this.r == size {
        this.r := 0;
      }
      if this.r == w {
        Reset();
      }
      return Some(b);
    }

    /** The three growth rules. */
    method NewCapacity(newCap: nat) returns (cap: nat)
      requires size == 0 ==> newCap <= TOP
      ensures cap == GrownSize(size, newCap)
    {
      cap := newCap;
      var n := size;
      if n == 0 {
        if newCap <= DEFAULT_BUFFER_SIZE {
          cap := DEFAULT_BUFFER_SIZE;
        } else {
          var c := CeilToPowerOfTwo(newCap);
          cap := c.value;
        }
      } else {
        var doubleCap := n + n;
        if newCap <= doubleCap {
          if n < BUFFER_GROW_THRESHOLD {
            cap := doubleCap;
          } else {
            while 0 < n < newCap
              invariant n >= BUFFER_GROW_THRESHOLD
              invariant ByQuarters(n, newCap) == ByQuarters(size, newCap)
              decreases newCap - n
            {
              n := n + n / 4;
            }
            if n > 0 {
              cap := n;
            }
          }
        }
      }
    }

    /** Moves the contents to the front of a new array of at least the capacity asked for. */
    method Grow(newCap: nat)
      requires Valid() && (size == 0 ==> newCap <= TOP)
      modifies this
      ensures buf.Length == size == GrownSize(old(size), newCap) && fresh(buf)
      ensures r == 0 && w == |old(Contents())| <= size && isEmpty == (w == 0)
      ensures buf[..w] == old(Contents())
    {
      var cap := NewCapacity(newCap);
      var oldLen := Buffered();
      HeldLength(buf[..], r, w, isEmpty);
      var newBuf := new byte[cap];
      var _, _ := Read(newBuf);
      buf := newBuf;
      r := 0;
      w := oldLen;
      size := cap;
      if w > 0 {
        isEmpty := false;
      }
    }

    /** Only the first allocation can panic, above 2^62 bytes. */
    method Write(p: bytes) returns (n: nat, panicked: bool)
      requires Valid()
      modifies this, buf
      ensures panicked <==> old(size) == 0 && |p| > 0x4000_0000_0000_0000
      ensures Valid() && (buf == old(buf) || fresh(buf))
      ensures !panicked ==> n == |p| && Contents() == old(Contents()) + p
      ensures !panicked ==> size == SizeFor(old(size), |old(Contents())| + |p|)
    {
      n, panicked := |p|, false;
      if n == 0 {
        return;
      }
      var free := Available();
      if n > free {
        if size == 0 && n > TOP {
          return 0, true;
        }
        GrowFor(n - free);
      }
      Store(p);
    }

    /** grow as Write calls it: what was held still is, and the missing bytes fit. */
    method GrowFor(missing: nat)
      requires Valid() && 0 < missing && (size == 0 ==> missing <= TOP)
      modifies this
      ensures Valid() && fresh(buf) && Contents() == old(Contents())
      ensures size == GrownSize(old(size), old(size) + missing)
    {
      HeldLength(buf[..], r, w, isEmpty);
      ghost var before := Contents();
      Grow(size + missing);
      assert buf[..][0..w] == before;
    }

    method Store(p: bytes)
      requires Valid() && 0 < |p| && |Contents()| + |p| <= size
      modifies this, buf
      ensures Valid() && buf == old(buf) && size == old(size)
      ensures Contents() == old(Contents()) + p
    {
      hide Held, Stored;
      HeldLength(buf[..], r, w, isEmpty);
      StoredAppends(buf[..], r, w, isEmpty, p);
      w := CopyIn(p);
      if w == size {
        w := 0;
      }
      isEmpty := false;
    }

    /** The copying in Write, up to the end and then from the start, and where it stops. */
    method CopyIn(p: bytes) returns (next: nat)
      requires Valid() && w < size && |p| <= size
      modifies buf
      ensures buf[..] == Stored(old(buf[..]), r, w, p)
      ensures next == if w >= r && size - w < |p| then w + |p| - size else w + |p|
    {
      hide Overwrite;
      var n := |p|;
      if w >= r {
        var c1 := size - w;
        if c1 >= n {
          CopyInto(buf, w, p);
          next := w + n;
        } else {
          CopyInto(buf, w, p[..c1]);
          var c2 := n - c1;
          CopyInto(buf, 0, p[c1..]);
          next := c2;
        }
      } else {
        CopyInto(buf, w, p);
        next := w + n;
      }
    }

    /**
     * grow(1) leaves a full buffer of 4096 bytes or more as large as it is, so the write that follows is out of
     * bounds.
     */
    method WriteByte(c: byte) returns (panicked: bool)
      requires Valid()
      modifies this, buf
      ensures panicked <==> |old(Contents())| == old(size) >= 4096
      ensures !panicked ==> Valid() && (buf == old(buf) || fresh(buf)) && Contents() == old(Contents()) + [c]
      ensures !panicked ==> size == if |old(Contents())| == old(size) then GrownSize(old(size), 1) else old(size)
    {
      var free := Available();
      if free < 1 {
        panicked := GrowByOne();
        if panicked {
          return;
        }
      }
      StoreByte(c);
      return false;
    }

    method StoreByte(c: byte)
      requires Valid() && |Contents()| < size
      modifies this, buf
      ensures Valid() && buf == old(buf) && size == old(size) && Contents() == old(Contents()) + [c]
    {
      hide Held, Stored;
      HeldLength(buf[..], r, w, isEmpty);
      StoredAppends(buf[..], r, w, isEmpty, [c]);
      StoredByte(buf[..], r, w, c);
      buf[w] := c;
      w := w + 1;
      if w == size {
        w := 0;
      }
      isEmpty := false;
    }

    /** grow(1) on a full buffer; the write index is out of bounds when nothing was gained. */
    method GrowByOne() returns (outOfBounds: bool)
      requires Valid() && |Contents()| == size
      modifies this
      ensures outOfBounds <==> old(size) >= BUFFER_GROW_THRESHOLD
      ensures !outOfBounds ==> Valid() && fresh(buf) && Contents() == old(Contents()) && |Contents()| < size
      ensures size == GrownSize(old(size), 1)
    {
      ghost var before := Contents();
      Grow(1);
      if w == size {
        return true;
      }
      assert buf[..][0..w] == before;
      return false;
    }
  }
}
