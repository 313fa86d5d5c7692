/** The file of one message stream: numbered items appended one after the other (stream.go, model.go). */
module Streams {
  import opened Bytes
  import opened Wrappers
  import opened Chunks
  import opened Codec
  import Record

  const MAGIC: bytes := [0x15, 0x16]
  const VERSION: bytes := [0x01]
  const END_MAGIC: bytes := [0x03]

  datatype StreamItem = StreamItem(clientMsgNo: bytes, streamSeq: uint32, blob: bytes)

  // ------------------------------------------------------------ one item

  /** The bytes of an item, last field first. */
  function Encode(s: StreamItem): (b: bytes)
    ensures |b| == 14 + |s.clientMsgNo| + |s.blob|
  {
    var t5 := s.blob + END_MAGIC;
    var t4 := PutU32(|s.blob|) + t5;
    var t3 := PutU32(s.streamSeq) + t4;
    var t2 := PutString(s.clientMsgNo) + t3;
    var t1 := VERSION + t2;
    MAGIC + t1
  }

  method EncodeStreamItem(s: StreamItem) returns (b: bytes)
    ensures b == Encode(s)
  {
    hide PutU32, PutString;
    ghost var t5 := s.blob + END_MAGIC;
    ghost var t4 := PutU32(|s.blob|) + t5;
    ghost var t3 := PutU32(s.streamSeq) + t4;
    ghost var t2 := PutString(s.clientMsgNo) + t3;
    ghost var t1 := VERSION + t2;
    var enc := new Encoder();
    enc.WriteBytes(MAGIC, t1);
    enc.WriteBytes(VERSION, t2);
    enc.WriteString(s.clientMsgNo, t3);
    enc.WriteInt32(s.streamSeq, t4);
    enc.WriteInt32(|s.blob|, t5);
    enc.WriteBytes(s.blob, END_MAGIC);
    enc.WriteBytes(END_MAGIC);
    return enc.w;
  }

  /** Reads n bytes off the front. */
  function TakeBytes(s: bytes, n: nat): Outcome<Read<bytes>> {
    if |s| < n then Err else Ok(Read(s[..n], s[n..]))
  }

  /**
   * currentStreamItem on what follows an offset: the item and what comes after it. The version is not looked at,
   * the length of the name is unsigned, and without readBlob the blob is skipped.
   */
  function ItemAt(s: bytes, readBlob: bool): Outcome<Read<StreamItem>> {
    var magic :- TakeBytes(s, |MAGIC|);
    if magic.value != MAGIC then Err else
    var version :- TakeBytes(magic.rest, |VERSION|);
    var nameLen :- TakeBytes(version.rest, 2);
    var name :- TakeBytes(nameLen.rest, GetU16(nameLen.value));
    var streamSeq :- TakeBytes(name.rest, 4);
    var blobLen :- TakeBytes(streamSeq.rest, 4);
    var blob :- TakeBytes(blobLen.rest, GetU32(blobLen.value));
    var end :- TakeBytes(blob.rest, |END_MAGIC|);
    if end.value != END_MAGIC then Err else
    Ok(Read(StreamItem(name.value, GetU32(streamSeq.value), if readBlob then blob.value else []), end.rest))
  }

  predicate Fits(s: StreamItem) {
    |s.clientMsgNo| < TWO16 && |s.blob| < TWO32
  }

  lemma TakeFront(b: bytes, t: bytes)
    ensures TakeBytes(b + t, |b|) == Ok(Read(b, t))
  {
    assert (b + t)[..|b|] == b && (b + t)[|b|..] == t;
  }

  lemma FittingItemComesBack(s: StreamItem, t: bytes, readBlob: bool)
    requires Fits(s)
    ensures ItemAt(Encode(s) + t, readBlob) == Ok(Read(if readBlob then s else s.(blob := []), t))
  {
    hide PutU16, PutU32, GetU16, GetU32, TakeBytes;
    var t6 := END_MAGIC + t;
    var t5 := s.blob + t6;
    var t4 := PutU32(|s.blob|) + t5;
    var t3 := PutU32(s.streamSeq) + t4;
    var t2 := s.clientMsgNo + t3;
    var t1 := PutU16(|s.clientMsgNo|) + t2;
    var t0 := VERSION + t1;
    EncodeThen(s, t);
    TakeFront(MAGIC, t0);
    TakeFront(VERSION, t1);
    TakeFront(PutU16(|s.clientMsgNo|), t2);
    GetPutU16(|s.clientMsgNo|);
    TakeFront(s.clientMsgNo, t3);
    TakeFront(PutU32(s.streamSeq), t4);
    GetPutU32(s.streamSeq);
    TakeFront(PutU32(|s.blob|), t5);
    GetPutU32(|s.blob|);
    TakeFront(s.blob, t6);
    TakeFront(END_MAGIC, t);
  }

  lemma EncodeThen(s: StreamItem, t: bytes)
    ensures Encode(s) + t == MAGIC + (VERSION + (PutU16(|s.clientMsgNo|) + (s.clientMsgNo
      + (PutU32(s.streamSeq) + (PutU32(|s.blob|) + (s.blob + (END_MAGIC + t)))))))
  {
    hide PutU16, PutU32;
    var n, p, q := PutU16(|s.clientMsgNo|), PutU32(s.streamSeq), PutU32(|s.blob|);
    var t5 := s.blob + END_MAGIC;
    var t4, t3 := q + t5, p + (q + t5);
    var t2 := n + s.clientMsgNo + t3;
    assert t5 + t == s.blob + (END_MAGIC + t);
    assert t4 + t == q + (t5 + t);
    assert t3 + t == p + (t4 + t);
    assert t2 + t == n + (s.clientMsgNo + (t3 + t));
    assert VERSION + t2 + t == VERSION + (t2 + t);
    assert MAGIC + (VERSION + t2) + t == MAGIC + (VERSION + t2 + t);
  }

  lemma TakenFits(s: bytes)
    ensures var r := ItemAt(s, true); r.Ok? ==> Fits(r.value.value)
  {
    hide GetU16, GetU32;
  }

  /** An item is read back, with its exact length, exactly when its name is below 2^16 and its blob below 2^32 bytes. */
  lemma ItemRoundTrip(s: StreamItem, t: bytes)
    ensures ItemAt(Encode(s) + t, true) == Ok(Read(s, t)) <==> Fits(s)
  {
    hide ItemAt, Encode;
    if Fits(s) {
      FittingItemComesBack(s, t, true);
    } else {
      TakenFits(Encode(s) + t);
    }
  }

  // ------------------------------------------------------------ the reader

  /** A read at an offset of the file is a read of the front of what follows it. */
  lemma ReadIsTake(file: bytes, offset: nat, n: nat)
    requires offset <= |file|
    ensures var r, t := Record.ReadAt(file, offset, n), TakeBytes(file[offset..], n);
      && (r.Full? <==> offset + n <= |file|)
      && (!r.Full? ==> t == Err)
      && (r.Full? ==> t.Ok? && r.data == t.value.value && offset + n <= |file| && file[offset + n..] == t.value.rest)
  {
    if offset + n <= |file| {
      assert file[offset..][..n] == file[offset..offset + n];
      assert file[offset..][n..] == file[offset + n..];
    }
  }

  /** The item at an offset and its length, or an error. */
  method CurrentStreamItem(file: bytes, startOffset: nat, readBlob: bool) returns (r: Outcome<(StreamItem, nat)>)
    requires startOffset <= |file|
    ensures var spec := ItemAt(file[startOffset..], readBlob);
      match spec
      case Ok(v) => r.Ok? && r.value.0 == v.value && startOffset + r.value.1 <= |file|
        && file[startOffset + r.value.1..] == v.rest
      case _ => r == Err
  {
    hide TakeBytes, GetU16, GetU32, Record.ReadAt;
    var offset := startOffset;
    ReadIsTake(file, offset, |MAGIC|);
    var startMagic := Record.ReadAt(file, offset, |MAGIC|);
    if startMagic.Eof? {
      return Err;
    }
    offset := offset + |MAGIC|;
    if startMagic.data != MAGIC {
      return Err;
    }
    ReadIsTake(file, offset, |VERSION|);
    offset := offset + |VERSION|;
    PastTheEnd(file, offset, 2);
    if offset <= |file| {
      ReadIsTake(file, offset, 2);
    }
    var nameLenBytes := Record.ReadAt(file, offset, 2);
    if nameLenBytes.Eof? {
      return Err;
    }
    offset := offset + 2;
    var nameLen := GetU16(nameLenBytes.data);
    ReadIsTake(file, offset, nameLen);
    var name := Record.ReadAt(file, offset, nameLen);
    if name.Eof? {
      return Err;
    }
    offset := offset + nameLen;
    ReadIsTake(file, offset, 4);
    var streamSeq := Record.ReadAt(file, offset, 4);
    if streamSeq.Eof? {
      return Err;
    }
    offset := offset + 4;
    ReadIsTake(file, offset, 4);
    var blobLenBytes := Record.ReadAt(file, offset, 4);
    if blobLenBytes.Eof? {
      return Err;
    }
    offset := offset + 4;
    var blobLen := GetU32(blobLenBytes.data);
    ReadIsTake(file, offset, blobLen);
    var blob: bytes := [];
    if readBlob {
      var read := Record.ReadAt(file, offset, blobLen);
      if read.Eof? {
        return Err;
      }
      blob := read.data;
    }
    offset := offset + blobLen;
    PastTheEnd(file, offset, 1);
    if offset <= |file| {
      ReadIsTake(file, offset, 1);
    }
    var endMagic := Record.ReadAt(file, offset, 1);
    if endMagic.Eof? {
      return Err;
    }
    offset := offset + 1;
    if endMagic.data != END_MAGIC {
      return Err;
    }
    return Ok((StreamItem(name.data, GetU32(streamSeq.data), blob), offset - startOffset));
  }

  lemma PastTheEnd(file: bytes, offset: nat, n: nat)
    requires n > 0
    ensures Record.ReadAt(file, offset, n).Full? ==> offset + n <= |file|
  {
  }

  // ------------------------------------------------------------ the file

  function Encodings(items: seq<StreamItem>): (parts: seq<bytes>)
    ensures |parts| == |items|
  {
    seq(|items|, i requires 0 <= i < |items| => Encode(items[i]))
  }

  /** Items numbered from 1 without gaps, each of which can be read back. */
  predicate Numbered(items: seq<StreamItem>) {
    |items| < TWO32 && forall i | 0 <= i < |items| :: items[i].streamSeq == i + 1 && Fits(items[i])
  }

  lemma ItemInFile(items: seq<StreamItem>, i: nat, readBlob: bool)
    requires i < |items| && Fits(items[i])
    ensures var parts := Encodings(items);
      var at := Start(parts, i);
      && at < Start(parts, i + 1) <= |Flatten(parts)|
      && ItemAt(Flatten(parts)[at..], readBlob)
        == Ok(Read(if readBlob then items[i] else items[i].(blob := []), Flatten(parts)[Start(parts, i + 1)..]))
  {
    hide Encode, ItemAt, Flatten, Start;
    var parts := Encodings(items);
    PartThenRest(parts, i);
    EncodeIsLong(items[i]);
    FittingItemComesBack(items[i], Flatten(parts)[Start(parts, i + 1)..], readBlob);
  }

  lemma PartThenRest(parts: seq<bytes>, i: nat)
    requires i < |parts|
    ensures Start(parts, i) + |parts[i]| == Start(parts, i + 1) <= |Flatten(parts)|
    ensures Flatten(parts)[Start(parts, i)..] == parts[i] + Flatten(parts)[Start(parts, i + 1)..]
  {
    hide Flatten, Start;
    var file := Flatten(parts);
    assert file + [] == file;
    SuffixAt(parts, [], i);
    SuffixAt(parts, [], i + 1);
    PartAt(parts, [], i);
    assert parts[i..] == [parts[i]] + parts[i + 1..];
    FlattenCons(parts[i], parts[i + 1..]);
  }

  lemma EncodeIsLong(s: StreamItem)
    ensures |Encode(s)| > 0
  {
  }

  lemma StartsGrow(parts: seq<bytes>, i: nat, j: nat)
    requires i < j <= |parts| && forall k | 0 <= k < |parts| :: |parts[k]| > 0
    ensures Start(parts, i) < Start(parts, j)
    decreases j
  {
    if i < j - 1 {
      StartsGrow(parts, i, j - 1);
    }
  }

  lemma ItemStarts(items: seq<StreamItem>, i: nat)
    requires i <= |items|
    ensures Start(Encodings(items), i) <= |Flatten(Encodings(items))|
    ensures Start(Encodings(items), i) < |Flatten(Encodings(items))| <==> i < |items|
  {
    hide Encode;
    forall k | 0 <= k < |items|
      ensures |Encodings(items)[k]| > 0
    {
      EncodeIsLong(items[k]);
    }
    if i < |items| {
      StartsGrow(Encodings(items), i, |items|);
    }
  }

  // ------------------------------------------------------------ sort.Sort

  predicate Ascending(s: seq<StreamItem>) {
    forall i | 0 < i < |s| :: s[i - 1].streamSeq <= s[i].streamSeq
  }

  lemma {:induction false} AscendingChain(s: seq<StreamItem>, i: nat, j: nat)
    requires Ascending(s) && i <= j < |s|
    ensures s[i].streamSeq <= s[j].streamSeq
    decreases j
  {
    if i < j {
      AscendingChain(s, i, j - 1);
    }
  }

  /** Any permutation in ascending order of items that are numbered from 1 is those items in their order. */
  lemma {:induction false} SortedIsUnique(items: seq<StreamItem>, sorted: seq<StreamItem>)
    requires Numbered(items) && Ascending(sorted) && multiset(sorted) == multiset(items)
    ensures sorted == items
    decreases |items|
  {
    hide Numbered, Ascending;
    SameLength(items, sorted);
    if items != [] {
      var last := |items| - 1;
      LastIsLargest(items, sorted);
      Prefixes(items, sorted, last);
      SplitLast(items);
      SplitLast(sorted);
      SortedIsUnique(items[..last], sorted[..last]);
    }
  }

  lemma SplitLast(s: seq<StreamItem>)
    requires s != []
    ensures s == s[..|s| - 1] + [s[|s| - 1]]
    ensures multiset(s[..|s| - 1]) == multiset(s) - multiset{s[|s| - 1]}
  {
    var front, last := s[..|s| - 1], s[|s| - 1];
    assert s == front + [last];
    assert multiset(front + [last]) == multiset(front) + multiset{last};
  }

  lemma Prefixes(items: seq<StreamItem>, sorted: seq<StreamItem>, k: nat)
    requires Numbered(items) && Ascending(sorted) && k <= |items| == |sorted|
    ensures Numbered(items[..k]) && Ascending(sorted[..k])
  {
    hide Fits;
  }

  lemma LastIsLargest(items: seq<StreamItem>, sorted: seq<StreamItem>)
    requires Numbered(items) && Ascending(sorted) && multiset(sorted) == multiset(items)
    requires |sorted| == |items| > 0
    ensures sorted[|items| - 1] == items[|items| - 1]
  {
    hide Fits;
    var last := |items| - 1;
    var k, m := PlaceOf(sorted, items[last]), PlaceOf(items, sorted[last]);
    assert items[m].streamSeq == m + 1 && items[last].streamSeq == last + 1;
    AscendingChain(sorted, k, last);
  }

  function PlaceOf(s: seq<StreamItem>, x: StreamItem): (k: nat)
    requires x in multiset(s)
    ensures k < |s| && s[k] == x
  {
    assert x in s;
    if s[0] == x then 0
    else
      assert s == [s[0]] + s[1..];
      1 + PlaceOf(s[1..], x)
  }

  lemma SameLength(a: seq<StreamItem>, b: seq<StreamItem>)
    requires multiset(a) == multiset(b)
    ensures |a| == |b|
  {
    assert |multiset(a)| == |a| && |multiset(b)| == |b|;
  }

  /** The library sort, by stream number. */
  method Sort(s: seq<StreamItem>) returns (t: seq<StreamItem>)
    ensures Ascending(t) && multiset(t) == multiset(s)
  {
    t := [];
    for i := 0 to |s|
      invariant Ascending(t) && multiset(t) == multiset(s[..i])
    {
      assert s[..i + 1] == s[..i] + [s[i]];
      t := Insert(t, s[i]);
    }
    assert s[..|s|] == s;
  }

  method Insert(s: seq<StreamItem>, x: StreamItem) returns (t: seq<StreamItem>)
    requires Ascending(s)
    ensures Ascending(t) && multiset(t) == multiset(s + [x])
  {
    var k := |s|;
    while k > 0 && s[k - 1].streamSeq > x.streamSeq
      invariant 0 <= k <= |s|
      invariant forall j | k <= j < |s| :: s[j].streamSeq > x.streamSeq
    {
      k := k - 1;
    }
    t := s[..k] + [x] + s[k..];
    Inserted(s, k, x);
  }

  lemma Inserted(s: seq<StreamItem>, k: nat, x: StreamItem)
    requires k <= |s|
    ensures multiset(s[..k] + [x] + s[k..]) == multiset(s + [x])
  {
    var a, b := s[..k], s[k..];
    assert s == a + b;
    assert multiset(a + [x] + b) == multiset(a) + multiset([x]) + multiset(b);
  }

  // ------------------------------------------------------------ the stream

  lemma EncodingsGrow(items: seq<StreamItem>, item: StreamItem)
    ensures Flatten(Encodings(items + [item])) == Flatten(Encodings(items)) + Encode(item)
  {
    hide Encode;
    assert Encodings(items + [item]) == Encodings(items) + [Encode(item)];
    FlattenAppend(Encodings(items), [Encode(item)]);
    FlattenOne(Encode(item));
  }

  class Stream {
    var file: bytes
    var maxStreamSeqLoaded: bool
    var maxStreamSeq: uint32
    ghost var items: seq<StreamItem>

    ghost predicate Valid()
      reads this
    {
      && Numbered(items)
      && file == Flatten(Encodings(items))
      && (maxStreamSeqLoaded ==> maxStreamSeq == |items|)
    }

    /** Opening the file of a stream, new or left by an earlier one. */
    constructor (file: bytes, ghost items: seq<StreamItem>)
      requires Numbered(items) && file == Flatten(Encodings(items))
      ensures Valid() && this.items == items && this.file == file
    {
      this.file := file;
      this.items := items;
      maxStreamSeqLoaded, maxStreamSeq := false, 0;
    }

    /** The item at the start of part k, and where the next one starts. */
    method ReadAtStart(ghost k: nat, startOffset: nat, readBlob: bool) returns (r: Outcome<(StreamItem, nat)>)
      requires Valid() && k < |items| && startOffset == Start(Encodings(items), k) < |file|
      ensures r.Ok? && r.value.0 == if readBlob then items[k] else items[k].(blob := [])
      ensures startOffset + r.value.1 == Start(Encodings(items), k + 1) <= |file|
      ensures Start(Encodings(items), k + 1) < |file| <==> k + 1 < |items|
    {
      hide ItemAt, Encode;
      ItemInFile(items, k, readBlob);
      r := CurrentStreamItem(file, startOffset, readBlob);
      assert |file[startOffset + r.value.1..]| == |file[Start(Encodings(items), k + 1)..]|;
      ItemStarts(items, k + 1);
    }

    method ReadMaxStreamSeq() returns (r: Outcome<uint32>)
      requires Valid()
      ensures r == Ok(|items|)
    {
      hide ItemAt, Encode, Flatten, Encodings, Fits;
      var startOffset := 0;
      var max: uint32 := 0;
      ItemStarts(items, 0);
      if |file| == 0 {
        return Ok(0);
      }
      ghost var k := 0;
      while true
        invariant 0 <= k < |items| && startOffset == Start(Encodings(items), k) < |file| && max == k
        decreases |items| - k
      {
        var r := ReadAtStart(k, startOffset, false);
        if !r.Ok? {
          return Err;
        }
        max := r.value.0.streamSeq;
        startOffset := startOffset + r.value.1;
        k := k + 1;
        if startOffset >= |file| {
          break;
        }
      }
      return Ok(max);
    }

    method NextStreamSeq() returns (r: Outcome<uint32>)
      requires Valid()
      modifies this`maxStreamSeq, this`maxStreamSeqLoaded
      ensures Valid() && maxStreamSeqLoaded && r == Ok((|items| + 1) % TWO32)
    {
      if maxStreamSeqLoaded {
        return Ok((maxStreamSeq + 1) % TWO32);
      }
      var max := ReadMaxStreamSeq();
      maxStreamSeq := max.value;
      maxStreamSeqLoaded := true;
      return Ok((maxStreamSeq + 1) % TWO32);
    }

    /**
     * The next item gets the next number, whoever opened the file; after 2^32 - 1 of them, the number 0. One whose
     * lengths do not fit their fields is written all the same; it cannot be read back.
     */
    method AppendItem(item: StreamItem) returns (r: Outcome<uint32>)
      requires Valid()
      modifies this
      ensures r == Ok((|old(items)| + 1) % TWO32) && maxStreamSeqLoaded && maxStreamSeq == r.value
      ensures file == old(file) + Encode(item.(streamSeq := r.value))
      ensures Fits(item) && |old(items)| + 1 < TWO32 ==>
        Valid() && items == old(items) + [item.(streamSeq := |old(items)| + 1)]
    {
      hide Encode, Encodings, Flatten;
      var next := NextStreamSeq();
      if !next.Ok? {
        return Err;
      }
      var numbered := item.(streamSeq := next.value);
      var b := EncodeStreamItem(numbered);
      file := file + b;
      items := items + [numbered];
      maxStreamSeq := next.value;
      EncodingsGrow(old(items), numbered);
      return next;
    }

    method ReadItems() returns (r: Outcome<seq<StreamItem>>)
      requires Valid()
      ensures r == Ok(items)
    {
      hide ItemAt, Encode, Flatten, Encodings, Fits;
      var startOffset := 0;
      var found: seq<StreamItem> := [];
      ItemStarts(items, 0);
      if |file| == 0 {
        return Ok([]);
      }
      ghost var k := 0;
      while true
        invariant 0 <= k < |items| && startOffset == Start(Encodings(items), k) < |file| && found == items[..k]
        decreases |items| - k
      {
        var r := ReadAtStart(k, startOffset, true);
        if !r.Ok? {
          return Err;
        }
        found := found + [r.value.0];
        startOffset := startOffset + r.value.1;
        k := k + 1;
        if startOffset >= |file| {
          break;
        }
      }
      assert found == items;
      var sorted := Sort(found);
      SortedIsUnique(items, sorted);
      return Ok(sorted);
    }
  }
}
