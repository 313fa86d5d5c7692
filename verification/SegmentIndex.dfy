/** The sparse index of a segment: a memory-mapped table of (number, position) entries (segment_index.go). */
module SegmentIndex {
  import opened Bytes
  import opened Wrappers

  const ENTRY_SIZE := 8
  const MAX_BYTES := 2 * 1024 * 1024
  const MAX_ENTRIES := MAX_BYTES / ENTRY_SIZE
  const WARM_ENTRIES := 8192 / ENTRY_SIZE

  /** An entry as stored: the number relative to the segment's base, and a file position. */
  datatype Entry = Entry(relative: uint32, position: uint32)

  datatype SeqPosition = SeqPosition(seqNo: uint32, position: nat)

  function EncodeEntry(e: Entry): (b: bytes)
    ensures |b| == ENTRY_SIZE
  {
    PutU32(e.relative) + PutU32(e.position)
  }

  function DecodeEntry(b: bytes): Entry
    requires |b| == ENTRY_SIZE
  {
    Entry(GetU32(b[..4]), GetU32(b[4..]))
  }

  function EntryAt(memory: bytes, i: nat): Entry
    requires (i + 1) * ENTRY_SIZE <= |memory|
  {
    DecodeEntry(memory[i * ENTRY_SIZE..(i + 1) * ENTRY_SIZE])
  }

  function EntriesIn(memory: bytes, n: nat): (es: seq<Entry>)
    requires n * ENTRY_SIZE <= |memory|
    ensures |es| == n
    ensures forall i :: 0 <= i < n ==> es[i] == EntryAt(memory, i)
  {
    seq(n, i requires 0 <= i < n => EntryAt(memory, i))
  }

  /** Numbers strictly increase and stay within 32 bits. */
  ghost predicate Ordered(base: uint32, es: seq<Entry>) {
    && (forall i, j :: 0 <= i < j < |es| ==> es[i].relative < es[j].relative)
    && (forall i :: 0 <= i < |es| ==> base + es[i].relative < TWO32)
  }

  /** Exactly the entries up to slot are at or below the target. */
  ghost predicate Splits(base: uint32, es: seq<Entry>, slot: nat, target: uint32) {
    && slot < |es| && base + es[slot].relative <= target
    && (forall i :: slot < i < |es| ==> base + es[i].relative > target)
  }

  /** readEntryAtPosition: the last slot of the table is never read, it comes back as zeros. */
  function ReadEntryAt(memory: bytes, i: nat): Entry
    requires |memory| == MAX_BYTES
  {
    if i * ENTRY_SIZE + ENTRY_SIZE >= |memory| then Entry(0, 0) else EntryAt(memory, i)
  }

  /** resetPosistion: the number of slots before the first one that reads as zero, or before the content ends. */
  function RecoveredCount(memory: bytes, contentSize: nat, from: nat): (n: nat)
    requires |memory| == MAX_BYTES && contentSize <= MAX_BYTES && from * ENTRY_SIZE <= MAX_BYTES
    ensures from <= n && n * ENTRY_SIZE <= MAX_BYTES
    decreases MAX_BYTES - from * ENTRY_SIZE
  {
    if from * ENTRY_SIZE >= contentSize || ReadEntryAt(memory, from).relative == 0 then from
    else RecoveredCount(memory, contentSize, from + 1)
  }

  /** What mapping the file shows: its content cut or filled with zeros to the maximal size. */
  function Mapped(file: bytes): (memory: bytes)
    ensures |memory| == MAX_BYTES
  {
    if |file| >= MAX_BYTES then file[..MAX_BYTES] else file + seq(MAX_BYTES - |file|, _ => 0)
  }

  /** Nothing but zeros from slot n on, except that the last slot, which is never read back, may hold anything. */
  ghost predicate ZeroFrom(memory: bytes, n: nat) {
    |memory| == MAX_BYTES && forall k :: n * ENTRY_SIZE <= k < MAX_BYTES - ENTRY_SIZE ==> memory[k] == 0
  }

  class Index {
    const base: uint32
    const mmap: array<byte>
    var position: nat

    ghost predicate Valid()
      reads this, mmap
    {
      && mmap.Length == MAX_BYTES
      && position % ENTRY_SIZE == 0 && position <= MAX_BYTES
      && ZeroFrom(mmap[..], position / ENTRY_SIZE)
    }

    ghost function Entries(): (es: seq<Entry>)
      requires Valid()
      reads this, mmap
      ensures |es| * ENTRY_SIZE == position
    {
      EntriesIn(mmap[..], position / ENTRY_SIZE)
    }

    /** NewIndex: maps the file left by an earlier run and finds where its entries end. */
    constructor Open(file: bytes, base: uint32)
      ensures this.base == base && fresh(mmap)
      ensures mmap[..] == Mapped(file)
      ensures position == RecoveredCount(Mapped(file), Min(|file|, MAX_BYTES), 0) * ENTRY_SIZE
      ensures CleanTail(file) ==> Valid() && Entries() == RecoveredEntries(file)
    {
      hide Mapped, ReadEntryAt, EntryAt, ZeroFrom;
      this.base := base;
      mmap := new byte[MAX_BYTES](i requires 0 <= i < MAX_BYTES => Mapped(file)[i]);
      position := 0;
      new;
      assert mmap[..] == Mapped(file);
      var totalContentSize := Min(|file|, MAX_BYTES);
      ghost var memory := mmap[..];
      var slot := 0;
      while slot * ENTRY_SIZE < totalContentSize && ReadEntryAt(mmap[..], slot).relative != 0
        invariant slot * ENTRY_SIZE <= MAX_BYTES && mmap[..] == memory
        invariant RecoveredCount(memory, totalContentSize, 0) == RecoveredCount(memory, totalContentSize, slot)
        decreases MAX_BYTES - slot * ENTRY_SIZE
      {
        slot := slot + 1;
      }
      position := slot * ENTRY_SIZE;
    }

    predicate IsFull()
      reads this
    {
      position >= MAX_BYTES
    }

    /** The number is stored relative to the base; the subtraction wraps around. */
    method Append(seqNo: uint32, filePosition: uint32)
      requires Valid()
      modifies this`position, mmap
      ensures Valid()
      ensures Entries() ==
        if old(IsFull()) then old(Entries()) else old(Entries()) + [Entry((seqNo - base) % TWO32, filePosition)]
    {
      var e := Entry((seqNo - base) % TWO32, filePosition);
      var b := EncodeEntry(e);
      if position >= MAX_BYTES {
        return;
      }
      ghost var before := mmap[..];
      forall k | 0 <= k < ENTRY_SIZE {
        mmap[position + k] := b[k];
      }
      AppendedEntry(before, mmap[..], position / ENTRY_SIZE, e);
      position := position + ENTRY_SIZE;
    }

    /** parseEntry; beyond the table it answers with the base. */
    function ParseEntry(i: nat): (r: SeqPosition)
      requires mmap.Length == MAX_BYTES
      reads this, mmap
      ensures Valid() && i < |Entries()| && base + Entries()[i].relative < TWO32 ==>
                r == SeqPosition(base + Entries()[i].relative, Entries()[i].position)
    {
      if (i + 1) * ENTRY_SIZE > mmap.Length then SeqPosition(base, 0) else
      var e := EntryAt(mmap[..], i);
      SeqPosition((base + e.relative) % TWO32, e.position)
    }

    /** The binary search over one range of slots. */
    method BinarySearch(begin: nat, end: nat, target: uint32) returns (slot: nat)
      requires Valid() && Ordered(base, Entries())
      requires begin <= end < |Entries()|
      requires base + Entries()[begin].relative <= target
      requires forall i :: end < i < |Entries()| ==> base + Entries()[i].relative > target
      ensures Splits(base, Entries(), slot, target)
    {
      ghost var es := Entries();
      hide EntriesIn, EntryAt, ParseEntry, Entries, ZeroFrom, Ordered;
      var lo, hi := begin, end;
      while lo < hi
        invariant begin <= lo <= hi <= end
        invariant base + es[lo].relative <= target
        invariant forall i :: hi < i < |es| ==> base + es[i].relative > target
      {
        var mid := (lo + hi + 1) / 2;
        OrderedAfter(base, es, mid);
        var found := ParseEntry(mid).seqNo;
        if found > target {
          hi := mid - 1;
        } else if found < target {
          lo := mid;
        } else {
          return mid;
        }
      }
      return lo;
    }

    /** The entry with the largest number not above the target, or the base at position 0. */
    method Lookup(target: uint32) returns (r: SeqPosition)
      requires Valid() && Ordered(base, Entries())
      ensures r == Floor(base, Entries(), target)
    {
      ghost var es := Entries();
      hide EntriesIn, EntryAt, ParseEntry, Entries;
      var entries := position / ENTRY_SIZE;
      if entries == 0 {
        return SeqPosition(base, 0);
      }
      var firstHot := Max(0, entries - 1 - WARM_ENTRIES);
      var slot: nat;
      if ParseEntry(firstHot).seqNo < target {
        slot := BinarySearch(firstHot, entries - 1, target);
      } else if ParseEntry(0).seqNo > target {
        FloorBelow(base, es, target);
        return SeqPosition(base, 0);
      } else {
        slot := BinarySearch(0, firstHot, target);
      }
      FloorIs(base, es, target, slot);
      return ParseEntry(slot);
    }

    method LastPosition() returns (r: SeqPosition)
      requires Valid()
      ensures Entries() == [] ==> r == SeqPosition(base, 0)
      ensures Entries() != [] ==>
                var last := Entries()[|Entries()| - 1];
                r == SeqPosition((base + last.relative) % TWO32, last.position)
    {
      if position == 0 {
        return SeqPosition(base, 0);
      }
      return ParseEntry(position / ENTRY_SIZE - 1);
    }

    /** Close cuts the file back to the entries; opening it again gives them back, all but the last of a full table. */
    method Close() returns (file: bytes)
      requires Valid()
      ensures |file| == |Entries()| * 8
      ensures (forall e :: e in Entries() ==> e.relative != 0) ==>
        CleanTail(file) && RecoveredEntries(file) == Entries()[..Min(|Entries()|, 262_143)]
    {
      hide EntryAt, Mapped, CleanTail, RecoveredEntries, EntriesIn, RecoveredCount;
      if forall e :: e in Entries() ==> e.relative != 0 {
        ReopenRecovers(mmap[..], position / ENTRY_SIZE, false);
      }
      assert mmap[..][..position] == mmap[..position];
      return mmap[..position];
    }
  }

  lemma OrderedAfter(base: uint32, es: seq<Entry>, mid: nat)
    requires Ordered(base, es) && mid < |es|
    ensures base + es[mid].relative < TWO32
    ensures forall i :: mid < i < |es| ==> es[i].relative > es[mid].relative
  {
  }

  /** The reference for Lookup: scan the entries from the last to the first. */
  ghost function Floor(base: uint32, es: seq<Entry>, target: uint32): SeqPosition {
    if es == [] then SeqPosition(base, 0) else
    var last := es[|es| - 1];
    if base + last.relative <= target then SeqPosition(base + last.relative, last.position)
    else Floor(base, es[..|es| - 1], target)
  }

  lemma {:induction false} FloorIs(base: uint32, es: seq<Entry>, target: uint32, slot: nat)
    requires Splits(base, es, slot, target)
    ensures Floor(base, es, target) == SeqPosition(base + es[slot].relative, es[slot].position)
  {
    if slot < |es| - 1 {
      FloorIs(base, es[..|es| - 1], target, slot);
    }
  }

  lemma {:induction false} FloorBelow(base: uint32, es: seq<Entry>, target: uint32)
    requires forall i :: 0 <= i < |es| ==> base + es[i].relative > target
    ensures Floor(base, es, target) == SeqPosition(base, 0)
  {
    if es != [] {
      FloorBelow(base, es[..|es| - 1], target);
    }
  }

  lemma EntryRoundTrip(e: Entry)
    ensures DecodeEntry(EncodeEntry(e)) == e
  {
    hide PutU32, GetU32;
    var b := EncodeEntry(e);
    assert b[..4] == PutU32(e.relative) && b[4..] == PutU32(e.position);
    GetPutU32(e.relative);
    GetPutU32(e.position);
  }

  /** The entries a file will give back when it is opened. */
  function RecoveredEntries(file: bytes): seq<Entry> {
    EntriesIn(Mapped(file), RecoveredCount(Mapped(file), Min(|file|, MAX_BYTES), 0))
  }

  /** Nothing but zeros follows the entries a file gives back. */
  ghost predicate CleanTail(file: bytes) {
    ZeroFrom(Mapped(file), RecoveredCount(Mapped(file), Min(|file|, MAX_BYTES), 0))
  }

  lemma EmptyFileHasNoEntries()
    ensures RecoveredEntries([]) == [] && CleanTail([])
  {
  }

  lemma ZerosReadAsZero(memory: bytes, n: nat)
    requires ZeroFrom(memory, n) && n < MAX_ENTRIES
    ensures ReadEntryAt(memory, n).relative == 0
  {
    if n < MAX_ENTRIES - 1 {
      var slot := memory[n * ENTRY_SIZE..(n + 1) * ENTRY_SIZE];
      assert forall k :: 0 <= k < ENTRY_SIZE ==> slot[k] == memory[n * ENTRY_SIZE + k] == 0;
    }
  }

  lemma {:induction false} RecoveredCountIs(memory: bytes, n: nat, contentSize: nat, from: nat)
    requires n <= MAX_ENTRIES && ZeroFrom(memory, n)
    requires forall i :: 0 <= i < n ==> EntryAt(memory, i).relative != 0
    requires n * ENTRY_SIZE <= contentSize <= MAX_BYTES
    requires contentSize == n * ENTRY_SIZE || contentSize == MAX_BYTES
    requires from <= Min(n, MAX_ENTRIES - 1)
    ensures RecoveredCount(memory, contentSize, from) == Min(n, MAX_ENTRIES - 1)
    decreases n - from
  {
    hide EntryAt;
    if from < Min(n, MAX_ENTRIES - 1) {
      assert EntryAt(memory, from).relative != 0;
      RecoveredCountIs(memory, n, contentSize, from + 1);
    } else if n < MAX_ENTRIES {
      ZerosReadAsZero(memory, n);
    }
  }

  /**
   * Opening the file of an index that was closed (cut to its entries) or abandoned by a crash (left at its
   * full size) recovers every entry, except that a completely full table loses its last one.
   */
  lemma ReopenRecovers(memory: bytes, n: nat, crashed: bool)
    requires n <= MAX_ENTRIES && ZeroFrom(memory, n)
    requires forall e :: e in EntriesIn(memory, n) ==> e.relative != 0
    ensures var file := if crashed then memory else memory[..n * ENTRY_SIZE];
      var count := RecoveredCount(Mapped(file), Min(|file|, MAX_BYTES), 0);
      && count == Min(n, 262_143)
      && RecoveredEntries(file) == EntriesIn(memory, n)[..count]
      && CleanTail(file)
  {
    hide EntryAt, Mapped;
    var file := if crashed then memory else memory[..n * ENTRY_SIZE];
    var mapped := Mapped(file);
    MappedKeepsEntries(memory, n, file);
    forall i | 0 <= i < n
      ensures EntryAt(mapped, i) == EntryAt(memory, i) && EntryAt(mapped, i).relative != 0
    {
      SamePrefixSameEntry(mapped, memory, n, i);
      assert EntriesIn(memory, n)[i] in EntriesIn(memory, n);
    }
    RecoveredCountIs(mapped, n, Min(|file|, MAX_BYTES), 0);
  }

  lemma MappedKeepsEntries(memory: bytes, n: nat, file: bytes)
    requires n <= MAX_ENTRIES && ZeroFrom(memory, n)
    requires file == memory || file == memory[..n * ENTRY_SIZE]
    ensures Mapped(file)[..n * ENTRY_SIZE] == memory[..n * ENTRY_SIZE]
    ensures ZeroFrom(Mapped(file), n)
  {
  }

  lemma SamePrefixSameEntry(a: bytes, b: bytes, n: nat, i: nat)
    requires n * ENTRY_SIZE <= |a| && n * ENTRY_SIZE <= |b| && i < n
    requires a[..n * ENTRY_SIZE] == b[..n * ENTRY_SIZE]
    ensures EntryAt(a, i) == EntryAt(b, i)
  {
    var from, to := i * ENTRY_SIZE, (i + 1) * ENTRY_SIZE;
    assert a[from..to] == a[..n * ENTRY_SIZE][from..to] == b[..n * ENTRY_SIZE][from..to] == b[from..to];
  }

  /** Writing one slot adds its entry and keeps the earlier ones. */
  lemma AppendedEntry(before: bytes, after: bytes, n: nat, e: Entry)
    requires |before| == |after| && (n + 1) * ENTRY_SIZE <= |after|
    requires forall k :: 0 <= k < n * ENTRY_SIZE ==> after[k] == before[k]
    requires forall k :: 0 <= k < ENTRY_SIZE ==> after[n * ENTRY_SIZE + k] == EncodeEntry(e)[k]
    ensures EntriesIn(after, n + 1) == EntriesIn(before, n) + [e]
  {
    hide EncodeEntry, DecodeEntry;
    EntryRoundTrip(e);
    assert after[n * ENTRY_SIZE..(n + 1) * ENTRY_SIZE] == EncodeEntry(e);
    forall i | 0 <= i < n
      ensures EntryAt(after, i) == EntryAt(before, i)
    {
      assert after[i * ENTRY_SIZE..(i + 1) * ENTRY_SIZE] == before[i * ENTRY_SIZE..(i + 1) * ENTRY_SIZE];
    }
  }
}
