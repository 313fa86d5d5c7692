/** Binary min-heaps as sequences of slots, and what one heap operation may do to them. */
module Heaps {

  /** A message in the queue: its identity and the time at which it becomes due. */
  datatype Slot = Slot(id: nat, pri: int)

  /** Go's (j - 1) / 2, which is 0 for the root. */
  function Parent(j: nat): nat {
    if j == 0 then 0 else (j - 1) / 2
  }

  lemma Children(i: nat)
    ensures forall k: nat :: k > 0 && Parent(k) == i <==> k == 2 * i + 1 || k == 2 * i + 2
  {
  }

  predicate EdgeOk(h: seq<Slot>, j: nat)
    requires j < |h|
  {
    h[Parent(j)].pri <= h[j].pri
  }

  /** The first n slots form a heap. */
  ghost predicate HeapUpTo(h: seq<Slot>, n: nat)
    requires n <= |h|
  {
    forall j :: 0 <= j < n ==> EdgeOk(h, j)
  }

  ghost predicate IsHeap(h: seq<Slot>) {
    HeapUpTo(h, |h|)
  }

  /** A heap but for the slot i, which may be too small for its parent; its children are not. */
  ghost predicate HeapButUp(h: seq<Slot>, n: nat, i: nat)
    requires i < n <= |h|
  {
    && (forall j :: 0 <= j < n && j != i ==> EdgeOk(h, j))
    && (i > 0 ==> forall j :: 0 < j < n && Parent(j) == i ==> h[Parent(i)].pri <= h[j].pri)
  }

  /** A heap but for the slot i, which may also be too large for its children. */
  ghost predicate HeapButDown(h: seq<Slot>, n: nat, i: nat)
    requires i < n <= |h|
  {
    && (forall j :: 0 <= j < n && j != i && (j == 0 || Parent(j) != i) ==> EdgeOk(h, j))
    && (i > 0 ==> forall j :: 0 < j < n && Parent(j) == i ==> h[Parent(i)].pri <= h[j].pri)
  }

  function Swapped<T>(s: seq<T>, i: nat, j: nat): (r: seq<T>)
    requires i < |s| && j < |s|
    ensures |r| == |s|
  {
    s[i := s[j]][j := s[i]]
  }

  lemma SwappedIsPermutation<T>(s: seq<T>, i: nat, j: nat)
    requires i < |s| && j < |s|
    ensures multiset(Swapped(s, i, j)) == multiset(s)
    ensures forall x :: x in Swapped(s, i, j) <==> x in s
    ensures forall k :: 0 <= k < |s| && k != i && k != j ==> Swapped(s, i, j)[k] == s[k]
  {
    var r := Swapped(s, i, j);
    assert multiset(r) == multiset(s);
    assert forall x :: x in r <==> x in multiset(r);
  }

  /** One step of sifting up: the small slot takes its parent's place. */
  lemma SiftUpStep(h: seq<Slot>, n: nat, j: nat)
    requires 0 < j < n <= |h| && HeapButUp(h, n, j) && h[j].pri < h[Parent(j)].pri
    ensures HeapButUp(Swapped(h, Parent(j), j), n, Parent(j))
  {
    var i := Parent(j);
    var r := Swapped(h, i, j);
    forall k | 0 <= k < n && k != i
      ensures EdgeOk(r, k)
    {
      assert k != j ==> EdgeOk(h, k);
    }
    forall k | 0 < k < n && Parent(k) == i
      ensures r[Parent(i)].pri <= r[k].pri
    {
      assert EdgeOk(h, i);
      assert k != j ==> EdgeOk(h, k);
    }
  }

  lemma SiftUpEnd(h: seq<Slot>, n: nat, j: nat)
    requires j < n <= |h| && HeapButUp(h, n, j) && (j == 0 || h[j].pri >= h[Parent(j)].pri)
    ensures HeapUpTo(h, n)
  {
  }

  /** One step of sifting down: the smaller child takes the place of the large slot. */
  lemma SiftDownStep(h: seq<Slot>, n: nat, i: nat, j: nat)
    requires 0 < j < n <= |h| && Parent(j) == i && HeapButDown(h, n, i) && h[j].pri < h[i].pri
    requires forall k :: 0 < k < n && Parent(k) == i ==> h[j].pri <= h[k].pri
    ensures HeapButDown(Swapped(h, i, j), n, j)
    ensures EdgeOk(Swapped(h, i, j), i) && EdgeOk(Swapped(h, i, j), j)
  {
    var r := Swapped(h, i, j);
    forall k | 0 <= k < n && k != j && (k == 0 || Parent(k) != j)
      ensures EdgeOk(r, k)
    {
      assert k != i && Parent(k) != i ==> EdgeOk(h, k);
    }
    forall k | 0 < k < n && Parent(k) == j
      ensures r[Parent(j)].pri <= r[k].pri
    {
      assert EdgeOk(h, k);
    }
  }

  /** When sifting down from i0 ends at i, at most the slot i0 is still too small for its parent. */
  lemma SiftDownEnd(h: seq<Slot>, n: nat, i0: nat, i: nat)
    requires i0 < n <= |h| && i < n && HeapButDown(h, n, i)
    requires i == i0 || EdgeOk(h, i)
    requires forall k :: 0 < k < n && Parent(k) == i ==> h[i].pri <= h[k].pri
    ensures HeapButUp(h, n, i0)
    ensures i0 == 0 ==> HeapUpTo(h, n)
  {
    forall k | 0 < i0 && 0 < k < n && Parent(k) == i0
      ensures h[Parent(i0)].pri <= h[k].pri
    {
      if i != i0 {
        assert EdgeOk(h, i0);
        assert EdgeOk(h, k);
      }
    }
  }

  /** Putting a heap's last slot in place of slot i leaves a heap but for slot i. */
  lemma ReplacedByLast(h: seq<Slot>, i: nat)
    requires IsHeap(h) && i < |h| - 1
    ensures HeapButDown(Swapped(h, i, |h| - 1), |h| - 1, i)
  {
    var n := |h| - 1;
    var r := Swapped(h, i, n);
    forall k | 0 <= k < n && k != i && (k == 0 || Parent(k) != i)
      ensures EdgeOk(r, k)
    {
      assert EdgeOk(h, k);
    }
    forall k | 0 < i && 0 < k < n && Parent(k) == i
      ensures r[Parent(i)].pri <= r[k].pri
    {
      assert EdgeOk(h, k) && EdgeOk(h, i);
    }
  }

  /** A slot added at the end of a heap is the only one that may be out of place. */
  lemma AddedAtEnd(h: seq<Slot>, x: Slot)
    requires IsHeap(h)
    ensures HeapButUp(h + [x], |h| + 1, |h|)
  {
    var r := h + [x];
    forall k | 0 <= k < |h|
      ensures EdgeOk(r, k)
    {
      assert EdgeOk(h, k);
    }
  }

  /** Dropping the slots after the first n. */
  lemma FirstSlots(h: seq<Slot>, n: nat)
    requires n < |h| && HeapUpTo(h, n)
    ensures IsHeap(h[..n])
    ensures n == |h| - 1 ==> multiset(h[..n]) == multiset(h) - multiset{h[n]}
  {
    forall k | 0 <= k < n
      ensures EdgeOk(h[..n], k)
    {
      assert EdgeOk(h, k);
    }
    if n == |h| - 1 { assert h == h[..n] + [h[n]]; }
  }

  /** The root is a minimum. */
  lemma {:induction false} RootIsMinimal(h: seq<Slot>, k: nat)
    requires IsHeap(h) && k < |h|
    ensures h[0].pri <= h[k].pri
  {
    if k > 0 {
      assert EdgeOk(h, k);
      RootIsMinimal(h, Parent(k));
    }
  }

  // ------------------------------------------------ operations, as relations

  ghost predicate Pushed(h: seq<Slot>, h': seq<Slot>, x: Slot) {
    IsHeap(h') && multiset(h') == multiset(h) + multiset{x}
  }

  ghost predicate Removed(h: seq<Slot>, h': seq<Slot>, x: Slot) {
    IsHeap(h') && x in h && multiset(h') == multiset(h) - multiset{x}
  }
}
