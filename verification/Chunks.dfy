/** Byte sequences cut into consecutive parts. */
module Chunks {
  import opened Bytes

  /** Where part i starts (i == |parts|: where the last one ends). */
  function Start(parts: seq<bytes>, i: nat): nat
    requires i <= |parts|
  {
    if i == 0 then 0 else Start(parts, i - 1) + |parts[i - 1]|
  }

  function Flatten(parts: seq<bytes>): (s: bytes)
    ensures |s| == Start(parts, |parts|)
  {
    if parts == [] then [] else
    var last := |parts| - 1;
    StartOfPrefix(parts[..last], parts, last);
    Flatten(parts[..last]) + parts[last]
  }

  lemma StartOfPrefix(prefix: seq<bytes>, parts: seq<bytes>, i: nat)
    requires prefix <= parts && i <= |prefix|
    ensures Start(prefix, i) == Start(parts, i)
    decreases i
  {
    if i > 0 { StartOfPrefix(prefix, parts, i - 1); }
  }

  lemma {:induction false} StartOfSuffix(parts: seq<bytes>, k: nat, i: nat)
    requires k <= i <= |parts|
    ensures Start(parts, i) == Start(parts, k) + Start(parts[k..], i - k)
    decreases i
  {
    if i > k { StartOfSuffix(parts, k, i - 1); }
  }

  lemma {:induction false} FlattenAppend(parts: seq<bytes>, more: seq<bytes>)
    ensures Flatten(parts + more) == Flatten(parts) + Flatten(more)
    decreases |more|
  {
    if more == [] {
      assert parts + more == parts;
    } else {
      var last := |more| - 1;
      var all := parts + more;
      assert all[..|all| - 1] == parts + more[..last] && all[|all| - 1] == more[last];
      FlattenAppend(parts, more[..last]);
      var head, middle, end := Flatten(parts), Flatten(more[..last]), more[last];
      assert Flatten(all) == (head + middle) + end && Flatten(more) == middle + end;
      assert (head + middle) + end == head + (middle + end);
    }
  }

  lemma FlattenOne(part: bytes)
    ensures Flatten([part]) == part
  {
    var one := [part];
    assert one[..0] == [];
  }

  lemma FlattenCons(part: bytes, more: seq<bytes>)
    ensures Flatten([part] + more) == part + Flatten(more)
  {
    FlattenAppend([part], more);
    FlattenOne(part);
  }

  /** Everything from part i on starts at Start(i). */
  lemma {:induction false} SuffixAt(parts: seq<bytes>, tail: bytes, i: nat)
    requires i <= |parts|
    ensures Start(parts, i) <= |Flatten(parts)|
    ensures (Flatten(parts) + tail)[Start(parts, i)..] == Flatten(parts[i..]) + tail
  {
    assert parts == parts[..i] + parts[i..];
    FlattenAppend(parts[..i], parts[i..]);
    StartOfPrefix(parts[..i], parts, i);
  }

  /** Part i lies between Start(i) and Start(i + 1). */
  lemma {:induction false} PartAt(parts: seq<bytes>, tail: bytes, i: nat)
    requires i < |parts|
    ensures Start(parts, i) + |parts[i]| == Start(parts, i + 1) <= |Flatten(parts)|
    ensures (Flatten(parts) + tail)[Start(parts, i)..Start(parts, i + 1)] == parts[i]
  {
    var all := Flatten(parts) + tail;
    SuffixAt(parts, tail, i);
    SuffixAt(parts, tail, i + 1);
    assert parts[i..] == [parts[i]] + parts[i + 1..];
    FlattenCons(parts[i], parts[i + 1..]);
    assert all[Start(parts, i)..Start(parts, i + 1)] == all[Start(parts, i)..][..|parts[i]|];
  }

  lemma StartMonotone(parts: seq<bytes>, i: nat, j: nat)
    requires i <= j <= |parts|
    ensures Start(parts, i) <= Start(parts, j)
    decreases j
  {
    if i < j { StartMonotone(parts, i, j - 1); }
  }
}
