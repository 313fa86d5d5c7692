/** Rounding a capacity up to a power of two by smearing its bits downwards (ring_buffer.go). */
module PowersOfTwo {
  import opened Bytes
  import opened Wrappers

  function Pow2(k: nat): (p: nat)
    ensures p >= 1
  {
    if k == 0 then 1 else 2 * Pow2(k - 1)
  }

  /** Bitwise or. */
  function Or(a: nat, b: nat): (c: nat)
    decreases a + b
    ensures c >= a && c >= b
  {
    if a == 0 && b == 0 then 0
    else (if a % 2 == 1 || b % 2 == 1 then 1 else 0) + 2 * Or(a / 2, b / 2)
  }

  /** Shift right. */
  function Shr(x: nat, k: nat): nat
    decreases k
  {
    if k == 0 then x else Shr(x / 2, k - 1)
  }

  function Smeared(x: nat): (y: nat)
    ensures y >= x
  {
    var x1 := Or(x, Shr(x, 1));
    var x2 := Or(x1, Shr(x1, 2));
    var x3 := Or(x2, Shr(x2, 4));
    var x4 := Or(x3, Shr(x3, 8));
    Or(x4, Shr(x4, 16))
  }

  const TOP := 0x4000_0000_0000_0000

  /** An argument above 2^62 panics. */
  method CeilToPowerOfTwo(n: int) returns (r: Outcome<int>)
    requires n < TWO63
    ensures r == if n > 0x4000_0000_0000_0000 then Panic else if n <= 2 then Ok(2) else Ok(Smeared(n - 1) + 1)
    ensures r.Ok? ==> r.value >= n
  {
    hide Or, Shr;
    if n > TOP {
      return Panic;
    }
    if n <= 2 {
      return Ok(2);
    }
    var x: nat := n - 1;
    x := Or(x, Shr(x, 1));
    x := Or(x, Shr(x, 2));
    x := Or(x, Shr(x, 4));
    x := Or(x, Shr(x, 8));
    x := Or(x, Shr(x, 16));
    return Ok(x + 1);
  }

  // ------------------------------------------------------------ single bits

  predicate BitAt(x: nat, p: nat) { Shr(x, p) % 2 == 1 }

  /** The low j bits are clear. */
  predicate LowClear(x: nat, j: nat) {
    j == 0 || (x % 2 == 0 && LowClear(x / 2, j - 1))
  }

  lemma {:induction false} ShrOr(a: nat, b: nat, k: nat)
    ensures Shr(Or(a, b), k) == Or(Shr(a, k), Shr(b, k))
    decreases k
  {
    if k > 0 {
      OrHalves(a, b);
      ShrOr(a / 2, b / 2, k - 1);
    }
  }

  lemma OrHalves(a: nat, b: nat)
    ensures Or(a, b) / 2 == Or(a / 2, b / 2)
    ensures Or(a, b) % 2 == 1 <==> a % 2 == 1 || b % 2 == 1
  {
  }

  lemma {:induction false} ShrShr(x: nat, a: nat, b: nat)
    ensures Shr(Shr(x, a), b) == Shr(x, a + b)
    decreases a
  {
    if a > 0 {
      ShrShr(x / 2, a - 1, b);
    }
  }

  lemma {:induction false} ClearTwice(x: nat, j: nat, k: nat)
    ensures LowClear(x, j + k) <==> LowClear(x, j) && LowClear(Shr(x, j), k)
    decreases j
  {
    if j > 0 {
      ClearTwice(x / 2, j - 1, k);
    }
  }

  /** Bit p of y is set just when one of the m bits of x from p on is. */
  predicate SpreadAt(y: nat, x: nat, m: nat, p: nat) {
    BitAt(y, p) <==> !LowClear(Shr(x, p), m)
  }

  ghost predicate Spread(y: nat, x: nat, m: nat) {
    forall p: nat :: SpreadAt(y, x, m, p)
  }

  lemma SpreadOnce(x: nat)
    ensures Spread(x, x, 1)
  {
    forall p: nat
      ensures SpreadAt(x, x, 1, p)
    {
      assert LowClear(Shr(x, p) / 2, 0);
    }
  }

  lemma SpreadTwice(y: nat, x: nat, m: nat)
    requires Spread(y, x, m)
    ensures Spread(Or(y, Shr(y, m)), x, 2 * m)
  {
    hide SpreadAt, Or, Shr;
    forall p: nat
      ensures SpreadAt(Or(y, Shr(y, m)), x, 2 * m, p)
    {
      SpreadTwiceAt(y, x, m, p);
    }
  }

  lemma SpreadTwiceAt(y: nat, x: nat, m: nat, p: nat)
    requires SpreadAt(y, x, m, p) && SpreadAt(y, x, m, p + m)
    ensures SpreadAt(Or(y, Shr(y, m)), x, 2 * m, p)
  {
    hide LowClear, Or, Shr, BitAt;
    OrOfShift(y, m, p);
    ClearTwice(Shr(x, p), m, m);
    ShrShr(x, p, m);
  }

  lemma OrOfShift(y: nat, m: nat, p: nat)
    ensures BitAt(Or(y, Shr(y, m)), p) <==> BitAt(y, p) || BitAt(y, p + m)
  {
    hide Or, Shr;
    ShrOr(y, Shr(y, m), p);
    ShrShr(y, m, p);
    assert p + m == m + p;
    OrHalves(Shr(y, p), Shr(y, m + p));
  }

  /** The five steps set a bit just when one of the 32 bits from it on is set. */
  lemma SmearedSpreads(x: nat)
    ensures Spread(Smeared(x), x, 32)
  {
    hide Spread, Or, Shr;
    SpreadOnce(x);
    SpreadTwice(x, x, 1);
    var x1 := Or(x, Shr(x, 1));
    SpreadTwice(x1, x, 2);
    var x2 := Or(x1, Shr(x1, 2));
    SpreadTwice(x2, x, 4);
    var x3 := Or(x2, Shr(x2, 4));
    SpreadTwice(x3, x, 8);
    var x4 := Or(x3, Shr(x3, 8));
    SpreadTwice(x4, x, 16);
  }

  // ------------------------------------------------------------ whole numbers

  lemma {:induction false} ShrIsDivision(x: nat, k: nat)
    ensures Shr(x, k) * Pow2(k) <= x < (Shr(x, k) + 1) * Pow2(k)
    decreases k
  {
    if k > 0 {
      ShrIsDivision(x / 2, k - 1);
      Doubled(Shr(x, k), Pow2(k - 1), x);
    }
  }

  lemma Doubled(q: nat, p: nat, x: nat)
    requires q * p <= x / 2 < (q + 1) * p
    ensures q * (2 * p) <= x < (q + 1) * (2 * p)
  {
    var a, b := q * p, (q + 1) * p;
    assert q * (2 * p) == 2 * a;
    assert (q + 1) * (2 * p) == 2 * b;
    assert 2 * a <= x < 2 * b;
  }

  lemma {:induction false} ClearIsMultiple(x: nat, j: nat)
    ensures LowClear(x, j) <==> x % Pow2(j) == 0
  {
    if j > 0 {
      var p := Pow2(j - 1);
      ClearIsMultiple(x / 2, j - 1);
      ModSplit(x, 2, p);
    }
  }

  /** x has t bits, all of them ones. */
  lemma {:induction false} AllOnes(x: nat, t: nat)
    ensures x + 1 == Pow2(t) <==> Shr(x, t) == 0 && forall p: nat | p < t :: BitAt(x, p)
    decreases t
  {
    if t > 0 {
      AllOnes(x / 2, t - 1);
      assert BitAt(x, 0) <==> x % 2 == 1;
      forall p: nat
        ensures BitAt(x / 2, p) == BitAt(x, p + 1)
      {
      }
      assert (forall p: nat | p < t :: BitAt(x, p)) <==> x % 2 == 1 && forall p: nat | p < t - 1 :: BitAt(x / 2, p) by {
        assert forall p: nat | 0 < p :: BitAt(x, p) == BitAt(x / 2, p - 1);
      }
    }
  }

  lemma BitLength(x: nat) returns (t: nat)
    requires x > 0
    ensures t >= 1 && Pow2(t - 1) <= x < Pow2(t)
    ensures Shr(x, t - 1) == 1
  {
    if x == 1 {
      t := 1;
    } else {
      t := BitLength(x / 2);
      t := t + 1;
    }
  }

  lemma {:induction false} Pow2Strict(a: nat, b: nat)
    ensures a < b <==> Pow2(a) < Pow2(b)
  {
    if a > 0 && b > 0 {
      Pow2Strict(a - 1, b - 1);
    }
  }

  lemma BeyondTop(x: nat, t: nat)
    requires x < Pow2(t)
    ensures Shr(x, t) == 0
  {
    ShrIsDivision(x, t);
    AtLeastOne(Shr(x, t), Pow2(t));
  }

  lemma AtLeastOne(q: nat, p: nat)
    ensures q > 0 ==> q * p >= p
  {
  }

  lemma ShrZero(k: nat)
    ensures Shr(0, k) == 0
  {
  }

  /** No 32 clear bits in a row below a set one. */
  ghost predicate Gapless(x: nat) {
    forall p: nat :: Shr(x, p) > 0 ==> Shr(x, p) % TWO32 != 0
  }

  lemma {:induction false} Pow2Of32()
    ensures Pow2(32) == TWO32
  {
    assert Pow2(4) == 16;
    assert Pow2(8) == 16 * Pow2(4);
    assert Pow2(12) == 16 * Pow2(8);
    assert Pow2(16) == 16 * Pow2(12);
    assert Pow2(20) == 16 * Pow2(16);
    assert Pow2(24) == 16 * Pow2(20);
    assert Pow2(28) == 16 * Pow2(24);
    assert Pow2(32) == 16 * Pow2(28);
  }

  lemma SmearedStaysBelow(x: nat, t: nat)
    requires x < Pow2(t)
    ensures Shr(Smeared(x), t) == 0
  {
    hide Smeared, LowClear, Shr;
    SmearedSpreads(x);
    var y := Smeared(x);
    if Shr(y, t) > 0 {
      var u := BitLength(Shr(y, t));
      ShrShr(y, t, u - 1);
      assert Shr(y, t + (u - 1)) == 1;
      assert SpreadAt(y, x, 32, t + (u - 1));
      BeyondTop(x, t);
      ShrShr(x, t, u - 1);
      ShrZero(u - 1);
      ZeroIsClear(32);
      assert false;
    }
  }

  lemma ZeroIsClear(j: nat)
    ensures LowClear(0, j)
  {
  }

  /**
   * The result is a power of two, and then the least one that is large enough, exactly when n - 1 has no gap of
   * 32 clear bits below its top bit.
   */
  lemma CeilIsPower(n: nat)
    requires n > 2
    ensures (exists t: nat :: Smeared(n - 1) + 1 == Pow2(t)) <==> Gapless(n - 1)
    ensures forall t: nat :: t > 0 && Smeared(n - 1) + 1 == Pow2(t) ==> Pow2(t - 1) < n <= Pow2(t)
  {
    hide Smeared, Pow2, Shr;
    var x: nat := n - 1;
    var y := Smeared(x);
    var t := BitLength(x);
    SmearedStaysBelow(x, t);
    SmearedIsOnes(x, t);
    forall u: nat | y + 1 == Pow2(u)
      ensures u == t
    {
      OnlyPower(x, y, t, u);
    }
  }

  lemma OnlyPower(x: nat, y: nat, t: nat, u: nat)
    requires t >= 1 && Pow2(t - 1) <= x <= y && Shr(y, t) == 0 && y + 1 == Pow2(u)
    ensures u == t
  {
    ShrIsDivision(y, t);
    Pow2Strict(t - 1, u);
    Pow2Strict(t, u);
  }

  lemma SmearedIsOnes(x: nat, t: nat)
    requires t >= 1 && Pow2(t - 1) <= x < Pow2(t) && Shr(x, t - 1) == 1 && Shr(Smeared(x), t) == 0
    ensures Smeared(x) + 1 == Pow2(t) <==> Gapless(x)
  {
    hide Smeared, Pow2, Shr, LowClear;
    var y := Smeared(x);
    SmearedSpreads(x);
    Pow2Of32();
    forall p: nat
      ensures BitAt(y, p) <==> Shr(x, p) % TWO32 != 0
    {
      assert SpreadAt(y, x, 32, p);
      ClearIsMultiple(Shr(x, p), 32);
    }
    AllOnes(y, t);
    forall p: nat
      ensures Shr(x, p) > 0 <==> p < t
    {
      PositiveBelowTop(x, t, p);
    }
  }

  lemma PositiveBelowTop(x: nat, t: nat, p: nat)
    requires t >= 1 && x < Pow2(t) && Shr(x, t - 1) == 1
    ensures Shr(x, p) > 0 <==> p < t
  {
    hide Pow2, Shr;
    if p < t {
      ShrShr(x, p, t - 1 - p);
      ShrZero(t - 1 - p);
    } else {
      BeyondTop(x, t);
      ShrShr(x, t, p - t);
      ShrZero(p - t);
    }
  }

  /** In particular up to 2^32. */
  lemma SmallIsGapless(n: nat)
    requires 2 < n <= TWO32
    ensures Gapless(n - 1)
  {
    var x := n - 1;
    forall p: nat
      ensures Shr(x, p) > 0 ==> Shr(x, p) % TWO32 != 0
    {
      ShrIsSmaller(x, p);
    }
  }

  lemma ShrIsSmaller(x: nat, p: nat)
    ensures Shr(x, p) <= x
    decreases p
  {
  }

  /** An argument above 2^32 for which it is not a power of two. */
  lemma CeilCanMiss()
    ensures !Gapless(TWO32) && !exists t: nat :: Smeared(TWO32) + 1 == Pow2(t)
  {
    hide Smeared;
    assert Shr(TWO32, 0) == TWO32;
    CeilIsPower(TWO32 + 1);
  }
}
