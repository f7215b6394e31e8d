/**
 The coordinate arithmetic of touch_inject in the 32-bit types the C++ expressions have:
 products of a uint32 wrap, the product of the flipped branch is signed.
 */
module TouchScaling {
  const TWO_31: int := 0x8000_0000
  const TWO_32: int := 0x1_0000_0000

  /** The largest screen coordinate a client sends. */
  const SPAN: int := 65535

  type int32 = n: int | -TWO_31 <= n < TWO_31
  type coordinate = v: nat | v <= SPAN

  /** Conversion to uint32 */
  function ToU32(z: int): (u: nat)
    ensures u < TWO_32
  {
    z % TWO_32
  }

  /** A 32-bit pattern read as a signed number, as write_event's __s32 parameter does. */
  function ToS32(z: int): (n: int32)
  {
    var u := ToU32(z);
    if u < TWO_31 then u else u - TWO_32
  }

  /** C division of signed numbers truncates toward zero. */
  function TruncDiv(a: int, b: int): int
    requires b > 0
  {
    if a >= 0 then a / b else -((-a) / b)
  }

  /** lo + (v * (hi - lo)) / 65535 with v a uint32 */
  function ScaleUp(v: coordinate, lo: int32, hi: int32): int32
  {
    ToS32(ToU32(lo) + ToU32(v * ToU32(hi - lo)) / SPAN)
  }

  /** hi - (v * (hi - lo)) / 65535 with v an int */
  function ScaleDown(v: coordinate, lo: int32, hi: int32): int32
  {
    ToS32(hi - TruncDiv(ToS32(v * ToS32(hi - lo)), SPAN))
  }

  /** How far along the axis v reaches, rounded down. */
  function Offset(v: coordinate, range: nat): nat
  {
    (v * range) / SPAN
  }

  lemma OffsetBounds(v: coordinate, range: nat)
    ensures 0 <= v * range
    ensures Offset(v, range) * SPAN <= v * range < Offset(v, range) * SPAN + SPAN
  {
  }

  lemma OffsetRange(v: coordinate, range: nat)
    ensures 0 <= Offset(v, range) <= range
    ensures Offset(0, range) == 0 && Offset(SPAN, range) == range
  {
    OffsetBounds(v, range);
    assert v * range <= SPAN * range;
    assert (SPAN * range) / SPAN == range;
    assert 0 * range == 0;
  }

  lemma OffsetMonotone(v: coordinate, w: coordinate, range: nat)
    requires v <= w
    ensures Offset(v, range) <= Offset(w, range)
  {
    OffsetBounds(v, range);
    OffsetBounds(w, range);
    assert v * range <= w * range;
  }

  lemma OffsetMirrored(v: coordinate, range: nat)
    ensures 0 <= range - Offset(v, range) - Offset(SPAN - v, range) <= 1
  {
    var a, b := Offset(v, range), Offset(SPAN - v, range);
    OffsetBounds(v, range);
    OffsetBounds(SPAN - v, range);
    assert v * range + (SPAN - v) * range == SPAN * range;
    assert (a + b) * SPAN <= SPAN * range < (a + b + 2) * SPAN;
  }

  /* ---------- when the 32-bit results are exact ---------- */

  lemma ProductBelow(v: coordinate, range: nat, bound: nat)
    requires range <= bound
    ensures 0 <= v * range <= SPAN * bound
  {
    assert v * range <= SPAN * range;
  }

  lemma ReadBack(lo: int32, q: nat)
    requires lo + q < TWO_31
    ensures ToS32(ToU32(lo) + q) == lo + q
  {
  }

  lemma ScaleUpExact(v: coordinate, lo: int32, hi: int32)
    requires lo <= hi <= lo + 65537
    ensures ScaleUp(v, lo, hi) == lo + Offset(v, hi - lo)
  {
    var range := hi - lo;
    ProductBelow(v, range, 65537);
    assert ToU32(range) == range && ToU32(v * range) == v * range;
    OffsetRange(v, range);
    ReadBack(lo, Offset(v, range));
  }

  lemma ScaleUpWraps(lo: int32, hi: int32)
    requires lo + 65538 <= hi < lo + TWO_31
    ensures ScaleUp(SPAN, lo, hi) != lo + Offset(SPAN, hi - lo)
  {
    var range := hi - lo;
    OffsetRange(SPAN, range);
    var q := ToU32(SPAN * ToU32(range)) / SPAN;
    assert q <= 65537;
    ReadBack(lo, q);
  }

  /** The unsigned product never wraps exactly on the axes of at most 65537 steps. */
  lemma ScaleUpExactIff(lo: int32, hi: int32)
    requires lo <= hi < lo + TWO_31
    ensures hi - lo <= 65537 <==> forall v: coordinate :: ScaleUp(v, lo, hi) == lo + Offset(v, hi - lo)
  {
    if hi - lo <= 65537 {
      forall v: coordinate
        ensures ScaleUp(v, lo, hi) == lo + Offset(v, hi - lo)
      {
        ScaleUpExact(v, lo, hi);
      }
    } else {
      ScaleUpWraps(lo, hi);
      var v: coordinate := SPAN;
      assert ScaleUp(v, lo, hi) != lo + Offset(v, hi - lo);
    }
  }

  lemma ScaleDownExact(v: coordinate, lo: int32, hi: int32)
    requires lo <= hi <= lo + 32768
    ensures ScaleDown(v, lo, hi) == hi - Offset(v, hi - lo)
  {
    var range := hi - lo;
    ProductBelow(v, range, 32768);
    assert ToS32(range) == range && ToS32(v * range) == v * range;
    OffsetRange(v, range);
  }

  lemma SmallDifference(hi: int32, q: int, range: int)
    requires -32769 <= q <= 32768 < range < TWO_31 && -TWO_31 <= hi - range
    ensures ToS32(hi - q) != hi - range
  {
  }

  lemma ScaleDownWraps(lo: int32, hi: int32)
    requires lo + 32769 <= hi < lo + TWO_31
    ensures ScaleDown(SPAN, lo, hi) != hi - Offset(SPAN, hi - lo)
  {
    var range := hi - lo;
    OffsetRange(SPAN, range);
    var q := TruncDiv(ToS32(SPAN * ToS32(range)), SPAN);
    assert -32769 <= q <= 32768;
    SmallDifference(hi, q, range);
  }

  /** The signed product of the flipped branch overflows beyond 32768 steps. */
  lemma ScaleDownExactIff(lo: int32, hi: int32)
    requires lo <= hi < lo + TWO_31
    ensures hi - lo <= 32768 <==> forall v: coordinate :: ScaleDown(v, lo, hi) == hi - Offset(v, hi - lo)
  {
    if hi - lo <= 32768 {
      forall v: coordinate
        ensures ScaleDown(v, lo, hi) == hi - Offset(v, hi - lo)
      {
        ScaleDownExact(v, lo, hi);
      }
    } else {
      ScaleDownWraps(lo, hi);
      var v: coordinate := SPAN;
      assert ScaleDown(v, lo, hi) != hi - Offset(v, hi - lo);
    }
  }

  /* ---------- what the scaled coordinates satisfy ---------- */

  /** In range, monotone, ends to ends, and a mirrored input gives the reflected coordinate within one unit. */
  lemma ScaleUpProperties(v: coordinate, w: coordinate, lo: int32, hi: int32)
    requires lo <= hi <= lo + 65537
    ensures lo <= ScaleUp(v, lo, hi) <= hi
    ensures v <= w ==> ScaleUp(v, lo, hi) <= ScaleUp(w, lo, hi)
    ensures ScaleUp(0, lo, hi) == lo && ScaleUp(SPAN, lo, hi) == hi
    ensures 0 <= (lo + hi - ScaleUp(v, lo, hi)) - ScaleUp(SPAN - v, lo, hi) <= 1
  {
    ScaleUpExact(v, lo, hi);
    ScaleUpExact(w, lo, hi);
    ScaleUpExact(0, lo, hi);
    ScaleUpExact(SPAN, lo, hi);
    ScaleUpExact(SPAN - v, lo, hi);
    OffsetRange(v, hi - lo);
    OffsetMirrored(v, hi - lo);
    if v <= w {
      OffsetMonotone(v, w, hi - lo);
    }
  }

  lemma ScaleDownProperties(v: coordinate, w: coordinate, lo: int32, hi: int32)
    requires lo <= hi <= lo + 32768
    ensures lo <= ScaleDown(v, lo, hi) <= hi
    ensures v <= w ==> ScaleDown(v, lo, hi) >= ScaleDown(w, lo, hi)
    ensures ScaleDown(0, lo, hi) == hi && ScaleDown(SPAN, lo, hi) == lo
    ensures -1 <= (lo + hi - ScaleDown(v, lo, hi)) - ScaleDown(SPAN - v, lo, hi) <= 0
  {
    ScaleDownExact(v, lo, hi);
    ScaleDownExact(w, lo, hi);
    ScaleDownExact(0, lo, hi);
    ScaleDownExact(SPAN, lo, hi);
    ScaleDownExact(SPAN - v, lo, hi);
    OffsetRange(v, hi - lo);
    OffsetMirrored(v, hi - lo);
    if v <= w {
      OffsetMonotone(v, w, hi - lo);
    }
  }

  /* ---------- when a touch lands on its axis at all ---------- */

  lemma WrapsDown(z: nat)
    ensures ToU32(z) <= z
  {
  }

  lemma QuotientBelow(z: nat, range: nat)
    requires z <= SPAN * range
    ensures z / SPAN <= range
  {
  }

  /** Wrapping only makes the product smaller. */
  lemma WrappedQuotient(v: coordinate, range: nat)
    ensures 0 <= ToU32(v * range) / SPAN <= range
  {
    ProductBelow(v, range, range);
    WrapsDown(v * range);
    QuotientBelow(ToU32(v * range), range);
  }

  lemma ScaleUpLands(v: coordinate, lo: int32, hi: int32)
    requires lo <= hi < lo + TWO_31
    ensures lo <= ScaleUp(v, lo, hi) <= hi
  {
    var range := hi - lo;
    assert ToU32(range) == range;
    WrappedQuotient(v, range);
    hide ToU32;
    ReadBack(lo, ToU32(v * range) / SPAN);
  }

  lemma ProductAtLeast(v: nat, w: nat, range: nat)
    ensures v >= w ==> v * range >= w * range
  {
  }

  lemma OverflowsBySpan(v: nat, range: nat)
    requires 32768 < range && v * range < TWO_31 + range
    ensures v <= SPAN
  {
    ProductAtLeast(v, SPAN + 1, range);
  }

  /** The first coordinate whose product with the range overflows an int32. */
  function FirstOverflow(range: nat): (v: nat)
    requires 32768 < range < TWO_31
    ensures v <= SPAN && TWO_31 <= v * range < TWO_31 + range
  {
    var v := (TWO_31 + range - 1) / range;
    assert v * range <= TWO_31 + range - 1 < v * range + range;
    OverflowsBySpan(v, range);
    v
  }

  lemma ThrownOff(lo: int32, hi: int32, q: int)
    requires lo <= hi < lo + TWO_31 && -32769 <= q <= -1
    ensures !(lo <= ToS32(hi - q) <= hi)
  {
  }

  /** A coordinate whose wrapped product is negative by at least one step. */
  function Misfit(range: nat): coordinate
    requires 32768 < range < TWO_31 - 1
  {
    if range <= TWO_31 - SPAN then FirstOverflow(range)
    else if TWO_32 - 2 * range >= SPAN then 2
    else SPAN - 1
  }

  lemma NegativeQuotient(v: coordinate, range: nat, product: int)
    requires 32768 < range < TWO_31 && -TWO_31 <= product <= -SPAN && ToU32(v * range) == product + TWO_32
    ensures -32769 <= TruncDiv(ToS32(v * ToS32(range)), SPAN) <= -1
  {
    assert ToS32(range) == range;
    assert ToS32(v * range) == product;
  }

  lemma WrapsTo(z: int, k: int)
    requires 0 <= z - k * TWO_32 < TWO_32
    ensures ToU32(z) == z - k * TWO_32
  {
  }

  lemma SignedIs(z: int, k: int)
    requires -TWO_31 <= z - k * TWO_32 < TWO_31
    ensures ToS32(z) == z - k * TWO_32
  {
  }

  lemma MisfitIsNegative(range: nat)
    requires 32768 < range < TWO_31 - 1
    ensures -32769 <= TruncDiv(ToS32(Misfit(range) * ToS32(range)), SPAN) <= -1
  {
    hide TruncDiv, ToS32, ToU32;
    var v := Misfit(range);
    var k := TWO_32 - 2 * range;
    if range <= TWO_31 - SPAN {
      WrapsTo(v * range, 0);
      NegativeQuotient(v, range, v * range - TWO_32);
    } else if k >= SPAN {
      WrapsTo(v * range, 0);
      NegativeQuotient(v, range, -k);
    } else {
      assert v * range == 32767 * TWO_32 - 32767 * k;
      WrapsTo(v * range, 32766);
      NegativeQuotient(v, range, -32767 * k);
    }
  }

  /** There the touch is thrown off the axis. */
  lemma ScaleDownMisses(lo: int32, hi: int32)
    requires lo + 32768 < hi < lo + TWO_31 - 1
    ensures !(lo <= ScaleDown(Misfit(hi - lo), lo, hi) <= hi)
  {
    hide TruncDiv, Misfit;
    MisfitIsNegative(hi - lo);
    ThrownOff(lo, hi, TruncDiv(ToS32(Misfit(hi - lo) * ToS32(hi - lo)), SPAN));
  }

  /** The lengths of an axis on which the flipped formula keeps every touch. */
  predicate Fitting(range: nat)
  {
    range <= 32768 || range == TWO_31 - 1
  }

  lemma AlmostNothing(v: coordinate, lo: int32, hi: int32, product: int32)
    requires hi - lo == TWO_31 - 1 && v > 0
    requires (product == 0 - v && v < SPAN) || product == TWO_31 - v
    ensures lo <= ToS32(hi - TruncDiv(product, SPAN)) <= hi
  {
  }

  lemma ScaleDownOfZero(lo: int32, hi: int32)
    ensures ScaleDown(0, lo, hi) == hi
  {
    assert 0 * ToS32(hi - lo) == 0;
  }

  /** On the longest axis there is every other product wraps to almost nothing, and none off the axis. */
  lemma LongestAxisLands(v: coordinate, lo: int32, hi: int32)
    requires hi - lo == TWO_31 - 1
    ensures lo <= ScaleDown(v, lo, hi) <= hi
  {
    hide TruncDiv, ToS32, ToU32;
    var j := v / 2;
    assert v * (hi - lo) == v * TWO_31 - v;
    if v == 0 {
      ScaleDownOfZero(lo, hi);
    } else {
      SignedIs(hi - lo, 0);
      SignedIs(v * (hi - lo), j);
      AlmostNothing(v, lo, hi, ToS32(v * (hi - lo)));
    }
  }

  lemma ScaleDownLands(v: coordinate, lo: int32, hi: int32)
    requires lo <= hi && Fitting(hi - lo)
    ensures lo <= ScaleDown(v, lo, hi) <= hi
  {
    hide ScaleDown;
    if hi - lo <= 32768 {
      ScaleDownExact(v, lo, hi);
      OffsetRange(v, hi - lo);
    } else {
      LongestAxisLands(v, lo, hi);
    }
  }

  /**
   The flipped formula keeps every touch on its axis exactly on the axes of at most 32768 steps,
   and on that of 2^31 - 1 steps.
   */
  lemma ScaleDownLandsIff(lo: int32, hi: int32)
    requires lo <= hi < lo + TWO_31
    ensures Fitting(hi - lo) <==> forall v: coordinate :: lo <= ScaleDown(v, lo, hi) <= hi
  {
    hide ScaleDown;
    if Fitting(hi - lo) {
      forall v: coordinate
        ensures lo <= ScaleDown(v, lo, hi) <= hi
      {
        ScaleDownLands(v, lo, hi);
      }
    } else {
      ScaleDownMisses(lo, hi);
    }
  }
}
