/** The XP level curve and its int64 arithmetic (config/config.go). */
module Levels {

  const LEVEL_XP_STEP := 1000

  /** The XP a level takes in all, in unbounded integers. */
  function XPForLevel(level: int): int {
    if level <= 1 then 0 else LEVEL_XP_STEP * level * (level - 1) / 2
  }

  // ----- the curve -----

  lemma PairsStep(a: int)
    ensures (a + 1) * a == a * (a - 1) + 2 * a
  {
  }

  lemma CurveIsExact(level: int)
    requires level >= 1
    ensures XPForLevel(level) == 500 * (level * (level - 1))
  {
    assert LEVEL_XP_STEP * level * (level - 1) == 1000 * (level * (level - 1));
  }

  /** A level's step is exactly 1000 times the level, and the first level is free. */
  lemma StepIsExact(level: int)
    ensures level >= 1 ==> XPForLevel(level + 1) == XPForLevel(level) + 1000 * level
    ensures level <= 1 ==> XPForLevel(level) == 0
  {
    if level >= 1 {
      CurveIsExact(level);
      CurveIsExact(level + 1);
      PairsStep(level);
    }
  }

  lemma {:induction false} CurveRises(a: int, b: int)
    requires 1 <= a < b
    ensures XPForLevel(a) + LEVEL_XP_STEP * a <= XPForLevel(b)
    decreases b
  {
    StepIsExact(b - 1);
    if a < b - 1 {
      CurveRises(a, b - 1);
    }
  }

  /** The level of a lifetime total: the last one whose XP is reached, and 1 below that. */
  ghost predicate IsLevel(xp: int, level: int) {
    level >= 1 && (level == 1 || XPForLevel(level) <= xp) && xp < XPForLevel(level + 1)
  }

  /** There is one level for a total, and more XP never means a lower one. */
  lemma LevelIsMonotone(xp: int, more: int, a: int, b: int)
    requires IsLevel(xp, a) && IsLevel(more, b) && xp <= more
    ensures a <= b && (xp == more ==> a == b)
  {
    if b < a {
      if b + 1 < a {
        CurveRises(b + 1, a);
      }
    }
    if a < b && xp == more && a + 1 < b {
      CurveRises(a + 1, b);
    }
  }

  // ----- int64 -----

  const TWO_63 := 0x8000_0000_0000_0000

  predicate IsInt64(x: int) {
    -TWO_63 <= x < TWO_63
  }

  /** The result of an int64 operation: the low 64 bits, signed. */
  function Wrap(x: int): int {
    (x + 0x8000_0000_0000_0000) % 0x1_0000_0000_0000_0000 - 0x8000_0000_0000_0000
  }

  lemma WrapIsIdentityExactly(x: int)
    ensures Wrap(x) == x <==> IsInt64(x)
  {
  }

  /** XPForLevel as the machine computes it: two wrapping products and a division that truncates. */
  function WrappedXP(level: int): int {
    if level <= 1 then 0
    else
      var product := Wrap(Wrap(1000 * level) * (level - 1));
      if product >= 0 then product / 2 else -(-product / 2)
  }

  /** Wrapping takes off a multiple of 2^64. */
  lemma WrapTakesOff(x: int) returns (k: int)
    ensures Wrap(x) == x - k * 0x1_0000_0000_0000_0000
  {
    k := (x + 0x8000_0000_0000_0000) / 0x1_0000_0000_0000_0000;
  }

  lemma WrapIgnoresMultiples(x: int, k: int)
    ensures Wrap(x - k * 0x1_0000_0000_0000_0000) == Wrap(x)
  {
  }

  lemma Distributes(a: int, k: int, b: int)
    ensures (a - k * 0x1_0000_0000_0000_0000) * b == a * b - (k * b) * 0x1_0000_0000_0000_0000
  {
  }

  /** A factor may be wrapped before the product is. */
  lemma WrapsOnce(a: int, b: int)
    ensures Wrap(Wrap(a) * b) == Wrap(a * b)
  {
    var k := WrapTakesOff(a);
    Distributes(a, k, b);
    WrapIgnoresMultiples(a * b, k * b);
  }

  /** What is left of an even number is even, so nothing is truncated. */
  lemma WrapHalves(m: int) returns (h: int)
    ensures Wrap(2 * m) == 2 * h && (2 * h >= 0 ==> 2 * h / 2 == h) && (2 * h < 0 ==> -(-(2 * h) / 2) == h)
  {
    var k := WrapTakesOff(2 * m);
    h := m - k * 0x8000_0000_0000_0000;
  }

  lemma Regroups(a: int, b: int, c: int)
    ensures a * b * c == a * (b * c)
  {
  }

  /** The machine's result is half of the product's low 64 bits, whether they come out negative or not. */
  lemma HalfOfTheProduct(level: int)
    ensures level >= 1 ==> 2 * WrappedXP(level) == Wrap(1000 * (level * (level - 1)))
    ensures level <= 1 ==> WrappedXP(level) == 0
  {
    var pairs := level * (level - 1);
    WrapsOnce(1000 * level, level - 1);
    Regroups(1000, level, level - 1);
    var h := WrapHalves(500 * pairs);
    assert 2 * (500 * pairs) == 1000 * pairs;
  }

  /** The last level whose product fits. */
  const LAST_LEVEL := 96_038_388

  lemma ProductFitsExactly(level: int)
    requires 1 <= level <= LAST_LEVEL + 1
    ensures WrappedXP(level) == XPForLevel(level) <==> level <= LAST_LEVEL
    ensures level == LAST_LEVEL + 1 ==> WrappedXP(level) < 0
  {
    WrapIsIdentityExactly(1000 * level);
    if level <= LAST_LEVEL {
      CurveIsExact(level);
      CurveIsExact(LAST_LEVEL);
      if level < LAST_LEVEL {
        CurveRises(level, LAST_LEVEL);
      }
      assert 1000 * level * (level - 1) == 1000 * (level * (level - 1));
      WrapIsIdentityExactly(1000 * level * (level - 1));
    } else {
      CurveIsExact(level);
    }
  }

  /** What the loop returns: the first level at which its condition is false. */
  ghost predicate LoopStopsAt(xp: int, level: int) {
    level >= 1 && WrappedXP(level + 1) > xp && forall k :: 2 <= k <= level ==> WrappedXP(k) <= xp
  }

  lemma LoopFindsTheLevel(xp: int, level: int)
    ensures LoopStopsAt(xp, level) && xp < XPForLevel(LAST_LEVEL) ==> IsLevel(xp, level)
  {
    if LoopStopsAt(xp, level) && xp < XPForLevel(LAST_LEVEL) {
      ProductFitsExactly(LAST_LEVEL);
      assert level >= LAST_LEVEL ==> WrappedXP(LAST_LEVEL) <= xp;
      ProductFitsExactly(level);
      ProductFitsExactly(level + 1);
    }
  }

  /** The product that wraps lets the loop run past the level it should have returned. */
  lemma LoopRunsPast(xp: int, level: int)
    ensures XPForLevel(LAST_LEVEL) <= xp < XPForLevel(LAST_LEVEL + 1) ==>
      IsLevel(xp, LAST_LEVEL) && (LoopStopsAt(xp, level) ==> level != LAST_LEVEL && !IsLevel(xp, level))
  {
    LastLevelBound();
    ProductFitsExactly(LAST_LEVEL + 1);
    if XPForLevel(LAST_LEVEL) <= xp < XPForLevel(LAST_LEVEL + 1) && IsLevel(xp, level) {
      LevelIsMonotone(xp, xp, level, LAST_LEVEL);
    }
  }

  /** From 2^62 on no wrapped product is ever above the total. */
  lemma LoopNeverStops(xp: int, level: int)
    requires xp >= 0x4000_0000_0000_0000
    ensures !LoopStopsAt(xp, level)
  {
    var product := Wrap(Wrap(1000 * (level + 1)) * level);
    assert product < 0x8000_0000_0000_0000;
  }

  /**
   * For every total: where the loop stops it has found the level exactly when the total is below the XP of the
   * last level whose product fits, 4611685936800078000.
   */
  lemma LevelIsRightExactly(xp: int, level: int)
    ensures LoopStopsAt(xp, level) ==> (IsLevel(xp, level) <==> xp < XPForLevel(LAST_LEVEL))
  {
    if xp < XPForLevel(LAST_LEVEL) {
      LoopFindsTheLevel(xp, level);
    } else if xp < XPForLevel(LAST_LEVEL + 1) {
      LoopRunsPast(xp, level);
    } else {
      CurveIsExact(LAST_LEVEL + 1);
      LoopNeverStops(xp, level);
    }
  }

  /** Finds the level, and no product wraps on the way. */
  method LevelFromXP(xp: int) returns (level: int)
    requires -TWO_63 <= xp < 4_611_685_936_800_078_000
    ensures IsLevel(xp, level) && level < LAST_LEVEL
    ensures LoopStopsAt(xp, level)
  {
    level := 1;
    LastLevelBound();
    ProductFitsExactly(2);
    while WrappedXP(level + 1) <= xp
      invariant 1 <= level < LAST_LEVEL
      invariant level == 1 || XPForLevel(level) <= xp
      invariant WrappedXP(level + 1) == XPForLevel(level + 1)
      invariant forall k :: 2 <= k <= level ==> WrappedXP(k) <= xp
      decreases LAST_LEVEL - level
    {
      level := level + 1;
      ProductFitsExactly(level + 1);
    }
  }

  lemma LastLevelBound()
    ensures XPForLevel(LAST_LEVEL) == 4_611_685_936_800_078_000
    ensures XPForLevel(LAST_LEVEL) > 4_000_000_000_000_000_000
  {
    CurveIsExact(LAST_LEVEL);
  }
}
