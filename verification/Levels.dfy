/** Experience points and levels (internal/models/models.go). */
module Levels {

  const MAX_LEVEL := 100
  const XP_BASE := 100

  function XPForLevelUp(level: int): int {
    if level >= MAX_LEVEL then 0 else XP_BASE * level * level
  }

  /** Total XP at which a level is reached: what all level-ups before it cost. */
  function XPAtLevel(level: int): int {
    if level <= 1 then 0 else XPAtLevel(level - 1) + XPForLevelUp(level - 1)
  }

  /** Six times the sum of the first squares below `level`. */
  function Cubic(level: int): int {
    (level - 1) * level * (2 * level - 1)
  }

  lemma CubicStep(n: int)
    ensures Cubic(n + 1) == Cubic(n) + 6 * (n * n)
  {
    var square := n * n;
    assert Cubic(n) == (square - n) * (2 * n - 1) == 2 * (square * n) - 3 * square + n;
    assert Cubic(n + 1) == (square + n) * (2 * n + 1) == 2 * (square * n) + 3 * square + n;
  }

  /** In closed form, 100·1² + 100·2² + ... + 100·(level-1)². */
  lemma {:induction false} ThresholdClosedForm(level: int)
    requires 1 <= level <= MAX_LEVEL
    ensures 6 * XPAtLevel(level) == XP_BASE * Cubic(level)
    decreases level
  {
    if level > 1 {
      ThresholdClosedForm(level - 1);
      CubicStep(level - 1);
      CostIsSquare(level - 1);
    }
  }

  lemma CostIsSquare(level: int)
    requires 1 <= level < MAX_LEVEL
    ensures XPForLevelUp(level) == XP_BASE * (level * level) && level * level > 0
  {
  }

  /** `level` is where `xp` stands, `into` the part of it beyond the level's threshold. */
  ghost predicate Stands(xp: int, level: int, into: int) {
    && 1 <= level <= MAX_LEVEL
    && xp == XPAtLevel(level) + into
    && (xp >= 0 ==> into >= 0)
    && (xp < 0 ==> level == 1)
    && (level < MAX_LEVEL ==> into < XPForLevelUp(level))
  }

  lemma {:induction false} ThresholdsIncrease(low: int, high: int)
    requires 1 <= low <= high <= MAX_LEVEL
    ensures low < high ==> XPAtLevel(low) < XPAtLevel(low) + XPForLevelUp(low) <= XPAtLevel(high)
    decreases high - low
  {
    if low < high {
      ThresholdsIncrease(low, high - 1);
      CostIsSquare(high - 1);
    }
  }

  method LevelFromXP(xp: int) returns (level: int, into: int, next: int)
    ensures Stands(xp, level, into)
    ensures next == XPForLevelUp(level)
    ensures 1 <= level <= 100 && next == if level == 100 then 0 else 100 * level * level
  {
    level := 1;
    var remaining := xp;
    while level < MAX_LEVEL
      invariant 1 <= level <= MAX_LEVEL
      invariant xp == XPAtLevel(level) + remaining
      invariant xp >= 0 ==> remaining >= 0
      invariant xp < 0 ==> level == 1
      decreases MAX_LEVEL - level
    {
      var cost := XPForLevelUp(level);
      if remaining < cost {
        break;
      }
      remaining := remaining - cost;
      level := level + 1;
    }
    return level, remaining, XPForLevelUp(level);
  }

  /** A total determines its level and remainder. */
  lemma StandingUnique(xp: int, l1: int, i1: int, l2: int, i2: int)
    requires Stands(xp, l1, i1) && Stands(xp, l2, i2)
    ensures l1 == l2 && i1 == i2
  {
    if xp >= 0 {
      if l1 < l2 { ThresholdsIncrease(l1, l2); }
      if l2 < l1 { ThresholdsIncrease(l2, l1); }
    }
  }

  /** More XP never means a lower level. */
  lemma StandingMonotone(xp1: int, l1: int, i1: int, xp2: int, l2: int, i2: int)
    requires Stands(xp1, l1, i1) && Stands(xp2, l2, i2) && xp1 <= xp2
    ensures l1 <= l2
  {
    if l2 < l1 { ThresholdsIncrease(l2, l1); }
  }

  /** A level is reached exactly at its threshold, not one point before. */
  lemma ReachedExactlyAtThreshold(xp: int, level: int, into: int, target: int)
    requires xp >= 0 && Stands(xp, level, into) && 1 <= target <= MAX_LEVEL
    ensures level >= target <==> xp >= XPAtLevel(target)
  {
    if target < level { ThresholdsIncrease(target, level); }
    if level < target { ThresholdsIncrease(level, target); }
  }
}
