/** Level difficulty, its admin overrides and the star ladder (internal/models/expedition.go). */
module Tiers {
  import opened Prelude

  datatype Tier = Tier(
    star: int,
    gridCols: int,
    gridRows: int,
    playSeconds: int,
    category: string,
    xpReward: int,
    showOnMain: bool)

  /** An admin override; None keeps the default of that field. */
  datatype LevelConfig = LevelConfig(
    star: Option<int>,
    gridCols: Option<int>,
    gridRows: Option<int>,
    playSeconds: Option<int>,
    category: Option<string>,
    xpReward: Option<int>,
    showOnMain: Option<bool>)

  const ZERO_TIER := Tier(0, 0, 0, 0, "", 0, false)

  function Pieces(t: Tier): int {
    t.gridCols * t.gridRows
  }

  function TierForLevel(index: int): (t: Tier)
    ensures 1 <= t.star <= 5 && t.showOnMain
  {
    if index <= 20 then Tier(1, 4, 6, 120, "Abyss of Ruin", 100, true)
    else if index <= 40 then Tier(2, 6, 10, 300, "Shadow Vanguard", 200, true)
    else if index <= 60 then Tier(3, 8, 8, 480, "Eternal Dominion", 300, true)
    else if index <= 80 then Tier(4, 8, 12, 600, "Forsaken Citadel", 500, true)
    else Tier(5, 10, 16, 720, "Crimson Eclipse", 1000, true)
  }

  /** Five bands of twenty levels, the last one open, each harder and worth more than the one before. */
  lemma BandsOfTwenty(index: int)
    ensures var t := TierForLevel(index);
      var band := if index <= 20 then 0 else if index > 80 then 4 else (index - 1) / 20;
      && t.star == band + 1
      && Pieces(t) == [24, 60, 64, 96, 160][band]
      && t.gridCols == [4, 6, 8, 8, 10][band]
      && t.playSeconds == [120, 300, 480, 600, 720][band]
      && t.xpReward == [100, 200, 300, 500, 1000][band]
      && t.category == ["Abyss of Ruin", "Shadow Vanguard", "Eternal Dominion",
                        "Forsaken Citadel", "Crimson Eclipse"][band]
      && t.showOnMain
  {
  }

  function Override<T>(o: Option<T>, default: T): T {
    match o
    case Some(x) => x
    case None => default
  }

  /** The default tier with each configured field replaced. */
  function Effective(index: int, o: Option<LevelConfig>): Tier {
    var t := TierForLevel(index);
    match o
    case None => t
    case Some(c) =>
      Tier(Override(c.star, t.star), Override(c.gridCols, t.gridCols), Override(c.gridRows, t.gridRows),
           Override(c.playSeconds, t.playSeconds), Override(c.category, t.category),
           Override(c.xpReward, t.xpReward), Override(c.showOnMain, t.showOnMain))
  }

  /** A configured field is what the admin configured; any other is the default's. */
  lemma EffectiveFields(index: int, o: Option<LevelConfig>)
    ensures var (t, d) := (Effective(index, o), TierForLevel(index));
      && (o.None? ==> t == d)
      && (o.Some? ==>
            var c := o.value;
            && (if c.star.Some? then t.star == c.star.value else t.star == d.star)
            && (if c.gridCols.Some? then t.gridCols == c.gridCols.value else t.gridCols == d.gridCols)
            && (if c.gridRows.Some? then t.gridRows == c.gridRows.value else t.gridRows == d.gridRows)
            && (if c.playSeconds.Some? then t.playSeconds == c.playSeconds.value else t.playSeconds == d.playSeconds)
            && (if c.category.Some? then t.category == c.category.value else t.category == d.category)
            && (if c.xpReward.Some? then t.xpReward == c.xpReward.value else t.xpReward == d.xpReward)
            && (if c.showOnMain.Some? then t.showOnMain == c.showOnMain.value else t.showOnMain == d.showOnMain))
  {
  }

  method EffectiveTier(index: int, o: Option<LevelConfig>) returns (t: Tier)
    ensures t == Effective(index, o)
  {
    t := TierForLevel(index);
    if o.None? {
      return;
    }
    var c := o.value;
    if c.star.Some? { t := t.(star := c.star.value); }
    if c.gridCols.Some? { t := t.(gridCols := c.gridCols.value); }
    if c.gridRows.Some? { t := t.(gridRows := c.gridRows.value); }
    if c.playSeconds.Some? { t := t.(playSeconds := c.playSeconds.value); }
    if c.category.Some? { t := t.(category := c.category.value); }
    if c.xpReward.Some? { t := t.(xpReward := c.xpReward.value); }
    if c.showOnMain.Some? { t := t.(showOnMain := c.showOnMain.value); }
  }

  type TierTable = map<int, Tier>

  /** Go's map lookup: a missing level reads as the zero tier. */
  function At(tiers: TierTable, i: int): Tier {
    if i in tiers then tiers[i] else ZERO_TIER
  }

  /** What level i adds to the requirement of the map levels after it. */
  function Step(tiers: TierTable, i: int): int {
    if At(tiers, i).showOnMain then At(tiers, i).star else 0
  }

  /** Stars a map level requires: those of all map levels before it. */
  function Required(tiers: TierTable, index: int): int
    decreases index
  {
    if index <= 1 then 0 else Required(tiers, index - 1) + Step(tiers, index - 1)
  }

  /** The ladder rises at each level by its stars, if the level is on the map. */
  lemma RequiredRises(tiers: TierTable, i: int)
    requires i >= 1
    ensures Required(tiers, 1) == 0
    ensures Required(tiers, i + 1) - Required(tiers, i)
         == if i in tiers && tiers[i].showOnMain then tiers[i].star else 0
  {
  }

  method RequiredStarsFromTiers(tiers: TierTable, index: int) returns (total: int)
    ensures total == Required(tiers, index)
  {
    total := 0;
    var i := 1;
    while i < index
      invariant 1 <= i && (i <= index || i == 1)
      invariant total == Required(tiers, i)
    {
      if At(tiers, i).showOnMain {
        total := total + At(tiers, i).star;
      }
      i := i + 1;
    }
  }

  /** The un-overridden requirement, in closed form: five linear pieces. */
  function DefaultRequired(index: int): int {
    if index <= 1 then 0
    else if index <= 21 then index - 1
    else if index <= 41 then 20 + 2 * (index - 21)
    else if index <= 61 then 60 + 3 * (index - 41)
    else if index <= 81 then 120 + 4 * (index - 61)
    else 200 + 5 * (index - 81)
  }

  method RequiredStars(index: int) returns (total: int)
    ensures total == DefaultRequired(index)
  {
    total := 0;
    var i := 1;
    while i < index
      invariant 1 <= i && (i <= index || i == 1)
      invariant total == DefaultRequired(i)
    {
      total := total + TierForLevel(i).star;
      i := i + 1;
    }
  }

  /** Without overrides the two requirements are the same. */
  lemma {:induction false} DefaultsAgree(tiers: TierTable, index: int)
    requires forall i :: 1 <= i < index ==> i in tiers && tiers[i] == TierForLevel(i)
    ensures Required(tiers, index) == DefaultRequired(index)
    decreases index
  {
    if index > 1 { DefaultsAgree(tiers, index - 1); }
  }

  ghost predicate StarsNonNegative(tiers: TierTable) {
    forall i :: i in tiers ==> tiers[i].star >= 0
  }

  /** The ladder only climbs. */
  lemma {:induction false} RequiredMonotone(tiers: TierTable, i: int, j: int)
    requires StarsNonNegative(tiers) && i <= j
    ensures 0 <= Required(tiers, i) <= Required(tiers, j)
    decreases j - i, i
  {
    if i < j {
      RequiredMonotone(tiers, i, j - 1);
    } else if i > 1 {
      RequiredMonotone(tiers, i - 1, i - 1);
    }
  }

  /** Changing levels from `index` on does not change what `index` requires. */
  lemma {:induction false} RequiredLooksBackOnly(a: TierTable, b: TierTable, index: int)
    requires forall i :: 1 <= i < index ==> At(a, i) == At(b, i)
    ensures Required(a, index) == Required(b, index)
    decreases index
  {
    if index > 1 { RequiredLooksBackOnly(a, b, index - 1); }
  }

  // ----- Earning stars ----------------------------------------------------------------------

  /** Stars of the levels 1..n that are in `done`, collection levels included. */
  function Earned(tiers: TierTable, done: set<int>, n: nat): int {
    if n == 0 then 0 else Earned(tiers, done, n - 1) + if n in done then At(tiers, n).star else 0
  }

  lemma {:induction false} EarnedGrows(tiers: TierTable, done: set<int>, x: int, n: nat)
    requires x !in done
    ensures Earned(tiers, done + {x}, n)
         == Earned(tiers, done, n) + if 1 <= x <= n then At(tiers, x).star else 0
  {
    if n > 0 { EarnedGrows(tiers, done, x, n - 1); }
  }

  lemma {:induction false} EarnedMonotone(tiers: TierTable, done: set<int>, more: set<int>, n: nat)
    requires StarsNonNegative(tiers) && done <= more
    ensures 0 <= Earned(tiers, done, n) <= Earned(tiers, more, n)
  {
    if n > 0 { EarnedMonotone(tiers, done, more, n - 1); }
  }

  lemma {:induction false} EarnedDepends(a: TierTable, b: TierTable, done: set<int>, n: nat, m: nat)
    requires n <= m
    requires forall i :: i in done ==> 1 <= i <= n && At(a, i) == At(b, i)
    ensures Earned(a, done, n) == Earned(b, done, m)
    decreases m
  {
    if n < m {
      EarnedDepends(a, b, done, n, m - 1);
    } else if n > 0 {
      EarnedGrowsSplit(a, b, done, n);
    }
  }

  lemma {:induction false} EarnedGrowsSplit(a: TierTable, b: TierTable, done: set<int>, n: nat)
    requires forall i :: i in done ==> At(a, i) == At(b, i)
    ensures Earned(a, done, n) == Earned(b, done, n)
  {
    if n > 0 { EarnedGrowsSplit(a, b, done, n - 1); }
  }

  /** A player who completed every map level before `index` has earned what it requires. */
  lemma {:induction false} PrefixPaysForNext(tiers: TierTable, done: set<int>, index: int, n: nat)
    requires StarsNonNegative(tiers) && 1 <= index <= n + 1
    requires forall i :: 1 <= i < index && At(tiers, i).showOnMain ==> i in done
    ensures Required(tiers, index) <= Earned(tiers, done, n)
    decreases index, n
  {
    if index <= n {
      EarnedMonotone(tiers, {}, done, n);
      PrefixPaysForNext(tiers, done, index, n - 1);
    } else if index > 1 {
      PrefixPaysForNext(tiers, done, index - 1, n - 1);
    }
  }

  /** Adding up over the completed levels in any order gives the same total. */
  function Tally(tiers: TierTable, completed: seq<int>): int {
    if completed == [] then 0 else Tally(tiers, Init(completed)) + At(tiers, Last(completed)).star
  }

  lemma {:induction false} TallyIsEarned(tiers: TierTable, completed: seq<int>, n: nat)
    requires Distinct(completed) && forall i :: i in completed ==> 1 <= i <= n
    ensures Tally(tiers, completed) == Earned(tiers, Elements(completed), n)
  {
    if completed == [] {
      assert Elements(completed) == {};
      EarnedNothing(tiers, n);
    } else {
      assert forall i :: i in Init(completed) ==> i in completed;
      TallyIsEarned(tiers, Init(completed), n);
      EarnedGrows(tiers, Elements(Init(completed)), Last(completed), n);
      assert Elements(completed) == Elements(Init(completed)) + {Last(completed)};
    }
  }

  lemma {:induction false} EarnedNothing(tiers: TierTable, n: nat)
    ensures Earned(tiers, {}, n) == 0
  {
    if n > 0 { EarnedNothing(tiers, n - 1); }
  }
}
