/** Which edits of a level's configuration can lock a level that was open, and which cannot. */
module CampaignEdits {
  import opened Prelude
  import opened Tiers
  import opened Campaign

  /**
   The edit of level j from one tier to another is safe. A level that ends on the map must
   have been there with the same stars; one that ends in a collection must not lose stars.
   The exceptions are edits too close to an end of the campaign for a level to be locked:
   lowering the stars of level 1, raising those of the last level there can be, and moving
   level 1 or 2 off the map.
   */
  predicate SafeEdit(j: int, before: Tier, after: Tier) {
    if after.showOnMain then
      && before.showOnMain
      && (|| after.star == before.star
          || (after.star < before.star && j == 1)
          || (after.star > before.star && j == MAX_LEVELS))
    else
      after.star >= before.star || (before.showOnMain && j <= 2)
  }

  /** If the user could play level i, changing level j's configuration to c does not take that away. */
  ghost predicate KeepsOpen(w: World, u: User, i: int, j: int, config: LevelConfig, c: LevelConfig) {
    && Sound(w) && u in w.bonus && 1 <= j <= Count(w) && w.levels[j].config == config
    && 1 <= i <= Count(w) && Open(w, u, i)
    ==> Open(Advance(w, Configure(j, c)), u, i)
  }

  // ----- Safe edits -----------------------------------------------------------------------------

  /** The two tables agree on every level but j. */
  ghost predicate DifferAt(a: TierTable, b: TierTable, j: int) {
    forall k :: k != j ==> At(a, k) == At(b, k)
  }

  lemma {:induction false} RequiredShifts(a: TierTable, b: TierTable, j: int, i: int)
    requires DifferAt(a, b, j)
    ensures Required(b, i) == Required(a, i) + if 1 <= j < i then Step(b, j) - Step(a, j) else 0
    decreases i
  {
    if i > 1 { RequiredShifts(a, b, j, i - 1); }
  }

  lemma {:induction false} EarnedShifts(a: TierTable, b: TierTable, done: set<int>, j: int, n: nat)
    requires DifferAt(a, b, j)
    ensures Earned(b, done, n)
         == Earned(a, done, n) + if 1 <= j <= n && j in done then At(b, j).star - At(a, j).star else 0
  {
    if n > 0 { EarnedShifts(a, b, done, j, n - 1); }
  }

  lemma EditedWorld(w: World, j: int, c: LevelConfig)
    requires Sound(w) && 1 <= j <= Count(w) && ConfigAccepted(c)
    ensures var v := Advance(w, Configure(j, c));
      && v == w.(levels := w.levels[j := w.levels[j].(config := Submitted(c))])
      && Sound(v) && Count(v) == Count(w)
  {
    SoundKept(w, Configure(j, c));
    assert w.levels[j := w.levels[j].(config := Submitted(c))].Keys == w.levels.Keys;
  }

  lemma TiersNonNegative(w: World)
    requires Sound(w)
    ensures StarsNonNegative(TiersOf(w.levels))
  {
  }

  /** How an edit moves a user's stars. */
  lemma EditMovesStars(w: World, u: User, j: int, c: LevelConfig)
    requires Sound(w) && u in w.bonus && 1 <= j <= Count(w) && ConfigAccepted(c)
    ensures var v := Advance(w, Configure(j, c)); var (a, b) := (TiersOf(w.levels), TiersOf(v.levels));
      TotalStars(v, u) == TotalStars(w, u) + if Cleared(w, u, j) then At(b, j).star - At(a, j).star else 0
  {
    EditedWorld(w, j, c);
    var v := Advance(w, Configure(j, c));
    assert Done(v, u) == Done(w, u);
    EarnedShifts(TiersOf(w.levels), TiersOf(v.levels), Done(w, u), j, Count(w));
  }

  /** How an edit moves a user's stars and a level's requirement. */
  lemma EditMoves(w: World, u: User, i: int, j: int, c: LevelConfig)
    requires Sound(w) && u in w.bonus && 1 <= j <= Count(w) && ConfigAccepted(c)
    ensures var v := Advance(w, Configure(j, c)); var (a, b) := (TiersOf(w.levels), TiersOf(v.levels));
      && DifferAt(a, b, j)
      && At(b, j) == Effective(j, Some(Submitted(c)))
      && Required(b, i) == Required(a, i) + (if j < i then Step(b, j) - Step(a, j) else 0)
      && TotalStars(v, u) == TotalStars(w, u) + (if Cleared(w, u, j) then At(b, j).star - At(a, j).star else 0)
  {
    EditedWorld(w, j, c);
    EditMovesStars(w, u, j, c);
    RequiredShifts(TiersOf(w.levels), TiersOf(Advance(w, Configure(j, c)).levels), j, i);
  }

  lemma SafeEditKeepsOpen(w: World, u: User, i: int, j: int, c: LevelConfig)
    requires Sound(w) && u in w.bonus && 1 <= j <= Count(w) && ConfigAccepted(c)
    requires SafeEdit(j, Effective(j, Some(w.levels[j].config)), Effective(j, Some(Submitted(c))))
    requires 1 <= i <= Count(w) && Open(w, u, i)
    ensures Open(Advance(w, Configure(j, c)), u, i)
  {
    EditedWorld(w, j, c);
    EditMoves(w, u, i, j, c);
    var v := Advance(w, Configure(j, c));
    var (a, b) := (TiersOf(w.levels), TiersOf(v.levels));
    assert At(a, j) == Effective(j, Some(w.levels[j].config));
    TiersNonNegative(v);
    EarnedMonotone(b, {}, Done(v, u), Count(v));
    assert Required(b, 1) == 0;
    assert j < i ==> Step(b, j) - Step(a, j) <= 0 || j == MAX_LEVELS;
  }

  // ----- Unsafe edits ---------------------------------------------------------------------------

  function Plain(showOnMain: bool, star: int): LevelConfig {
    NO_CONFIG.(star := Some(star), showOnMain := Some(showOnMain))
  }

  /** Level j as given, level a on the map for `star` stars, level b on the map, all others in collections. */
  function LadderConfig(j: int, config: LevelConfig, a: int, star: int, b: int, k: int): LevelConfig {
    if k == j then config else if k == a then Plain(true, star) else Plain(k == b, 1)
  }

  ghost function LadderLevels(n: int, j: int, config: LevelConfig, a: int, star: int, b: int): map<int, LevelRow> {
    map k | k in Range(1, n + 1) :: LevelRow(None, LadderConfig(j, config, a, star, b, k))
  }

  /** Such a campaign of n levels, with one user who has some bonus stars and perhaps completed level j. */
  ghost function Ladder(
    n: int, j: int, config: LevelConfig, a: int, star: int, b: int, done: bool, bonus: nat): World
  {
    World(
      LadderLevels(n, j, config, a, star, b),
      if done then map[("u", j) := ProgressRow(Completed, 0, 0)] else map[],
      map["u" := bonus],
      map["u" := 0])
  }

  ghost predicate LadderFits(n: int, j: int, config: LevelConfig, a: int, star: int, b: int) {
    && 1 <= j <= n <= MAX_LEVELS && 1 <= a < b <= n && 1 <= star <= 5
    && (config.star.Some? ==> 1 <= config.star.value <= 5)
    && (j < b && j != a ==> !Effective(j, Some(config)).showOnMain)
  }

  lemma LadderSound(n: int, j: int, config: LevelConfig, a: int, star: int, b: int, done: bool, bonus: nat)
    requires LadderFits(n, j, config, a, star, b)
    ensures Sound(Ladder(n, j, config, a, star, b, done, bonus))
    ensures Count(Ladder(n, j, config, a, star, b, done, bonus)) == n
  {
    forall k | 1 <= k <= n ensures k in LadderLevels(n, j, config, a, star, b) {
      assert Within(1, k, n + 1) && k in Range(1, n + 1);
    }
    TopIs(LadderLevels(n, j, config, a, star, b).Keys, n);
  }

  lemma {:induction false} RequiredOfOne(tiers: TierTable, a: int, b: int)
    requires 1 <= a < b && forall k :: 1 <= k < b && k != a ==> Step(tiers, k) == 0
    ensures Required(tiers, b) == Step(tiers, a)
    decreases b
  {
    if b == a + 1 {
      NothingBefore(tiers, a);
    } else {
      RequiredOfOne(tiers, a, b - 1);
    }
  }

  lemma {:induction false} NothingBefore(tiers: TierTable, a: int)
    requires forall k :: 1 <= k < a ==> Step(tiers, k) == 0
    ensures Required(tiers, a) == 0
    decreases a
  {
    if a > 1 { NothingBefore(tiers, a - 1); }
  }

  lemma LadderTier(n: int, j: int, config: LevelConfig, a: int, star: int, b: int, done: bool, bonus: nat, k: int)
    requires 1 <= k <= n
    ensures var w := Ladder(n, j, config, a, star, b, done, bonus);
      At(TiersOf(w.levels), k) == Effective(k, Some(LadderConfig(j, config, a, star, b, k)))
  {
    assert Within(1, k, n + 1);
  }

  /** In a ladder, level b waits for the stars of level a alone. */
  lemma LadderRequires(n: int, j: int, config: LevelConfig, a: int, star: int, b: int, done: bool, bonus: nat)
    requires LadderFits(n, j, config, a, star, b)
    ensures var tiers := TiersOf(Ladder(n, j, config, a, star, b, done, bonus).levels);
      Required(tiers, b) == Step(tiers, a)
  {
    var tiers := TiersOf(Ladder(n, j, config, a, star, b, done, bonus).levels);
    forall k | 1 <= k < b && k != a ensures Step(tiers, k) == 0 {
      LadderTier(n, j, config, a, star, b, done, bonus, k);
    }
    RequiredOfOne(tiers, a, b);
  }

  lemma LadderStars(n: int, j: int, config: LevelConfig, a: int, star: int, b: int, done: bool, bonus: nat)
    requires LadderFits(n, j, config, a, star, b)
    ensures TotalStars(Ladder(n, j, config, a, star, b, done, bonus), "u")
         == bonus + if done then Effective(j, Some(config)).star else 0
  {
    var w := Ladder(n, j, config, a, star, b, done, bonus);
    var tiers := TiersOf(w.levels);
    LadderSound(n, j, config, a, star, b, done, bonus);
    LadderTier(n, j, config, a, star, b, done, bonus, j);
    EarnedNothing(tiers, n);
    EarnedGrows(tiers, {}, j, n);
    assert Done(w, "u") == if done then {} + {j} else {};
  }

  /** Whether level b of a ladder is open to its user, given the tier of level j. */
  predicate OpensLadder(j: int, t: Tier, a: int, star: int, b: int, done: bool, bonus: nat) {
    || (j == b && !t.showOnMain)
    || bonus + (if done then t.star else 0) >= if a != j then star else if t.showOnMain then t.star else 0
  }

  lemma LadderOpen(n: int, j: int, config: LevelConfig, a: int, star: int, b: int, done: bool, bonus: nat)
    requires LadderFits(n, j, config, a, star, b)
    ensures Open(Ladder(n, j, config, a, star, b, done, bonus), "u", b)
       <==> OpensLadder(j, Effective(j, Some(config)), a, star, b, done, bonus)
  {
    LadderRequires(n, j, config, a, star, b, done, bonus);
    LadderStars(n, j, config, a, star, b, done, bonus);
    LadderTier(n, j, config, a, star, b, done, bonus, a);
    LadderTier(n, j, config, a, star, b, done, bonus, b);
  }

  lemma LadderLevelEdited(n: int, j: int, config: LevelConfig, a: int, star: int, b: int, c: LevelConfig)
    requires 1 <= j <= n
    ensures j in LadderLevels(n, j, config, a, star, b)
    ensures LadderLevels(n, j, config, a, star, b)[j := LevelRow(None, c)] == LadderLevels(n, j, c, a, star, b)
    ensures LadderLevels(n, j, config, a, star, b)[j] == LevelRow(None, config)
  {
    assert Within(1, j, n + 1) && j in Range(1, n + 1);
  }

  /** An edit after which level b is no longer open in the ladder locks it for the ladder's user. */
  lemma LadderLocked(
    n: int, j: int, config: LevelConfig, a: int, star: int, b: int, done: bool, bonus: nat, c: LevelConfig)
    requires LadderFits(n, j, config, a, star, b) && LadderFits(n, j, Submitted(c), a, star, b) && ConfigAccepted(c)
    requires OpensLadder(j, Effective(j, Some(config)), a, star, b, done, bonus)
    requires !OpensLadder(j, Effective(j, Some(Submitted(c))), a, star, b, done, bonus)
    ensures !KeepsOpen(Ladder(n, j, config, a, star, b, done, bonus), "u", b, j, config, c)
  {
    LadderSound(n, j, config, a, star, b, done, bonus);
    LadderLevelEdited(n, j, config, a, star, b, Submitted(c));
    EditedWorld(Ladder(n, j, config, a, star, b, done, bonus), j, c);
    LadderOpen(n, j, config, a, star, b, done, bonus);
    LadderOpen(n, j, Submitted(c), a, star, b, done, bonus);
  }

  /** A campaign in which the edit locks a level for a user, for each edit that is not safe. */
  lemma UnsafeEditLocks(j: int, config: LevelConfig, c: LevelConfig) returns (w: World, i: int)
    requires 1 <= j <= MAX_LEVELS && (config.star.Some? ==> 1 <= config.star.value <= 5) && ConfigAccepted(c)
    requires !SafeEdit(j, Effective(j, Some(config)), Effective(j, Some(Submitted(c))))
    ensures !KeepsOpen(w, "u", i, j, config, c)
  {
    var before, after := Effective(j, Some(config)), Effective(j, Some(Submitted(c)));
    var n, a, star, done, bonus;
    if after.showOnMain && before.showOnMain && after.star > before.star {
      // the next level needs more than the bonus that opened it
      n, a, i, star, done, bonus := j + 1, j, j + 1, 1, false, before.star as nat;
    } else if after.showOnMain && before.showOnMain {
      // the level itself needs what completing it no longer pays
      n, a, i, star, done, bonus := j, 1, j, before.star, true, 0;
    } else if after.showOnMain && j >= 2 {
      // the level was free and now has to be reached
      n, a, i, star, done, bonus := j, 1, j, 1, false, 0;
    } else if after.showOnMain {
      // the next level has to pay for it
      n, a, i, star, done, bonus := 2, 1, 2, 1, false, 0;
    } else if j >= 3 {
      // an earlier level was opened by its stars
      n, a, i, star, done, bonus := j, 1, 2, before.star, true, 0;
    } else {
      // a later level was opened by its stars
      n, a, i, star, done, bonus := 3, 3 - j, 3, before.star, true, 0;
    }
    LadderLocked(n, j, config, a, star, i, done, bonus, c);
    w := Ladder(n, j, config, a, star, i, done, bonus);
  }

  /** An edit never locks an open level, in any campaign and for any user, exactly if it is safe. */
  lemma SafeEditsExactly(j: int, config: LevelConfig, c: LevelConfig)
    requires 1 <= j <= MAX_LEVELS && (config.star.Some? ==> 1 <= config.star.value <= 5) && ConfigAccepted(c)
    ensures SafeEdit(j, Effective(j, Some(config)), Effective(j, Some(Submitted(c))))
       <==> forall w, u, i :: KeepsOpen(w, u, i, j, config, c)
  {
    if SafeEdit(j, Effective(j, Some(config)), Effective(j, Some(Submitted(c)))) {
      forall w, u, i ensures KeepsOpen(w, u, i, j, config, c) {
        if Sound(w) && u in w.bonus && 1 <= j <= Count(w) && w.levels[j].config == config
           && 1 <= i <= Count(w) && Open(w, u, i) {
          SafeEditKeepsOpen(w, u, i, j, c);
        }
      }
    } else {
      var w, i := UnsafeEditLocks(j, config, c);
    }
  }

  // ----- A level deleted and appended again -------------------------------------------------------

  /** A free collection level that is deleted and appended again comes back on the map, and locked. */
  lemma ReplacedLevelLocks() returns (w: World)
    ensures Sound(w) && "u" in w.bonus && Count(w) == 2 && Open(w, "u", 2)
    ensures var v := Advance(w, DeleteLevel(2));
      Perform(w, DeleteLevel(2)).Ok? && Perform(v, AddLevel).Ok? && !Open(Advance(v, AddLevel), "u", 2)
  {
    var free := Plain(false, 1);
    w := Ladder(2, 2, free, 1, 1, 2, false, 0);
    LadderSound(2, 2, free, 1, 1, 2, false, 0);
    LadderOpen(2, 2, free, 1, 1, 2, false, 0);
    LadderOpen(2, 2, NO_CONFIG, 1, 1, 2, false, 0);
    LadderLevelEdited(2, 2, free, 1, 1, 2, NO_CONFIG);
    ReplacedLast(w);
  }

  /** Deleting the last level and appending one again. */
  lemma ReplacedLast(w: World)
    requires Sound(w) && Count(w) >= 2 && forall k :: k in w.progress ==> k.1 != Count(w)
    ensures Perform(w, DeleteLevel(Count(w))) == Ok((w.(levels := w.levels - {Count(w)}), false))
    ensures Perform(Advance(w, DeleteLevel(Count(w))), AddLevel)
         == Ok((w.(levels := w.levels[Count(w) := LevelRow(None, NO_CONFIG)]), false))
  {
    var n := Count(w);
    DeleteKeeps(w, n);
    assert (w.levels - {n})[n := LevelRow(None, NO_CONFIG)] == w.levels[n := LevelRow(None, NO_CONFIG)];
  }
}
