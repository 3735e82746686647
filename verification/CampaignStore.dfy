/** The campaign tables, the handlers that change them, and the campaign view they are shown in. */
module CampaignStore {
  import opened Prelude
  import opened Tiers
  import opened Campaign

  datatype ViewStatus = StillLocked | Available | Row(status: Status)

  datatype LevelView = LevelView(
    index: int,
    tier: Tier,
    requiredStars: int,
    status: ViewStatus,
    unlocked: bool,
    starsEarned: int)

  datatype CampaignView = CampaignView(
    totalStars: int,
    completedCount: int,
    currentLevel: int,
    levels: seq<LevelView>)

  /** One level as its user should see it. */
  function View(tiers: TierTable, rows: map<int, ProgressRow>, stars: int, i: int): LevelView {
    var t := At(tiers, i);
    var unlocked := Gate(tiers, stars, i);
    LevelView(
      i, t,
      if t.showOnMain then Required(tiers, i) else 0,
      if !unlocked then StillLocked else if i in rows then Row(rows[i].status) else Available,
      unlocked,
      if i in rows && rows[i].status == Completed then t.star else 0)
  }

  /** Map levels among 1..n, and those of them in `rows` as completed. */
  function MapLevels(tiers: TierTable, n: nat): nat {
    if n == 0 then 0 else MapLevels(tiers, n - 1) + if At(tiers, n).showOnMain then 1 else 0
  }

  function ClearedMapLevels(tiers: TierTable, rows: map<int, ProgressRow>, n: nat): nat {
    if n == 0 then 0
    else ClearedMapLevels(tiers, rows, n - 1)
         + if n in rows && rows[n].status == Completed && At(tiers, n).showOnMain then 1 else 0
  }

  /** The counter names a level that exists, unless there is no map level at all. */
  lemma {:induction false} ClearedAtMostAll(tiers: TierTable, rows: map<int, ProgressRow>, n: nat)
    ensures ClearedMapLevels(tiers, rows, n) <= MapLevels(tiers, n)
    ensures ClearedMapLevels(tiers, rows, n) == MapLevels(tiers, n) <==>
            forall i :: 1 <= i <= n && At(tiers, i).showOnMain ==> i in rows && rows[i].status == Completed
  {
    if n > 0 { ClearedAtMostAll(tiers, rows, n - 1); }
  }

  /** The levels among 1..n that are on the map. */
  ghost function MapSet(tiers: TierTable, n: nat): set<int> {
    set i | 1 <= i <= n && i in tiers && tiers[i].showOnMain
  }

  ghost function CompletedSet(rows: map<int, ProgressRow>): set<int> {
    set i | i in rows && rows[i].status == Completed
  }

  lemma MapSetGrows(tiers: TierTable, n: nat)
    ensures MapSet(tiers, 0) == {} && n + 1 !in MapSet(tiers, n)
    ensures MapSet(tiers, n + 1)
         == MapSet(tiers, n) + if n + 1 in tiers && tiers[n + 1].showOnMain then {n + 1} else {}
  {
  }

  /** The counters count the map levels, and the completed ones among them. */
  lemma {:induction false} CountersExactly(tiers: TierTable, rows: map<int, ProgressRow>, n: nat)
    ensures MapLevels(tiers, n) == |MapSet(tiers, n)|
    ensures ClearedMapLevels(tiers, rows, n) == |MapSet(tiers, n) * CompletedSet(rows)|
  {
    MapSetGrows(tiers, if n == 0 then 0 else n - 1);
    if n > 0 {
      CountersExactly(tiers, rows, n - 1);
      OneMore(MapSet(tiers, n - 1), CompletedSet(rows), n);
    }
  }

  lemma OneMore(s: set<int>, done: set<int>, n: int)
    requires n !in s
    ensures |s + {n}| == |s| + 1
    ensures |(s + {n}) * done| == |s * done| + if n in done then 1 else 0
  {
    assert (s + {n}) * done == s * done + if n in done then {n} else {};
  }

  /** What a level is shown as: locked, or as its row says, or available; with its stars once completed. */
  lemma ViewExactly(tiers: TierTable, rows: map<int, ProgressRow>, stars: int, i: int)
    requires i in tiers
    ensures var v := View(tiers, rows, stars, i);
      && v.index == i && v.tier == tiers[i]
      && (v.unlocked <==> !tiers[i].showOnMain || stars >= Required(tiers, i))
      && (tiers[i].showOnMain ==> v.requiredStars == Required(tiers, i))
      && (!tiers[i].showOnMain ==> v.requiredStars == 0)
      && (v.status == StillLocked <==> !v.unlocked)
      && (v.status == Available <==> v.unlocked && i !in rows)
      && (v.status.Row? <==> v.unlocked && i in rows)
      && (v.status.Row? ==> v.status.status == rows[i].status)
      && (if i in rows && rows[i].status == Completed then v.starsEarned == tiers[i].star else v.starsEarned == 0)
  {
  }

  /** Stars shown on the levels of a view. */
  function StarsShown(levels: seq<LevelView>): int {
    if levels == [] then 0 else StarsShown(Init(levels)) + Last(levels).starsEarned
  }

  /** The stars shown on the levels are those their user earned with them. */
  lemma {:induction false} ShownStarsAreEarned(
    tiers: TierTable, rows: map<int, ProgressRow>, stars: int, done: set<int>, levels: seq<LevelView>)
    requires forall i :: 1 <= i <= |levels| ==> levels[i - 1] == View(tiers, rows, stars, i)
    requires forall i :: 1 <= i <= |levels| ==> (i in done <==> i in rows && rows[i].status == Completed)
    ensures StarsShown(levels) == Earned(tiers, done, |levels|)
  {
    if levels != [] {
      forall i | 1 <= i <= |Init(levels)| ensures Init(levels)[i - 1] == View(tiers, rows, stars, i) {
        assert levels[i - 1] == View(tiers, rows, stars, i);
      }
      ShownStarsAreEarned(tiers, rows, stars, done, Init(levels));
      assert Last(levels) == levels[|levels| - 1] == View(tiers, rows, stars, |levels|);
    }
  }

  /** A user's rows, as the campaign's progress table has them. */
  ghost predicate RowsOf(w: World, u: User, rows: map<int, ProgressRow>) {
    forall i :: (i in rows <==> (u, i) in w.progress) && (i in rows ==> rows[i] == w.progress[(u, i)])
  }

  /** The total a view shows is the stars it shows on its levels and the bonus stars. */
  lemma TotalIsShown(w: World, u: User, rows: map<int, ProgressRow>, levels: seq<LevelView>)
    requires Sound(w) && u in w.bonus && RowsOf(w, u, rows) && |levels| == Count(w)
    requires forall i :: 1 <= i <= |levels| ==> levels[i - 1] == View(TiersOf(w.levels), rows, TotalStars(w, u), i)
    ensures TotalStars(w, u) == StarsShown(levels) + w.bonus[u]
  {
    ShownStarsAreEarned(TiersOf(w.levels), rows, TotalStars(w, u), Done(w, u), levels);
  }

  /** One pass over the levels with a running star sum gives each level what the gate would say. */
  method BuildExpeditionState(tiers: TierTable, rows: map<int, ProgressRow>, totalStars: int, levelCount: nat)
    returns (state: CampaignView)
    ensures |state.levels| == levelCount && state.totalStars == totalStars
    ensures forall i :: 1 <= i <= levelCount ==> state.levels[i - 1] == View(tiers, rows, totalStars, i)
    ensures state.completedCount == ClearedMapLevels(tiers, rows, levelCount)
    ensures state.currentLevel ==
            if state.completedCount < MapLevels(tiers, levelCount)
            then state.completedCount + 1 else MapLevels(tiers, levelCount)
  {
    var levels: seq<LevelView> := [];
    var completed, req := 0, 0;
    for i := 1 to levelCount + 1
      invariant |levels| == i - 1
      invariant req == Required(tiers, i)
      invariant completed == ClearedMapLevels(tiers, rows, i - 1)
      invariant forall k :: 1 <= k < i ==> levels[k - 1] == View(tiers, rows, totalStars, k)
    {
      var tier := At(tiers, i);
      var unlocked := !tier.showOnMain || totalStars >= req;
      var requiredStars := req;
      if !tier.showOnMain {
        requiredStars := 0;
      }
      var status := StillLocked;
      var starsEarned := 0;
      if i in rows {
        status := Row(rows[i].status);
        if rows[i].status == Completed {
          starsEarned := tier.star;
          if tier.showOnMain {
            completed := completed + 1;
          }
        }
      } else if unlocked {
        status := Available;
      }
      if !unlocked {
        status := StillLocked;
      }
      levels := levels + [LevelView(i, tier, requiredStars, status, unlocked, starsEarned)];
      if tier.showOnMain {
        req := req + tier.star;
      }
    }
    var mainCount := 0;
    for i := 1 to levelCount + 1
      invariant mainCount == MapLevels(tiers, i - 1)
    {
      if At(tiers, i).showOnMain {
        mainCount := mainCount + 1;
      }
    }
    var current := completed + 1;
    if current > mainCount {
      current := mainCount;
    }
    ClearedAtMostAll(tiers, rows, levelCount);
    return CampaignView(totalStars, completed, current, levels);
  }

  /** Shown as unlocked exactly when neither starting nor completing is refused for want of stars. */
  lemma ShownUnlockedExactly(
    w: World, u: User, level: int, rows: map<int, ProgressRow>, elapsed: int, correct: Option<int>)
    requires Sound(w) && u in w.bonus && u in w.xp && 1 <= level <= Count(w)
    ensures View(TiersOf(w.levels), rows, TotalStars(w, u), level).unlocked
       <==> Perform(w, Start(u, level)) != Err(Locked)
    ensures View(TiersOf(w.levels), rows, TotalStars(w, u), level).unlocked
       <==> Perform(w, Complete(u, level, elapsed, correct)) != Err(Locked)
  {
  }

  class Store {
    var levels: map<int, LevelRow>
    var progress: map<(User, int), ProgressRow>
    var bonus: map<User, int>
    var xp: map<User, int>

    function Tables(): World
      reads this
    {
      World(levels, progress, bonus, xp)
    }

    ghost predicate Valid()
      reads this
    {
      Sound(Tables())
    }

    /** The tables as seeded, with `count` default levels and no players' progress. */
    constructor (count: int, users: set<User>)
      requires 1 <= count <= MAX_LEVELS
      ensures Valid() && Count(Tables()) == count && progress == map[]
      ensures forall i :: i in levels <==> 1 <= i <= count
      ensures forall i :: i in levels ==>
        levels[i].image == None && Effective(i, Some(levels[i].config)) == TierForLevel(i)
      ensures bonus == xp == map u | u in users :: 0
    {
      levels := map[];
      progress := map[];
      bonus := map u | u in users :: 0;
      xp := map u | u in users :: 0;
      new;
      for i := 1 to count + 1
        invariant forall k :: k in levels <==> 1 <= k < i
        invariant forall k :: k in levels ==> levels[k] == LevelRow(None, NO_CONFIG)
        invariant progress == map[] && bonus == xp == map u | u in users :: 0
      {
        levels := levels[i := LevelRow(None, NO_CONFIG)];
      }
      TopIs(levels.Keys, count);
    }

    method ExpeditionLevelCount() returns (n: int)
      requires forall i :: i in levels ==> 1 <= i
      ensures n == Count(Tables())
    {
      n := 0;
      var rest := levels.Keys;
      while rest != {}
        invariant rest <= levels.Keys
        invariant n == 0 ==> rest == levels.Keys
        invariant n != 0 ==> n in levels && n >= 1
        invariant forall i :: i in levels && i !in rest ==> i <= n
        decreases rest
      {
        ghost var some := Pick(rest);
        assert some in rest;
        var i: int :| i in rest;
        rest := rest - {i};
        if i > n {
          n := i;
        }
      }
      if levels.Keys != {} {
        TopIs(levels.Keys, n);
      }
    }

    method EffectiveTiers() returns (tiers: TierTable)
      requires Valid()
      ensures tiers == TiersOf(levels)
    {
      var count := ExpeditionLevelCount();
      ghost var all := TiersOf(levels);
      assert forall k :: k in all <==> 1 <= k <= count;
      tiers := map[];
      for i := 1 to count + 1
        invariant forall k :: k in tiers <==> 1 <= k < i
        invariant forall k :: k in tiers ==> k in all && tiers[k] == all[k]
      {
        var t := EffectiveTier(i, Some(levels[i].config));
        assert i in all && t == all[i];
        tiers := tiers[i := t];
      }
    }

    /** The completed levels of a user, each once, in no particular order. */
    method CompletedExpeditionLevels(u: User) returns (completed: seq<int>)
      requires Valid()
      ensures Distinct(completed) && Elements(completed) == Done(Tables(), u)
    {
      completed := [];
      var rest := levels.Keys;
      while rest != {}
        invariant rest <= levels.Keys
        invariant Distinct(completed)
        invariant forall i :: i in completed <==> i in levels && i !in rest && Cleared(Tables(), u, i)
        decreases rest
      {
        var i :| i in rest;
        rest := rest - {i};
        if (u, i) in progress && progress[(u, i)].status == Completed {
          completed := completed + [i];
        }
      }
      assert forall i :: i in Elements(completed) <==> i in Done(Tables(), u);
    }

    method TotalExpeditionStars(u: User) returns (stars: int)
      requires Valid() && u in bonus
      ensures stars == TotalStars(Tables(), u)
    {
      var completed := CompletedExpeditionLevels(u);
      var tiers := EffectiveTiers();
      var total := 0;
      for i := 0 to |completed|
        invariant total == Tally(tiers, completed[..i])
      {
        assert Init(completed[..i + 1]) == completed[..i];
        total := total + At(tiers, completed[i]).star;
      }
      assert completed[..|completed|] == completed;
      assert forall i :: i in completed ==> i in Elements(completed);
      TallyIsEarned(tiers, completed, Count(Tables()));
      return total + bonus[u];
    }

    // ----- Handlers -------------------------------------------------------------------------

    /** The path parameter, bounded to the campaign as it is now. */
    method LevelFromPath(level: int) returns (ok: bool)
      requires Valid()
      ensures ok <==> 1 <= level <= Count(Tables())
    {
      if level < 1 {
        return false;
      }
      var count := ExpeditionLevelCount();
      return level <= count;
    }

    method HandleCreateLevel() returns (r: Result<int, CampaignRefusal>)
      requires Valid()
      modifies this`levels
      ensures Valid() && Tables() == Advance(old(Tables()), AddLevel)
      ensures match Perform(old(Tables()), AddLevel)
              case Ok(_) => r == Ok(Count(Tables()))
              case Err(reason) => r == Err(reason)
    {
      var count := ExpeditionLevelCount();
      if count >= MAX_LEVELS {
        return Err(LevelLimit);
      }
      AddKeeps(Tables());
      levels := levels[count + 1 := LevelRow(None, NO_CONFIG)];
      return Ok(count + 1);
    }

    method HandleDeleteLevel(level: int) returns (r: Result<(), CampaignRefusal>)
      requires Valid()
      modifies this`levels
      ensures Valid() && Tables() == Advance(old(Tables()), DeleteLevel(level))
      ensures match Perform(old(Tables()), DeleteLevel(level))
              case Ok(_) => r == Ok(())
              case Err(reason) => r == Err(reason)
    {
      var ok := LevelFromPath(level);
      if !ok {
        return Err(InvalidLevel);
      }
      if level == 1 {
        return Err(LevelRequired);
      }
      var top := ExpeditionLevelCount();
      if level != top {
        return Err(NotLast);
      }
      if exists k :: k in progress && k.1 == level {
        return Err(AlreadyPlayed);
      }
      DeleteKeeps(Tables(), level);
      levels := levels - {level};
      return Ok(());
    }

    /** Whether the user may play the level, as both the start and the completion handler check it. */
    method PassesGate(u: User, level: int) returns (open: bool)
      requires Valid() && u in bonus
      ensures open <==> Open(Tables(), u, level)
    {
      var stars := TotalExpeditionStars(u);
      var tiers := EffectiveTiers();
      var required := RequiredStarsFromTiers(tiers, level);
      return !(At(tiers, level).showOnMain && stars < required);
    }

    method HandleStart(u: User, level: int) returns (r: Result<(), CampaignRefusal>)
      requires Valid() && u in bonus && u in xp
      modifies this`progress
      ensures Valid() && Tables() == Advance(old(Tables()), Start(u, level))
      ensures match Perform(old(Tables()), Start(u, level))
              case Ok(_) => r == Ok(())
              case Err(reason) => r == Err(reason)
    {
      SoundKept(Tables(), Start(u, level));
      var ok := LevelFromPath(level);
      if !ok {
        return Err(InvalidLevel);
      }
      var open := PassesGate(u, level);
      if !open {
        return Err(Locked);
      }
      if levels[level].image.None? {
        return Err(NoImage);
      }
      // INSERT ... ON CONFLICT DO UPDATE ... WHERE status <> 'completed'
      if (u, level) !in progress {
        progress := progress[(u, level) := ProgressRow(InProgress, 0, 0)];
      } else if progress[(u, level)].status != Completed {
        progress := progress[(u, level) := progress[(u, level)].(status := InProgress)];
      }
      return Ok(());
    }

    /** The guarded update: only a row in progress becomes completed, and says so. */
    method CompleteExpeditionLevel(u: User, level: int, elapsed: int, credited: int) returns (first: bool)
      modifies this`progress
      ensures first <==> (u, level) in old(progress) && old(progress)[(u, level)].status == InProgress
      ensures progress ==
        if first
        then
          var pieces := Max(old(progress)[(u, level)].correct, credited);
          old(progress)[(u, level) := ProgressRow(Completed, elapsed, pieces)]
        else old(progress)
    {
      if (u, level) !in progress || progress[(u, level)].status != InProgress {
        return false;
      }
      progress := progress[(u, level) := ProgressRow(Completed, elapsed, Max(progress[(u, level)].correct, credited))];
      return true;
    }

    /** Completes a row in progress, with the pieces credited, and pays its XP. */
    method FinishAndPay(u: User, level: int, elapsed: int, correct: Option<int>) returns (paid: int, first: bool)
      requires Valid() && u in xp
      modifies this`progress, this`xp
      ensures (Tables(), first) == Finished(old(Tables()), u, level, elapsed, correct)
      ensures paid == xp[u] - old(xp)[u] && (!first ==> paid == 0)
    {
      var tiers := EffectiveTiers();
      var tier := At(tiers, level);
      var credited := Pieces(tier);
      if correct.Some? && correct.value >= 0 && correct.value < credited {
        credited := correct.value;
      }
      first := CompleteExpeditionLevel(u, level, elapsed, credited);
      paid := 0;
      if first && tier.xpReward > 0 {
        xp := xp[u := xp[u] + tier.xpReward];
        paid := tier.xpReward;
      }
    }

    /** Returns the XP paid by this call. */
    method HandleComplete(u: User, level: int, elapsed: int, correct: Option<int>)
      returns (r: Result<int, CampaignRefusal>)
      requires Valid() && u in bonus && u in xp
      modifies this`progress, this`xp
      ensures Valid() && Tables() == Advance(old(Tables()), Complete(u, level, elapsed, correct))
      ensures match Perform(old(Tables()), Complete(u, level, elapsed, correct))
              case Ok((_, first)) => r.Ok? && r.value == xp[u] - old(xp)[u] && (!first ==> r.value == 0)
              case Err(reason) => r == Err(reason)
      ensures r.Ok? ==>
        level in levels
        && var reward := Effective(level, Some(levels[level].config)).xpReward;
           r.value ==
             if !Cleared(old(Tables()), u, level) && Cleared(Tables(), u, level) && reward > 0 then reward else 0
    {
      SoundKept(Tables(), Complete(u, level, elapsed, correct));
      var ok := LevelFromPath(level);
      if !ok {
        return Err(InvalidLevel);
      }
      var open := PassesGate(u, level);
      if !open {
        return Err(Locked);
      }
      var paid, first := FinishAndPay(u, level, elapsed, correct);
      return Ok(paid);
    }

    method HandleFail(u: User, level: int, pieces: int) returns (r: Result<(), CampaignRefusal>)
      requires Valid() && u in bonus && u in xp
      modifies this`progress
      ensures Valid() && Tables() == Advance(old(Tables()), Fail(u, level, pieces))
      ensures match Perform(old(Tables()), Fail(u, level, pieces))
              case Ok(_) => r == Ok(())
              case Err(reason) => r == Err(reason)
    {
      SoundKept(Tables(), Fail(u, level, pieces));
      var ok := LevelFromPath(level);
      if !ok {
        return Err(InvalidLevel);
      }
      var correct := 0;
      if pieces > 0 {
        correct := pieces;
      }
      if (u, level) in progress && progress[(u, level)].status == InProgress {
        var row := progress[(u, level)];
        progress := progress[(u, level) := row.(status := Failed, correct := Max(row.correct, correct))];
      }
      return Ok(());
    }

    /** Sets or replaces the picture of a level, the image having been stored. */
    method HandleUpload(level: int, image: string) returns (r: Result<(), CampaignRefusal>)
      requires Valid()
      modifies this`levels
      ensures Valid() && Tables() == Advance(old(Tables()), SetImage(level, image))
      ensures match Perform(old(Tables()), SetImage(level, image))
              case Ok(_) => r == Ok(())
              case Err(reason) => r == Err(reason)
    {
      SoundKept(Tables(), SetImage(level, image));
      var ok := LevelFromPath(level);
      if !ok {
        return Err(InvalidLevel);
      }
      levels := levels[level := levels[level].(image := Some(image))];
      return Ok(());
    }

    method HandleConfigure(level: int, config: LevelConfig) returns (r: Result<(), CampaignRefusal>)
      requires Valid()
      modifies this`levels
      ensures Valid() && Tables() == Advance(old(Tables()), Configure(level, config))
      ensures match Perform(old(Tables()), Configure(level, config))
              case Ok(_) => r == Ok(())
              case Err(reason) => r == Err(reason)
    {
      SoundKept(Tables(), Configure(level, config));
      var ok := LevelFromPath(level);
      if !ok {
        return Err(InvalidLevel);
      }
      if !ConfigAccepted(config) {
        return Err(BadConfig);
      }
      var showOnMain := true;
      if config.showOnMain.Some? {
        showOnMain := config.showOnMain.value;
      }
      levels := levels[level := levels[level].(config := config.(showOnMain := Some(showOnMain)))];
      return Ok(());
    }
  }
}
