/**
 The expedition campaign: its level table, the players' progress and the handlers over
 them, as steps on values (internal/repository/expedition.go, internal/api/expedition.go).
 One request is one step; CampaignRaces takes requests apart at their store calls.
 */
module Campaign {
  import opened Prelude
  import opened Tiers

  const MAX_LEVELS := 1000

  datatype LevelRow = LevelRow(image: Option<string>, config: LevelConfig)

  datatype ProgressRow = ProgressRow(status: Status, elapsed: int, correct: int)

  datatype World = World(
    levels: map<int, LevelRow>,
    progress: map<(User, int), ProgressRow>,
    bonus: map<User, int>,
    xp: map<User, int>)

  datatype CampaignRefusal =
    | InvalidLevel | LevelLimit | LevelRequired | NotLast | AlreadyPlayed
    | BadConfig | Locked | NoImage

  const NO_CONFIG := LevelConfig(None, None, None, None, None, None, None)

  // ----- Reading the tables ---------------------------------------------------------------

  /** MAX(level_index), or 0 when the table is empty. */
  ghost function Top(keys: set<int>): (m: int)
    ensures keys == {} ==> m == 0
    ensures keys != {} ==> m in keys && forall k :: k in keys ==> k <= m
  {
    if keys == {} then 0
    else
      var k := Pick(keys);
      var rest := keys - {k};
      var m := Top(rest);
      assert forall x :: x in keys ==> x == k || x in rest;
      if rest == {} || k > m then k else m
  }

  ghost function Count(w: World): int {
    Top(w.levels.Keys)
  }

  /** The tier in force for every level. */
  function TiersOf(levels: map<int, LevelRow>): TierTable {
    map i | i in levels :: Effective(i, Some(levels[i].config))
  }

  predicate Cleared(w: World, u: User, level: int) {
    (u, level) in w.progress && w.progress[(u, level)].status == Completed
  }

  /** The existing levels a user has completed. */
  function Done(w: World, u: User): set<int> {
    set i | i in w.levels && Cleared(w, u, i)
  }

  ghost function TotalStars(w: World, u: User): int
    requires u in w.bonus
  {
    (if Count(w) > 0 then Earned(TiersOf(w.levels), Done(w, u), Count(w)) else 0) + w.bonus[u]
  }

  /** The start and completion gate: collection levels are free, map levels need their stars. */
  predicate Gate(tiers: TierTable, stars: int, level: int) {
    !At(tiers, level).showOnMain || stars >= Required(tiers, level)
  }

  ghost predicate Open(w: World, u: User, level: int)
    requires u in w.bonus
  {
    Gate(TiersOf(w.levels), TotalStars(w, u), level)
  }

  // ----- Steps ------------------------------------------------------------------------------

  datatype Event =
    | AddLevel
    | DeleteLevel(level: int)
    | SetImage(level: int, image: string)
    | Configure(level: int, config: LevelConfig)
    | Start(user: User, level: int)
    | Complete(user: User, level: int, elapsed: int, correct: Option<int>)
    | Fail(user: User, level: int, pieces: int)
    | BuyStars(user: User, stars: nat)

  /** What the admin form may send: every field in range, and all present but the map flag. */
  predicate ConfigAccepted(c: LevelConfig) {
    && c.star.Some? && 1 <= c.star.value <= 5
    && c.gridCols.Some? && 2 <= c.gridCols.value <= 20
    && c.gridRows.Some? && 2 <= c.gridRows.value <= 20
    && c.playSeconds.Some? && 30 <= c.playSeconds.value <= 3600
    && c.xpReward.Some? && 0 <= c.xpReward.value <= 100000
    && c.category.Some? && 1 <= |c.category.value| <= 80
  }

  /** An older form does not send the map flag, which leaves the level on the map. */
  function Submitted(c: LevelConfig): LevelConfig {
    c.(showOnMain := Some(Override(c.showOnMain, true)))
  }

  function Max(a: int, b: int): int {
    if a < b then b else a
  }

  /** Pieces credited: what the client reports if it is a partial count, else the full grid. */
  function CreditedPieces(t: Tier, correct: Option<int>): (r: int)
    ensures Pieces(t) >= 0 ==> 0 <= r <= Pieces(t)
  {
    if correct.Some? && 0 <= correct.value < Pieces(t) then correct.value else Pieces(t)
  }

  function Started(w: World, u: User, level: int): World {
    if (u, level) !in w.progress
    then w.(progress := w.progress[(u, level) := ProgressRow(InProgress, 0, 0)])
    else if w.progress[(u, level)].status == Completed then w
    else w.(progress := w.progress[(u, level) := w.progress[(u, level)].(status := InProgress)])
  }

  /** Only a row in progress completes; only that transition pays the level's XP. */
  function Finished(w: World, u: User, level: int, elapsed: int, correct: Option<int>): (World, bool)
    requires u in w.xp
  {
    if (u, level) in w.progress && w.progress[(u, level)].status == InProgress then
      var t := At(TiersOf(w.levels), level);
      var row := ProgressRow(Completed, elapsed, Max(w.progress[(u, level)].correct, CreditedPieces(t, correct)));
      (w.(progress := w.progress[(u, level) := row],
          xp := if t.xpReward > 0 then w.xp[u := w.xp[u] + t.xpReward] else w.xp),
       true)
    else (w, false)
  }

  function Abandoned(w: World, u: User, level: int, correct: int): World {
    if (u, level) in w.progress && w.progress[(u, level)].status == InProgress then
      var row := w.progress[(u, level)];
      w.(progress := w.progress[(u, level) := row.(status := Failed, correct := Max(row.correct, Max(correct, 0)))])
    else w
  }

  ghost predicate Known(w: World, e: Event) {
    (e.Start? || e.Complete? || e.Fail? || e.BuyStars?) ==> e.user in w.bonus && e.user in w.xp
  }

  /** One request; a refused one changes nothing. The flag says whether XP became due. */
  ghost function Perform(w: World, e: Event): Result<(World, bool), CampaignRefusal>
    requires Known(w, e)
  {
    var count := Count(w);
    match e
    case AddLevel =>
      if count >= MAX_LEVELS then Err(LevelLimit)
      else Ok((w.(levels := w.levels[count + 1 := LevelRow(None, NO_CONFIG)]), false))
    case DeleteLevel(level) =>
      if !(1 <= level <= count) then Err(InvalidLevel)
      else if level == 1 then Err(LevelRequired)
      else if level != count then Err(NotLast)
      else if exists k :: k in w.progress && k.1 == level then Err(AlreadyPlayed)
      else Ok((w.(levels := w.levels - {level}), false))
    case SetImage(level, image) =>
      if !(1 <= level <= count) then Err(InvalidLevel)
      else
        var row := if level in w.levels then w.levels[level] else LevelRow(None, NO_CONFIG);
        Ok((w.(levels := w.levels[level := row.(image := Some(image))]), false))
    case Configure(level, config) =>
      if !(1 <= level <= count) then Err(InvalidLevel)
      else if !ConfigAccepted(config) then Err(BadConfig)
      else
        var row := if level in w.levels then w.levels[level] else LevelRow(None, NO_CONFIG);
        Ok((w.(levels := w.levels[level := row.(config := Submitted(config))]), false))
    case Start(u, level) =>
      if !(1 <= level <= count) then Err(InvalidLevel)
      else if !Open(w, u, level) then Err(Locked)
      else if level !in w.levels || w.levels[level].image.None? then Err(NoImage)
      else Ok((Started(w, u, level), false))
    case Complete(u, level, elapsed, correct) =>
      if !(1 <= level <= count) then Err(InvalidLevel)
      else if !Open(w, u, level) then Err(Locked)
      else Ok(Finished(w, u, level, elapsed, correct))
    case Fail(u, level, correct) =>
      if !(1 <= level <= count) then Err(InvalidLevel)
      else Ok((Abandoned(w, u, level, correct), false))
    case BuyStars(u, stars) =>
      Ok((w.(bonus := w.bonus[u := w.bonus[u] + stars]), false))
  }

  ghost function Advance(w: World, e: Event): World
    requires Known(w, e)
  {
    match Perform(w, e)
    case Ok((v, _)) => v
    case Err(_) => w
  }

  // ----- The invariant ------------------------------------------------------------------------

  ghost predicate Sound(w: World) {
    && 1 <= Count(w) <= MAX_LEVELS
    && (forall i :: 1 <= i <= Count(w) ==> i in w.levels)
    && (forall i :: i in w.levels ==> 1 <= i)
    && (forall i :: i in w.levels && w.levels[i].config.star.Some? ==> 1 <= w.levels[i].config.star.value <= 5)
    && (forall k :: k in w.progress ==> 1 <= k.1 <= Count(w) && k.0 in w.bonus)
    && (forall u :: u in w.bonus ==> w.bonus[u] >= 0 && u in w.xp)
  }

  lemma TopIs(keys: set<int>, m: int)
    requires m in keys && forall k :: k in keys ==> k <= m
    ensures Top(keys) == m
  {
  }

  lemma AppendKeeps(w: World)
    requires Sound(w) && Count(w) < MAX_LEVELS
    ensures var v := w.(levels := w.levels[Count(w) + 1 := LevelRow(None, NO_CONFIG)]);
      Sound(v) && Count(v) == Count(w) + 1
  {
    TopIs(w.levels[Count(w) + 1 := LevelRow(None, NO_CONFIG)].Keys, Count(w) + 1);
  }

  lemma AddKeeps(w: World)
    requires Sound(w) && Count(w) < MAX_LEVELS
    ensures Sound(Advance(w, AddLevel)) && Count(Advance(w, AddLevel)) == Count(w) + 1
  {
    AppendKeeps(w);
    AddAppends(w);
  }

  lemma AddAppends(w: World)
    requires Count(w) < MAX_LEVELS
    ensures Advance(w, AddLevel) == w.(levels := w.levels[Count(w) + 1 := LevelRow(None, NO_CONFIG)])
  {
  }

  lemma DeleteKeeps(w: World, level: int)
    requires Sound(w) && Perform(w, DeleteLevel(level)).Ok?
    ensures Sound(Advance(w, DeleteLevel(level))) && Count(Advance(w, DeleteLevel(level))) == Count(w) - 1
  {
    var v := Advance(w, DeleteLevel(level));
    assert level - 1 in v.levels.Keys;
    TopIs(v.levels.Keys, level - 1);
  }

  lemma UpsertKeeps(w: World, level: int, row: LevelRow)
    requires Sound(w) && 1 <= level <= Count(w)
    requires row.config.star.Some? ==> 1 <= row.config.star.value <= 5
    ensures Sound(w.(levels := w.levels[level := row]))
  {
    assert w.levels[level := row].Keys == w.levels.Keys;
  }

  /** Progress within the campaign, and any experience, leave it sound. */
  lemma ProgressKeeps(w: World, p: map<(User, int), ProgressRow>, xp: map<User, int>)
    requires Sound(w) && w.xp.Keys <= xp.Keys
    requires forall k :: k in p ==> k in w.progress || (1 <= k.1 <= Count(w) && k.0 in w.bonus)
    ensures Sound(w.(progress := p, xp := xp))
  {
  }

  lemma PlayKeeps(w: World, e: Event)
    requires Sound(w) && Known(w, e) && (e.Start? || e.Complete? || e.Fail?)
    ensures Sound(Advance(w, e))
  {
    ProgressKeeps(w, Advance(w, e).progress, Advance(w, e).xp);
  }

  /** The rows stay exactly 1..N with 1 <= N <= 1000, and progress stays within them. */
  lemma SoundKept(w: World, e: Event)
    requires Sound(w) && Known(w, e)
    ensures Sound(Advance(w, e))
  {
    if Perform(w, e).Ok? {
      match e
      case AddLevel => AddKeeps(w);
      case DeleteLevel(level) => DeleteKeeps(w, level);
      case SetImage(level, image) => UpsertKeeps(w, level, w.levels[level].(image := Some(image)));
      case Configure(level, config) => UpsertKeeps(w, level, w.levels[level].(config := Submitted(config)));
      case BuyStars(u, stars) =>
      case _ => PlayKeeps(w, e);
    }
  }

  /** Every level somebody has begun has a picture. */
  ghost predicate PlayedHavePictures(w: World) {
    forall k :: k in w.progress ==> k.1 in w.levels && w.levels[k.1].image.Some?
  }

  /** A level without a picture is never begun, and one that was begun never loses its row. */
  lemma PicturesKept(w: World, e: Event)
    requires Sound(w) && Known(w, e) && PlayedHavePictures(w)
    ensures PlayedHavePictures(Advance(w, e))
  {
    if e.Start? || e.Complete? || e.Fail? { PlayKeepsPictures(w, e); } else { EditsKeepPictures(w, e); }
  }

  lemma PlayKeepsPictures(w: World, e: Event)
    requires Known(w, e) && PlayedHavePictures(w) && (e.Start? || e.Complete? || e.Fail?)
    ensures PlayedHavePictures(Advance(w, e))
  {
  }

  lemma EditsKeepPictures(w: World, e: Event)
    requires Sound(w) && Known(w, e) && PlayedHavePictures(w) && !(e.Start? || e.Complete? || e.Fail?)
    ensures PlayedHavePictures(Advance(w, e))
  {
  }
}
