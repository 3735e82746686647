/**
 The campaign's requests split at their calls to the store. A create, a start and an edit each
 look something up in one call and write in a later one, and anything may happen in between.
 */
module CampaignRaces {
  import opened Prelude
  import opened Tiers
  import opened Campaign
  import opened Interleavings

  /** The tables, and the requests that have made their last check but not their write. */
  datatype Site = Site(
    w: World,
    creating: nat,
    starting: multiset<(User, int)>,
    editing: multiset<int>)

  datatype Edit = Picture(image: string) | Config(config: LevelConfig)

  /**
   One call to the store. The last check of a start is that the level has a picture; its star
   gate only decides which starts get that far, so here any may. The guarded updates of
   completions and failures may come at any time with any values, whatever was read before.
   */
  datatype Step =
    | CheckCreate | Append | DropCreate
    | CheckStart(user: User, level: int) | InsertStart(user: User, level: int) | DropStart(user: User, level: int)
    | CheckEdit(level: int) | Upsert(level: int, edit: Edit) | DropEdit(level: int)
    | Delete(level: int)
    | Finish(user: User, level: int, elapsed: int, credited: int)
    | Fail(user: User, level: int, pieces: int)

  function Edited(row: LevelRow, edit: Edit): LevelRow {
    match edit
    case Picture(image) => row.(image := Some(image))
    case Config(config) => row.(config := Submitted(config))
  }

  function Upserted(w: World, level: int, edit: Edit): World {
    var row := if level in w.levels then w.levels[level] else LevelRow(None, NO_CONFIG);
    w.(levels := w.levels[level := Edited(row, edit)])
  }

  ghost function Appended(w: World): World {
    w.(levels := w.levels[Count(w) + 1 := LevelRow(None, NO_CONFIG)])
  }

  function Closed(w: World, u: User, level: int, elapsed: int, credited: int): World {
    if (u, level) in w.progress && w.progress[(u, level)].status == InProgress then
      var row := ProgressRow(Completed, elapsed, Max(w.progress[(u, level)].correct, credited));
      w.(progress := w.progress[(u, level) := row])
    else w
  }

  predicate HasPicture(w: World, level: int) {
    level in w.levels && w.levels[level].image.Some?
  }

  /** The store deletes the last level, not the first, and no level that somebody has begun. */
  ghost predicate DeleteAccepted(w: World, level: int) {
    1 < level == Count(w) && forall k :: k in w.progress ==> k.1 != level
  }

  ghost function Deleted(w: World, level: int): World {
    if DeleteAccepted(w, level) then w.(levels := w.levels - {level}) else w
  }

  ghost function Next(s: Site, e: Step): Site {
    match e
    case CheckCreate => if Count(s.w) < MAX_LEVELS then s.(creating := s.creating + 1) else s
    case Append => if s.creating > 0 then s.(w := Appended(s.w), creating := s.creating - 1) else s
    case DropCreate => if s.creating > 0 then s.(creating := s.creating - 1) else s
    case CheckStart(u, level) =>
      if u in s.w.bonus && HasPicture(s.w, level) then s.(starting := s.starting + multiset{(u, level)}) else s
    case InsertStart(u, level) =>
      if (u, level) in s.starting
      then s.(w := Started(s.w, u, level), starting := s.starting - multiset{(u, level)})
      else s
    case DropStart(u, level) => s.(starting := s.starting - multiset{(u, level)})
    case CheckEdit(level) =>
      if 1 <= level <= Count(s.w) then s.(editing := s.editing + multiset{level}) else s
    case Upsert(level, edit) =>
      if level in s.editing && (edit.Config? ==> ConfigAccepted(edit.config))
      then s.(w := Upserted(s.w, level, edit), editing := s.editing - multiset{level})
      else s
    case DropEdit(level) => s.(editing := s.editing - multiset{level})
    case Delete(level) => s.(w := Deleted(s.w, level))
    case Finish(u, level, elapsed, credited) => s.(w := Closed(s.w, u, level, elapsed, credited))
    case Fail(u, level, pieces) => s.(w := Abandoned(s.w, u, level, pieces))
  }

  ghost predicate Calm(s: Site) {
    s.creating == 0 && s.starting == multiset{} && s.editing == multiset{}
  }

  // ----- Uninterrupted requests are the steps of the campaign ---------------------------------------

  lemma CreateInOneGo(s: Site)
    ensures var t := Next(s, CheckCreate);
      if Perform(s.w, AddLevel).Ok?
      then Next(t, Append) == s.(w := Advance(s.w, AddLevel))
      else t == s
  {
  }

  lemma StartIsTheRequest(w: World, u: User, level: int)
    requires Known(w, Start(u, level)) && 1 <= level <= Count(w) && Open(w, u, level)
    ensures Perform(w, Start(u, level)).Ok? <==> HasPicture(w, level)
    ensures HasPicture(w, level) ==> Advance(w, Start(u, level)) == Started(w, u, level)
  {
  }

  lemma StartInOneGo(s: Site, u: User, level: int)
    requires Known(s.w, Start(u, level)) && 1 <= level <= Count(s.w) && Open(s.w, u, level)
    ensures var t := Next(s, CheckStart(u, level));
      if Perform(s.w, Start(u, level)).Ok?
      then Next(t, InsertStart(u, level)) == s.(w := Advance(s.w, Start(u, level)))
      else t == s
  {
    StartIsTheRequest(s.w, u, level);
    assert s.starting + multiset{(u, level)} - multiset{(u, level)} == s.starting;
  }

  /** A request given up is no longer in flight, and nothing else changes. */
  lemma DropsExactly(s: Site, u: User, level: int)
    ensures s.creating > 0 ==> Next(s, DropCreate) == s.(creating := s.creating - 1)
    ensures Next(s, DropStart(u, level)) == s.(starting := s.starting - multiset{(u, level)})
    ensures Next(s, DropEdit(level)) == s.(editing := s.editing - multiset{level})
  {
  }

  /** The guarded update of a completion writes what the campaign's completion writes. */
  lemma ClosedIsFinished(w: World, u: User, level: int, elapsed: int, correct: Option<int>)
    requires u in w.xp
    ensures var credited := CreditedPieces(At(TiersOf(w.levels), level), correct);
      Closed(w, u, level, elapsed, credited).progress == Finished(w, u, level, elapsed, correct).0.progress
  {
  }

  lemma DeletionIsTheRequest(w: World, level: int)
    ensures DeleteAccepted(w, level) <==> Perform(w, DeleteLevel(level)).Ok?
    ensures Deleted(w, level) == Advance(w, DeleteLevel(level))
  {
  }

  function Request(level: int, edit: Edit): Event {
    match edit
    case Picture(image) => SetImage(level, image)
    case Config(config) => Configure(level, config)
  }

  lemma UpsertIsTheRequest(w: World, level: int, edit: Edit)
    ensures Perform(w, Request(level, edit)).Ok? <==>
              1 <= level <= Count(w) && (edit.Config? ==> ConfigAccepted(edit.config))
    ensures Perform(w, Request(level, edit)).Ok? ==> Advance(w, Request(level, edit)) == Upserted(w, level, edit)
  {
  }

  lemma EditInOneGo(s: Site, level: int, edit: Edit)
    requires level !in s.editing
    ensures var t := Next(Next(s, CheckEdit(level)), Upsert(level, edit));
      if Perform(s.w, Request(level, edit)).Ok?
      then t == s.(w := Advance(s.w, Request(level, edit)))
      else t.w == s.w
  {
    UpsertIsTheRequest(s.w, level, edit);
    assert s.editing + multiset{level} - multiset{level} == s.editing;
  }

  // ----- Starts --------------------------------------------------------------------------------------

  /** Nobody has progress on a level that is not there. */
  ghost predicate PlayedExist(w: World) {
    forall k :: k in w.progress ==> k.1 in w.levels
  }

  /** So it is, and will be after any start in flight has landed. */
  ghost predicate StartsLand(s: Site) {
    && PlayedExist(s.w)
    && forall k :: k in s.starting ==> PlayedExist(Started(s.w, k.0, k.1))
  }

  /** The step deletes a level between the check and the write of a start of that level. */
  ghost predicate CutsStart(s: Site, e: Step) {
    e.Delete? && DeleteAccepted(s.w, e.level) && exists k :: k in s.starting && k.1 == e.level
  }

  ghost predicate StartsAimed(s: Site) {
    forall k :: k in s.starting ==> k.1 in s.w.levels
  }

  lemma StartedExist(w: World, u: User, level: int)
    requires PlayedExist(w)
    ensures PlayedExist(Started(w, u, level)) <==> level in w.levels
  {
    assert (u, level) in Started(w, u, level).progress;
  }

  lemma LandsExactlyWhenAimed(s: Site)
    ensures StartsLand(s) <==> PlayedExist(s.w) && StartsAimed(s)
  {
    if PlayedExist(s.w) {
      forall k | k in s.starting ensures PlayedExist(Started(s.w, k.0, k.1)) <==> k.1 in s.w.levels {
        StartedExist(s.w, k.0, k.1);
      }
    }
  }

  /** Only a deletion takes a level away, and only that of an unplayed one. */
  lemma PlayedStay(s: Site, e: Step)
    requires PlayedExist(s.w) && StartsAimed(s)
    ensures PlayedExist(Next(s, e).w)
  {
    if e.InsertStart? { StartedExist(s.w, e.user, e.level); }
  }

  lemma DeletionLeft(s: Site, level: int)
    ensures DeleteAccepted(s.w, level) ==> Next(s, Delete(level)).w.levels.Keys == s.w.levels.Keys - {level}
    ensures !DeleteAccepted(s.w, level) ==> Next(s, Delete(level)) == s
    ensures Next(s, Delete(level)).starting == s.starting && Next(s, Delete(level)).editing == s.editing
  {
  }

  lemma OthersLeft(s: Site, e: Step)
    requires !e.Delete?
    ensures s.w.levels.Keys <= Next(s, e).w.levels.Keys
  {
  }

  /** An accepted deletion takes away its level and no other; other steps take none. */
  lemma LevelsLeft(s: Site, e: Step)
    ensures !e.Delete? ==> s.w.levels.Keys <= Next(s, e).w.levels.Keys
    ensures e.Delete? && DeleteAccepted(s.w, e.level) ==> Next(s, e).w.levels.Keys == s.w.levels.Keys - {e.level}
    ensures e.Delete? && !DeleteAccepted(s.w, e.level) ==> Next(s, e) == s
    ensures e.Delete? ==> Next(s, e).starting == s.starting && Next(s, e).editing == s.editing
  {
    if e.Delete? { DeletionLeft(s, e.level); } else { OthersLeft(s, e); }
  }

  lemma WritesLeaveUsers(w: World, level: int, edit: Edit)
    ensures Appended(w).bonus == w.bonus && Deleted(w, level).bonus == w.bonus
    ensures Upserted(w, level, edit).bonus == w.bonus
  {
  }

  lemma PlayLeavesUsers(w: World, u: User, level: int, elapsed: int, pieces: int)
    ensures Started(w, u, level).bonus == w.bonus
    ensures Closed(w, u, level, elapsed, pieces).bonus == w.bonus && Abandoned(w, u, level, pieces).bonus == w.bonus
  {
  }

  predicate Plays(e: Step) {
    e.InsertStart? || e.Finish? || e.Fail?
  }

  predicate Writes(e: Step) {
    e.Append? || e.Delete? || e.Upsert?
  }

  lemma ChecksLeaveTables(s: Site, e: Step)
    requires !Plays(e) && !Writes(e)
    ensures Next(s, e).w == s.w
  {
  }

  lemma UsersLeftByPlay(s: Site, e: Step)
    requires Plays(e)
    ensures Next(s, e).w.bonus == s.w.bonus
  {
    match e
    case InsertStart(u, level) => PlayLeavesUsers(s.w, u, level, 0, 0);
    case Finish(u, level, elapsed, credited) => PlayLeavesUsers(s.w, u, level, elapsed, credited);
    case Fail(u, level, pieces) => PlayLeavesUsers(s.w, u, level, 0, pieces);
  }

  lemma UsersLeftByWrites(s: Site, e: Step)
    requires Writes(e)
    ensures Next(s, e).w.bonus == s.w.bonus
  {
    match e
    case Append => WritesLeaveUsers(s.w, 1, Picture(""));
    case Delete(level) => WritesLeaveUsers(s.w, level, Picture(""));
    case Upsert(level, edit) => WritesLeaveUsers(s.w, level, edit);
  }

  lemma UsersLeft(s: Site, e: Step)
    ensures Next(s, e).w.bonus == s.w.bonus
  {
    if Plays(e) {
      UsersLeftByPlay(s, e);
    } else if Writes(e) {
      UsersLeftByWrites(s, e);
    } else {
      ChecksLeaveTables(s, e);
    }
  }

  /** Whatever joins the starts in flight was checked just now. */
  lemma StartsJoin(s: Site, e: Step, k: (User, int))
    requires k in Next(s, e).starting
    ensures k in s.starting || (!e.Delete? && k.1 in s.w.levels && k.0 in s.w.bonus)
  {
  }

  lemma StartsStayAimed(s: Site, e: Step)
    requires StartsAimed(s)
    ensures StartsAimed(Next(s, e)) <==> !CutsStart(s, e)
  {
    LevelsLeft(s, e);
    if CutsStart(s, e) {
      var k :| k in s.starting && k.1 == e.level;
      assert k in Next(s, e).starting;
    } else {
      forall k | k in Next(s, e).starting ensures k.1 in Next(s, e).w.levels {
        StartsJoin(s, e, k);
      }
    }
  }

  ghost predicate StartsSteady(s: Site) {
    PlayedExist(s.w) && StartsAimed(s)
  }

  /**
   Whatever else interleaves, progress stays on existing levels, and no start in flight can
   change that, exactly if no level is deleted between the check and the insert of its start.
   */
  lemma StartsLandExactly(s: Site, es: seq<Step>)
    requires PlayedExist(s.w) && StartsAimed(s)
    ensures Never(Next, s, es, CutsStart) <==> Throughout(Next, s, es, StartsLand)
  {
    forall t | StartsSteady(t) ensures StartsLand(t) { LandsExactlyWhenAimed(t); }
    forall t, e | StartsSteady(t)
      ensures if CutsStart(t, e) then !StartsLand(Next(t, e)) else StartsSteady(Next(t, e))
    {
      PlayedStay(t, e);
      StartsStayAimed(t, e);
      LandsExactlyWhenAimed(Next(t, e));
    }
    GoodExactly(Next, s, es, StartsSteady, StartsLand, CutsStart);
  }

  /** In every site in which the last level can be deleted, such a run leaves progress on a missing level. */
  lemma LateStart(s: Site, u: User, level: int)
    requires Sound(s.w) && u in s.w.bonus && HasPicture(s.w, level) && DeleteAccepted(s.w, level)
    ensures !PlayedExist(Run(Next, s, [CheckStart(u, level), Delete(level), InsertStart(u, level)]).w)
  {
    RunOfThree(Next, s, CheckStart(u, level), Delete(level), InsertStart(u, level));
    var checked := Next(s, CheckStart(u, level));
    LevelsLeft(checked, Delete(level));
    InsertStartLands(Next(checked, Delete(level)), u, level);
  }

  lemma InsertStartLands(s: Site, u: User, level: int)
    requires (u, level) in s.starting
    ensures (u, level) in Next(s, InsertStart(u, level)).w.progress
    ensures Next(s, InsertStart(u, level)).w.levels == s.w.levels
  {
  }

  // ----- Edits ---------------------------------------------------------------------------------------

  /** The level rows are exactly 1..N, N >= 1. */
  ghost predicate Gapless(w: World) {
    && 1 <= Count(w)
    && (forall i :: 1 <= i <= Count(w) ==> i in w.levels)
    && (forall i :: i in w.levels ==> 1 <= i)
  }

  /** The numbering has no gap, and no edit in flight will add a level. */
  ghost predicate EditsLand(s: Site) {
    && Gapless(s.w)
    && forall l, edit :: l in s.editing ==> Upserted(s.w, l, edit).levels.Keys == s.w.levels.Keys
  }

  /** The step deletes a level between the check and the write of an edit of that level. */
  ghost predicate CutsEdit(s: Site, e: Step) {
    e.Delete? && DeleteAccepted(s.w, e.level) && e.level in s.editing
  }

  ghost predicate EditsAimed(s: Site) {
    forall l :: l in s.editing ==> l in s.w.levels
  }

  lemma EditsLandExactlyWhenAimed(s: Site)
    ensures EditsLand(s) <==> Gapless(s.w) && EditsAimed(s)
  {
    if EditsLand(s) {
      forall l | l in s.editing ensures l in s.w.levels {
        assert l in Upserted(s.w, l, Picture("")).levels.Keys;
      }
    }
    if Gapless(s.w) && EditsAimed(s) {
      forall l, edit | l in s.editing ensures Upserted(s.w, l, edit).levels.Keys == s.w.levels.Keys {
        assert Upserted(s.w, l, edit).levels.Keys == s.w.levels.Keys;
      }
    }
  }

  lemma AppendKeepsGapless(w: World)
    requires Gapless(w)
    ensures Gapless(Appended(w)) && Count(Appended(w)) == Count(w) + 1
  {
    TopIs(Appended(w).levels.Keys, Count(w) + 1);
  }

  lemma DeleteKeepsGapless(w: World, level: int)
    requires Gapless(w) && DeleteAccepted(w, level)
    ensures var v := Deleted(w, level);
      Gapless(v) && Count(v) == Count(w) - 1 && v.levels.Keys == w.levels.Keys - {level}
  {
    var v := Deleted(w, level);
    assert level - 1 in v.levels.Keys;
    TopIs(v.levels.Keys, level - 1);
  }

  lemma UpsertKeepsGapless(w: World, level: int, edit: Edit)
    requires Gapless(w) && level in w.levels
    ensures Gapless(Upserted(w, level, edit)) && Count(Upserted(w, level, edit)) == Count(w)
    ensures Upserted(w, level, edit).levels.Keys == w.levels.Keys
  {
    assert Upserted(w, level, edit).levels.Keys == w.levels.Keys;
  }

  /** Every step keeps the numbering while the edits in flight are aimed at existing levels. */
  lemma NumberingKept(s: Site, e: Step)
    requires Gapless(s.w) && EditsAimed(s)
    ensures Gapless(Next(s, e).w)
    ensures Count(Next(s, e).w) <= Count(s.w) + if e.Append? && s.creating > 0 then 1 else 0
  {
    match e
    case Append => AppendKeepsGapless(s.w);
    case Delete(level) => if DeleteAccepted(s.w, level) { DeleteKeepsGapless(s.w, level); }
    case Upsert(level, edit) => if level in s.editing { UpsertKeepsGapless(s.w, level, edit); }
    case _ =>
  }

  lemma EditsJoin(s: Site, e: Step, l: int)
    requires Gapless(s.w) && l in Next(s, e).editing
    ensures l in s.editing || (!e.Delete? && l in s.w.levels)
  {
  }

  lemma EditsStayAimed(s: Site, e: Step)
    requires Gapless(s.w) && EditsAimed(s)
    ensures EditsAimed(Next(s, e)) <==> !CutsEdit(s, e)
  {
    LevelsLeft(s, e);
    if !CutsEdit(s, e) {
      forall l | l in Next(s, e).editing ensures l in Next(s, e).w.levels {
        EditsJoin(s, e, l);
      }
    }
  }

  ghost predicate EditsSteady(s: Site) {
    Gapless(s.w) && EditsAimed(s)
  }

  /**
   However creates, starts and edits interleave, the levels stay numbered 1..N and no edit in
   flight can change that or add a level, exactly if no level is deleted between the check and
   the write of its edit.
   */
  lemma EditsLandExactly(s: Site, es: seq<Step>)
    requires Gapless(s.w) && EditsAimed(s)
    ensures Never(Next, s, es, CutsEdit) <==> Throughout(Next, s, es, EditsLand)
  {
    forall t | EditsSteady(t) ensures EditsLand(t) { EditsLandExactlyWhenAimed(t); }
    forall t, e | EditsSteady(t)
      ensures if CutsEdit(t, e) then !EditsLand(Next(t, e)) else EditsSteady(Next(t, e))
    {
      NumberingKept(t, e);
      EditsStayAimed(t, e);
      EditsLandExactlyWhenAimed(Next(t, e));
    }
    GoodExactly(Next, s, es, EditsSteady, EditsLand, CutsEdit);
  }

  /** An edit that lands late leaves a gap exactly if two levels or more have gone since its check. */
  lemma LateEditGap(w: World, level: int, edit: Edit)
    requires Gapless(w) && 1 <= level
    ensures Gapless(Upserted(w, level, edit)) <==> level <= Count(w) + 1
  {
    var v := Upserted(w, level, edit);
    if level > Count(w) {
      TopIs(v.levels.Keys, level);
      if level > Count(w) + 1 { assert Count(w) + 1 !in v.levels; }
    } else {
      UpsertKeepsGapless(w, level, edit);
    }
  }

  /** So two deletions while an edit of the last level is in flight leave a gap. */
  lemma LateEdit(s: Site, level: int, image: string)
    requires Gapless(s.w) && DeleteAccepted(s.w, level)
    requires DeleteAccepted(Deleted(s.w, level), level - 1)
    ensures var es := [CheckEdit(level), Delete(level), Delete(level - 1), Upsert(level, Picture(image))];
      !Gapless(Run(Next, s, es).w)
  {
    var es := [Delete(level), Delete(level - 1), Upsert(level, Picture(image))];
    assert ([CheckEdit(level)] + es)[1..] == es;
    assert [CheckEdit(level)] + es == [CheckEdit(level), es[0], es[1], es[2]];
    var checked := Next(s, CheckEdit(level));
    RunOfThree(Next, checked, es[0], es[1], es[2]);
    DeleteKeepsGapless(s.w, level);
    var v := Deleted(s.w, level);
    assert Next(checked, es[0]) == checked.(w := v);
    DeleteKeepsGapless(v, level - 1);
    LateEditGap(Deleted(v, level - 1), level, Picture(image));
  }

  // ----- Creates -------------------------------------------------------------------------------------

  /** The most creates that are in flight at one time in a run. */
  ghost function Peak(s: Site, es: seq<Step>): int
    decreases |es|
  {
    if es == [] then s.creating else Max(s.creating, Peak(Next(s, es[0]), es[1..]))
  }

  /** The most levels there are at one time in a run. */
  ghost function Highest(s: Site, es: seq<Step>): int
    decreases |es|
  {
    if es == [] then Count(s.w) else Max(Count(s.w), Highest(Next(s, es[0]), es[1..]))
  }

  lemma {:induction false} CapHolds(s: Site, es: seq<Step>, k: int)
    requires Gapless(s.w) && EditsAimed(s) && Never(Next, s, es, CutsEdit)
    requires Peak(s, es) <= k && Count(s.w) + s.creating <= MAX_LEVELS - 1 + k
    ensures Highest(s, es) <= MAX_LEVELS - 1 + k
    decreases |es|
  {
    if es != [] {
      NumberingKept(s, es[0]);
      EditsStayAimed(s, es[0]);
      CapHolds(Next(s, es[0]), es[1..], k);
    }
  }

  /** The campaign never outgrows the cap by more creates than were in flight beside the first. */
  lemma CapOutgrownBy(s: Site, es: seq<Step>)
    requires Calm(s) && Gapless(s.w) && Count(s.w) <= MAX_LEVELS && Never(Next, s, es, CutsEdit)
    ensures Highest(s, es) <= MAX_LEVELS - 1 + Max(1, Peak(s, es))
  {
    CapHolds(s, es, Max(1, Peak(s, es)));
  }

  /** n checks, or n appends. */
  ghost function Times(e: Step, n: nat): seq<Step> {
    if n == 0 then [] else [e] + Times(e, n - 1)
  }

  lemma {:induction false} AllAppend(s: Site, n: nat)
    requires Gapless(s.w) && s.creating == n
    ensures Never(Next, s, Times(Append, n), CutsEdit)
    ensures Peak(s, Times(Append, n)) == n && Highest(s, Times(Append, n)) == Count(s.w) + n
    decreases n
  {
    if n > 0 {
      assert Times(Append, n)[1..] == Times(Append, n - 1);
      AppendKeepsGapless(s.w);
      AllAppend(Next(s, Append), n - 1);
    }
  }

  lemma {:induction false} AllCheckThenAppend(s: Site, n: nat, k: nat)
    requires Gapless(s.w) && Count(s.w) < MAX_LEVELS && s.creating + n == k
    ensures var es := Times(CheckCreate, n) + Times(Append, k);
      && Never(Next, s, es, CutsEdit) && Peak(s, es) == k && Highest(s, es) == Count(s.w) + k
    decreases n
  {
    var es := Times(CheckCreate, n) + Times(Append, k);
    if n > 0 {
      assert es[1..] == Times(CheckCreate, n - 1) + Times(Append, k);
      AllCheckThenAppend(Next(s, CheckCreate), n - 1, k);
    } else {
      assert es == Times(Append, k);
      AllAppend(s, k);
    }
  }

  ghost function Rows(n: nat): (rows: map<int, LevelRow>)
    ensures forall i :: i in rows <==> 1 <= i <= n
  {
    if n == 0 then map[] else Rows(n - 1)[n := LevelRow(None, NO_CONFIG)]
  }

  ghost function Blank(n: nat): Site {
    Site(World(Rows(n), map[], map[], map[]), 0, multiset{}, multiset{})
  }

  lemma BlankGapless(n: nat)
    requires n >= 1
    ensures Calm(Blank(n)) && Gapless(Blank(n).w) && Count(Blank(n).w) == n
  {
    TopIs(Rows(n).Keys, n);
  }

  /** The bound is met for any number of creates: all check at 999 levels, then all append. */
  lemma CapReached(k: nat) returns (s: Site, es: seq<Step>)
    ensures Calm(s) && Gapless(s.w) && Count(s.w) == MAX_LEVELS - 1 && Never(Next, s, es, CutsEdit)
    ensures Peak(s, es) == k && Highest(s, es) == MAX_LEVELS - 1 + k
  {
    s, es := Blank(MAX_LEVELS - 1), Times(CheckCreate, k) + Times(Append, k);
    BlankGapless(MAX_LEVELS - 1);
    AllCheckThenAppend(s, k, k);
  }

  /** On this run the campaign stays within its cap. */
  ghost predicate CapKept(s: Site, es: seq<Step>, k: nat) {
    Calm(s) && Gapless(s.w) && Count(s.w) <= MAX_LEVELS && Never(Next, s, es, CutsEdit) && Peak(s, es) <= k
    ==> Highest(s, es) <= MAX_LEVELS
  }

  /** With up to k creates in flight the cap is kept, on all runs, exactly if no two may overlap. */
  lemma CapKeptExactly(k: nat)
    ensures k <= 1 <==> forall s, es :: CapKept(s, es, k)
  {
    if k <= 1 {
      forall s, es ensures CapKept(s, es, k) {
        if Calm(s) && Gapless(s.w) && Count(s.w) <= MAX_LEVELS && Never(Next, s, es, CutsEdit) && Peak(s, es) <= k {
          CapOutgrownBy(s, es);
        }
      }
    } else {
      var s, es := CapReached(k);
      assert !CapKept(s, es, k);
    }
  }

  // ----- Everything together ---------------------------------------------------------------------------

  ghost predicate SoundSite(s: Site) {
    Sound(s.w)
  }

  ghost predicate StartersKnown(s: Site) {
    forall k :: k in s.starting ==> k.0 in s.w.bonus
  }

  /** What holds besides while no deletion cuts a request short and no two creates overlap. */
  ghost predicate Steady(s: Site) {
    Sound(s.w) && EditsAimed(s) && StartsAimed(s) && StartersKnown(s) && Count(s.w) + s.creating <= MAX_LEVELS
  }

  lemma StartersStayKnown(s: Site, e: Step)
    requires StartersKnown(s)
    ensures StartersKnown(Next(s, e))
  {
    UsersLeft(s, e);
    forall k | k in Next(s, e).starting ensures k.0 in Next(s, e).w.bonus {
      StartsJoin(s, e, k);
    }
  }

  lemma WriteKeeps(s: Site, e: Step)
    requires Steady(s) && Writes(e)
    ensures Sound(Next(s, e).w)
  {
    match e
    case Append => if s.creating > 0 { AddKeeps(s.w); }
    case Delete(level) =>
      DeletionIsTheRequest(s.w, level);
      if DeleteAccepted(s.w, level) { DeleteKeeps(s.w, level); }
    case Upsert(level, edit) =>
      if level in s.editing && (edit.Config? ==> ConfigAccepted(edit.config)) {
        UpsertKeeps(s.w, level, Edited(s.w.levels[level], edit));
      }
  }

  /** The other steps write progress alone, for players who have some or a start in flight. */
  lemma PlayWrites(s: Site, e: Step)
    requires !Writes(e)
    ensures Next(s, e).w == s.w.(progress := Next(s, e).w.progress)
    ensures forall k :: k in Next(s, e).w.progress ==> k in s.w.progress || k in s.starting
  {
    match e
    case Finish(u, level, elapsed, credited) => ClosedWrites(s.w, u, level, elapsed, credited);
    case Fail(u, level, pieces) => ClosedWrites(s.w, u, level, 0, pieces);
    case _ =>
  }

  lemma ClosedWrites(w: World, u: User, level: int, elapsed: int, pieces: int)
    ensures var v := Closed(w, u, level, elapsed, pieces);
      v == w.(progress := v.progress) && v.progress.Keys == w.progress.Keys
    ensures var v := Abandoned(w, u, level, pieces);
      v == w.(progress := v.progress) && v.progress.Keys == w.progress.Keys
  {
  }

  lemma PlayKeeps(s: Site, e: Step)
    requires Steady(s) && !Writes(e)
    ensures Sound(Next(s, e).w)
  {
    PlayWrites(s, e);
    ProgressKeeps(s.w, Next(s, e).w.progress, s.w.xp);
  }

  lemma RoomKept(s: Site, e: Step)
    requires Steady(s) && !CutsEdit(s, e) && Next(s, e).creating <= 1
    ensures EditsAimed(Next(s, e)) && Count(Next(s, e).w) + Next(s, e).creating <= MAX_LEVELS
  {
    NumberingKept(s, e);
    EditsStayAimed(s, e);
  }

  lemma SteadyKept(s: Site, e: Step)
    requires Steady(s) && !CutsStart(s, e) && !CutsEdit(s, e) && Next(s, e).creating <= 1
    ensures Steady(Next(s, e))
  {
    StartersStayKnown(s, e);
    StartsStayAimed(s, e);
    RoomKept(s, e);
    if Writes(e) { WriteKeeps(s, e); } else { PlayKeeps(s, e); }
  }

  /**
   Without overlapping creates, and without deletions that cut a start or an edit short, every
   interleaving keeps the campaign sound.
   */
  lemma {:induction false} SoundThroughout(s: Site, es: seq<Step>)
    requires Steady(s) && Never(Next, s, es, CutsStart) && Never(Next, s, es, CutsEdit) && Peak(s, es) <= 1
    ensures Throughout(Next, s, es, SoundSite)
    decreases |es|
  {
    if es != [] {
      PeakCovers(Next(s, es[0]), es[1..]);
      SteadyKept(s, es[0]);
      SoundThroughout(Next(s, es[0]), es[1..]);
    }
  }

  lemma PeakCovers(s: Site, es: seq<Step>)
    ensures s.creating <= Peak(s, es)
  {
  }
}
