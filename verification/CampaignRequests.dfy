/** What each request of the campaign does, and when it is refused; what runs of requests pay. */
module CampaignRequests {
  import opened Prelude
  import opened Tiers
  import opened Campaign
  import opened CampaignRuns

  /** The experience a level is worth at the moment: the configured or default reward, and never less than nothing. */
  function Reward(w: World, level: int): nat {
    if level in w.levels && Effective(level, Some(w.levels[level].config)).xpReward > 0
    then Effective(level, Some(w.levels[level].config)).xpReward
    else 0
  }

  /** Pieces of the level's grid. */
  function Grid(w: World, level: int): int
    requires level in w.levels
  {
    var t := Effective(level, Some(w.levels[level].config));
    t.gridCols * t.gridRows
  }

  /** Nobody's progress but the user's on the level is touched. */
  ghost predicate OnlyRow(w: World, v: World, u: User, level: int) {
    forall k :: k != (u, level) ==>
      (k in v.progress <==> k in w.progress) && (k in w.progress ==> v.progress[k] == w.progress[k])
  }

  // ----- Starting -----------------------------------------------------------------------------------

  lemma StartsExactly(w: World, u: User, level: int)
    requires Known(w, Start(u, level))
    ensures Perform(w, Start(u, level)).Ok? <==>
      && 1 <= level <= Count(w) && Open(w, u, level)
      && level in w.levels && w.levels[level].image.Some?
    ensures Perform(w, Start(u, level)).Err? ==>
      Perform(w, Start(u, level)).error ==
        if !(1 <= level <= Count(w)) then InvalidLevel else if !Open(w, u, level) then Locked else NoImage
  {
  }

  /** The level is in progress afterwards unless it was completed; a retry keeps what the row had. */
  lemma StartedRow(w: World, u: User, level: int)
    ensures var v := Started(w, u, level);
      && v.levels == w.levels && v.bonus == w.bonus && v.xp == w.xp && OnlyRow(w, v, u, level)
      && (u, level) in v.progress
      && (if (u, level) !in w.progress then v.progress[(u, level)] == ProgressRow(InProgress, 0, 0)
          else if w.progress[(u, level)].status == Completed then v == w
          else v.progress[(u, level)].status == InProgress
               && v.progress[(u, level)].elapsed == w.progress[(u, level)].elapsed
               && v.progress[(u, level)].correct == w.progress[(u, level)].correct)
  {
  }

  lemma StartIsStarted(w: World, u: User, level: int)
    requires Known(w, Start(u, level)) && Perform(w, Start(u, level)).Ok?
    ensures Perform(w, Start(u, level)).value == (Started(w, u, level), false)
  {
  }

  // ----- Completing ---------------------------------------------------------------------------------

  lemma CompletesExactly(w: World, u: User, level: int, elapsed: int, correct: Option<int>)
    requires Known(w, Complete(u, level, elapsed, correct))
    ensures var r := Perform(w, Complete(u, level, elapsed, correct));
      && (r.Ok? <==> 1 <= level <= Count(w) && Open(w, u, level))
      && (r.Ok? ==> r.value == Finished(w, u, level, elapsed, correct))
      && (r.Err? ==> r.error == if 1 <= level <= Count(w) then Locked else InvalidLevel)
  {
  }

  /** A row in progress becomes completed, with the time given and the better of the piece counts. */
  lemma FinishedRow(w: World, u: User, level: int, elapsed: int, correct: Option<int>)
    requires u in w.xp && level in w.levels
    ensures var (v, first) := Finished(w, u, level, elapsed, correct);
      && (first <==> (u, level) in w.progress && w.progress[(u, level)].status == InProgress)
      && (first <==> !Cleared(w, u, level) && Cleared(v, u, level))
      && (!first ==> v == w)
      && v.levels == w.levels && v.bonus == w.bonus && OnlyRow(w, v, u, level)
      && (first ==>
            var credited :=
              if correct.Some? && 0 <= correct.value < Grid(w, level) then correct.value else Grid(w, level);
            var row := v.progress[(u, level)];
            && row.elapsed == elapsed
            && row.correct >= credited && row.correct >= w.progress[(u, level)].correct
            && (row.correct == credited || row.correct == w.progress[(u, level)].correct))
  {
  }

  /** That transition pays its user what the level is worth, and nobody else anything. */
  lemma FinishedPays(w: World, u: User, level: int, elapsed: int, correct: Option<int>)
    requires u in w.xp
    ensures var (v, first) := Finished(w, u, level, elapsed, correct);
      && v.xp.Keys == w.xp.Keys
      && v.xp[u] == w.xp[u] + (if first then Reward(w, level) else 0)
      && forall o :: o in w.xp && o != u ==> v.xp[o] == w.xp[o]
  {
  }

  // ----- Failing --------------------------------------------------------------------------------------

  /** A level in progress is failed with the better of the piece counts; no other row is touched. */
  lemma FailsExactly(w: World, u: User, level: int, pieces: int)
    requires Known(w, Fail(u, level, pieces))
    ensures Perform(w, Fail(u, level, pieces)).Ok? <==> 1 <= level <= Count(w)
    ensures Perform(w, Fail(u, level, pieces)).Ok? ==>
      Perform(w, Fail(u, level, pieces)).value == (Abandoned(w, u, level, pieces), false)
  {
  }

  lemma AbandonedRow(w: World, u: User, level: int, pieces: int)
    ensures var v := Abandoned(w, u, level, pieces);
      && v.levels == w.levels && v.bonus == w.bonus && v.xp == w.xp && OnlyRow(w, v, u, level)
      && ((u, level) in v.progress <==> (u, level) in w.progress)
      && ((u, level) in w.progress ==>
            var (row, before) := (v.progress[(u, level)], w.progress[(u, level)]);
            if before.status != InProgress then row == before
            else row.status == Failed && row.elapsed == before.elapsed
                 && row.correct >= pieces && row.correct >= before.correct && row.correct >= 0
                 && row.correct in {pieces, before.correct, 0})
  {
  }

  // ----- Administration ---------------------------------------------------------------------------------

  lemma AddsExactly(w: World)
    ensures Perform(w, AddLevel).Ok? <==> Count(w) < 1000
    ensures Perform(w, AddLevel).Ok? ==>
      var v := Advance(w, AddLevel);
      && v == w.(levels := v.levels)
      && v.levels.Keys == w.levels.Keys + {Count(w) + 1}
      && v.levels[Count(w) + 1].image == None
      && Effective(Count(w) + 1, Some(v.levels[Count(w) + 1].config)) == TierForLevel(Count(w) + 1)
      && forall i :: i in w.levels && i != Count(w) + 1 ==> v.levels[i] == w.levels[i]
  {
  }

  lemma DeletesExactly(w: World, level: int)
    ensures Perform(w, DeleteLevel(level)).Ok? <==>
      2 <= level == Count(w) && forall k :: k in w.progress ==> k.1 != level
    ensures Perform(w, DeleteLevel(level)).Ok? ==> Advance(w, DeleteLevel(level)) == w.(levels := w.levels - {level})
    ensures Perform(w, DeleteLevel(level)).Err? ==>
      Perform(w, DeleteLevel(level)).error ==
        if !(1 <= level <= Count(w)) then InvalidLevel
        else if level == 1 then LevelRequired
        else if level < Count(w) then NotLast
        else AlreadyPlayed
  {
  }

  /** An accepted edit sets every field; a map flag that was not sent puts the level on the map. */
  lemma ConfiguresExactly(w: World, level: int, c: LevelConfig)
    requires level in w.levels
    ensures Perform(w, Configure(level, c)).Ok? <==>
      && 1 <= level <= Count(w)
      && c.star.Some? && c.star.value in {1, 2, 3, 4, 5}
      && c.gridCols.Some? && c.gridRows.Some?
      && 2 <= c.gridCols.value <= 20 && 2 <= c.gridRows.value <= 20
      && c.playSeconds.Some? && 30 <= c.playSeconds.value <= 3600
      && c.xpReward.Some? && 0 <= c.xpReward.value <= 100_000
      && c.category.Some? && 1 <= |c.category.value| <= 80
    ensures Perform(w, Configure(level, c)).Ok? ==>
      var v := Advance(w, Configure(level, c));
      && v == w.(levels := v.levels) && v.levels.Keys == w.levels.Keys
      && v.levels[level].image == w.levels[level].image
      && Effective(level, Some(v.levels[level].config))
         == Tier(c.star.value, c.gridCols.value, c.gridRows.value, c.playSeconds.value, c.category.value,
                 c.xpReward.value, c.showOnMain.None? || c.showOnMain.value)
      && forall i :: i in w.levels && i != level ==> v.levels[i] == w.levels[i]
  {
  }

  lemma UploadsExactly(w: World, level: int, image: string)
    requires level in w.levels
    ensures Perform(w, SetImage(level, image)).Ok? <==> 1 <= level <= Count(w)
    ensures Perform(w, SetImage(level, image)).Ok? ==>
      var v := Advance(w, SetImage(level, image));
      && v == w.(levels := v.levels) && v.levels.Keys == w.levels.Keys
      && v.levels[level].image == Some(image) && v.levels[level].config == w.levels[level].config
      && forall i :: i in w.levels && i != level ==> v.levels[i] == w.levels[i]
  {
  }

  lemma BuysExactly(w: World, u: User, stars: nat)
    requires Known(w, BuyStars(u, stars))
    ensures var v := Advance(w, BuyStars(u, stars));
      && v == w.(bonus := v.bonus) && v.bonus.Keys == w.bonus.Keys
      && TotalStars(v, u) == TotalStars(w, u) + stars
      && forall o :: o in w.bonus && o != u ==> v.bonus[o] == w.bonus[o]
  {
    assert Done(Advance(w, BuyStars(u, stars)), u) == Done(w, u);
  }

  // ----- Stars and experience over runs -------------------------------------------------------------

  /** Completing a level raises its user's total by exactly its stars. */
  lemma CompletionPaysStars(w: World, u: User, level: int, elapsed: int, correct: Option<int>)
    requires Sound(w) && u in w.bonus && u in w.xp && level in w.levels
    requires (u, level) in w.progress && w.progress[(u, level)].status == InProgress
    ensures var v := Finished(w, u, level, elapsed, correct).0;
      TotalStars(v, u) == TotalStars(w, u) + Effective(level, Some(w.levels[level].config)).star
  {
    FinishedRow(w, u, level, elapsed, correct);
    var v := Finished(w, u, level, elapsed, correct).0;
    assert Done(v, u) == Done(w, u) + {level};
    EarnedGrows(TiersOf(w.levels), Done(w, u), level, Count(w));
  }

  /** The request completes the level for the user. */
  ghost predicate Clears(w: World, e: Event, u: User, level: int)
    requires Known(w, e)
  {
    !Cleared(w, u, level) && Cleared(Advance(w, e), u, level)
  }

  /** What the levels the run completed for a user were worth, each at the request that completed it. */
  ghost function Worth(w: World, es: seq<Event>, u: User): nat
    requires KnownAll(w, es)
  {
    if es == [] then 0
    else
      var v := Run(w, Init(es));
      assert Known(w, es[|es| - 1]);
      Worth(w, Init(es), u)
      + if Last(es).Complete? && Clears(v, Last(es), u, Last(es).level) then Reward(v, Last(es).level) else 0
  }

  /** A request completes at most one level, that of a completion, for its own user. */
  lemma ClearsOnlyItsOwn(w: World, e: Event, u: User, level: int)
    requires Known(w, e) && Clears(w, e, u, level)
    ensures e.Complete? && e.user == u && e.level == level
  {
    CompletionsStep(w, e, u, level);
  }

  lemma OthersPayNothing(w: World, e: Event, u: User)
    requires Known(w, e) && u in w.xp && !e.Complete?
    ensures u in Advance(w, e).xp && Advance(w, e).xp[u] == w.xp[u]
  {
  }

  lemma CompletionPays(w: World, e: Event, u: User)
    requires Known(w, e) && u in w.xp && e.Complete?
    ensures u in Advance(w, e).xp
    ensures Advance(w, e).xp[u] == w.xp[u] + if Clears(w, e, u, e.level) then Reward(w, e.level) else 0
  {
    CompletesExactly(w, e.user, e.level, e.elapsed, e.correct);
    FinishedPays(w, e.user, e.level, e.elapsed, e.correct);
    CompletionsStep(w, e, u, e.level);
  }

  /** Over any run a user's experience rises by exactly what the levels it completed were worth. */
  lemma {:induction false} ExperienceIsEarned(w: World, es: seq<Event>, u: User)
    requires KnownAll(w, es) && u in w.xp
    ensures u in Run(w, es).xp && Run(w, es).xp[u] == w.xp[u] + Worth(w, es, u)
  {
    if es != [] {
      var v := Run(w, Init(es));
      assert Known(w, es[|es| - 1]);
      ExperienceIsEarned(w, Init(es), u);
      if Last(es).Complete? { CompletionPays(v, Last(es), u); } else { OthersPayNothing(v, Last(es), u); }
    }
  }
}
