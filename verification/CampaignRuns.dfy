/** What holds over whole runs of the campaign: no deadlock, one payment per level, no re-locking. */
module CampaignRuns {
  import opened Prelude
  import opened Tiers
  import opened Campaign

  ghost predicate KnownAll(w: World, es: seq<Event>) {
    forall i :: 0 <= i < |es| ==> Known(w, es[i])
  }

  lemma UsersStay(w: World, e: Event)
    requires Known(w, e)
    ensures w.bonus.Keys <= Advance(w, e).bonus.Keys && w.xp.Keys <= Advance(w, e).xp.Keys
  {
  }

  /** The world after a run of requests. */
  ghost function Run(w: World, es: seq<Event>): (v: World)
    requires KnownAll(w, es)
    ensures w.bonus.Keys <= v.bonus.Keys && w.xp.Keys <= v.xp.Keys
  {
    if es == [] then w
    else
      var v := Run(w, Init(es));
      assert Known(w, es[|es| - 1]);
      UsersStay(v, Last(es));
      Advance(v, Last(es))
  }

  lemma {:induction false} AlwaysSound(w: World, es: seq<Event>)
    requires Sound(w) && KnownAll(w, es)
    ensures Sound(Run(w, es))
  {
    if es != [] {
      AlwaysSound(w, Init(es));
      SoundKept(Run(w, Init(es)), Last(es));
    }
  }

  // ----- The campaign never deadlocks --------------------------------------------------------

  lemma TiersSound(w: World)
    requires Sound(w)
    ensures StarsNonNegative(TiersOf(w.levels))
  {
  }

  /** Whoever has completed all map levels before `level` may play it, even without bonus stars. */
  lemma LowestUncompletedIsOpen(w: World, u: User, level: int)
    requires Sound(w) && u in w.bonus && 1 <= level <= Count(w) + 1
    requires forall i :: 1 <= i < level && At(TiersOf(w.levels), i).showOnMain ==> Cleared(w, u, i)
    ensures Open(w, u, level)
    ensures TotalStars(w, u) - w.bonus[u] >= Required(TiersOf(w.levels), level)
  {
    TiersSound(w);
    PrefixPaysForNext(TiersOf(w.levels), Done(w, u), level, Count(w));
  }

  /** After any run of any requests, admin edits included. */
  lemma NeverDeadlocked(w: World, es: seq<Event>, u: User, level: int)
    requires Sound(w) && KnownAll(w, es) && u in w.bonus
    requires var v := Run(w, es);
      1 <= level <= Count(v) && forall i :: 1 <= i < level && At(TiersOf(v.levels), i).showOnMain ==> Cleared(v, u, i)
    ensures u in Run(w, es).bonus && Open(Run(w, es), u, level)
  {
    AlwaysSound(w, es);
    LowestUncompletedIsOpen(Run(w, es), u, level);
  }

  // ----- Every campaign can be completed ------------------------------------------------------

  /** Plays requests none of which is refused. */
  ghost predicate Accepted(w: World, es: seq<Event>, v: World)
    decreases |es|
  {
    if es == [] then v == w
    else Known(w, es[0]) && Perform(w, es[0]).Ok? && Accepted(Perform(w, es[0]).value.0, es[1..], v)
  }

  lemma AcceptedFirst(a: World, e: Event, mid: World, rest: seq<Event>, c: World)
    requires Known(a, e) && Perform(a, e).Ok? && Perform(a, e).value.0 == mid && Accepted(mid, rest, c)
    ensures Accepted(a, [e] + rest, c)
  {
    assert ([e] + rest)[1..] == rest;
  }

  lemma {:induction false} AcceptedAppend(a: World, first: seq<Event>, b: World, second: seq<Event>, c: World)
    requires Accepted(a, first, b) && Accepted(b, second, c)
    ensures Accepted(a, first + second, c)
    decreases |first|
  {
    if first == [] {
      assert first + second == second;
    } else {
      var mid := Perform(a, first[0]).value.0;
      AcceptedAppend(mid, first[1..], b, second, c);
      AcceptedFirst(a, first[0], mid, first[1..] + second, c);
      assert first + second == [first[0]] + (first[1..] + second);
    }
  }

  ghost predicate AllPictured(w: World) {
    forall i :: i in w.levels ==> w.levels[i].image.Some?
  }

  /** The user can get from one world to the other alone, by requests none of which is refused. */
  ghost predicate CanReach(w: World, u: User, v: World) {
    exists plan :: Accepted(w, plan, v) && forall i :: 0 <= i < |plan| ==> IsPlay(plan[i], u)
  }

  predicate IsPlay(e: Event, u: User) {
    (e.Start? || e.Complete?) && e.user == u
  }

  lemma CanStay(w: World, u: User)
    ensures CanReach(w, u, w)
  {
    assert Accepted(w, [], w);
  }

  lemma ReachOn(a: World, u: User, b: World, c: World)
    requires CanReach(a, u, b) && CanReach(b, u, c)
    ensures CanReach(a, u, c)
  {
    var p :| Accepted(a, p, b) && forall i :: 0 <= i < |p| ==> IsPlay(p[i], u);
    var q :| Accepted(b, q, c) && forall i :: 0 <= i < |q| ==> IsPlay(q[i], u);
    AcceptedAppend(a, p, b, q, c);
  }

  lemma ReachByOne(w: World, e: Event, u: User)
    requires Known(w, e) && Perform(w, e).Ok? && IsPlay(e, u)
    ensures CanReach(w, u, Perform(w, e).value.0)
  {
    var v := Perform(w, e).value.0;
    assert [e][1..] == [];
    assert Accepted(v, [], v);
    assert Accepted(w, [e], v);
  }

  /** An open level with a picture can be started. */
  lemma StartReaches(w: World, u: User, level: int)
    requires Sound(w) && AllPictured(w) && u in w.bonus && u in w.xp
    requires 1 <= level <= Count(w) && Open(w, u, level)
    ensures CanReach(w, u, Started(w, u, level))
    ensures Sound(Started(w, u, level))
  {
    SoundKept(w, Start(u, level));
    ReachByOne(w, Start(u, level), u);
  }

  lemma StartedStillOpen(w: World, u: User, level: int)
    requires u in w.bonus && Open(w, u, level)
    ensures Open(Started(w, u, level), u, level)
    ensures var v := Started(w, u, level); v.levels == w.levels && v.bonus == w.bonus && v.xp == w.xp
  {
    StartedClears(w, u, level);
    assert Done(Started(w, u, level), u) == Done(w, u);
  }

  lemma StartedClears(w: World, u: User, level: int)
    ensures forall i :: Cleared(Started(w, u, level), u, i) <==> Cleared(w, u, i)
  {
  }

  lemma StartedInProgress(w: World, u: User, level: int)
    requires !Cleared(w, u, level)
    ensures var v := Started(w, u, level);
      (u, level) in v.progress && v.progress[(u, level)].status == InProgress
  {
  }

  /** An open level in progress can be completed. */
  lemma CompleteReaches(w: World, u: User, level: int) returns (v: World)
    requires Sound(w) && u in w.bonus && u in w.xp && 1 <= level <= Count(w) && Open(w, u, level)
    requires (u, level) in w.progress && w.progress[(u, level)].status == InProgress
    ensures CanReach(w, u, v) && Sound(v)
    ensures v.levels == w.levels && v.bonus == w.bonus && v.xp.Keys == w.xp.Keys
    ensures forall i :: Cleared(v, u, i) <==> Cleared(w, u, i) || i == level
  {
    SoundKept(w, Complete(u, level, 0, None));
    ReachByOne(w, Complete(u, level, 0, None), u);
    v := Finished(w, u, level, 0, None).0;
    FinishedClears(w, u, level);
  }

  lemma FinishedClears(w: World, u: User, level: int)
    requires u in w.xp && (u, level) in w.progress && w.progress[(u, level)].status == InProgress
    ensures var v := Finished(w, u, level, 0, None).0;
      && v.levels == w.levels && v.bonus == w.bonus && v.xp.Keys == w.xp.Keys
      && forall i :: Cleared(v, u, i) <==> Cleared(w, u, i) || i == level
  {
  }

  /** An open level with a picture is completed by starting and completing it. */
  lemma LevelPlayable(w: World, u: User, level: int) returns (v: World)
    requires Sound(w) && AllPictured(w) && u in w.bonus && u in w.xp
    requires 1 <= level <= Count(w) && Open(w, u, level) && !Cleared(w, u, level)
    ensures CanReach(w, u, v)
    ensures Sound(v) && v.levels == w.levels && v.bonus == w.bonus && v.xp.Keys == w.xp.Keys
    ensures forall i :: Cleared(v, u, i) <==> Cleared(w, u, i) || i == level
  {
    var mid := Started(w, u, level);
    StartReaches(w, u, level);
    StartedStillOpen(w, u, level);
    StartedClears(w, u, level);
    StartedInProgress(w, u, level);
    v := CompleteReaches(mid, u, level);
    ReachOn(w, u, mid, v);
  }

  /** Level by level, from one below which everything is completed. */
  lemma {:induction false} PlayFrom(w: World, u: User, level: int) returns (v: World)
    requires Sound(w) && AllPictured(w) && u in w.bonus && u in w.xp && 1 <= level <= Count(w) + 1
    requires forall i :: 1 <= i < level ==> Cleared(w, u, i)
    ensures CanReach(w, u, v) && v.levels == w.levels
    ensures forall i :: 1 <= i <= Count(w) ==> Cleared(v, u, i)
    decreases Count(w) - level
  {
    if level > Count(w) {
      v := w;
      CanStay(w, u);
    } else if Cleared(w, u, level) {
      v := PlayFrom(w, u, level + 1);
    } else {
      LowestUncompletedIsOpen(w, u, level);
      var mid := LevelPlayable(w, u, level);
      v := PlayFrom(mid, u, level + 1);
      ReachOn(w, u, mid, v);
    }
  }

  /** Wherever a run has got to, each player can complete every level alone, once every level has a picture. */
  lemma CampaignCompletable(w: World, es: seq<Event>, u: User) returns (v: World)
    requires Sound(w) && KnownAll(w, es) && u in w.bonus
    requires AllPictured(Run(w, es))
    ensures CanReach(Run(w, es), u, v) && v.levels == Run(w, es).levels
    ensures forall i :: 1 <= i <= Count(v) ==> Cleared(v, u, i)
  {
    AlwaysSound(w, es);
    v := PlayFrom(Run(w, es), u, 1);
  }

  // ----- Completed is final, XP is due once ----------------------------------------------------

  /** Requests of a run that made a level's XP due to a user. */
  ghost function Payments(w: World, es: seq<Event>, u: User, level: int): nat
    requires KnownAll(w, es)
  {
    if es == [] then 0
    else
      var v := Run(w, Init(es));
      assert Known(w, es[|es| - 1]);
      Payments(w, Init(es), u, level)
      + if Last(es).Complete? && Last(es).user == u && Last(es).level == level
           && Perform(v, Last(es)).Ok? && Perform(v, Last(es)).value.1 then 1 else 0
  }

  lemma CompletionsStep(w: World, e: Event, u: User, level: int)
    requires Known(w, e)
    ensures Cleared(w, u, level) ==> Cleared(Advance(w, e), u, level)
    ensures !Cleared(w, u, level) && Cleared(Advance(w, e), u, level) <==>
            e.Complete? && e.user == u && e.level == level && Perform(w, e).Ok? && Perform(w, e).value.1
  {
  }

  /** Over any run a level pays a user at most once: exactly if the run is what completed it. */
  lemma {:induction false} PaidOnce(w: World, es: seq<Event>, u: User, level: int)
    requires KnownAll(w, es)
    ensures Cleared(w, u, level) ==> Cleared(Run(w, es), u, level)
    ensures Payments(w, es, u, level) == if Cleared(Run(w, es), u, level) && !Cleared(w, u, level) then 1 else 0
  {
    if es != [] {
      PaidOnce(w, Init(es), u, level);
      assert Known(w, es[|es| - 1]);
      CompletionsStep(Run(w, Init(es)), Last(es), u, level);
    }
  }

  /** Some request of the run started the level for the user, and was accepted. */
  ghost predicate StartedIn(w: World, es: seq<Event>, u: User, level: int)
    requires KnownAll(w, es)
  {
    es != [] &&
    (var v := Run(w, Init(es));
     assert Known(w, es[|es| - 1]);
     StartedIn(w, Init(es), u, level) || (Last(es) == Start(u, level) && Perform(v, Last(es)).Ok?))
  }

  lemma RowsBegin(w: World, e: Event, u: User, level: int)
    requires Known(w, e) && (u, level) !in w.progress && (u, level) in Advance(w, e).progress
    ensures e == Start(u, level) && Perform(w, e).Ok?
  {
  }

  /** Nobody gets progress on a level, let alone completes it, without an accepted start. */
  lemma {:induction false} BegunByStart(w: World, es: seq<Event>, u: User, level: int)
    requires KnownAll(w, es) && (u, level) !in w.progress
    ensures (u, level) in Run(w, es).progress ==> StartedIn(w, es, u, level)
  {
    if es != [] && (u, level) in Run(w, es).progress {
      var v := Run(w, Init(es));
      assert Known(w, es[|es| - 1]);
      BegunByStart(w, Init(es), u, level);
      if (u, level) !in v.progress { RowsBegin(v, Last(es), u, level); }
    }
  }

  // ----- Unlocked levels stay unlocked ----------------------------------------------------------

  /** Everything but editing a level's configuration. */
  predicate NotAnEdit(e: Event) {
    !e.Configure?
  }

  /** Only edits change the configuration of a level that stays. */
  lemma ConfigSteady(w: World, e: Event, i: int)
    requires Known(w, e) && NotAnEdit(e) && i in w.levels && (e.AddLevel? ==> i <= Count(w))
    ensures i in Advance(w, e).levels ==> Advance(w, e).levels[i].config == w.levels[i].config
  {
  }

  lemma TiersSteady(w: World, e: Event, i: int)
    requires Sound(w) && Known(w, e) && NotAnEdit(e)
    requires 1 <= i <= Count(w) && i <= Count(Advance(w, e))
    ensures At(TiersOf(Advance(w, e).levels), i) == At(TiersOf(w.levels), i)
  {
    SoundKept(w, e);
    ConfigSteady(w, e, i);
    assert i in w.levels && i in Advance(w, e).levels;
  }

  lemma DoneSteady(w: World, e: Event, u: User, i: int)
    requires Sound(w) && Known(w, e) && NotAnEdit(e) && i in Done(w, u)
    ensures 1 <= i <= Count(w) && i <= Count(Advance(w, e))
    ensures i in Done(Advance(w, e), u)
    ensures At(TiersOf(Advance(w, e).levels), i) == At(TiersOf(w.levels), i)
  {
    SoundKept(w, e);
    CompletionsStep(w, e, u, i);
    TiersSteady(w, e, i);
  }

  lemma SameEarned(a: TierTable, b: TierTable, done: set<int>, n: nat, m: nat)
    requires forall i :: i in done ==> 1 <= i <= n && i <= m && At(b, i) == At(a, i)
    ensures Earned(a, done, n) == Earned(b, done, m)
  {
    if n <= m {
      EarnedDepends(a, b, done, n, m);
    } else {
      EarnedDepends(b, a, done, m, n);
    }
  }

  /** A level completed in both worlds, at the same stars. */
  ghost predicate StillDone(w: World, v: World, u: User, i: int) {
    && 1 <= i <= Count(w) && i <= Count(v) && i in Done(v, u)
    && At(TiersOf(v.levels), i) == At(TiersOf(w.levels), i)
  }

  lemma StarsGrow(w: World, v: World, u: User)
    requires Sound(w) && Sound(v) && u in w.bonus && u in v.bonus && w.bonus[u] <= v.bonus[u]
    requires forall i :: i in Done(w, u) ==> StillDone(w, v, u, i)
    ensures TotalStars(w, u) <= TotalStars(v, u)
  {
    TiersSound(v);
    SameEarned(TiersOf(w.levels), TiersOf(v.levels), Done(w, u), Count(w), Count(v));
    EarnedMonotone(TiersOf(v.levels), Done(w, u), Done(v, u), Count(v));
  }

  lemma BonusGrows(w: World, e: Event, u: User)
    requires Known(w, e) && u in w.bonus
    ensures u in Advance(w, e).bonus && w.bonus[u] <= Advance(w, e).bonus[u]
  {
  }

  lemma StarsNeverFall(w: World, e: Event, u: User)
    requires Sound(w) && Known(w, e) && NotAnEdit(e) && u in w.bonus
    ensures u in Advance(w, e).bonus && TotalStars(w, u) <= TotalStars(Advance(w, e), u)
  {
    SoundKept(w, e);
    BonusGrows(w, e, u);
    forall i | i in Done(w, u) ensures StillDone(w, Advance(w, e), u, i) {
      DoneSteady(w, e, u, i);
    }
    StarsGrow(w, Advance(w, e), u);
  }

  /** Without edits to level configurations, an unlocked level that still exists is still unlocked. */
  lemma StaysUnlocked(w: World, e: Event, u: User, level: int)
    requires Sound(w) && Known(w, e) && NotAnEdit(e) && u in w.bonus
    requires 1 <= level <= Count(w) && level <= Count(Advance(w, e)) && Open(w, u, level)
    ensures u in Advance(w, e).bonus && Open(Advance(w, e), u, level)
  {
    var v := Advance(w, e);
    StarsNeverFall(w, e, u);
    TiersSteady(w, e, level);
    forall i | 1 <= i < level ensures At(TiersOf(w.levels), i) == At(TiersOf(v.levels), i) {
      TiersSteady(w, e, i);
    }
    RequiredLooksBackOnly(TiersOf(w.levels), TiersOf(v.levels), level);
  }

  /** No request of the run deletes the level. */
  ghost predicate NeverDeleted(w: World, es: seq<Event>, level: int)
    requires KnownAll(w, es)
  {
    es != [] ==>
      && NeverDeleted(w, Init(es), level)
      && (Last(es) == DeleteLevel(level) ==>
            Known(w, es[|es| - 1]) && Perform(Run(w, Init(es)), DeleteLevel(level)).Err?)
  }

  lemma OthersKeepCount(w: World, e: Event)
    requires Sound(w) && Known(w, e) && !e.AddLevel? && !e.DeleteLevel?
    ensures Count(Advance(w, e)) == Count(w)
  {
    assert Advance(w, e).levels.Keys == w.levels.Keys;
  }

  lemma LevelStays(w: World, e: Event, level: int)
    requires Sound(w) && Known(w, e) && level <= Count(w)
    requires e == DeleteLevel(level) ==> Perform(w, e).Err?
    ensures level <= Count(Advance(w, e))
  {
    match e
    case AddLevel => if Perform(w, e).Ok? { AddKeeps(w); }
    case DeleteLevel(n) => if Perform(w, e).Ok? { DeleteKeeps(w, n); }
    case _ => OthersKeepCount(w, e);
  }

  /** Over any run without edits in which the level is never deleted, an unlocked level stays unlocked. */
  lemma {:induction false} NeverRelocks(w: World, es: seq<Event>, u: User, level: int)
    requires Sound(w) && KnownAll(w, es) && NeverDeleted(w, es, level)
    requires forall i :: 0 <= i < |es| ==> NotAnEdit(es[i])
    requires u in w.bonus && 1 <= level <= Count(w) && Open(w, u, level)
    ensures level <= Count(Run(w, es)) && u in Run(w, es).bonus && Open(Run(w, es), u, level)
  {
    if es != [] {
      var v := Run(w, Init(es));
      assert Known(w, es[|es| - 1]) && NotAnEdit(es[|es| - 1]);
      NeverRelocks(w, Init(es), u, level);
      AlwaysSound(w, Init(es));
      LevelStays(v, Last(es), level);
      StaysUnlocked(v, Last(es), u, level);
    }
  }
}
