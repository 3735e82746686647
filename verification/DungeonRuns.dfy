/** What holds over whole runs of a dungeon: what completion costs, and that it can always be reached. */
module DungeonRuns {
  import opened Prelude
  import opened DungeonLayout
  import opened DungeonGame

  // ----- Cost ---------------------------------------------------------------------------------

  /** Moves that went through, each paid with one point. */
  function PaidMoves(d: Dungeon, p: Player, actions: seq<Action>): nat {
    if actions == [] then 0
    else PaidMoves(d, p, Init(actions))
         + if Last(actions).Walk? && Perform(d, Run(d, p, Init(actions)), Last(actions)).Ok? then 1 else 0
  }

  /** Retreats that changed the position. */
  function Retreats(d: Dungeon, p: Player, actions: seq<Action>): nat {
    if actions == [] then 0
    else Retreats(d, p, Init(actions))
         + if Last(actions).StepBack? && Retreat(Run(d, p, Init(actions))) != Run(d, p, Init(actions)) then 1 else 0
  }

  /** Points that came and went by other ways than moving. */
  function OtherEnergy(d: Dungeon, p: Player, actions: seq<Action>): int {
    if actions == [] then 0
    else OtherEnergy(d, p, Init(actions))
         + if Last(actions).Energy? && Perform(d, Run(d, p, Init(actions)), Last(actions)).Ok?
           then Last(actions).delta else 0
  }

  /** The balance moves by one point per paid move and by nothing else in the dungeon. */
  lemma {:induction false} EnergyAccounting(d: Dungeon, p: Player, actions: seq<Action>)
    ensures Run(d, p, actions).energy == p.energy + OtherEnergy(d, p, actions) - PaidMoves(d, p, actions)
  {
    if actions != [] { EnergyAccounting(d, p, Init(actions)); }
  }

  /** A retreat can be repeated only after another move: twice in a row is once. */
  lemma RetreatTwiceIsOnce(p: Player)
    ensures Retreat(Retreat(p)) == Retreat(p)
    ensures Retreat(p).energy == p.energy
  {
  }

  /**
   From a player with no saved progress (as after every layout change): each newly visited
   cell was paid for, and there are at most as many retreats as paid moves.
   */
  lemma {:induction false} VisitingIsPaid(d: Dungeon, p: Player, actions: seq<Action>)
    requires p.progress == None
    ensures var g := Current(d, Run(d, p, actions));
            && |g.visited| - 1 <= PaidMoves(d, p, actions)
            && Retreats(d, p, actions) + (if g.prev.Some? then 1 else 0) <= PaidMoves(d, p, actions)
  {
    if actions != [] { VisitingIsPaid(d, p, Init(actions)); }
  }

  ghost function MonsterCells(ms: seq<Monster>): set<Cell> {
    set m | m in ms :: m.cell
  }

  lemma {:induction false} MonsterCellsCardinality(ms: seq<Monster>)
    requires forall i, j :: 0 <= i < j < |ms| ==> ms[i].cell != ms[j].cell
    ensures |MonsterCells(ms)| == |ms|
  {
    if ms == [] {
      assert MonsterCells(ms) == {};
    } else {
      MonsterCellsCardinality(Init(ms));
      assert MonsterCells(ms) == MonsterCells(Init(ms)) + {Last(ms).cell};
    }
  }

  lemma NeededCells(d: Dungeon)
    requires Playable(d)
    ensures |MonsterCells(d.monsters) + {d.start} + {d.treasure}| == |d.monsters| + 2
  {
    MonsterCellsCardinality(d.monsters);
    assert d.path[0] != d.path[|d.path| - 1];
    assert d.start !in MonsterCells(d.monsters) && d.treasure !in MonsterCells(d.monsters) + {d.start};
  }

  /** A completed dungeon has at least its start, its treasure and all monster cells visited. */
  lemma CompletedVisitsAll(d: Dungeon, g: Progress)
    requires Playable(d) && Consistent(d, g) && g.completed
    ensures |g.visited| >= |d.monsters| + 2
  {
    NeededCells(d);
    DistinctCardinality(g.visited);
    assert MonsterCells(d.monsters) + {d.start} + {d.treasure} <= Elements(g.visited);
    SubsetCardinality(MonsterCells(d.monsters) + {d.start} + {d.treasure}, Elements(g.visited));
  }

  /** However it was played, completing a dungeon has cost at least one point more than it has monsters. */
  lemma CompletionCost(d: Dungeon, p: Player, actions: seq<Action>)
    requires Playable(d) && p.progress == None && p.energy >= 0
    requires Current(d, Run(d, p, actions)).completed
    ensures PaidMoves(d, p, actions) >= |d.monsters| + 1
  {
    InvariantAlwaysHolds(d, p, actions);
    VisitingIsPaid(d, p, actions);
    CompletedVisitsAll(d, Run(d, p, actions).progress.value);
  }

  /** Completed or inactive, a dungeon takes no more moves; a completed one only lets the player step back. */
  lemma {:induction false} Frozen(d: Dungeon, p: Player, actions: seq<Action>)
    requires Playable(d) && Invariant(d, p) && (Current(d, p).completed || !d.active)
    ensures PaidMoves(d, p, actions) == 0
    ensures Current(d, Run(d, p, actions)).visited == Current(d, p).visited
    ensures Current(d, p).completed ==>
      && Current(d, Run(d, p, actions)).defeated == Current(d, p).defeated
      && Current(d, Run(d, p, actions)).completed
  {
    if actions != [] {
      Frozen(d, p, Init(actions));
      InvariantAlwaysHolds(d, p, Init(actions));
      match Last(actions)
      case Beat(id) => MonsterByIdFinds(d.monsters, id);
      case _ =>
    }
  }

  // ----- Across layout changes ------------------------------------------------------------------

  /** A player's action, or a replacement of the map by an admin, which drops all progress in it. */
  datatype Happening = Act(action: Action) | Relayout(dungeon: Dungeon)

  /** The map and the player after a whole career in one dungeon. */
  function Career(d: Dungeon, p: Player, hs: seq<Happening>): (Dungeon, Player) {
    if hs == [] then (d, p)
    else
      var (e, q) := Career(d, p, Init(hs));
      match Last(hs)
      case Act(a) => (e, Advance(e, q, a))
      case Relayout(f) => (f, q.(progress := None))
  }

  function Relayouts(hs: seq<Happening>): nat {
    if hs == [] then 0 else Relayouts(Init(hs)) + if Last(hs).Relayout? then 1 else 0
  }

  function CareerRewards(d: Dungeon, p: Player, hs: seq<Happening>): nat {
    if hs == [] then 0
    else
      var (e, q) := Career(d, p, Init(hs));
      CareerRewards(d, p, Init(hs)) + if Last(hs) == Act(Finish) && Complete(e, q).Ok? then 1 else 0
  }

  /** A dungeon rewards a player at most once per layout; while it is uncompleted, at most once per earlier layout. */
  lemma {:induction false} RewardedOncePerLayout(d: Dungeon, p: Player, hs: seq<Happening>)
    requires p.progress == None
    ensures var (e, q) := Career(d, p, hs);
      CareerRewards(d, p, hs) <= Relayouts(hs) + if Current(e, q).completed then 1 else 0
  {
    if hs != [] { RewardedOncePerLayout(d, p, Init(hs)); }
  }

  // ----- Every dungeon can be finished ----------------------------------------------------------

  /** Plays a plan in which nothing is refused. */
  function Play(d: Dungeon, p: Player, plan: seq<Action>): Result<Player, GameError>
    decreases |plan|
  {
    if plan == [] then Ok(p)
    else match Perform(d, p, plan[0])
         case Ok(q) => Play(d, q, plan[1..])
         case Err(e) => Err(e)
  }

  lemma {:induction false} PlayAppend(d: Dungeon, p: Player, first: seq<Action>, second: seq<Action>)
    requires Play(d, p, first).Ok?
    ensures Play(d, p, first + second) == Play(d, Play(d, p, first).value, second)
    decreases |first|
  {
    if first == [] {
      assert first + second == second;
    } else {
      PlayAppend(d, Perform(d, p, first[0]).value, first[1..], second);
      assert (first + second)[1..] == first[1..] + second;
    }
  }

  lemma PlayFirst(d: Dungeon, p: Player, a: Action, rest: seq<Action>)
    requires Perform(d, p, a).Ok?
    ensures Play(d, p, [a] + rest) == Play(d, Perform(d, p, a).value, rest)
  {
    assert ([a] + rest)[1..] == rest;
  }

  /** Back along the road from its k-th cell to the start. */
  function WayBack(d: Dungeon, k: nat): seq<Action>
    requires k < |d.path|
  {
    if k == 0 then [] else [Walk(d.path[k - 1])] + WayBack(d, k - 1)
  }

  /** The fight on a cell, if there is a monster that is not yet in `defeated`. */
  function Fight(d: Dungeon, c: Cell, defeated: seq<Id>): seq<Action> {
    match MonsterAt(d.monsters, c)
    case Some(m) => if m.id in defeated then [] else [Beat(m.id)]
    case None => []
  }

  /** On along the road from its k-th cell, beating what stands there, to the treasure. */
  function WayOn(d: Dungeon, k: nat, defeated: seq<Id>): seq<Action>
    requires k < |d.path|
    decreases |d.path| - k
  {
    if k == |d.path| - 1 then [Finish]
    else [Walk(d.path[k + 1])] + Fight(d, d.path[k + 1], defeated) + WayOn(d, k + 1, defeated)
  }

  lemma {:induction false} MonsterAtFinds(ms: seq<Monster>, c: Cell)
    ensures MonsterAt(ms, c).Some? ==> MonsterAt(ms, c).value in ms && MonsterAt(ms, c).value.cell == c
    ensures MonsterAt(ms, c).None? ==> forall m :: m in ms ==> m.cell != c
  {
    if ms != [] { MonsterAtFinds(ms[1..], c); }
  }

  lemma WalkOne(d: Dungeon, p: Player, target: Cell) returns (q: Player)
    requires Playable(d) && Invariant(d, p) && d.active && !Current(d, p).completed && p.energy >= 1
    requires target in d.path && Adjacent(Current(d, p).pos, target)
    ensures Perform(d, p, Walk(target)) == Ok(q)
    ensures Invariant(d, q) && q.energy == p.energy - 1 && q.progress.Some?
    ensures Current(d, q).pos == target && !Current(d, q).completed
    ensures Current(d, q).defeated == Current(d, p).defeated
  {
    MoveKeeps(d, p, target);
    q := Move(d, p, target).value;
  }

  lemma BeatOne(d: Dungeon, p: Player, m: Monster) returns (q: Player)
    requires Playable(d) && Invariant(d, p) && m in d.monsters
    requires p.progress.Some? && p.progress.value.pos == m.cell && m.id !in p.progress.value.defeated
    ensures Perform(d, p, Beat(m.id)) == Ok(q)
    ensures Invariant(d, q) && q.energy == p.energy && q.progress.Some?
    ensures Current(d, q).pos == m.cell && Current(d, q).completed == Current(d, p).completed
    ensures Current(d, q).defeated == Current(d, p).defeated + [m.id]
  {
    MonsterByIdFinds(d.monsters, m.id);
    SameCellSameMonster(d, m, MonsterById(d.monsters, m.id).value);
    InvariantKept(d, p, Beat(m.id));
    q := Perform(d, p, Beat(m.id)).value;
  }

  lemma {:induction false} WayBackWorks(d: Dungeon, p: Player, k: nat) returns (q: Player)
    requires Playable(d) && Invariant(d, p) && d.active && !Current(d, p).completed
    requires k < |d.path| && Current(d, p).pos == d.path[k] && p.energy >= k
    ensures Play(d, p, WayBack(d, k)) == Ok(q)
    ensures Invariant(d, q) && q.energy == p.energy - k && Current(d, q).pos == d.start
    ensures Current(d, q).defeated == Current(d, p).defeated && !Current(d, q).completed
    decreases k
  {
    if k == 0 {
      q := p;
    } else {
      assert StepAt(d.path, k);
      var r := WalkOne(d, p, d.path[k - 1]);
      PlayFirst(d, p, Walk(d.path[k - 1]), WayBack(d, k - 1));
      q := WayBackWorks(d, r, k - 1);
    }
  }

  /** All monsters on the first k+1 cells of the road are in `defeated`. */
  ghost predicate ClearedUpTo(d: Dungeon, k: nat, defeated: seq<Id>) {
    forall m, i :: m in d.monsters && 0 <= i <= k && i < |d.path| && d.path[i] == m.cell ==> m.id in defeated
  }

  lemma SameCellSameMonster(d: Dungeon, m: Monster, n: Monster)
    requires Playable(d) && m in d.monsters && n in d.monsters
    ensures m.cell == n.cell ==> m == n
    ensures m.id == n.id ==> m == n
  {
  }

  /** The player stands on cell k and has beaten everything up to there; nothing else changed since `before`. */
  ghost predicate Underway(d: Dungeon, p: Player, k: nat, before: seq<Id>) {
    && Invariant(d, p) && k < |d.path|
    && var g := Current(d, p);
       && g.pos == d.path[k] && !g.completed
       && ClearedUpTo(d, k, g.defeated)
       && (forall m, i :: m in d.monsters && k < i < |d.path| && d.path[i] == m.cell ==>
             (m.id in g.defeated <==> m.id in before))
  }

  /** Beating the monster `found` on cell k+1, if any is left there, clears the road one cell further. */
  lemma Cleared(d: Dungeon, k: nat, found: Option<Monster>, defeated: seq<Id>)
    requires Playable(d) && k + 1 < |d.path|
    requires found == MonsterAt(d.monsters, d.path[k + 1])
    requires ClearedUpTo(d, k, defeated)
    requires found.Some? ==> found.value.id in defeated
    ensures ClearedUpTo(d, k + 1, defeated)
  {
    MonsterAtFinds(d.monsters, d.path[k + 1]);
    forall n, i | n in d.monsters && 0 <= i <= k + 1 && i < |d.path| && d.path[i] == n.cell
      ensures n.id in defeated
    {
      if i == k + 1 { SameCellSameMonster(d, found.value, n); }
    }
  }

  lemma OneCellOn(d: Dungeon, p: Player, k: nat, before: seq<Id>) returns (q: Player)
    requires Playable(d) && d.active && k + 1 < |d.path| && Underway(d, p, k, before) && p.energy >= 1
    ensures Play(d, p, [Walk(d.path[k + 1])] + Fight(d, d.path[k + 1], before)) == Ok(q)
    ensures Underway(d, q, k + 1, before) && q.energy == p.energy - 1 && q.progress.Some?
  {
    var next := d.path[k + 1];
    var plan := [Walk(next)] + Fight(d, next, before);
    assert plan[1..] == Fight(d, next, before);
    assert StepAt(d.path, k + 1);
    q := WalkOne(d, p, next);
    assert Play(d, p, plan) == Play(d, q, plan[1..]);
    MonsterAtFinds(d.monsters, next);
    var found := MonsterAt(d.monsters, next);
    if found.Some? && found.value.id !in before {
      var m := found.value;
      q := BeatOne(d, q, m);
      assert [Beat(m.id)][1..] == [];
      forall n, i | n in d.monsters && k + 1 < i < |d.path| && d.path[i] == n.cell
        ensures n.id in Current(d, q).defeated <==> n.id in before
      {
        SameCellSameMonster(d, m, n);
      }
    }
    Cleared(d, k, found, Current(d, q).defeated);
  }

  lemma {:induction false} WayOnWorks(d: Dungeon, p: Player, k: nat, before: seq<Id>) returns (q: Player)
    requires Playable(d) && d.active && Underway(d, p, k, before)
    requires p.energy >= |d.path| - 1 - k && (k == |d.path| - 1 ==> p.progress.Some?)
    ensures Play(d, p, WayOn(d, k, before)) == Ok(q)
    ensures Current(d, q).completed && q.energy == p.energy - (|d.path| - 1 - k)
    decreases |d.path| - k
  {
    if k == |d.path| - 1 {
      CountTestMeansAllDefeated(d, p.progress.value);
      q := Perform(d, p, Finish).value;
      assert [Finish][1..] == [];
    } else {
      var r := OneCellOn(d, p, k, before);
      q := WayOnWorks(d, r, k + 1, before);
      PlayAppend(d, p, [Walk(d.path[k + 1])] + Fight(d, d.path[k + 1], before), WayOn(d, k + 1, before));
    }
  }

  /** The plan: back to the start, then on to the treasure. */
  function FinishingPlan(d: Dungeon, p: Player, k: nat): seq<Action>
    requires k < |d.path|
  {
    WayBack(d, k) + WayOn(d, 0, Current(d, p).defeated)
  }

  /**
   From every consistent uncompleted state of an active dungeon whose road has n cells, a
   plan in which nothing is refused completes it for at most 2(n-1) points.
   */
  lemma AlwaysFinishable(d: Dungeon, p: Player) returns (plan: seq<Action>, q: Player)
    requires Playable(d) && Invariant(d, p) && d.active && !Current(d, p).completed
    requires p.energy >= 2 * (|d.path| - 1)
    ensures Play(d, p, plan) == Ok(q) && Current(d, q).completed
    ensures p.energy - q.energy <= 2 * (|d.path| - 1)
    ensures Current(d, p).pos == d.start ==> p.energy - q.energy == |d.path| - 1
  {
    var k :| 0 <= k < |d.path| && d.path[k] == Current(d, p).pos;
    var home := WayBackWorks(d, p, k);
    plan := FinishingPlan(d, p, k);
    q := WayOnWorks(d, home, 0, Current(d, p).defeated);
    PlayAppend(d, p, WayBack(d, k), WayOn(d, 0, Current(d, p).defeated));
  }

  /** A player who has not moved yet finishes for exactly the length of the road. */
  lemma FinishableFromTheStart(d: Dungeon, p: Player) returns (plan: seq<Action>, q: Player)
    requires Playable(d) && d.active && p.progress == None && p.energy >= |d.path| - 1
    ensures Play(d, p, plan) == Ok(q) && Current(d, q).completed
    ensures p.energy - q.energy == |d.path| - 1
  {
    FreshConsistent(d);
    plan := WayOn(d, 0, []);
    q := WayOnWorks(d, p, 0, []);
  }

  /** In particular after any run of a player who began without progress, given the points. */
  lemma ReachableFinishable(d: Dungeon, p: Player, actions: seq<Action>) returns (plan: seq<Action>, q: Player)
    requires Playable(d) && d.active && p.progress == None && p.energy >= 0
    requires !Current(d, Run(d, p, actions)).completed
    requires Run(d, p, actions).energy >= 2 * (|d.path| - 1)
    ensures Play(d, Run(d, p, actions), plan) == Ok(q) && Current(d, q).completed
    ensures Run(d, p, actions).energy - q.energy <= 2 * (|d.path| - 1)
  {
    InvariantAlwaysHolds(d, p, actions);
    plan, q := AlwaysFinishable(d, Run(d, p, actions));
  }
}
