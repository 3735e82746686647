/**
 One player in one dungeon (internal/repository/dungeon.go): paid moves, free retreats,
 monster defeats and completion, as steps on values. Each step is one committed or rolled
 back transaction.
 */
module DungeonGame {
  import opened Prelude
  import opened DungeonLayout

  datatype Monster = Monster(id: Id, cell: Cell)

  datatype Dungeon = Dungeon(
    start: Cell,
    treasure: Cell,
    path: seq<Cell>,
    monsters: seq<Monster>,
    active: bool,
    treasureImage: Option<Id>,
    xpReward: int)

  datatype Progress = Progress(
    pos: Cell,
    prev: Option<Cell>,
    defeated: seq<Id>,
    visited: seq<Cell>,
    completed: bool)

  /** The part of the database one player's calls on one dungeon touch; no row means never moved. */
  datatype Player = Player(energy: int, progress: Option<Progress>)

  datatype GameError =
    | NotFound | Inactive | AlreadyCompleted | InvalidMove | OutOfEnergy
    | WrongCell | AlreadyDefeated | MonstersRemain

  /** Dungeons that validation lets into the database, with distinct monster ids. */
  ghost predicate Playable(d: Dungeon) {
    && ValidRoad(d.path, d.start, d.treasure)
    && |d.monsters| >= 1
    && (forall m :: m in d.monsters ==> m.cell in d.path && m.cell != d.start && m.cell != d.treasure)
    && (forall i, j :: 0 <= i < j < |d.monsters| ==>
          d.monsters[i].cell != d.monsters[j].cell && d.monsters[i].id != d.monsters[j].id)
  }

  function Fresh(d: Dungeon): Progress {
    Progress(d.start, None, [], [d.start], false)
  }

  function Current(d: Dungeon, p: Player): Progress {
    if p.progress.Some? then p.progress.value else Fresh(d)
  }

  function AppendCell(visited: seq<Cell>, c: Cell): seq<Cell> {
    if c in visited then visited else visited + [c]
  }

  function MonsterById(ms: seq<Monster>, id: Id): Option<Monster> {
    if ms == [] then None else if ms[0].id == id then Some(ms[0]) else MonsterById(ms[1..], id)
  }

  function MonsterAt(ms: seq<Monster>, c: Cell): Option<Monster> {
    if ms == [] then None else if ms[0].cell == c then Some(ms[0]) else MonsterAt(ms[1..], c)
  }

  // ----- The four player operations ---------------------------------------------------------

  function Move(d: Dungeon, p: Player, target: Cell): Result<Player, GameError> {
    if !d.active then Err(Inactive)
    else if target !in d.path then Err(InvalidMove)
    else
      var g := Current(d, p);
      if g.completed then Err(AlreadyCompleted)
      else if Manhattan(g.pos, target) != 1 then Err(InvalidMove)
      else if p.energy < 1 then Err(OutOfEnergy)
      else Ok(Player(p.energy - 1,
                     Some(g.(prev := Some(g.pos), pos := target, visited := AppendCell(g.visited, target)))))
  }

  function Retreat(p: Player): Player {
    match p.progress
    case Some(g) =>
      if g.prev.Some? then p.(progress := Some(g.(pos := g.prev.value, prev := None))) else p
    case None => p
  }

  function Defeat(d: Dungeon, p: Player, id: Id): Result<Player, GameError> {
    match MonsterById(d.monsters, id)
    case None => Err(NotFound)
    case Some(m) =>
      match p.progress
      case None => Err(WrongCell)
      case Some(g) =>
        if g.pos != m.cell then Err(WrongCell)
        else if id in g.defeated then Err(AlreadyDefeated)
        else Ok(p.(progress := Some(g.(defeated := g.defeated + [id]))))
  }

  function Complete(d: Dungeon, p: Player): Result<Player, GameError> {
    match p.progress
    case None => Err(WrongCell)
    case Some(g) =>
      if g.completed then Err(AlreadyCompleted)
      else if g.pos != d.treasure then Err(WrongCell)
      else if |g.defeated| < |d.monsters| then Err(MonstersRemain)
      else Ok(p.(progress := Some(g.(completed := true))))
  }

  /** What can happen to a player between two changes of the layout. */
  datatype Action = Walk(target: Cell) | StepBack | Beat(id: Id) | Finish | Energy(delta: int)

  /** `Energy` is any other earning or spending of points; spending is refused below zero. */
  function Perform(d: Dungeon, p: Player, a: Action): Result<Player, GameError> {
    match a
    case Walk(target) => Move(d, p, target)
    case StepBack => Ok(Retreat(p))
    case Beat(id) => Defeat(d, p, id)
    case Finish => Complete(d, p)
    case Energy(delta) => if p.energy + delta < 0 then Err(OutOfEnergy) else Ok(p.(energy := p.energy + delta))
  }

  /** A refused action leaves the player as it was. */
  function Advance(d: Dungeon, p: Player, a: Action): Player {
    match Perform(d, p, a)
    case Ok(q) => q
    case Err(_) => p
  }

  function Run(d: Dungeon, p: Player, actions: seq<Action>): Player {
    if actions == [] then p else Advance(d, Run(d, p, Init(actions)), Last(actions))
  }

  // ----- The invariant ------------------------------------------------------------------------

  ghost predicate TouchesEarlier(cells: seq<Cell>, k: int)
    requires 0 < k < |cells|
  {
    exists j :: 0 <= j < k && Adjacent(cells[j], cells[k])
  }

  /** Each visited cell after the first touches one visited before it. */
  ghost predicate Connected(cells: seq<Cell>) {
    forall k :: 0 < k < |cells| ==> TouchesEarlier(cells, k)
  }

  ghost function Ids(ms: seq<Monster>): set<Id> {
    set m | m in ms :: m.id
  }

  ghost predicate Consistent(d: Dungeon, g: Progress) {
    && g.pos in d.path && g.pos in g.visited
    && (g.prev.Some? ==> g.prev.value in d.path && g.prev.value in g.visited && Adjacent(g.prev.value, g.pos))
    && g.visited != [] && g.visited[0] == d.start
    && Distinct(g.visited)
    && (forall c :: c in g.visited ==> c in d.path)
    && Connected(g.visited)
    && Distinct(g.defeated)
    && (forall id :: id in g.defeated ==> id in Ids(d.monsters))
    && (forall m :: m in d.monsters && m.id in g.defeated ==> m.cell in g.visited)
    && (g.completed ==> d.treasure in g.visited && forall m :: m in d.monsters ==> m.id in g.defeated)
  }

  ghost predicate Invariant(d: Dungeon, p: Player) {
    && p.energy >= 0
    && (p.progress.Some? ==> Consistent(d, p.progress.value))
  }

  lemma {:induction false} MonsterByIdFinds(ms: seq<Monster>, id: Id)
    ensures MonsterById(ms, id).Some? <==> id in Ids(ms)
    ensures MonsterById(ms, id).Some? ==> MonsterById(ms, id).value in ms && MonsterById(ms, id).value.id == id
  {
    if ms != [] {
      MonsterByIdFinds(ms[1..], id);
      assert ms == [ms[0]] + ms[1..];
    }
  }

  lemma {:induction false} IdsCardinality(ms: seq<Monster>)
    requires forall i, j :: 0 <= i < j < |ms| ==> ms[i].id != ms[j].id
    ensures |Ids(ms)| == |ms|
  {
    if ms == [] {
      assert Ids(ms) == {};
    } else {
      IdsCardinality(Init(ms));
      assert Ids(ms) == Ids(Init(ms)) + {Last(ms).id};
    }
  }

  /** The count test of completion is the right test: enough defeats means every monster is down. */
  lemma CountTestMeansAllDefeated(d: Dungeon, g: Progress)
    requires Playable(d) && Consistent(d, g)
    ensures |g.defeated| <= |d.monsters|
    ensures |g.defeated| >= |d.monsters| <==> forall m :: m in d.monsters ==> m.id in g.defeated
  {
    IdsCardinality(d.monsters);
    Pigeonhole(g.defeated, Ids(d.monsters));
    if forall m :: m in d.monsters ==> m.id in g.defeated {
      assert forall id :: id in Ids(d.monsters) ==> id in g.defeated;
    }
  }

  lemma FreshConsistent(d: Dungeon)
    requires Playable(d)
    ensures Consistent(d, Fresh(d))
  {
  }

  lemma MoveKeeps(d: Dungeon, p: Player, target: Cell)
    requires Playable(d) && Invariant(d, p) && Move(d, p, target).Ok?
    ensures Invariant(d, Move(d, p, target).value)
  {
    FreshConsistent(d);
    var g := Current(d, p);
    var v := AppendCell(g.visited, target);
    if target !in g.visited {
      var at :| 0 <= at < |g.visited| && g.visited[at] == g.pos;
      assert v[at] == g.pos && v[|v| - 1] == target && Adjacent(v[at], v[|v| - 1]);
      forall k | 0 < k < |v| ensures TouchesEarlier(v, k) {
        if k < |g.visited| {
          assert TouchesEarlier(g.visited, k);
          var j :| 0 <= j < k && Adjacent(g.visited[j], g.visited[k]);
          assert Adjacent(v[j], v[k]);
        }
      }
    }
  }

  /** Every action, refused or not, keeps the player consistent with the map. */
  lemma InvariantKept(d: Dungeon, p: Player, a: Action)
    requires Playable(d) && Invariant(d, p)
    ensures Invariant(d, Advance(d, p, a))
  {
    match a
    case Walk(target) =>
      if Move(d, p, target).Ok? { MoveKeeps(d, p, target); }
    case StepBack =>
    case Beat(id) =>
      MonsterByIdFinds(d.monsters, id);
    case Finish =>
      if Complete(d, p).Ok? { CountTestMeansAllDefeated(d, p.progress.value); }
    case Energy(_) =>
  }

  lemma {:induction false} InvariantAlwaysHolds(d: Dungeon, p: Player, actions: seq<Action>)
    requires Playable(d) && Invariant(d, p)
    ensures Invariant(d, Run(d, p, actions))
  {
    if actions != [] {
      InvariantAlwaysHolds(d, p, Init(actions));
      InvariantKept(d, Run(d, p, Init(actions)), Last(actions));
    }
  }

  // ----- What each action does, and when it is refused ----------------------------------------------

  /** A move takes one step along the road, for one point, and makes its target known. */
  lemma MovesExactly(d: Dungeon, p: Player, target: Cell)
    ensures var g := Current(d, p);
      Move(d, p, target).Ok? <==>
        d.active && target in d.path && !g.completed && Manhattan(g.pos, target) == 1 && p.energy >= 1
    ensures Move(d, p, target).Ok? ==>
      var (g, q) := (Current(d, p), Move(d, p, target).value);
      && q.energy == p.energy - 1 && q.progress.Some?
      && var h := q.progress.value;
         && h.pos == target && h.prev == Some(g.pos)
         && h.defeated == g.defeated && h.completed == g.completed
         && g.visited <= h.visited && Elements(h.visited) == Elements(g.visited) + {target}
         && |h.visited| == |g.visited| + if target in g.visited then 0 else 1
    ensures p.progress.None? ==> Current(d, p) == Progress(d.start, None, [], [d.start], false)
  {
  }

  /** A retreat goes back to the cell before, if there is one, whether or not the dungeon is completed. */
  lemma RetreatsExactly(p: Player)
    ensures Retreat(p).energy == p.energy && (Retreat(p).progress.Some? <==> p.progress.Some?)
    ensures p.progress.Some? ==>
      var (g, h) := (p.progress.value, Retreat(p).progress.value);
      && h.pos == (if g.prev.Some? then g.prev.value else g.pos) && h.prev == None
      && h.defeated == g.defeated && h.visited == g.visited && h.completed == g.completed
  {
  }

  /** A defeat is recorded exactly for an undefeated monster of the dungeon on the player's cell. */
  lemma DefeatsExactly(d: Dungeon, p: Player, id: Id)
    requires Playable(d)
    ensures Defeat(d, p, id).Ok? <==>
      && p.progress.Some? && id !in p.progress.value.defeated
      && exists m :: m in d.monsters && m.id == id && m.cell == p.progress.value.pos
    ensures Defeat(d, p, id).Ok? ==>
      var q := Defeat(d, p, id).value;
      && q.energy == p.energy && q.progress.Some?
      && q.progress.value.defeated == p.progress.value.defeated + [id]
      && q.progress.value.(defeated := p.progress.value.defeated) == p.progress.value
  {
    MonsterByIdFinds(d.monsters, id);
    SameIdSameMonster(d, id);
  }

  lemma SameIdSameMonster(d: Dungeon, id: Id)
    requires Playable(d)
    ensures forall m, n :: m in d.monsters && n in d.monsters && m.id == id && n.id == id ==> m == n
    ensures forall m :: m in d.monsters && m.id == id ==> id in Ids(d.monsters)
  {
  }

  /** Points come and go elsewhere too, but the balance never goes below zero. */
  lemma EnergyExactly(d: Dungeon, p: Player, delta: int)
    ensures Advance(d, p, Energy(delta)).progress == p.progress
    ensures Advance(d, p, Energy(delta)).energy == if p.energy + delta >= 0 then p.energy + delta else p.energy
  {
  }

  /** Of several reasons to refuse, the one the player is told. */
  lemma RefusedBecause(d: Dungeon, p: Player, target: Cell, id: Id)
    ensures Move(d, p, target).Err? ==>
      Move(d, p, target).error ==
        if !d.active then Inactive
        else if target !in d.path then InvalidMove
        else if Current(d, p).completed then AlreadyCompleted
        else if Manhattan(Current(d, p).pos, target) != 1 then InvalidMove
        else OutOfEnergy
    ensures Defeat(d, p, id).Err? ==>
      Defeat(d, p, id).error ==
        if id !in Ids(d.monsters) then NotFound
        else if p.progress.Some? && id in p.progress.value.defeated
                && MonsterById(d.monsters, id).Some?
                && MonsterById(d.monsters, id).value.cell == p.progress.value.pos then AlreadyDefeated
        else WrongCell
    ensures Complete(d, p).Err? ==>
      Complete(d, p).error ==
        if p.progress.None? then WrongCell
        else if p.progress.value.completed then AlreadyCompleted
        else if p.progress.value.pos != d.treasure then WrongCell
        else MonstersRemain
  {
    MonsterByIdFinds(d.monsters, id);
  }

  /** A retreat right after a move undoes the step, not the payment nor the discovery. */
  lemma RetreatUndoesMove(d: Dungeon, p: Player, target: Cell)
    requires Playable(d) && Invariant(d, p) && Move(d, p, target).Ok?
    ensures var before, after := Current(d, p), Retreat(Move(d, p, target).value);
      && after.progress.Some?
      && after.progress.value.pos == before.pos
      && after.energy == p.energy - 1
      && Elements(after.progress.value.visited) == Elements(before.visited) + {target}
      && after.progress.value.defeated == before.defeated
      && !after.progress.value.completed
  {
  }

  /** Completion succeeds exactly for an uncompleted player at the treasure with every monster beaten. */
  lemma CompletesExactly(d: Dungeon, p: Player)
    requires Playable(d) && Invariant(d, p)
    ensures Complete(d, p).Ok? <==>
            && p.progress.Some? && !p.progress.value.completed && p.progress.value.pos == d.treasure
            && forall m :: m in d.monsters ==> m.id in p.progress.value.defeated
    ensures Complete(d, p).Ok? ==>
      Complete(d, p).value == Player(p.energy, Some(p.progress.value.(completed := true)))
  {
    if p.progress.Some? { CountTestMeansAllDefeated(d, p.progress.value); }
  }

  /** Times a dungeon pays its reward in a run. */
  function Rewards(d: Dungeon, p: Player, actions: seq<Action>): nat {
    if actions == [] then 0
    else Rewards(d, p, Init(actions))
         + if Last(actions).Finish? && Complete(d, Run(d, p, Init(actions))).Ok? then 1 else 0
  }

  /** Completion is final, and the reward is paid once, by the run that completes. */
  lemma {:induction false} RewardedOnce(d: Dungeon, p: Player, actions: seq<Action>)
    ensures Current(d, p).completed ==> Current(d, Run(d, p, actions)).completed
    ensures Rewards(d, p, actions)
         == if Current(d, Run(d, p, actions)).completed && !Current(d, p).completed then 1 else 0
  {
    if actions != [] { RewardedOnce(d, p, Init(actions)); }
  }
}
