/**
 A dungeon's player while an admin replaces the map. A move, a defeat and a completion read the
 map, or the monster, in one call to the store and run their transaction in a later one.
 */
module DungeonRaces {
  import opened Prelude
  import opened DungeonLayout
  import opened DungeonGame
  import opened Interleavings

  /** A request that has read the map or the monster, and has its transaction before it. */
  datatype Request =
    | Moving(read: Dungeon, target: Cell)
    | Beating(id: Id, cell: Cell)
    | Finishing(read: Dungeon)

  /** The map, one player's row and energy, the player's requests in flight, and the monster ids given out. */
  datatype Site = Site(d: Dungeon, p: Player, flying: multiset<Request>, used: set<Id>)

  datatype Step =
    | ReadMove(target: Cell) | ReadBeat(id: Id) | ReadFinish
    | Land(request: Request) | Drop(request: Request)
    | StepBackOrSpend(a: Action)
    | Replace(d: Dungeon)

  /** The transaction, on the row as it is, with the map as it was. Monsters are counted inside it. */
  function Landed(d: Dungeon, p: Player, r: Request): Player {
    match r
    case Moving(read, target) => Advance(read, p, Walk(target))
    case Beating(id, cell) =>
      if p.progress.Some? && p.progress.value.pos == cell && id !in p.progress.value.defeated
      then p.(progress := Some(p.progress.value.(defeated := p.progress.value.defeated + [id])))
      else p
    case Finishing(read) =>
      if p.progress.Some? && !p.progress.value.completed && p.progress.value.pos == read.treasure
         && |p.progress.value.defeated| >= |d.monsters|
      then p.(progress := Some(p.progress.value.(completed := true)))
      else p
  }

  /** A replacement is accepted if it can be played; its monsters get ids never used before. */
  ghost predicate ReplaceAccepted(s: Site, d: Dungeon) {
    Playable(d) && Ids(d.monsters) !! s.used
  }

  ghost function Next(s: Site, e: Step): Site {
    match e
    case ReadMove(target) =>
      if s.d.active && target in s.d.path then s.(flying := s.flying + multiset{Moving(s.d, target)}) else s
    case ReadBeat(id) =>
      var m := MonsterById(s.d.monsters, id);
      if m.Some? then s.(flying := s.flying + multiset{Beating(id, m.value.cell)}) else s
    case ReadFinish => s.(flying := s.flying + multiset{Finishing(s.d)})
    case Land(r) =>
      if r in s.flying then s.(p := Landed(s.d, s.p, r), flying := s.flying - multiset{r}) else s
    case Drop(r) => s.(flying := s.flying - multiset{r})
    case StepBackOrSpend(a) => if a.StepBack? || a.Energy? then s.(p := Advance(s.d, s.p, a)) else s
    case Replace(d) =>
      if ReplaceAccepted(s, d)
      then s.(d := d, p := s.p.(progress := None), used := s.used + Ids(d.monsters))
      else s
  }

  // ----- Uninterrupted requests are the player's actions ----------------------------------------

  lemma MoveInOneGo(s: Site, target: Cell)
    requires Moving(s.d, target) !in s.flying
    ensures Next(Next(s, ReadMove(target)), Land(Moving(s.d, target))) == s.(p := Advance(s.d, s.p, Walk(target)))
  {
    var r := Moving(s.d, target);
    assert s.flying + multiset{r} - multiset{r} == s.flying;
  }

  lemma BeatInOneGo(s: Site, id: Id)
    requires MonsterById(s.d.monsters, id).Some?
    ensures Next(Next(s, ReadBeat(id)), Land(Beating(id, MonsterById(s.d.monsters, id).value.cell)))
         == s.(p := Advance(s.d, s.p, Beat(id)))
  {
    var r := Beating(id, MonsterById(s.d.monsters, id).value.cell);
    assert s.flying + multiset{r} - multiset{r} == s.flying;
  }

  lemma FinishInOneGo(s: Site)
    ensures Next(Next(s, ReadFinish), Land(Finishing(s.d))) == s.(p := Advance(s.d, s.p, Finish))
  {
    var r := Finishing(s.d);
    assert s.flying + multiset{r} - multiset{r} == s.flying;
  }

  // ----- Which requests are harmless on which map ---------------------------------------------------

  /** The path has a cell from which a player could step onto this one. */
  ghost predicate Beside(d: Dungeon, c: Cell) {
    exists k :: 0 <= k < |d.path| && Adjacent(d.path[k], c)
  }

  /**
   A move lands well if its target is on the road, or out of reach from it, and if a player
   without progress would set out from the right start. A defeat lands well if the monster is
   still there, or its cell is off the road; a completion if the treasure is where it was, or
   its old place is off the road.
   */
  ghost predicate Harmless(d: Dungeon, r: Request) {
    match r
    case Moving(read, target) =>
      && (target in d.path || !Beside(d, target))
      && (Adjacent(read.start, target) ==> read.start == d.start)
    case Beating(id, cell) => id in Ids(d.monsters) || cell !in d.path
    case Finishing(read) => read.treasure == d.treasure || read.treasure !in d.path
  }

  /** Wherever a player may stand on the map, landing keeps the player consistent with it. */
  ghost predicate Safe(d: Dungeon, r: Request) {
    forall p :: Invariant(d, p) ==> Invariant(d, Landed(d, p, r))
  }

  /** What a read establishes, and every replacement keeps. */
  ghost predicate WellRead(d: Dungeon, r: Request) {
    match r
    case Moving(read, target) => read.active && target in read.path
    case Beating(id, cell) => forall m :: m in d.monsters && m.id == id ==> m.cell == cell
    case Finishing(_) => true
  }

  lemma MoveLands(d: Dungeon, p: Player, read: Dungeon, target: Cell)
    requires Playable(d) && Invariant(d, p) && Harmless(d, Moving(read, target))
    ensures Invariant(d, Landed(d, p, Moving(read, target)))
  {
    if Move(read, p, target).Ok? {
      if p.progress.Some? {
        var k :| 0 <= k < |d.path| && d.path[k] == p.progress.value.pos;
        assert Beside(d, target);
      } else {
        assert d.path[0] == d.start && Adjacent(d.path[0], target);
        assert Beside(d, target);
      }
      MoveKeeps(d.(active := true), p, target);
      assert Move(d.(active := true), p, target) == Move(read, p, target);
    }
  }

  lemma BeatLands(d: Dungeon, p: Player, id: Id, cell: Cell)
    requires Playable(d) && Invariant(d, p) && WellRead(d, Beating(id, cell)) && Harmless(d, Beating(id, cell))
    ensures Invariant(d, Landed(d, p, Beating(id, cell)))
  {
  }

  lemma FinishLands(d: Dungeon, p: Player, read: Dungeon)
    requires Playable(d) && Invariant(d, p) && Harmless(d, Finishing(read))
    ensures Invariant(d, Landed(d, p, Finishing(read)))
  {
    if p.progress.Some? { CountTestMeansAllDefeated(d, p.progress.value); }
  }

  lemma HarmlessIsSafe(d: Dungeon, r: Request)
    requires Playable(d) && WellRead(d, r) && Harmless(d, r)
    ensures Safe(d, r)
  {
    forall p | Invariant(d, p) ensures Invariant(d, Landed(d, p, r)) {
      match r
      case Moving(read, target) => MoveLands(d, p, read, target);
      case Beating(id, cell) => BeatLands(d, p, id, cell);
      case Finishing(read) => FinishLands(d, p, read);
    }
  }

  /** A player who has walked up to the k-th cell and beaten nobody. */
  ghost function WalkedTo(d: Dungeon, k: int): Player
    requires 0 <= k < |d.path|
  {
    Player(1, Some(Progress(d.path[k], None, [], d.path[..k + 1], false)))
  }

  lemma RoadConnected(path: seq<Cell>, k: int)
    requires 0 <= k <= |path| && forall i :: 0 < i < |path| ==> StepAt(path, i)
    ensures Connected(path[..k])
  {
    forall i | 0 < i < k ensures TouchesEarlier(path[..k], i) {
      assert StepAt(path, i);
      assert Adjacent(path[..k][i - 1], path[..k][i]);
    }
  }

  lemma WalkedToFits(d: Dungeon, k: int)
    requires Playable(d) && 0 <= k < |d.path|
    ensures Invariant(d, WalkedTo(d, k))
  {
    RoadConnected(d.path, k + 1);
    assert d.path[..k + 1][k] == d.path[k];
  }

  /** A player who has been everywhere but at the treasure, has beaten everybody, and walked back. */
  ghost function AlmostThere(d: Dungeon, k: int): Player
    requires 0 <= k < |d.path| - 1
  {
    Player(1, Some(Progress(
      d.path[k], None, seq(|d.monsters|, i requires 0 <= i < |d.monsters| => d.monsters[i].id),
      Init(d.path), false)))
  }

  lemma AlmostThereFits(d: Dungeon, k: int)
    requires Playable(d) && 0 <= k < |d.path| - 1
    ensures Invariant(d, AlmostThere(d, k))
  {
    RoadConnected(d.path, |d.path| - 1);
    assert Init(d.path)[k] == d.path[k];
    var g := AlmostThere(d, k).progress.value;
    forall c | c in d.path && c != d.treasure ensures c in g.visited {
      var i :| 0 <= i < |d.path| && d.path[i] == c;
      assert g.visited[i] == c;
    }
    forall id | id in g.defeated ensures id in Ids(d.monsters) {
      var i :| 0 <= i < |g.defeated| && g.defeated[i] == id;
      assert d.monsters[i] in d.monsters;
    }
  }

  /** For each request that is not harmless, a player whom landing it takes off the map's rules. */
  lemma HarmfulIsUnsafe(d: Dungeon, r: Request) returns (p: Player)
    requires Playable(d) && WellRead(d, r) && !Harmless(d, r)
    ensures Invariant(d, p) && !Invariant(d, Landed(d, p, r))
  {
    match r
    case Moving(read, target) =>
      if target !in d.path && Beside(d, target) {
        var k :| 0 <= k < |d.path| && Adjacent(d.path[k], target);
        p := WalkedTo(d, k);
        WalkedToFits(d, k);
      } else {
        p := Player(1, None);
      }
    case Beating(id, cell) =>
      var k :| 0 <= k < |d.path| && d.path[k] == cell;
      p := WalkedTo(d, k);
      WalkedToFits(d, k);
      assert Last(Landed(d, p, r).progress.value.defeated) == id;
    case Finishing(read) =>
      var k :| 0 <= k < |d.path| && d.path[k] == read.treasure;
      p := AlmostThere(d, k);
      AlmostThereFits(d, k);
      assert d.treasure !in Init(d.path);
  }

  lemma SafeExactly(d: Dungeon, r: Request)
    requires Playable(d) && WellRead(d, r)
    ensures Safe(d, r) <==> Harmless(d, r)
  {
    if Harmless(d, r) {
      HarmlessIsSafe(d, r);
    } else {
      var p := HarmfulIsUnsafe(d, r);
    }
  }

  // ----- Every interleaving ---------------------------------------------------------------------------

  /** The player is consistent with the map, and no request in flight could change that, wherever the player were. */
  ghost predicate Undisturbed(s: Site) {
    Invariant(s.d, s.p) && forall r :: r in s.flying ==> Safe(s.d, r)
  }

  /** The step replaces the map by one on which a request in flight is not harmless. */
  ghost predicate Upsets(s: Site, e: Step) {
    e.Replace? && ReplaceAccepted(s, e.d) && exists r :: r in s.flying && !Harmless(e.d, r)
  }

  ghost predicate FlightSteady(s: Site, r: Request) {
    WellRead(s.d, r) && Harmless(s.d, r) && (r.Beating? ==> r.id in s.used)
  }

  ghost predicate Steady(s: Site) {
    && Playable(s.d) && Invariant(s.d, s.p) && Ids(s.d.monsters) <= s.used
    && forall r :: r in s.flying ==> FlightSteady(s, r)
  }

  lemma SteadyIsUndisturbed(s: Site)
    requires Steady(s)
    ensures Undisturbed(s)
  {
    forall r | r in s.flying ensures Safe(s.d, r) {
      assert FlightSteady(s, r);
      SafeExactly(s.d, r);
    }
  }

  lemma ReadsAreSteady(s: Site, e: Step)
    requires Steady(s) && (e.ReadMove? || e.ReadBeat? || e.ReadFinish?)
    ensures Steady(Next(s, e))
  {
    if e.ReadBeat? { MonsterByIdFinds(s.d.monsters, e.id); }
    if e.ReadMove? && s.d.active && e.target in s.d.path {
      assert FlightSteady(s, Moving(s.d, e.target));
    }
    assert FlightSteady(s, Finishing(s.d));
    forall r | r in Next(s, e).flying ensures FlightSteady(Next(s, e), r) {
      assert r in s.flying ==> FlightSteady(s, r);
    }
  }

  lemma LandIsSteady(s: Site, r: Request)
    requires Steady(s)
    ensures Steady(Next(s, Land(r)))
  {
    if r in s.flying {
      assert FlightSteady(s, r);
      HarmlessIsSafe(s.d, r);
      forall q | q in Next(s, Land(r)).flying ensures FlightSteady(Next(s, Land(r)), q) {
        assert FlightSteady(s, q);
      }
    }
  }

  /** No monster of an earlier map is on the new one. */
  lemma ReplacedWellRead(s: Site, d: Dungeon, r: Request)
    requires ReplaceAccepted(s, d) && FlightSteady(s, r)
    ensures WellRead(d, r)
  {
    if r.Beating? {
      forall m | m in d.monsters ensures m.id != r.id { assert m.id in Ids(d.monsters); }
    }
  }

  lemma ReplaceIsSteadyExactly(s: Site, d: Dungeon)
    requires Steady(s)
    ensures if Upsets(s, Replace(d)) then !Undisturbed(Next(s, Replace(d))) else Steady(Next(s, Replace(d)))
  {
    if ReplaceAccepted(s, d) {
      var t := Next(s, Replace(d));
      forall r | r in s.flying ensures WellRead(d, r) && (Safe(d, r) <==> Harmless(d, r)) {
        assert FlightSteady(s, r);
        ReplacedWellRead(s, d, r);
        SafeExactly(d, r);
      }
      if !Upsets(s, Replace(d)) {
        forall r | r in t.flying ensures FlightSteady(t, r) { assert FlightSteady(s, r); }
      }
    }
  }

  lemma StepIsSteadyExactly(s: Site, e: Step)
    requires Steady(s)
    ensures if Upsets(s, e) then !Undisturbed(Next(s, e)) else Steady(Next(s, e))
  {
    match e
    case Land(r) => LandIsSteady(s, r);
    case Replace(d) => ReplaceIsSteadyExactly(s, d);
    case StepBackOrSpend(a) =>
      InvariantKept(s.d, s.p, a);
      assert forall r :: r in s.flying ==> FlightSteady(s, r) && FlightSteady(Next(s, e), r);
    case Drop(_) => assert forall r :: r in Next(s, e).flying ==> FlightSteady(s, r) && FlightSteady(Next(s, e), r);
    case _ => ReadsAreSteady(s, e);
  }

  /**
   However moves, defeats, completions and replacements of the map interleave, the player stays
   consistent with the map, and no request in flight could change that, exactly if the map is
   never replaced by one on which a request in flight is not harmless.
   */
  lemma UndisturbedExactly(s: Site, es: seq<Step>)
    requires Steady(s)
    ensures Never(Next, s, es, Upsets) <==> Throughout(Next, s, es, Undisturbed)
  {
    forall t | Steady(t) ensures Undisturbed(t) { SteadyIsUndisturbed(t); }
    forall t, e | Steady(t) ensures if Upsets(t, e) then !Undisturbed(Next(t, e)) else Steady(Next(t, e)) {
      StepIsSteadyExactly(t, e);
    }
    GoodExactly(Next, s, es, Steady, Undisturbed, Upsets);
  }

  /** A first move that lands after the map has got another start takes the player off the new map's rules. */
  lemma LateMove(s: Site, target: Cell, d: Dungeon)
    requires Steady(s) && s.d.active && target in s.d.path && Adjacent(s.d.start, target) && s.p.energy >= 1
    requires ReplaceAccepted(s, d) && d.start != s.d.start
    ensures var t := Interleavings.Run(Next, s, [ReadMove(target), Replace(d), Land(Moving(s.d, target))]);
      t.d == d && !Invariant(d, t.p)
  {
    RunOfThree(Next, s, ReadMove(target), Replace(d), Land(Moving(s.d, target)));
    var t := Next(Next(s, ReadMove(target)), Replace(d));
    assert t.d == d && t.p == s.p.(progress := None) && Moving(s.d, target) in t.flying;
    FirstMoveStarts(s.d, t.p, target);
  }

  lemma FirstMoveStarts(read: Dungeon, p: Player, target: Cell)
    requires p.progress == None && p.energy >= 1
    requires read.active && target in read.path && Adjacent(read.start, target)
    ensures var q := Advance(read, p, Walk(target));
      q.progress.Some? && q.progress.value.visited != [] && q.progress.value.visited[0] == read.start
  {
  }
}
