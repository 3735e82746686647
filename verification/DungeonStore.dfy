/** The dungeon tables and the transactions over them (internal/repository/dungeon.go). */
module DungeonStore {
  import opened Prelude
  import opened DungeonLayout
  import opened DungeonGame

  /** What an admin submits; the image is the treasure picture. */
  datatype Submission = Submission(title: string, layout: Layout, active: bool, image: Id, xpReward: int)

  datatype SaveOutcome =
    | Saved | Rejected(error: LayoutError) | NoTitle | BadReward | NoTreasurePuzzle | ImageNotFound | NoSuchDungeon

  /** Well-formed, and naming only pictures among `images`. */
  ghost predicate Acceptable(s: Submission, images: set<Id>) {
    && s.title != ""
    && s.xpReward > 0
    && s.layout.treasurePuzzle.Some?
    && ValidLayout(s.layout)
    && (forall m :: m in s.layout.monsters ==> m.image in images)
    && s.image in images
  }

  /** The rows a submission becomes, its monsters keyed by `ids`. */
  ghost predicate Stores(d: Dungeon, s: Submission, ids: seq<Id>) {
    && d.start == s.layout.start && d.treasure == s.layout.treasure && d.path == s.layout.path
    && d.active == s.active && d.treasureImage == Some(s.image) && d.xpReward == s.xpReward
    && |d.monsters| == |s.layout.monsters| == |ids|
    && forall i :: 0 <= i < |ids| ==> d.monsters[i] == Monster(ids[i], s.layout.monsters[i].cell)
  }

  /** Whatever validation accepts can be played. */
  lemma AcceptedIsPlayable(d: Dungeon, s: Submission, ids: seq<Id>)
    requires ValidLayout(s.layout) && Stores(d, s, ids) && Distinct(ids)
    ensures Playable(d)
  {
    forall m | m in d.monsters ensures m.cell in d.path && m.cell != d.start && m.cell != d.treasure {
      var i :| 0 <= i < |d.monsters| && d.monsters[i] == m;
      assert s.layout.monsters[i] in s.layout.monsters;
    }
  }

  /** Every row belongs to a playable dungeon and a user, and is consistent with the dungeon's map. */
  ghost predicate SoundTables(dungeons: map<Id, Dungeon>, points: map<Id, int>, progress: map<(Id, Id), Progress>) {
    && (forall id :: id in dungeons ==> Playable(dungeons[id]))
    && (forall u :: u in points ==> points[u] >= 0)
    && (forall k :: k in progress ==>
          k.0 in points && k.1 in dungeons && Consistent(dungeons[k.1], progress[k]))
  }

  /** Whoever has completed a dungeon with a treasure picture has a gallery entry for it. */
  ghost predicate Galleried(
    dungeons: map<Id, Dungeon>, progress: map<(Id, Id), Progress>, treasures: map<(Id, Id), Id>)
  {
    forall k :: k in progress && progress[k].completed ==>
      k.1 in dungeons && (dungeons[k.1].treasureImage.Some? ==> k in treasures)
  }

  /** Everybody's progress but that in one dungeon. */
  function Without(progress: map<(Id, Id), Progress>, id: Id): map<(Id, Id), Progress> {
    map k | k in progress && k.1 != id :: progress[k]
  }

  lemma OtherRowsStay(m: map<(Id, Id), Progress>, k: (Id, Id), g: Progress)
    ensures m[k := g] - {k} == m - {k}
  {
  }

  ghost predicate SoundStore(
    dungeons: map<Id, Dungeon>, points: map<Id, int>, progress: map<(Id, Id), Progress>, treasures: map<(Id, Id), Id>)
  {
    SoundTables(dungeons, points, progress) && Galleried(dungeons, progress, treasures)
  }

  /** Writing one consistent row, and a gallery entry that a completion calls for, leaves the store sound. */
  lemma SoundAfterRow(
    dungeons: map<Id, Dungeon>, points: map<Id, int>, progress: map<(Id, Id), Progress>, treasures: map<(Id, Id), Id>,
    k: (Id, Id), g: Progress, after: map<(Id, Id), Id>)
    requires SoundStore(dungeons, points, progress, treasures)
    requires k.0 in points && k.1 in dungeons && Consistent(dungeons[k.1], g)
    requires treasures.Keys <= after.Keys
    requires g.completed && dungeons[k.1].treasureImage.Some? ==> k in after
    ensures SoundStore(dungeons, points, progress[k := g], after)
  {
    forall l | l in progress[k := g]
      ensures l.0 in points && l.1 in dungeons && Consistent(dungeons[l.1], progress[k := g][l])
      ensures progress[k := g][l].completed && dungeons[l.1].treasureImage.Some? ==> l in after
    {
      if l != k { assert l in progress && progress[k := g][l] == progress[l]; }
    }
  }

  lemma TablesAfterReplace(
    dungeons: map<Id, Dungeon>, points: map<Id, int>, progress: map<(Id, Id), Progress>, id: Id, d: Dungeon)
    requires SoundTables(dungeons, points, progress) && Playable(d)
    ensures SoundTables(dungeons[id := d], points, Without(progress, id))
  {
    forall k | k in Without(progress, id)
      ensures k.0 in points && k.1 in dungeons[id := d] && Consistent(dungeons[id := d][k.1], progress[k])
    {
      assert dungeons[id := d][k.1] == dungeons[k.1];
    }
  }

  lemma SoundAfterReplace(
    dungeons: map<Id, Dungeon>, points: map<Id, int>, progress: map<(Id, Id), Progress>, treasures: map<(Id, Id), Id>,
    id: Id, d: Dungeon)
    requires SoundStore(dungeons, points, progress, treasures) && Playable(d)
    ensures SoundStore(dungeons[id := d], points, Without(progress, id), treasures)
  {
    TablesAfterReplace(dungeons, points, progress, id, d);
    forall k | k in Without(progress, id) && progress[k].completed
      ensures k.1 in dungeons[id := d] && (dungeons[id := d][k.1].treasureImage.Some? ==> k in treasures)
    {
      assert dungeons[id := d][k.1] == dungeons[k.1];
    }
  }

  class Store {
    var dungeons: map<Id, Dungeon>
    var progress: map<(Id, Id), Progress>  // keyed by user and dungeon
    var points: map<Id, int>
    var treasures: map<(Id, Id), Id>
    var images: set<Id>

    ghost predicate Valid()
      reads this
    {
      SoundStore(dungeons, points, progress, treasures)
    }

    /** What the tables say about one user and one dungeon. */
    function PlayerOf(user: Id, id: Id): Player
      requires user in points
      reads this
    {
      Player(points[user], if (user, id) in progress then Some(progress[(user, id)]) else None)
    }

    constructor (users: set<Id>, images: set<Id>)
      ensures Valid() && dungeons == map[] && progress == map[] && this.images == images
      ensures points == map u | u in users :: 0
    {
      dungeons, progress, treasures := map[], map[], map[];
      points := map u | u in users :: 0;
      this.images := images;
    }

    static method Contains<T(==)>(s: seq<T>, x: T) returns (found: bool)
      ensures found <==> x in s
    {
      for i := 0 to |s|
        invariant x !in s[..i]
      {
        if s[i] == x {
          return true;
        }
      }
      return false;
    }

    static method AppendCellDedup(visited: seq<Cell>, c: Cell) returns (r: seq<Cell>)
      ensures r == AppendCell(visited, c)
    {
      for i := 0 to |visited|
        invariant c !in visited[..i]
      {
        if visited[i] == c {
          return visited;
        }
      }
      return visited + [c];
    }

    /** On success the result carries the monster met on the new cell, if it is still undefeated. */
    method MoveDungeon(user: Id, id: Id, target: Cell) returns (r: Result<Option<Id>, GameError>)
      requires Valid() && user in points
      modifies this`progress, this`points
      ensures Valid()
      ensures id !in dungeons ==> r == Err(NotFound) && unchanged(this)
      ensures id in dungeons ==>
        match Move(dungeons[id], old(PlayerOf(user, id)), target)
        case Err(e) => r == Err(e) && unchanged(this)
        case Ok(p) =>
          && progress == old(progress)[(user, id) := p.progress.value]
          && points == old(points)[user := p.energy]
          && r.Ok?
          && match MonsterAt(dungeons[id].monsters, target)
             case None => r.value == None
             case Some(m) => r.value == if m.id in p.progress.value.defeated then None else Some(m.id)
    {
      if id !in dungeons {
        return Err(NotFound);
      }
      var step := TryMove(dungeons[id], PlayerOf(user, id), target);
      if step.Err? {
        return Err(step.error);
      }
      WriteMove(user, id, step.value.energy, step.value.progress.value);
      var met := MonsterAt(dungeons[id].monsters, target);
      if met.Some? && met.value.id !in step.value.progress.value.defeated {
        return Ok(Some(met.value.id));
      }
      return Ok(None);
    }

    /** The writes of a move: the balance and the row. */
    method WriteMove(user: Id, id: Id, energy: int, g: Progress)
      requires Valid() && user in points && id in dungeons
      requires energy >= 0 && Consistent(dungeons[id], g) && !g.completed
      modifies this`progress, this`points
      ensures Valid()
      ensures points == old(points)[user := energy] && progress == old(progress)[(user, id) := g]
    {
      points := points[user := energy];
      progress := progress[(user, id) := g];
    }

    /** The checks of a move in their order, and the row it writes. */
    static method TryMove(d: Dungeon, p: Player, target: Cell) returns (r: Result<Player, GameError>)
      requires Playable(d) && Invariant(d, p)
      ensures r == Move(d, p, target)
      ensures r.Ok? ==> r.value.energy >= 0 && r.value.progress.Some?
      ensures r.Ok? ==> Consistent(d, r.value.progress.value) && !r.value.progress.value.completed
    {
      InvariantKept(d, p, Walk(target));
      if !d.active {
        return Err(Inactive);
      }
      var onPath := Contains(d.path, target);
      if !onPath {
        return Err(InvalidMove);
      }
      var g := Current(d, p);
      if g.completed {
        return Err(AlreadyCompleted);
      }
      if Manhattan(g.pos, target) != 1 {
        return Err(InvalidMove);
      }
      if p.energy < 1 {
        return Err(OutOfEnergy);
      }
      var visited := AppendCellDedup(g.visited, target);
      return Ok(Player(p.energy - 1, Some(g.(prev := Some(g.pos), pos := target, visited := visited))));
    }

    method RetreatDungeon(user: Id, id: Id) returns (r: Result<Cell, GameError>)
      requires Valid() && user in points
      modifies this`progress
      ensures Valid()
      ensures id !in dungeons ==> r == Err(NotFound) && unchanged(this)
      ensures id in dungeons ==>
        && PlayerOf(user, id) == Retreat(old(PlayerOf(user, id)))
        && r == Ok(Current(dungeons[id], PlayerOf(user, id)).pos)
        && progress - {(user, id)} == old(progress) - {(user, id)}
    {
      if id !in dungeons {
        return Err(NotFound);
      }
      if (user, id) !in progress {
        return Ok(dungeons[id].start);
      }
      var g := progress[(user, id)];
      if g.prev.None? {
        return Ok(g.pos);
      }
      var back := g.(pos := g.prev.value, prev := None);
      OtherRowsStay(progress, (user, id), back);
      InvariantKept(dungeons[id], PlayerOf(user, id), StepBack);
      WriteRow(user, id, back);
      return Ok(g.prev.value);
    }

    /** The write of an action that costs nothing. */
    method WriteRow(user: Id, id: Id, g: Progress)
      requires Valid() && user in points && id in dungeons && Consistent(dungeons[id], g)
      requires g.completed && dungeons[id].treasureImage.Some? ==> (user, id) in treasures
      modifies this`progress
      ensures Valid()
      ensures progress == old(progress)[(user, id) := g]
    {
      var rows := progress[(user, id) := g];
      SoundAfterRow(dungeons, points, progress, treasures, (user, id), g, treasures);
      progress := rows;
    }

    method CompleteDungeonMonster(user: Id, id: Id, monster: Id) returns (r: Result<seq<Id>, GameError>)
      requires Valid() && user in points
      modifies this`progress
      ensures Valid()
      ensures id !in dungeons ==> r == Err(NotFound) && unchanged(this)
      ensures id in dungeons ==>
        match Defeat(dungeons[id], old(PlayerOf(user, id)), monster)
        case Err(e) => r == Err(e) && unchanged(this)
        case Ok(p) =>
          && progress == old(progress)[(user, id) := p.progress.value]
          && r == Ok(p.progress.value.defeated)
    {
      if id !in dungeons {
        return Err(NotFound);
      }
      var step := TryDefeat(dungeons[id], PlayerOf(user, id), monster);
      if step.Err? {
        return Err(step.error);
      }
      WriteRow(user, id, step.value.progress.value);
      return Ok(step.value.progress.value.defeated);
    }

    /** The checks of a defeat in their order, and the row it writes. */
    static method TryDefeat(d: Dungeon, p: Player, monster: Id) returns (r: Result<Player, GameError>)
      requires Playable(d) && Invariant(d, p)
      ensures r == Defeat(d, p, monster)
      ensures r.Ok? ==> r.value.progress.Some? && Consistent(d, r.value.progress.value)
    {
      InvariantKept(d, p, Beat(monster));
      var m := MonsterById(d.monsters, monster);
      if m.None? {
        return Err(NotFound);
      }
      if p.progress.None? {
        return Err(WrongCell);
      }
      var g := p.progress.value;
      if g.pos != m.value.cell {
        return Err(WrongCell);
      }
      var defeated := Contains(g.defeated, monster);
      if defeated {
        return Err(AlreadyDefeated);
      }
      return Ok(p.(progress := Some(g.(defeated := g.defeated + [monster]))));
    }

    /** On success returns the XP to award, and unlocks the treasure image unless one was before. */
    method CompleteDungeon(user: Id, id: Id) returns (r: Result<int, GameError>)
      requires Valid() && user in points
      modifies this`progress, this`treasures
      ensures Valid()
      ensures id !in dungeons ==> r == Err(NotFound) && unchanged(this)
      ensures id in dungeons ==>
        match Complete(dungeons[id], old(PlayerOf(user, id)))
        case Err(e) => r == Err(e) && unchanged(this)
        case Ok(p) =>
          && progress == old(progress)[(user, id) := p.progress.value]
          && r == Ok(dungeons[id].xpReward)
      ensures r.Ok? && dungeons[id].treasureImage.Some? ==>
        && (user, id) in treasures
        && treasures[(user, id)] ==
           if (user, id) in old(treasures) then old(treasures)[(user, id)] else dungeons[id].treasureImage.value
      ensures r.Ok? && dungeons[id].treasureImage.None? ==> treasures == old(treasures)
      ensures treasures - {(user, id)} == old(treasures) - {(user, id)}
    {
      if id !in dungeons {
        return Err(NotFound);
      }
      var d := dungeons[id];
      var step := TryComplete(d, PlayerOf(user, id));
      if step.Err? {
        return Err(step.error);
      }
      WriteCompletion(user, id, step.value.progress.value);
      return Ok(d.xpReward);
    }

    /** The checks of a completion in their order, and the row it writes. */
    static method TryComplete(d: Dungeon, p: Player) returns (r: Result<Player, GameError>)
      requires Playable(d) && Invariant(d, p)
      ensures r == Complete(d, p)
      ensures r.Ok? ==> r.value.progress.Some? && Consistent(d, r.value.progress.value)
    {
      InvariantKept(d, p, Finish);
      if p.progress.None? {
        return Err(WrongCell);
      }
      var g := p.progress.value;
      if g.completed {
        return Err(AlreadyCompleted);
      }
      if g.pos != d.treasure {
        return Err(WrongCell);
      }
      if |g.defeated| < |d.monsters| {
        return Err(MonstersRemain);
      }
      return Ok(p.(progress := Some(g.(completed := true))));
    }

    /** The writes of a completion: the row, and the gallery entry. */
    method WriteCompletion(user: Id, id: Id, g: Progress)
      requires Valid() && user in points && id in dungeons && Consistent(dungeons[id], g)
      modifies this`progress, this`treasures
      ensures Valid()
      ensures progress == old(progress)[(user, id) := g]
      ensures dungeons[id].treasureImage.Some? ==>
        && (user, id) in treasures
        && treasures[(user, id)] ==
           if (user, id) in old(treasures) then old(treasures)[(user, id)] else dungeons[id].treasureImage.value
      ensures dungeons[id].treasureImage.None? ==> treasures == old(treasures)
      ensures treasures - {(user, id)} == old(treasures) - {(user, id)}
    {
      var image := dungeons[id].treasureImage;
      var unlocked := treasures;
      if image.Some? && (user, id) !in treasures {
        unlocked := treasures[(user, id) := image.value];
      }
      SoundAfterRow(dungeons, points, progress, treasures, (user, id), g, unlocked);
      progress, treasures := progress[(user, id) := g], unlocked;
    }

    /** Validates a layout and replaces a dungeon with it, dropping everyone's progress in it. */
    method UpdateDungeon(id: Id, s: Submission, ids: seq<Id>) returns (outcome: SaveOutcome, d: Dungeon)
      requires Valid() && Distinct(ids) && |ids| == |s.layout.monsters|
      modifies this`dungeons, this`progress
      ensures Valid()
      ensures outcome == Saved <==> Acceptable(s, images) && id in old(dungeons)
      ensures outcome.Rejected? ==> Explains(s.layout, outcome.error)
      ensures outcome != Saved ==> unchanged(this)
      ensures outcome == Saved ==>
        && Stores(d, s, ids)
        && dungeons == old(dungeons)[id := d]
        && progress == Without(old(progress), id)
    {
      outcome, d := ValidateRequest(s, ids);
      if outcome != Saved {
        return;
      }
      if id !in dungeons {
        return NoSuchDungeon, d;
      }
      ReplaceDungeon(id, d);
    }

    /** The transaction of an update: the new rows, and nobody's progress in the old map. */
    method ReplaceDungeon(id: Id, d: Dungeon)
      requires Valid() && Playable(d) && id in dungeons
      modifies this`dungeons, this`progress
      ensures Valid()
      ensures dungeons == old(dungeons)[id := d]
      ensures progress == Without(old(progress), id)
    {
      var maps, rows := dungeons[id := d], Without(progress, id);
      SoundAfterReplace(dungeons, points, progress, treasures, id, d);
      dungeons, progress := maps, rows;
    }

    static method InsertMonsters(inputs: seq<MonsterInput>, ids: seq<Id>) returns (rows: seq<Monster>)
      requires |inputs| == |ids|
      ensures |rows| == |ids|
      ensures forall i :: 0 <= i < |ids| ==> rows[i] == Monster(ids[i], inputs[i].cell)
    {
      rows := [];
      for i := 0 to |ids|
        invariant |rows| == i
        invariant forall k :: 0 <= k < i ==> rows[k] == Monster(ids[k], inputs[k].cell)
      {
        rows := rows + [Monster(ids[i], inputs[i].cell)];
      }
    }

    /** Validates a layout and adds it as a new dungeon, in which nobody has played yet. */
    method CreateDungeon(id: Id, s: Submission, ids: seq<Id>) returns (outcome: SaveOutcome, d: Dungeon)
      requires Valid() && id !in dungeons && Distinct(ids) && |ids| == |s.layout.monsters|
      modifies this`dungeons
      ensures Valid()
      ensures outcome == Saved <==> Acceptable(s, images)
      ensures outcome.Rejected? ==> Explains(s.layout, outcome.error)
      ensures outcome != Saved ==> unchanged(this)
      ensures outcome == Saved ==>
        && Stores(d, s, ids)
        && dungeons == old(dungeons)[id := d]
    {
      outcome, d := ValidateRequest(s, ids);
      if outcome == Saved {
        dungeons := dungeons[id := d];
      }
    }

    /** The checks both admin operations start with, and the rows of an accepted submission. */
    method ValidateRequest(s: Submission, ids: seq<Id>) returns (outcome: SaveOutcome, d: Dungeon)
      requires Distinct(ids) && |ids| == |s.layout.monsters|
      ensures outcome == Saved <==> Acceptable(s, images)
      ensures outcome.Rejected? ==> Explains(s.layout, outcome.error)
      ensures outcome != NoSuchDungeon
      ensures Stores(d, s, ids) && (outcome == Saved ==> Playable(d))
    {
      var monsters := InsertMonsters(s.layout.monsters, ids);
      d := Dungeon(s.layout.start, s.layout.treasure, s.layout.path, monsters, s.active, Some(s.image), s.xpReward);
      if s.title == "" {
        return NoTitle, d;
      }
      if s.xpReward <= 0 {
        return BadReward, d;
      }
      if s.layout.treasurePuzzle.None? {
        return NoTreasurePuzzle, d;
      }
      var error := ValidateDungeonLayout(s.layout);
      if error.Some? {
        return Rejected(error.value), d;
      }
      var inputs := s.layout.monsters;
      for i := 0 to |inputs|
        invariant forall k :: 0 <= k < i ==> inputs[k].image in images
      {
        if inputs[i].image !in images {
          assert inputs[i] in inputs;
          return ImageNotFound, d;
        }
      }
      if s.image !in images {
        return ImageNotFound, d;
      }
      AcceptedIsPlayable(d, s, ids);
      return Saved, d;
    }
  }
}
