/** Dungeon maps and their validation (internal/models/dungeon.go). */
module DungeonLayout {
  import opened Prelude

  const GRID_COLS := 6
  const GRID_ROWS := 8
  const MIN_MONSTERS := 1
  const MAX_MONSTERS := 20
  const MIN_PUZZLE := 2
  const MAX_PUZZLE := 20

  datatype Cell = Cell(row: int, col: int)

  datatype Puzzle = Puzzle(cols: int, rows: int, playSeconds: int)

  datatype MonsterInput = MonsterInput(cell: Cell, image: Id, puzzle: Puzzle)

  datatype Layout = Layout(
    start: Cell,
    treasure: Cell,
    path: seq<Cell>,
    monsters: seq<MonsterInput>,
    treasurePuzzle: Option<Puzzle>)  // None: no treasure image is set

  datatype LayoutError =
    | StartOutOfBounds
    | TreasureOutOfBounds
    | PathTooShort
    | PathCellOutOfBounds(i: nat)
    | PathCellRepeated(i: nat)
    | PathCellsNotAdjacent(i: nat)
    | PathStartMismatch
    | PathTreasureMismatch
    | MonsterCountOutOfRange
    | MonsterOutOfBounds(i: nat)
    | MonsterOffPath(i: nat)
    | MonsterOnEndpoint(i: nat)
    | MonsterSharesCell(i: nat)
    | MonsterPuzzleOutOfRange(i: nat)
    | MonsterTimeNotPositive(i: nat)
    | TreasurePuzzleOutOfRange
    | TreasureTimeNotPositive

  predicate InBounds(c: Cell) {
    0 <= c.row < GRID_ROWS && 0 <= c.col < GRID_COLS
  }

  function Abs(x: int): int {
    if x < 0 then -x else x
  }

  function Manhattan(a: Cell, b: Cell): int {
    Abs(a.row - b.row) + Abs(a.col - b.col)
  }

  predicate Adjacent(a: Cell, b: Cell) {
    Manhattan(a, b) == 1
  }

  /** Adjacent cells share a side. */
  lemma AdjacentExactly(a: Cell, b: Cell)
    ensures Adjacent(a, b) <==>
      || (a.row == b.row && (b.col == a.col + 1 || b.col == a.col - 1))
      || (a.col == b.col && (b.row == a.row + 1 || b.row == a.row - 1))
  {
  }

  predicate PuzzleInRange(p: Puzzle) {
    MIN_PUZZLE <= p.cols <= MAX_PUZZLE && MIN_PUZZLE <= p.rows <= MAX_PUZZLE
  }

  /** The i-th cell of the road is one step from the cell before it. */
  predicate StepAt(path: seq<Cell>, i: int)
    requires 0 < i < |path|
  {
    Adjacent(path[i - 1], path[i])
  }

  /** A road from `start` to `treasure`: on the grid, never crossing itself, one step at a time. */
  ghost predicate ValidRoad(path: seq<Cell>, start: Cell, treasure: Cell) {
    && |path| >= 2
    && (forall c :: c in path ==> InBounds(c))
    && Distinct(path)
    && (forall i :: 0 < i < |path| ==> StepAt(path, i))
    && path[0] == start
    && path[|path| - 1] == treasure
  }

  /** A cell's number on a grid of eight rows and six columns. */
  function CellNumber(c: Cell): int {
    6 * c.row + c.col
  }

  /** The grid is eight rows of six columns, so no road has more than forty-eight cells. */
  lemma RoadWithinGrid(path: seq<Cell>, start: Cell, treasure: Cell, c: Cell)
    requires ValidRoad(path, start, treasure)
    ensures InBounds(c) <==> 0 <= c.row && c.row <= 7 && 0 <= c.col && c.col <= 5
    ensures |path| <= 48
  {
    var numbers := seq(|path|, i requires 0 <= i < |path| => CellNumber(path[i]));
    forall i | 0 <= i < |path| ensures numbers[i] in Range(0, 48) {
      assert path[i] in path && Within(0, CellNumber(path[i]), 48);
    }
    forall i, j | 0 <= i < j < |path| ensures numbers[i] != numbers[j] {
      assert path[i] in path && path[j] in path && path[i] != path[j];
    }
    Pigeonhole(numbers, Range(0, 48));
    RangeCardinality(0, 48);
  }

  /** The limits an admin works within: puzzles of 2 to 20 each way, and 1 to 20 monsters. */
  lemma LimitsExactly(p: Puzzle, l: Layout)
    ensures PuzzleInRange(p) <==> p.cols >= 2 && p.cols <= 20 && p.rows >= 2 && p.rows <= 20
    ensures ValidMonsters(l) ==> |l.monsters| >= 1 && |l.monsters| <= 20
    ensures ValidMonsters(l) || |l.monsters| < 1 || |l.monsters| > 20
         || (exists m :: m in l.monsters && !ValidMonster(l, m))
         || (exists i, j :: 0 <= i < j < |l.monsters| && l.monsters[i].cell == l.monsters[j].cell)
  {
  }

  /** Monster `m` may stand where it does, given the road. */
  ghost predicate ValidMonster(l: Layout, m: MonsterInput) {
    && m.cell in l.path
    && m.cell != l.start
    && m.cell != l.treasure
    && PuzzleInRange(m.puzzle)
    && m.puzzle.playSeconds > 0
  }

  ghost predicate ValidMonsters(l: Layout) {
    && MIN_MONSTERS <= |l.monsters| <= MAX_MONSTERS
    && (forall m :: m in l.monsters ==> ValidMonster(l, m))
    && (forall i, j :: 0 <= i < j < |l.monsters| ==> l.monsters[i].cell != l.monsters[j].cell)
  }

  ghost predicate ValidLayout(l: Layout) {
    && ValidRoad(l.path, l.start, l.treasure)
    && ValidMonsters(l)
    && (l.treasurePuzzle.Some? ==>
          PuzzleInRange(l.treasurePuzzle.value) && l.treasurePuzzle.value.playSeconds > 0)
  }

  /** The defect a reported error names is really there. */
  ghost predicate Explains(l: Layout, e: LayoutError) {
    match e
    case StartOutOfBounds => !InBounds(l.start)
    case TreasureOutOfBounds => !InBounds(l.treasure)
    case PathTooShort => |l.path| < 2
    case PathCellOutOfBounds(i) => i < |l.path| && !InBounds(l.path[i])
    case PathCellRepeated(i) => i < |l.path| && l.path[i] in l.path[..i]
    case PathCellsNotAdjacent(i) => 0 < i < |l.path| && !StepAt(l.path, i)
    case PathStartMismatch => |l.path| > 0 && l.path[0] != l.start
    case PathTreasureMismatch => |l.path| > 0 && l.path[|l.path| - 1] != l.treasure
    case MonsterCountOutOfRange => !(MIN_MONSTERS <= |l.monsters| <= MAX_MONSTERS)
    case MonsterOutOfBounds(i) => i < |l.monsters| && !InBounds(l.monsters[i].cell)
    case MonsterOffPath(i) => i < |l.monsters| && l.monsters[i].cell !in l.path
    case MonsterOnEndpoint(i) => i < |l.monsters| && l.monsters[i].cell in {l.start, l.treasure}
    case MonsterSharesCell(i) =>
      i < |l.monsters| && exists j :: 0 <= j < i && l.monsters[j].cell == l.monsters[i].cell
    case MonsterPuzzleOutOfRange(i) => i < |l.monsters| && !PuzzleInRange(l.monsters[i].puzzle)
    case MonsterTimeNotPositive(i) => i < |l.monsters| && l.monsters[i].puzzle.playSeconds <= 0
    case TreasurePuzzleOutOfRange => l.treasurePuzzle.Some? && !PuzzleInRange(l.treasurePuzzle.value)
    case TreasureTimeNotPositive => l.treasurePuzzle.Some? && l.treasurePuzzle.value.playSeconds <= 0
  }

  /** First pass: the road. Also returns the set of its cells. */
  method ValidatePath(path: seq<Cell>) returns (error: Option<LayoutError>, seen: set<Cell>)
    ensures error == None ==> seen == Elements(path)
    ensures error == None <==>
            && (forall c :: c in path ==> InBounds(c))
            && Distinct(path)
            && (forall i :: 0 < i < |path| ==> StepAt(path, i))
    ensures forall l: Layout :: l.path == path && error.Some? ==> Explains(l, error.value)
  {
    seen := {};
    for i := 0 to |path|
      invariant seen == Elements(path[..i])
      invariant forall c :: c in path[..i] ==> InBounds(c)
      invariant Distinct(path[..i])
      invariant forall k :: 0 < k < i ==> StepAt(path, k)
    {
      var c := path[i];
      if !InBounds(c) {
        return Some(PathCellOutOfBounds(i)), seen;
      }
      if c in seen {
        return Some(PathCellRepeated(i)), seen;
      }
      seen := seen + {c};
      assert path[..i + 1] == path[..i] + [c];
      if i > 0 && !StepAt(path, i) {
        return Some(PathCellsNotAdjacent(i)), seen;
      }
    }
    assert path[..|path|] == path;
    return None, seen;
  }

  /** Second pass: the monsters, against the cells of the road. */
  method ValidateMonsters(l: Layout, seen: set<Cell>) returns (error: Option<LayoutError>)
    requires seen == Elements(l.path) && forall c :: c in l.path ==> InBounds(c)
    ensures error == None <==> ValidMonsters(l)
    ensures error.Some? ==> Explains(l, error.value)
  {
    if |l.monsters| < MIN_MONSTERS || |l.monsters| > MAX_MONSTERS {
      return Some(MonsterCountOutOfRange);
    }
    var monsterCells: set<Cell> := {};
    for i := 0 to |l.monsters|
      invariant monsterCells == set k | 0 <= k < i :: l.monsters[k].cell
      invariant forall k :: 0 <= k < i ==> ValidMonster(l, l.monsters[k])
      invariant forall j, k :: 0 <= j < k < i ==> l.monsters[j].cell != l.monsters[k].cell
    {
      var m := l.monsters[i];
      assert m in l.monsters;
      if !InBounds(m.cell) {
        return Some(MonsterOutOfBounds(i));
      }
      if m.cell !in seen {
        return Some(MonsterOffPath(i));
      }
      if m.cell == l.start || m.cell == l.treasure {
        return Some(MonsterOnEndpoint(i));
      }
      if m.cell in monsterCells {
        return Some(MonsterSharesCell(i));
      }
      monsterCells := monsterCells + {m.cell};
      if !PuzzleInRange(m.puzzle) {
        return Some(MonsterPuzzleOutOfRange(i));
      }
      if m.puzzle.playSeconds <= 0 {
        return Some(MonsterTimeNotPositive(i));
      }
    }
    return None;
  }

  /** Accepts exactly the valid layouts, and names a real defect of the others. */
  method ValidateDungeonLayout(l: Layout) returns (error: Option<LayoutError>)
    ensures error == None <==> ValidLayout(l)
    ensures error.Some? ==> Explains(l, error.value)
  {
    if !InBounds(l.start) {
      return Some(StartOutOfBounds);
    }
    if !InBounds(l.treasure) {
      return Some(TreasureOutOfBounds);
    }
    if |l.path| < 2 {
      return Some(PathTooShort);
    }
    var seen;
    error, seen := ValidatePath(l.path);
    if error.Some? {
      return;
    }
    if l.path[0] != l.start {
      return Some(PathStartMismatch);
    }
    if l.path[|l.path| - 1] != l.treasure {
      return Some(PathTreasureMismatch);
    }
    error := ValidateMonsters(l, seen);
    if error.Some? {
      return;
    }
    if l.treasurePuzzle.Some? {
      if !PuzzleInRange(l.treasurePuzzle.value) {
        return Some(TreasurePuzzleOutOfRange);
      }
      if l.treasurePuzzle.value.playSeconds <= 0 {
        return Some(TreasureTimeNotPositive);
      }
    }
    return None;
  }
}
