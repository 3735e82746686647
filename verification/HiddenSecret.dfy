/** The reveal board of a hidden picture, for any number of tiles (internal/repository/hidden_secret.go). */
module HiddenSecret {
  import opened Prelude

  const TILE_COUNT: nat := 9
  const POINTS_REWARD := 5

  datatype Board = Board(revealed: seq<int>, completed: bool)

  const COVERED := Board([], false)

  datatype RevealError = OutOfRange | NotFound | Inactive | AlreadyCompleted | AlreadyRevealed

  /** Opening one of n shutters. */
  function Reveal(n: nat, b: Board, tile: int): Result<Board, RevealError> {
    if !(0 <= tile < n) then Err(OutOfRange)
    else if b.completed then Err(AlreadyCompleted)
    else if tile in b.revealed then Err(AlreadyRevealed)
    else Ok(Board(b.revealed + [tile], |b.revealed + [tile]| >= n))
  }

  ghost predicate SoundBoard(n: nat, b: Board) {
    && Distinct(b.revealed)
    && (forall t :: t in b.revealed ==> t in Range(0, n))
    && (b.completed <==> |b.revealed| == n)
  }

  lemma CoveredIsSound(n: nat)
    requires n > 0
    ensures SoundBoard(n, COVERED)
  {
  }

  /** A reveal opens a closed shutter of an uncompleted board, and completes it when it was the last. */
  lemma RevealsExactly(n: nat, b: Board, tile: int)
    ensures Reveal(n, b, tile).Ok? <==> 0 <= tile < n && !b.completed && tile !in b.revealed
    ensures Reveal(n, b, tile).Ok? ==>
      var after := Reveal(n, b, tile).value;
      after.revealed == b.revealed + [tile] && (after.completed <==> |b.revealed| + 1 >= n)
    ensures Reveal(n, b, tile).Err? ==>
      Reveal(n, b, tile).error ==
        if tile < 0 || tile >= n then OutOfRange else if b.completed then AlreadyCompleted else AlreadyRevealed
  {
  }

  lemma RevealKeepsSound(n: nat, b: Board, tile: int)
    requires n > 0 && SoundBoard(n, b) && Reveal(n, b, tile).Ok?
    ensures SoundBoard(n, Reveal(n, b, tile).value)
  {
    RangeCardinality(0, n);
    Pigeonhole(b.revealed + [tile], Range(0, n));
  }

  /** Counting the tiles is enough: a sound board is complete exactly when every tile is open. */
  lemma CompletedMeansAllRevealed(n: nat, b: Board)
    requires SoundBoard(n, b)
    ensures b.completed <==> forall t :: 0 <= t < n ==> t in b.revealed
  {
    RangeCardinality(0, n);
    Pigeonhole(b.revealed, Range(0, n));
    assert forall t :: t in Range(0, n) <==> 0 <= t < n;
  }

  /** The board after revealing tiles in order; refused ones change nothing. */
  function RevealAll(n: nat, order: seq<int>): Board {
    if order == [] then COVERED
    else match Reveal(n, RevealAll(n, Init(order)), Last(order))
         case Ok(b) => b
         case Err(_) => RevealAll(n, Init(order))
  }

  /** Distinct tiles leave room for another distinct one only below the tile count. */
  lemma RoomForOneMore(n: nat, order: seq<int>)
    requires Distinct(order) && forall t :: t in order ==> 0 <= t < n
    ensures |order| <= n
    ensures order != [] ==> Last(order) !in Init(order) && Init(order) + [Last(order)] == order
  {
    RangeCardinality(0, n);
    Pigeonhole(order, Range(0, n));
  }

  /** However the distinct tiles are ordered, none is refused and exactly the last one completes. */
  lemma {:induction false} AnyOrderCompletesOnTheLast(n: nat, order: seq<int>)
    requires n > 0 && Distinct(order) && forall t :: t in order ==> 0 <= t < n
    ensures RevealAll(n, order) == Board(order, |order| == n)
    ensures order != [] ==> Reveal(n, RevealAll(n, Init(order)), Last(order)).Ok?
  {
    RoomForOneMore(n, order);
    if order == [] {
      assert RevealAll(n, []) == Board([], false);
    } else {
      assert Last(order) in order && forall t :: t in Init(order) ==> t in order;
      AnyOrderCompletesOnTheLast(n, Init(order));
      assert Reveal(n, Board(Init(order), false), Last(order)) == Ok(Board(order, |order| >= n));
    }
  }

  datatype Secret = Secret(image: Id, active: bool, xpReward: int)

  class Store {
    const tileCount: nat
    var secrets: map<Id, Secret>
    var progress: map<(Id, Id), Board>  // keyed by user and secret
    var unlocks: map<(Id, Id), Id>

    /** Boards are of secrets there are, and sound, and every completed one has its picture in the gallery. */
    ghost predicate Valid()
      reads this
    {
      && tileCount > 0
      && forall k :: k in progress ==>
           k.1 in secrets && SoundBoard(tileCount, progress[k]) && (progress[k].completed ==> k in unlocks)
    }

    constructor (tileCount: nat)
      requires tileCount > 0
      ensures Valid() && this.tileCount == tileCount && progress == map[]
    {
      this.tileCount := tileCount;
      secrets, progress, unlocks := map[], map[], map[];
    }

    /** Adds a secret under a new id; nobody has begun it. */
    method CreateHiddenSecret(id: Id, s: Secret)
      requires Valid() && id !in secrets
      modifies this`secrets
      ensures Valid() && secrets == old(secrets)[id := s]
      ensures forall user :: BoardOf(user, id) == COVERED
    {
      secrets := secrets[id := s];
    }

    /** The saved board, or the covered one of a user who has not begun. */
    function BoardOf(user: Id, id: Id): Board
      reads this
    {
      if (user, id) in progress then progress[(user, id)] else COVERED
    }

    /** On success: the revealed tiles, whether this completed the picture, and the XP then due. */
    method RevealTile(user: Id, id: Id, tile: int) returns (r: Result<(seq<int>, bool, int), RevealError>)
      requires Valid()
      modifies this`progress, this`unlocks
      ensures Valid()
      ensures r.Ok? <==> id in secrets && secrets[id].active && Reveal(tileCount, old(BoardOf(user, id)), tile).Ok?
      ensures r.Err? ==> unchanged(this)
      ensures r.Ok? ==>
        var b := Reveal(tileCount, old(BoardOf(user, id)), tile).value;
        && progress == old(progress)[(user, id) := b]
        && r.value == (b.revealed, b.completed, if b.completed then secrets[id].xpReward else 0)
        && unlocks == if b.completed && (user, id) !in old(unlocks)
                      then old(unlocks)[(user, id) := secrets[id].image] else old(unlocks)
      ensures r.Err? ==>
        r.error == if !(0 <= tile < tileCount) then OutOfRange
                   else if id !in secrets then NotFound
                   else if !secrets[id].active then Inactive
                   else if old(BoardOf(user, id)).completed then AlreadyCompleted
                   else AlreadyRevealed
    {
      if !(0 <= tile < tileCount) {
        return Err(OutOfRange);
      }
      if id !in secrets {
        return Err(NotFound);
      }
      if !secrets[id].active {
        return Err(Inactive);
      }
      var b := BoardOf(user, id);
      if b.completed {
        return Err(AlreadyCompleted);
      }
      for i := 0 to |b.revealed|
        invariant tile !in b.revealed[..i]
      {
        if b.revealed[i] == tile {
          return Err(AlreadyRevealed);
        }
      }
      CoveredIsSound(tileCount);
      RevealKeepsSound(tileCount, b, tile);
      var revealed := b.revealed + [tile];
      var completed := |revealed| >= tileCount;
      progress := progress[(user, id) := Board(revealed, completed)];
      var xp := 0;
      if completed {
        if (user, id) !in unlocks {
          unlocks := unlocks[(user, id) := secrets[id].image];
        }
        xp := secrets[id].xpReward;
      }
      return Ok((revealed, completed, xp));
    }

    /** Replaces a secret's configuration; everyone starts over exactly when the picture changes. */
    method UpdateHiddenSecret(id: Id, s: Secret) returns (found: bool)
      requires Valid()
      modifies this`secrets, this`progress
      ensures Valid() && found == (id in old(secrets))
      ensures !found ==> unchanged(this)
      ensures found ==>
        && secrets == old(secrets)[id := s]
        && progress == if old(secrets)[id].image == s.image then old(progress)
                       else map k | k in old(progress) && k.1 != id :: old(progress)[k]
    {
      if id !in secrets {
        return false;
      }
      var oldImage := secrets[id].image;
      secrets := secrets[id := s];
      if oldImage != s.image {
        progress := map k | k in progress && k.1 != id :: progress[k];
      }
      return true;
    }
  }
}
