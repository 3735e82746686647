/**
 A player's board of a hidden picture while an admin changes the picture. A reveal reads the
 secret in one call to the store and opens the shutter in the transaction of a later one.
 */
module SecretRaces {
  import opened Prelude
  import opened HiddenSecret
  import opened Interleavings

  /** A reveal that has read the secret: the shutter, and the picture it was solved for. */
  datatype Reading = Reading(tile: int, image: Id)

  /**
   The secret, one player's board, the player's gallery entry for it, the reveals in flight, and
   the picture each open shutter was solved for.
   */
  datatype Site = Site(
    image: Id,
    active: bool,
    board: Board,
    gallery: Option<Id>,
    flying: multiset<Reading>,
    solved: seq<Id>)

  datatype Step =
    | Read(tile: int)
    | Land(reading: Reading)
    | Drop(reading: Reading)
    | Update(image: Id, active: bool)

  function Opened(s: Site, r: Reading): Site {
    match Reveal(TILE_COUNT, s.board, r.tile)
    case Err(_) => s
    case Ok(b) =>
      s.(board := b, solved := s.solved + [r.image],
         gallery := if b.completed && s.gallery.None? then Some(r.image) else s.gallery)
  }

  function Next(s: Site, e: Step): Site {
    match e
    case Read(tile) =>
      if 0 <= tile < TILE_COUNT && s.active then s.(flying := s.flying + multiset{Reading(tile, s.image)}) else s
    case Land(r) => if r in s.flying then Opened(s, r).(flying := s.flying - multiset{r}) else s
    case Drop(r) => s.(flying := s.flying - multiset{r})
    case Update(image, active) =>
      if image == s.image then s.(active := active)
      else s.(image := image, active := active, board := COVERED, solved := [])
  }

  /** A reveal that lands acts on the board as it is, with the picture as it was read. */
  lemma LandsExactly(s: Site, r: Reading)
    requires r in s.flying
    ensures var t := Next(s, Land(r));
      && t.image == s.image && t.active == s.active && t.flying == s.flying - multiset{r}
      && if 0 <= r.tile < TILE_COUNT && !s.board.completed && r.tile !in s.board.revealed then
           && t.board.revealed == s.board.revealed + [r.tile] && t.solved == s.solved + [r.image]
           && (s.gallery.Some? || !t.board.completed ==> t.gallery == s.gallery)
           && (s.gallery.None? && t.board.completed ==> t.gallery == Some(r.image))
         else t.board == s.board && t.solved == s.solved && t.gallery == s.gallery
  {
    RevealsExactly(TILE_COUNT, s.board, r.tile);
  }

  /** An update sets picture and flag, and covers the board exactly if the picture is another one. */
  lemma UpdatesExactly(s: Site, image: Id, active: bool)
    ensures var t := Next(s, Update(image, active));
      && t.image == image && t.active == active && t.gallery == s.gallery && t.flying == s.flying
      && (if image == s.image then t.board == s.board && t.solved == s.solved
          else t.board == Board([], false) && t.solved == [])
  {
  }

  // ----- What no interleaving can break ---------------------------------------------------------------

  /** The board is sound, its completion is in the gallery, and reveals in flight are of real shutters. */
  ghost predicate SoundSite(s: Site) {
    && SoundBoard(TILE_COUNT, s.board) && (s.board.completed ==> s.gallery.Some?)
    && |s.solved| == |s.board.revealed|
    && forall r :: r in s.flying ==> 0 <= r.tile < TILE_COUNT
  }

  lemma SoundNext(s: Site, e: Step)
    requires SoundSite(s)
    ensures SoundSite(Next(s, e))
  {
    CoveredIsSound(TILE_COUNT);
    if e.Land? && Reveal(TILE_COUNT, s.board, e.reading.tile).Ok? {
      RevealKeepsSound(TILE_COUNT, s.board, e.reading.tile);
    }
  }

  /** However reveals and changes of the picture interleave, boards stay sound and completed ones are in the gallery. */
  lemma {:induction false} AlwaysSound(s: Site, es: seq<Step>)
    requires SoundSite(s)
    ensures Throughout(Next, s, es, SoundSite)
    decreases |es|
  {
    if es != [] {
      SoundNext(s, es[0]);
      AlwaysSound(Next(s, es[0]), es[1..]);
    }
  }

  // ----- What a change of the picture can break -------------------------------------------------------

  /** Every open shutter was solved for the picture there is. */
  ghost predicate Clean(s: Site) {
    forall i :: 0 <= i < |s.solved| ==> s.solved[i] == s.image
  }

  /** So it is, and will be after any reveal in flight has landed. */
  ghost predicate RevealsFit(s: Site) {
    SoundSite(s) && Clean(s) && forall r :: r in s.flying ==> Clean(Opened(s, r))
  }

  /** The step changes the picture between the read and the transaction of a reveal of another one. */
  ghost predicate CutsReveal(s: Site, e: Step) {
    e.Update? && e.image != s.image && exists r :: r in s.flying && r.image != e.image
  }

  ghost predicate Steady(s: Site) {
    SoundSite(s) && Clean(s) && forall r :: r in s.flying ==> r.image == s.image
  }

  lemma SteadyFits(s: Site)
    requires Steady(s)
    ensures RevealsFit(s)
  {
  }

  /** On a covered board every reveal opens its shutter. */
  lemma FirstOpens(s: Site, r: Reading)
    requires s.board == COVERED && s.solved == [] && 0 <= r.tile < TILE_COUNT
    ensures Opened(s, r).solved == [r.image]
  {
  }

  lemma CutIsUnfit(s: Site, e: Step)
    requires Steady(s) && CutsReveal(s, e)
    ensures !RevealsFit(Next(s, e))
  {
    var r :| r in s.flying && r.image != e.image;
    var t := Next(s, e);
    FirstOpens(t, r);
    assert r in t.flying && Opened(t, r).solved[0] != t.image;
  }

  lemma StepIsSteadyExactly(s: Site, e: Step)
    requires Steady(s)
    ensures if CutsReveal(s, e) then !RevealsFit(Next(s, e)) else Steady(Next(s, e))
  {
    if CutsReveal(s, e) { CutIsUnfit(s, e); } else { SoundNext(s, e); }
  }

  /**
   However reveals and changes of the picture interleave, every open shutter was solved for the
   present picture, and no reveal in flight can change that, exactly if the picture is never
   changed between the read and the transaction of a reveal to one it did not read.
   */
  lemma RevealsFitExactly(s: Site, es: seq<Step>)
    requires Steady(s)
    ensures Never(Next, s, es, CutsReveal) <==> Throughout(Next, s, es, RevealsFit)
  {
    forall t | Steady(t) ensures RevealsFit(t) { SteadyFits(t); }
    forall t, e | Steady(t) ensures if CutsReveal(t, e) then !RevealsFit(Next(t, e)) else Steady(Next(t, e)) {
      StepIsSteadyExactly(t, e);
    }
    GoodExactly(Next, s, es, Steady, RevealsFit, CutsReveal);
  }

  /** A reveal that lands after the picture has changed opens a shutter of a picture it was not solved for. */
  lemma LateReveal(s: Site, tile: int, image: Id)
    requires Steady(s) && s.active && 0 <= tile < TILE_COUNT && image != s.image
    ensures var t := Run(Next, s, [Read(tile), Update(image, true), Land(Reading(tile, s.image))]);
      t.image == image && t.board.revealed == [tile] && t.solved == [s.image]
  {
    RunOfThree(Next, s, Read(tile), Update(image, true), Land(Reading(tile, s.image)));
    var t := Next(Next(s, Read(tile)), Update(image, true));
    assert Reading(tile, s.image) in t.flying && t.board == COVERED;
  }

  /** A reveal that is not interrupted follows the board's rules, and one of an inactive secret is refused. */
  lemma RevealInOneGo(s: Site, tile: int)
    requires Reading(tile, s.image) !in s.flying
    ensures var t := Next(Next(s, Read(tile)), Land(Reading(tile, s.image)));
      && t.flying == s.flying && t.image == s.image && t.active == s.active
      && if s.active && Reveal(TILE_COUNT, s.board, tile).Ok? then
           && t.board == Reveal(TILE_COUNT, s.board, tile).value
           && t.solved == s.solved + [s.image]
           && t.gallery == if t.board.completed && s.gallery.None? then Some(s.image) else s.gallery
         else t == s
  {
    var r := Reading(tile, s.image);
    RevealsExactly(TILE_COUNT, s.board, tile);
    assert s.flying + multiset{r} - multiset{r} == s.flying;
  }

  /** A gallery entry stays as it is through every interleaving. */
  lemma {:induction false} GalleryKept(s: Site, es: seq<Step>)
    requires s.gallery.Some?
    ensures Run(Next, s, es).gallery == s.gallery
    decreases |es|
  {
    if es != [] { GalleryKept(Next(s, es[0]), es[1..]); }
  }
}
