/** What each event of the ledger does when it can, and that it does nothing when it cannot. */
module LedgerEvents {
  import opened Prelude
  import opened Ledger
  import Results
  import HiddenSecret

  /** A result of the user for the challenge in the given status. */
  ghost predicate HasRow(t: Results.Table, u: User, c: string, status: Status) {
    exists i :: 0 <= i < |t| && Results.IsOf(t[i], u, c) && t[i].status == status
  }

  /** The balances of all users but one are as before. */
  ghost predicate OthersKeep(m: map<User, int>, n: map<User, int>, u: User) {
    n.Keys == m.Keys && forall v :: v in m && v != u ==> n[v] == m[v]
  }

  // ----- Challenges ---------------------------------------------------------------------------------

  /** What is credited never exceeds the grid, and is what was claimed when that is a real count. */
  lemma CreditWithinGrid(pieces: nat, claimed: int)
    ensures var credited := CreditedPieces(pieces, claimed);
      && 0 <= credited <= pieces
      && (1 <= claimed <= pieces ==> credited == claimed)
      && (claimed < 1 || claimed > pieces ==> credited == pieces)
  {
  }

  /** Completing a challenge in progress records it, scores its pieces and owes its point. */
  lemma CompletesChallenge(s: State, u: User, c: string, elapsed: int, claimed: int, pieces: nat)
    requires Results.KeysUnique(s.db.results) && HasRow(s.db.results, u, c, InProgress)
    ensures var t := Next(s, CompleteChallenge(u, c, elapsed, claimed, pieces));
      && Results.IsCompleted(t.db.results, u, c)
      && t.pending == s.pending + multiset{ForChallenge(u, c)}
      && OthersKeep(s.db.score, t.db.score, u)
      && (u in s.db.score ==> t.db.score[u] == s.db.score[u] + CreditedPieces(pieces, claimed))
      && t.db.points == s.db.points && t.lost == s.lost && t.paid == s.paid
      && exists i :: 0 <= i < |t.db.results| && Results.IsOf(t.db.results[i], u, c)
           && t.db.results[i].elapsed == elapsed && t.db.results[i].correct == CreditedPieces(pieces, claimed)
  {
    var correct := CreditedPieces(pieces, claimed);
    Results.FinishesExactly(s.db.results, u, c, Completed, elapsed, correct);
    var i :| 0 <= i < |s.db.results| && Results.IsOf(s.db.results[i], u, c) && s.db.results[i].status == InProgress;
    var after := Results.Finish(s.db.results, u, c, Completed, elapsed, correct).0;
    assert Results.IsOf(after[i], u, c) && after[i].status == Completed;
  }

  /** Failing one in progress records it and scores the pieces claimed, and owes nothing. */
  lemma FailsChallenge(s: State, u: User, c: string, claimed: int)
    requires Results.KeysUnique(s.db.results) && HasRow(s.db.results, u, c, InProgress)
    ensures var t := Next(s, FailChallenge(u, c, claimed));
      && HasRow(t.db.results, u, c, Failed)
      && t.pending == s.pending && t.db.points == s.db.points
      && OthersKeep(s.db.score, t.db.score, u)
      && (u in s.db.score ==> t.db.score[u] == s.db.score[u] + if claimed > 0 then claimed else 0)
  {
    var correct := if claimed < 0 then 0 else claimed;
    Results.FinishesExactly(s.db.results, u, c, Failed, 0, correct);
    var i :| 0 <= i < |s.db.results| && Results.IsOf(s.db.results[i], u, c) && s.db.results[i].status == InProgress;
    var after := Results.Finish(s.db.results, u, c, Failed, 0, correct).0;
    assert Results.IsOf(after[i], u, c) && after[i].status == Failed;
  }

  /** One that is not in progress is neither completed nor failed. */
  lemma NothingToFinish(s: State, u: User, c: string, elapsed: int, claimed: int, pieces: nat)
    requires Results.KeysUnique(s.db.results) && !HasRow(s.db.results, u, c, InProgress)
    ensures Next(s, CompleteChallenge(u, c, elapsed, claimed, pieces)) == s
    ensures Next(s, FailChallenge(u, c, claimed)) == s
  {
    Results.FinishesExactly(s.db.results, u, c, Completed, elapsed, CreditedPieces(pieces, claimed));
    Results.FinishesExactly(s.db.results, u, c, Failed, 0, if claimed < 0 then 0 else claimed);
  }

  /** A start leaves the user with a result for the challenge, in progress if it is new. */
  lemma StartsChallenge(s: State, u: User, c: string)
    ensures var t := Next(s, StartChallenge(u, c));
      && t == s.(db := s.db.(results := t.db.results))
      && if exists i :: 0 <= i < |s.db.results| && Results.IsOf(s.db.results[i], u, c) then t == s
         else t.db.results == s.db.results + [Results.Row(u, c, InProgress, 0, 0, None)]
  {
    Results.StartsExactly(s.db.results, u, c);
  }

  /** The first answer to a completed challenge is recorded; a right one is worth a point at once. */
  lemma AnswersChallenge(s: State, u: User, c: string, answer: int, right: int)
    requires Results.KeysUnique(s.db.results)
    requires exists i :: 0 <= i < |s.db.results| && Results.IsOf(s.db.results[i], u, c)
               && s.db.results[i].status == Completed && s.db.results[i].quiz == None
    ensures var t := Next(s, AnswerQuiz(u, c, answer, right));
      && Results.HasAnswered(t.db.results, u, c, answer)
      && (u, c) in t.verdicts && (t.verdicts[(u, c)] <==> answer == right)
      && OthersKeep(s.db.points, t.db.points, u)
      && (u in s.db.points ==> t.db.points[u] == s.db.points[u] + if answer == right then 1 else 0)
      && t.pending == s.pending && t.db.score == s.db.score
  {
    Results.AnswersExactly(s.db.results, u, c, answer);
    var i :| 0 <= i < |s.db.results| && Results.IsOf(s.db.results[i], u, c)
      && s.db.results[i].status == Completed && s.db.results[i].quiz == None;
    var after := Results.Answer(s.db.results, u, c, answer).0;
    assert after[i].user == u && after[i].challenge == c && after[i].quiz == Some(answer);
  }

  // ----- Purchases ----------------------------------------------------------------------------------

  /** What the listed products are worth, in points and in stars. */
  function Worth(product: string): (int, int) {
    match product
    case "unlock_points_20" => (20, 0)
    case "unlock_points_50" => (50, 0)
    case "expedition_stars_50" => (0, 50)
    case _ => (0, 0)
  }

  predicate Listed(product: string) {
    product in {"unlock_points_20", "unlock_points_50", "expedition_stars_50"}
  }

  /** A new transaction for a listed product is recorded and credited; nothing else is. */
  lemma BuysExactly(s: State, u: User, product: string, platform: string, tx: string)
    ensures var t := Next(s, Buy(u, product, platform, tx));
      if Listed(product) && !(exists p :: p in s.db.purchases && p.platform == platform && p.tx == tx) then
        && |t.db.purchases| == |s.db.purchases| + 1 && s.db.purchases <= t.db.purchases
        && Last(t.db.purchases).user == u && Last(t.db.purchases).product == product
        && Last(t.db.purchases).platform == platform && Last(t.db.purchases).tx == tx
        && OthersKeep(s.db.points, t.db.points, u) && OthersKeep(s.db.bonusStars, t.db.bonusStars, u)
        && (u in s.db.points ==> t.db.points[u] == s.db.points[u] + Worth(product).0)
        && (u in s.db.bonusStars ==> t.db.bonusStars[u] == s.db.bonusStars[u] + Worth(product).1)
      else t == s
  {
    if Recorded(s.db.purchases, platform, tx) {
      var i :| 0 <= i < |s.db.purchases| && s.db.purchases[i].platform == platform && s.db.purchases[i].tx == tx;
      assert s.db.purchases[i] in s.db.purchases;
    }
  }

  // ----- Check-ins, reveals, spending -----------------------------------------------------------------

  /** A check-in on a new day is recorded and owes a point; on a recorded one it does nothing. */
  lemma ChecksInExactly(s: State, u: User, day: int)
    ensures var t := Next(s, CheckIn(u, day));
      if (u, day) in s.db.checkins then t == s
      else t.db.checkins == s.db.checkins + {(u, day)} && t.pending == s.pending + multiset{ForCheckIn(u, day)}
           && t.db.points == s.db.points
  {
  }

  /** A reveal opens a closed shutter of an uncompleted board; opening the last of the nine owes the reward. */
  lemma RevealsExactly(s: State, u: User, secret: string, tile: int)
    ensures var (b, t) := (BoardOf(s, u, secret), Next(s, RevealTile(u, secret, tile)));
      if 0 <= tile < 9 && !b.completed && tile !in b.revealed then
        && BoardOf(t, u, secret).revealed == b.revealed + [tile]
        && (BoardOf(t, u, secret).completed <==> |b.revealed| >= 8)
        && t.pending == s.pending + (if |b.revealed| >= 8
                                     then multiset{ForSecret(u, secret, Closings(s, u, secret) + 1)} else multiset{})
        && forall k :: k in s.db.boards && k != (u, secret) ==> k in t.db.boards && t.db.boards[k] == s.db.boards[k]
      else t == s
  {
  }

  /** Changing a picture covers everyone's board of it again and leaves the others alone. */
  lemma ChangesPictureExactly(s: State, secret: string, u: User, other: string)
    ensures var t := Next(s, ChangePicture(secret));
      && BoardOf(t, u, secret) == HiddenSecret.Board([], false)
      && (other != secret ==> BoardOf(t, u, other) == BoardOf(s, u, other))
      && t.pending == s.pending && t.closings == s.closings && t.db.points == s.db.points
  {
  }

  /** Spending takes the amount, or one point if none is named, from a balance that covers it, and else nothing. */
  lemma SpendsExactly(s: State, u: User, requested: int)
    ensures var (amount, t) := (if requested >= 1 then requested else 1, Next(s, Spend(u, requested)));
      if u in s.db.points && s.db.points[u] >= amount then
        OthersKeep(s.db.points, t.db.points, u) && t.db.points[u] == s.db.points[u] - amount
        && t.pending == s.pending
      else t == s
    ensures Next(s, DungeonMove(u)) == Next(s, Spend(u, 1))
  {
  }

  // ----- Payments -------------------------------------------------------------------------------------

  /** Paying a grant in flight adds its worth: five points for a picture, else one. */
  lemma PaysExactly(s: State, g: Grant)
    ensures var t := Next(s, Pay(g));
      if g in s.pending then
        && t.pending == s.pending - multiset{g} && t.lost == s.lost && t.paid == s.paid + [g]
        && OthersKeep(s.db.points, t.db.points, g.user)
        && (g.user in s.db.points ==> t.db.points[g.user] == s.db.points[g.user] + if g.ForSecret? then 5 else 1)
      else t == s
  {
  }

  /** A crash moves a grant from those in flight to those lost. */
  lemma CrashesExactly(s: State, g: Grant)
    ensures var t := Next(s, Crash(g));
      if g in s.pending then
        t == s.(pending := s.pending - multiset{g}, lost := s.lost + multiset{g})
      else t == s
  {
  }
}
