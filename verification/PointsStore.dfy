/** The transactions behind the ledger's steps, over mutable tables (results.go, purchases.go, checkin.go). */
module PointsStore {
  import opened Prelude
  import opened Ledger
  import Results

  datatype Balances = Balances(points: int, bonusStars: int)

  /** Scores that agree with results still do after a transition that adds the pieces it records. */
  lemma ScoresFinished(before: Results.Table, u: User, c: string, status: Status, elapsed: int, correct: int,
                       after: Results.Table, scores: map<User, int>, changed: map<User, int>)
    requires Results.Sound(before) && status != InProgress
    requires Results.Finish(before, u, c, status, elapsed, correct) == (after, true)
    requires changed == Add(scores, u, correct)
    requires forall v :: v in scores ==> scores[v] == Results.Score(before, v)
    ensures Results.Sound(after)
    ensures forall v :: v in changed ==> changed[v] == Results.Score(after, v)
  {
    Results.FinishScores(before, u, c, status, elapsed, correct, u);
    forall v | v in changed ensures changed[v] == Results.Score(after, v) {
      Results.FinishScores(before, u, c, status, elapsed, correct, v);
    }
  }

  class Store {
    var points: map<User, int>
    var bonusStars: map<User, int>
    var score: map<User, int>
    var results: Results.Table
    var purchases: seq<Purchase>
    var checkins: set<(User, int)>

    /** One user table, sound results, scores that agree with them, and no overdrawn balance. */
    ghost predicate Valid()
      reads this
    {
      && points.Keys == bonusStars.Keys == score.Keys
      && (forall u :: u in points ==> points[u] >= 0)
      && Results.Sound(results)
      && (forall u :: u in score ==> score[u] == Results.Score(results, u))
    }

    constructor (users: set<User>)
      ensures Valid() && points.Keys == users
      ensures results == [] && purchases == [] && checkins == {}
      ensures forall u :: u in users ==> points[u] == 0
    {
      points := map u | u in users :: 0;
      bonusStars := map u | u in users :: 0;
      score := map u | u in users :: 0;
      results, purchases, checkins := [], [], {};
    }

    /** An existing result, finished or not, is returned as it is. */
    method StartResult(u: User, c: string) returns (row: Results.Row)
      requires Valid() && u in points
      modifies this`results
      ensures Valid() && results == Results.Start(old(results), u, c)
      ensures row in results && row.user == u && row.challenge == c
    {
      Results.FindFinds(results, u, c);
      forall v ensures Results.Sound(Results.Start(results, u, c))
                    && Results.Score(Results.Start(results, u, c), v) == Results.Score(results, v) {
        Results.StartKeeps(results, u, c, v);
      }
      var found := Results.Find(results, u, c);
      if found.None? {
        results := results + [Results.Row(u, c, InProgress, 0, 0, None)];
        return Last(results);
      }
      return results[found.value];
    }

    /** The status-guarded update and, when it took place, the score that goes with it. */
    method FinishResult(u: User, c: string, status: Status, elapsed: int, correct: int)
      returns (transitioned: bool)
      requires Valid() && u in points && status != InProgress
      modifies this`results, this`score
      ensures Valid()
      ensures (results, transitioned) == Results.Finish(old(results), u, c, status, elapsed, correct)
      ensures transitioned <==>
        exists i :: 0 <= i < |old(results)|
          && Results.IsOf(old(results)[i], u, c) && old(results)[i].status == InProgress
      ensures |results| == |old(results)|
      ensures forall i :: 0 <= i < |results| ==>
        var was := old(results)[i];
        if Results.IsOf(was, u, c) && was.status == InProgress then
          var time := if status == Completed then elapsed else was.elapsed;
          results[i] == Results.Row(u, c, status, time, correct, was.quiz)
        else results[i] == was
      ensures score == if transitioned then old(score)[u := old(score)[u] + correct] else old(score)
    {
      Results.FinishesExactly(results, u, c, status, elapsed, correct);
      ghost var before := results;
      Results.FindFinds(results, u, c);
      var found := Results.Find(results, u, c);
      if found.None? || results[found.value].status != InProgress {
        return false;
      }
      results := results[found.value := Results.FinishedRow(results[found.value], status, elapsed, correct)];
      if correct != 0 {
        score := score[u := score[u] + correct];
      }
      ScoresFinished(before, u, c, status, elapsed, correct, results, old(score), score);
      return true;
    }

    /** Records the first answer to a completed challenge's quiz; a right one pays a point with it. */
    method AnswerChallengeQuiz(u: User, c: string, answer: int, correct: bool)
      returns (granted: bool, stored: Option<Option<int>>)
      requires Valid() && u in points
      modifies this`results, this`points
      ensures Valid()
      ensures results == Results.Answer(old(results), u, c, answer).0
      ensures granted <==> correct && Results.Answer(old(results), u, c, answer).1
      ensures points == if granted then Add(old(points), u, 1) else old(points)
      ensures stored.None? <==> forall i :: 0 <= i < |results| ==> results[i].user != u || results[i].challenge != c
      ensures stored.Some? ==>
        exists i :: 0 <= i < |results|
          && results[i].user == u && results[i].challenge == c && results[i].quiz == stored.value
    {
      ghost var before := results;
      Results.FindFinds(results, u, c);
      var found := Results.Find(results, u, c);
      if found.None? {
        return false, None;
      }
      var i := found.value;
      var recorded := results[i].status == Completed && results[i].quiz == None;
      if recorded {
        results := results[i := results[i].(quiz := Some(answer))];
        if correct {
          points := points[u := points[u] + 1];
        }
      }
      forall v ensures Results.Sound(results) && Results.Score(results, v) == Results.Score(before, v) {
        Results.AnswerKeeps(before, u, c, answer, v);
      }
      return recorded && correct, Some(results[i].quiz);
    }

    /** Whether the platform's transaction is in the table. */
    method OnRecord(platform: string, tx: string) returns (replay: bool)
      ensures replay <==> Recorded(purchases, platform, tx)
    {
      replay := false;
      for i := 0 to |purchases|
        invariant replay <==> Recorded(purchases[..i], platform, tx)
      {
        assert purchases[..i + 1] == purchases[..i] + [purchases[i]];
        if purchases[i].platform == platform && purchases[i].tx == tx {
          assert purchases[..i + 1][i] == purchases[i];
          replay := true;
        } else if replay {
          var k :| 0 <= k < i && purchases[k].platform == platform && purchases[k].tx == tx;
          assert purchases[..i + 1][k] == purchases[k];
        }
      }
      assert purchases[..|purchases|] == purchases;
    }

    /** Credits a verified store transaction the first time it is seen, whoever presents it. */
    method CreditPurchase(u: User, product: string, platform: string, tx: string, pts: nat, stars: nat)
      returns (balances: Balances, credited: bool)
      requires Valid() && u in points
      modifies this`purchases, this`points, this`bonusStars
      ensures Valid()
      ensures credited <==> !Recorded(old(purchases), platform, tx)
      ensures credited ==>
        && purchases == old(purchases) + [Purchase(u, product, platform, tx, pts, stars)]
        && points == Add(old(points), u, pts)
        && bonusStars == Add(old(bonusStars), u, stars)
      ensures !credited ==> unchanged(this)
      ensures balances == Balances(points[u], bonusStars[u])
    {
      var replay := OnRecord(platform, tx);
      if replay {
        return Balances(points[u], bonusStars[u]), false;
      }
      purchases := purchases + [Purchase(u, product, platform, tx, pts, stars)];
      points := points[u := points[u] + pts];
      bonusStars := bonusStars[u := bonusStars[u] + stars];
      return Balances(points[u], bonusStars[u]), true;
    }

    /** The insert of a check-in; the point for a new one is a separate statement. */
    method RecordCheckIn(u: User, day: int) returns (isNew: bool)
      requires Valid() && u in points
      modifies this`checkins
      ensures Valid() && isNew == ((u, day) !in old(checkins))
      ensures checkins == old(checkins) + {(u, day)}
    {
      isNew := (u, day) !in checkins;
      checkins := checkins + {(u, day)};
    }

    method AddUnlockPoints(u: User, amount: int) returns (balance: int)
      requires Valid() && u in points
      modifies this`points
      ensures Valid() && balance == points[u]
      ensures points == Add(old(points), u, if amount > 0 then amount else 0)
    {
      if amount > 0 {
        points := points[u := points[u] + amount];
      }
      return points[u];
    }

    /** Takes points only from a balance that covers them. */
    method SpendUnlockPoints(u: User, amount: int) returns (balance: int, ok: bool)
      requires Valid() && u in points
      modifies this`points
      ensures Valid()
      ensures ok <==> amount <= 0 || old(points)[u] >= amount
      ensures points == if ok && amount > 0 then Add(old(points), u, -amount) else old(points)
      ensures ok ==> balance == points[u]
    {
      if amount <= 0 {
        return points[u], true;
      }
      if points[u] < amount {
        return 0, false;
      }
      points := points[u := points[u] - amount];
      return points[u], true;
    }
  }
}
