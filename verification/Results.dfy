/** Challenge results and the denormalised leaderboard score (internal/repository/results.go). */
module Results {
  import opened Prelude

  type Challenge = string

  /** One row of challenge_results. */
  datatype Row = Row(user: User, challenge: Challenge, status: Status, elapsed: int, correct: int, quiz: Option<int>)

  type Table = seq<Row>

  /** UNIQUE (user_id, challenge_id). */
  ghost predicate KeysUnique(t: Table) {
    forall i, j :: 0 <= i < j < |t| ==> t[i].user != t[j].user || t[i].challenge != t[j].challenge
  }

  /** The row of a user and challenge, if any. */
  function Find(t: Table, u: User, c: Challenge): Option<nat> {
    if t == [] then None
    else if Last(t).user == u && Last(t).challenge == c then Some(|t| - 1)
    else Find(Init(t), u, c)
  }

  lemma {:induction false} FindFinds(t: Table, u: User, c: Challenge)
    ensures match Find(t, u, c)
            case Some(i) => i < |t| && t[i].user == u && t[i].challenge == c
            case None => forall i :: 0 <= i < |t| ==> t[i].user != u || t[i].challenge != c
  {
    if t != [] { FindFinds(Init(t), u, c); }
  }

  /** Inserts a row in progress unless the user already has one for the challenge. */
  function Start(t: Table, u: User, c: Challenge): Table {
    if Find(t, u, c).Some? then t else t + [Row(u, c, InProgress, 0, 0, None)]
  }

  /** The row a transition to a final status writes; only completing records a time. */
  function FinishedRow(r: Row, status: Status, elapsed: int, correct: int): Row {
    r.(status := status, correct := correct, elapsed := if status == Completed then elapsed else r.elapsed)
  }

  /** The guarded transition to a final status; says whether it took place. */
  function Finish(t: Table, u: User, c: Challenge, status: Status, elapsed: int, correct: int): (Table, bool) {
    FindFinds(t, u, c);
    match Find(t, u, c)
    case Some(i) =>
      if t[i].status == InProgress
      then (t[i := FinishedRow(t[i], status, elapsed, correct)], true)
      else (t, false)
    case None => (t, false)
  }

  /** The guarded recording of a quiz answer; says whether it took place. */
  function Answer(t: Table, u: User, c: Challenge, answer: int): (Table, bool) {
    FindFinds(t, u, c);
    match Find(t, u, c)
    case Some(i) =>
      if t[i].status == Completed && t[i].quiz == None
      then (t[i := t[i].(quiz := Some(answer))], true)
      else (t, false)
    case None => (t, false)
  }

  /** Row i is the user's for the challenge. */
  predicate IsOf(r: Row, u: User, c: Challenge) {
    r.user == u && r.challenge == c
  }

  lemma FoundIsOnly(t: Table, u: User, c: Challenge, i: nat)
    requires KeysUnique(t) && i < |t| && IsOf(t[i], u, c)
    ensures Find(t, u, c) == Some(i)
  {
    FindFinds(t, u, c);
  }

  /** Starting adds a row in progress for the user, unless there is one, and changes none. */
  lemma StartsExactly(t: Table, u: User, c: Challenge)
    ensures var after := Start(t, u, c);
      if exists i :: 0 <= i < |t| && IsOf(t[i], u, c) then after == t
      else after == t + [Row(u, c, InProgress, 0, 0, None)]
  {
    FindFinds(t, u, c);
  }

  /** A challenge in progress, and no other, can be finished; only its row changes. */
  lemma FinishesExactly(t: Table, u: User, c: Challenge, status: Status, elapsed: int, correct: int)
    requires KeysUnique(t)
    ensures var (after, transitioned) := Finish(t, u, c, status, elapsed, correct);
      && (transitioned <==> exists i :: 0 <= i < |t| && IsOf(t[i], u, c) && t[i].status == InProgress)
      && |after| == |t|
      && forall i :: 0 <= i < |t| ==>
           if IsOf(t[i], u, c) && t[i].status == InProgress then
             && IsOf(after[i], u, c) && after[i].status == status && after[i].correct == correct
             && after[i].elapsed == (if status == Completed then elapsed else t[i].elapsed)
             && after[i].quiz == t[i].quiz
           else after[i] == t[i]
  {
    FindFinds(t, u, c);
    forall i | 0 <= i < |t| && IsOf(t[i], u, c) ensures Find(t, u, c) == Some(i) {
      FoundIsOnly(t, u, c, i);
    }
  }

  /** A completed challenge without an answer, and no other, takes one; only its row changes. */
  lemma AnswersExactly(t: Table, u: User, c: Challenge, answer: int)
    requires KeysUnique(t)
    ensures var (after, recorded) := Answer(t, u, c, answer);
      && (recorded <==>
            exists i :: 0 <= i < |t| && IsOf(t[i], u, c) && t[i].status == Completed && t[i].quiz == None)
      && |after| == |t|
      && forall i :: 0 <= i < |t| ==>
           if IsOf(t[i], u, c) && t[i].status == Completed && t[i].quiz == None then
             after[i] == t[i].(quiz := Some(answer))
           else after[i] == t[i]
  {
    FindFinds(t, u, c);
    forall i | 0 <= i < |t| && IsOf(t[i], u, c) ensures Find(t, u, c) == Some(i) {
      FoundIsOnly(t, u, c, i);
    }
  }

  /** Adding up something of each row. */
  function Sum(t: Table, weight: Row -> int): int {
    if t == [] then 0 else Sum(Init(t), weight) + weight(Last(t))
  }

  lemma {:induction false} SumAfterUpdate(t: Table, i: nat, row: Row, weight: Row -> int)
    requires i < |t|
    ensures Sum(t[i := row], weight) == Sum(t, weight) + weight(row) - weight(t[i])
  {
    if i == |t| - 1 {
      assert Init(t[i := row]) == Init(t);
    } else {
      assert Init(t[i := row]) == Init(t)[i := row];
      SumAfterUpdate(Init(t), i, row, weight);
    }
  }

  function PiecesBy(u: User): Row -> int {
    (r: Row) => if r.user == u then r.correct else 0
  }

  /** SUM(correct_pieces) over a user's results. */
  function Score(t: Table, u: User): int {
    Sum(t, PiecesBy(u))
  }

  /** Unfinished rows have not scored, and only completed ones have a quiz answer. */
  ghost predicate RowsSound(t: Table) {
    forall i :: 0 <= i < |t| ==>
      (t[i].status == InProgress ==> t[i].correct == 0) && (t[i].quiz.Some? ==> t[i].status == Completed)
  }

  ghost predicate Sound(t: Table) {
    KeysUnique(t) && RowsSound(t)
  }

  lemma StartKeeps(t: Table, u: User, c: Challenge, v: User)
    requires Sound(t)
    ensures Sound(Start(t, u, c)) && Score(Start(t, u, c), v) == Score(t, v)
  {
    FindFinds(t, u, c);
    StartMoves(t, u, c, PiecesBy(v));
  }

  /** The amount a transition must add to the running total is exactly the pieces it records. */
  lemma FinishScores(t: Table, u: User, c: Challenge, status: Status, elapsed: int, correct: int, v: User)
    requires Sound(t) && status != InProgress
    ensures var (after, transitioned) := Finish(t, u, c, status, elapsed, correct);
      && Sound(after)
      && Score(after, v) == Score(t, v) + if transitioned && v == u then correct else 0
  {
    FindFinds(t, u, c);
    var found := Find(t, u, c);
    if found.Some? && t[found.value].status == InProgress {
      SumAfterUpdate(t, found.value, FinishedRow(t[found.value], status, elapsed, correct), PiecesBy(v));
    }
  }

  lemma AnswerKeeps(t: Table, u: User, c: Challenge, answer: int, v: User)
    requires Sound(t)
    ensures Sound(Answer(t, u, c, answer).0) && Score(Answer(t, u, c, answer).0, v) == Score(t, v)
  {
    FindFinds(t, u, c);
    var found := Find(t, u, c);
    if found.Some? {
      SumAfterUpdate(t, found.value, t[found.value].(quiz := Some(answer)), PiecesBy(v));
    }
  }

  lemma StartMoves(t: Table, u: User, c: Challenge, weight: Row -> int)
    requires weight(Row(u, c, InProgress, 0, 0, None)) == 0
    ensures Sum(Start(t, u, c), weight) == Sum(t, weight)
  {
    if Find(t, u, c).None? { assert Init(Start(t, u, c)) == t; }
  }

  /** A transition moves a sum by what it does to one row in progress. */
  lemma FinishMoves(t: Table, u: User, c: Challenge, status: Status, elapsed: int, correct: int, weight: Row -> int)
    returns (r: Row)
    requires RowsSound(t) && Finish(t, u, c, status, elapsed, correct).1
    ensures r.user == u && r.challenge == c && r.status == InProgress && r.quiz == None
    ensures Sum(Finish(t, u, c, status, elapsed, correct).0, weight)
         == Sum(t, weight) + weight(FinishedRow(r, status, elapsed, correct)) - weight(r)
  {
    FindFinds(t, u, c);
    var i := Find(t, u, c).value;
    r := t[i];
    SumAfterUpdate(t, i, FinishedRow(r, status, elapsed, correct), weight);
  }

  lemma AnswerMoves(t: Table, u: User, c: Challenge, answer: int, weight: Row -> int) returns (r: Row)
    requires Answer(t, u, c, answer).1
    ensures r.user == u && r.challenge == c && r.status == Completed && r.quiz == None
    ensures Sum(Answer(t, u, c, answer).0, weight) == Sum(t, weight) + weight(r.(quiz := Some(answer))) - weight(r)
  {
    FindFinds(t, u, c);
    var i := Find(t, u, c).value;
    r := t[i];
    SumAfterUpdate(t, i, r.(quiz := Some(answer)), weight);
  }

  /** The status, time and pieces of a finished result never change again. */
  ghost predicate FinishedRowsKept(before: Table, after: Table) {
    && |before| <= |after|
    && forall i :: 0 <= i < |before| ==>
         && after[i].user == before[i].user && after[i].challenge == before[i].challenge
         && (before[i].status != InProgress ==> after[i].(quiz := None) == before[i].(quiz := None))
         && (before[i].quiz.Some? ==> after[i] == before[i])
  }

  lemma FinishedNeverChanges(t: Table, u: User, c: Challenge, status: Status, elapsed: int, correct: int, answer: int)
    requires RowsSound(t)
    ensures FinishedRowsKept(t, Start(t, u, c))
    ensures FinishedRowsKept(t, Finish(t, u, c, status, elapsed, correct).0)
    ensures FinishedRowsKept(t, Answer(t, u, c, answer).0)
  {
    FindFinds(t, u, c);
  }

  ghost predicate IsCompleted(t: Table, u: User, c: Challenge) {
    exists i :: 0 <= i < |t| && t[i].user == u && t[i].challenge == c && t[i].status == Completed
  }

  ghost predicate HasAnswered(t: Table, u: User, c: Challenge, answer: int) {
    exists i :: 0 <= i < |t| && t[i].user == u && t[i].challenge == c && t[i].quiz == Some(answer)
  }

  lemma StartCompletes(t: Table, u: User, c: Challenge, v: User, d: Challenge, answer: int)
    ensures IsCompleted(Start(t, u, c), v, d) <==> IsCompleted(t, v, d)
    ensures HasAnswered(Start(t, u, c), v, d, answer) <==> HasAnswered(t, v, d, answer)
  {
    var s := Start(t, u, c);
    if IsCompleted(t, v, d) {
      var i :| 0 <= i < |t| && t[i].user == v && t[i].challenge == d && t[i].status == Completed;
      assert s[i] == t[i];
    }
    if HasAnswered(t, v, d, answer) {
      var i :| 0 <= i < |t| && t[i].user == v && t[i].challenge == d && t[i].quiz == Some(answer);
      assert s[i] == t[i];
    }
  }

  lemma FinishCompletes(t: Table, u: User, c: Challenge, status: Status, elapsed: int, correct: int,
                        v: User, d: Challenge)
    requires KeysUnique(t) && RowsSound(t) && status != InProgress
    ensures var (after, transitioned) := Finish(t, u, c, status, elapsed, correct);
      && (transitioned ==> !IsCompleted(t, u, c))
      && (IsCompleted(after, v, d) <==>
            IsCompleted(t, v, d) || (transitioned && status == Completed && v == u && d == c))
  {
    FindFinds(t, u, c);
    var (after, transitioned) := Finish(t, u, c, status, elapsed, correct);
    if IsCompleted(t, v, d) {
      var i :| 0 <= i < |t| && t[i].user == v && t[i].challenge == d && t[i].status == Completed;
      assert after[i] == t[i];
    }
    if transitioned && status == Completed {
      assert after[Find(t, u, c).value].status == Completed;
    }
  }

  lemma FinishAnswers(t: Table, u: User, c: Challenge, status: Status, elapsed: int, correct: int,
                      v: User, d: Challenge, a: int)
    requires RowsSound(t)
    ensures HasAnswered(Finish(t, u, c, status, elapsed, correct).0, v, d, a) <==> HasAnswered(t, v, d, a)
  {
    FindFinds(t, u, c);
    var after := Finish(t, u, c, status, elapsed, correct).0;
    assert forall i :: 0 <= i < |t| ==>
      after[i].user == t[i].user && after[i].challenge == t[i].challenge && after[i].quiz == t[i].quiz;
    if HasAnswered(t, v, d, a) {
      var i :| 0 <= i < |t| && t[i].user == v && t[i].challenge == d && t[i].quiz == Some(a);
      assert after[i].quiz == Some(a);
    }
  }

  lemma AnswerRecords(t: Table, u: User, c: Challenge, answer: int, v: User, d: Challenge, a: int)
    requires KeysUnique(t)
    ensures var (after, recorded) := Answer(t, u, c, answer);
      && (IsCompleted(after, v, d) <==> IsCompleted(t, v, d))
      && (recorded ==> !HasAnswered(t, u, c, a))
      && (HasAnswered(after, v, d, a) <==>
            HasAnswered(t, v, d, a) || (recorded && v == u && d == c && a == answer))
  {
    FindFinds(t, u, c);
    var (after, recorded) := Answer(t, u, c, answer);
    if IsCompleted(t, v, d) {
      var i :| 0 <= i < |t| && t[i].user == v && t[i].challenge == d && t[i].status == Completed;
      assert after[i].status == Completed;
    }
    if HasAnswered(t, v, d, a) {
      var i :| 0 <= i < |t| && t[i].user == v && t[i].challenge == d && t[i].quiz == Some(a);
      assert after[i] == t[i];
    }
    if recorded {
      assert after[Find(t, u, c).value].quiz == Some(answer);
    }
  }
}
