/** What every interleaving of requests, payments and crashes keeps of scores, grants and purchases. */
module LedgerRuns {
  import opened Prelude
  import opened Ledger
  import Results
  import HiddenSecret

  /** A database in which nothing has happened yet, whatever challenges there are. */
  ghost predicate Opening(db: DB) {
    && db.results == [] && db.purchases == [] && db.checkins == {} && db.boards == map[]
    && db.bonusStars.Keys == db.points.Keys == db.score.Keys
    && forall u :: u in db.points ==> db.points[u] >= 0 && db.score[u] == 0
  }

  function Initial(db: DB): State {
    State(db, multiset{}, multiset{}, [], map[], [], [])
  }

  function Run(s: State, es: seq<Event>): State {
    if es == [] then s else Next(Run(s, Init(es)), Last(es))
  }

  /** Events of a challenge result, which change its row. */
  predicate OnResults(e: Event) {
    e.StartChallenge? || e.CompleteChallenge? || e.FailChallenge? || e.AnswerQuiz?
  }

  /** The two states agree on the challenges, their results, scores and verdicts. */
  ghost predicate SameRows(s: State, t: State) {
    && t.db.challenges == s.db.challenges && t.db.results == s.db.results
    && t.db.score == s.db.score && t.verdicts == s.verdicts
  }

  lemma RevealLeavesRows(s: State, u: User, secret: string, tile: int)
    ensures SameRows(s, RevealStep(s, u, secret, tile))
  {
  }

  lemma GrantsLeaveRows(s: State, g: Grant)
    ensures SameRows(s, PayStep(s, g)) && SameRows(s, CrashStep(s, g))
  {
  }

  lemma CheckInLeavesRows(s: State, u: User, day: int)
    ensures SameRows(s, CheckInStep(s, u, day))
  {
  }

  lemma MoneyLeavesRows(s: State, u: User, product: string, platform: string, tx: string, amount: int)
    ensures SameRows(s, BuyStep(s, u, product, platform, tx)) && SameRows(s, SpendStep(s, u, amount))
  {
  }

  /** Events beside those on challenges and their results leave all of them alone. */
  lemma RowsStay(s: State, e: Event)
    requires !OnResults(e) && !e.EditChallenge?
    ensures SameRows(s, Next(s, e))
  {
    match e
    case RevealTile(u, secret, tile) => RevealLeavesRows(s, u, secret, tile);
    case Pay(g) => GrantsLeaveRows(s, g);
    case Crash(g) => GrantsLeaveRows(s, g);
    case CheckIn(u, day) => CheckInLeavesRows(s, u, day);
    case Buy(u, product, platform, tx) => MoneyLeavesRows(s, u, product, platform, tx, 0);
    case Spend(u, amount) => MoneyLeavesRows(s, u, "", "", "", amount);
    case DungeonMove(u) => MoneyLeavesRows(s, u, "", "", "", 1);
    case ChangePicture(_) =>
  }

  // ----- Scores -------------------------------------------------------------------------------

  /** A finishing step that adds the recorded pieces to the score keeps the two in agreement. */
  lemma ScoredFinish(s: State, u: User, c: string, status: Status, elapsed: int, correct: int, t: State)
    requires Scored(s) && status != InProgress
    requires var (rows, transitioned) := Results.Finish(s.db.results, u, c, status, elapsed, correct);
      t.db.results == rows && t.db.score == if transitioned then Add(s.db.score, u, correct) else s.db.score
    ensures Scored(t)
  {
    Results.FinishScores(s.db.results, u, c, status, elapsed, correct, u);
    forall v ensures Results.Score(t.db.results, v) == Results.Score(s.db.results, v) +
                     if Results.Finish(s.db.results, u, c, status, elapsed, correct).1 && v == u then correct else 0 {
      Results.FinishScores(s.db.results, u, c, status, elapsed, correct, v);
    }
  }

  lemma ScoredStart(s: State, u: User, c: string)
    requires Scored(s)
    ensures Scored(StartStep(s, u, c))
  {
    Results.StartKeeps(s.db.results, u, c, u);
    forall v ensures Results.Score(Results.Start(s.db.results, u, c), v) == Results.Score(s.db.results, v) {
      Results.StartKeeps(s.db.results, u, c, v);
    }
  }

  lemma ScoredAnswer(s: State, u: User, c: string, answer: int, right: int)
    requires Scored(s)
    ensures Scored(AnswerStep(s, u, c, answer, right))
  {
    Results.AnswerKeeps(s.db.results, u, c, answer, u);
    forall v ensures Results.Score(Results.Answer(s.db.results, u, c, answer).0, v) == Results.Score(s.db.results, v) {
      Results.AnswerKeeps(s.db.results, u, c, answer, v);
    }
  }

  lemma ScoredComplete(s: State, u: User, c: string, elapsed: int, claimed: int, pieces: nat)
    requires Scored(s)
    ensures Scored(CompleteStep(s, u, c, elapsed, claimed, pieces))
  {
    var t := CompleteStep(s, u, c, elapsed, claimed, pieces);
    ScoredFinish(s, u, c, Completed, elapsed, CreditedPieces(pieces, claimed), t);
  }

  lemma ScoredFail(s: State, u: User, c: string, claimed: int)
    requires Scored(s)
    ensures Scored(FailStep(s, u, c, claimed))
  {
    ScoredFinish(s, u, c, Failed, 0, if claimed < 0 then 0 else claimed, FailStep(s, u, c, claimed));
  }

  lemma ScoredNext(s: State, e: Event)
    requires Scored(s)
    ensures Scored(Next(s, e))
  {
    match e
    case StartChallenge(u, c) => ScoredStart(s, u, c);
    case CompleteChallenge(u, c, elapsed, claimed, pieces) => ScoredComplete(s, u, c, elapsed, claimed, pieces);
    case FailChallenge(u, c, claimed) => ScoredFail(s, u, c, claimed);
    case AnswerQuiz(u, c, answer, right) => ScoredAnswer(s, u, c, answer, right);
    case EditChallenge(_, _) =>
    case _ => RowsStay(s, e);
  }

  /** In every reachable state the stored score is the sum of the pieces of the user's results. */
  lemma {:induction false} AlwaysScored(db: DB, es: seq<Event>)
    requires Opening(db)
    ensures Scored(Run(Initial(db), es))
  {
    if es != [] {
      AlwaysScored(db, Init(es));
      ScoredNext(Run(Initial(db), Init(es)), Last(es));
    }
  }

  lemma FinishedKept(s: State, e: Event)
    requires Scored(s)
    ensures Results.FinishedRowsKept(s.db.results, Next(s, e).db.results)
  {
    var t := s.db.results;
    match e
    case StartChallenge(u, c) => Results.FinishedNeverChanges(t, u, c, Failed, 0, 0, 0);
    case CompleteChallenge(u, c, elapsed, claimed, pieces) =>
      Results.FinishedNeverChanges(t, u, c, Completed, elapsed, CreditedPieces(pieces, claimed), 0);
    case FailChallenge(u, c, claimed) =>
      Results.FinishedNeverChanges(t, u, c, Failed, 0, if claimed < 0 then 0 else claimed, 0);
    case AnswerQuiz(u, c, answer, right) => Results.FinishedNeverChanges(t, u, c, Failed, 0, 0, answer);
    case EditChallenge(_, _) =>
    case _ => RowsStay(s, e);
  }

  /** A finished result stays as it is through any further events, but for its quiz answer. */
  lemma {:induction false} FinishedForGood(s: State, es: seq<Event>)
    requires Scored(s)
    ensures Scored(Run(s, es))
    ensures Results.FinishedRowsKept(s.db.results, Run(s, es).db.results)
  {
    if es != [] {
      FinishedForGood(s, Init(es));
      ScoredNext(Run(s, Init(es)), Last(es));
      FinishedKept(Run(s, Init(es)), Last(es));
    }
  }

  // ----- Grants paid in a later step ------------------------------------------------------------

  function Accounts(s: State): multiset<Grant> {
    multiset(s.paid) + s.pending + s.lost
  }

  /** The account of `g` moves between two states exactly as its being earned does. */
  ghost predicate InStep(s: State, t: State, g: Grant) {
    Accounts(t)[g] + (if Earned(s, g) then 1 else 0) == Accounts(s)[g] + (if Earned(t, g) then 1 else 0)
  }

  lemma StartInStep(s: State, u: User, c: string, g: Grant)
    ensures InStep(s, StartStep(s, u, c), g)
  {
    if g.ForChallenge? { Results.StartCompletes(s.db.results, u, c, g.user, g.challenge, 0); }
  }

  lemma CompleteInStep(s: State, u: User, c: string, elapsed: int, claimed: int, pieces: nat, g: Grant)
    requires Scored(s)
    ensures InStep(s, CompleteStep(s, u, c, elapsed, claimed, pieces), g)
  {
    if g.ForChallenge? {
      var correct := CreditedPieces(pieces, claimed);
      Results.FinishCompletes(s.db.results, u, c, Completed, elapsed, correct, g.user, g.challenge);
    }
  }

  lemma FailInStep(s: State, u: User, c: string, claimed: int, g: Grant)
    requires Scored(s)
    ensures InStep(s, FailStep(s, u, c, claimed), g)
  {
    if g.ForChallenge? {
      var correct := if claimed < 0 then 0 else claimed;
      Results.FinishCompletes(s.db.results, u, c, Failed, 0, correct, g.user, g.challenge);
    }
  }

  lemma AnswerInStep(s: State, u: User, c: string, answer: int, right: int, g: Grant)
    requires Scored(s)
    ensures InStep(s, AnswerStep(s, u, c, answer, right), g)
  {
    if g.ForChallenge? { Results.AnswerRecords(s.db.results, u, c, answer, g.user, g.challenge, 0); }
  }

  lemma PayInStep(s: State, p: Grant, g: Grant)
    ensures InStep(s, PayStep(s, p), g)
  {
    assert multiset(s.paid + [p]) == multiset(s.paid) + multiset{p};
  }

  lemma CrashInStep(s: State, p: Grant, g: Grant)
    ensures InStep(s, CrashStep(s, p), g)
  {
  }

  lemma CheckInInStep(s: State, u: User, day: int, g: Grant)
    ensures InStep(s, CheckInStep(s, u, day), g)
  {
  }

  lemma ClosingJoins(closings: seq<(User, string)>, closed: (User, string), k: (User, string))
    ensures multiset(closings + [closed])[k] == multiset(closings)[k] + if k == closed then 1 else 0
  {
    assert multiset(closings + [closed]) == multiset(closings) + multiset{closed};
  }

  lemma ClosedInStep(s: State, u: User, secret: string, g: Grant)
    ensures InStep(s, Closed(s, u, secret), g)
  {
    if g.ForSecret? { ClosingJoins(s.closings, (u, secret), (g.user, g.secret)); }
  }

  lemma RevealInStep(s: State, u: User, secret: string, tile: int, g: Grant)
    ensures InStep(s, RevealStep(s, u, secret, tile), g)
  {
    match HiddenSecret.Reveal(HiddenSecret.TILE_COUNT, BoardOf(s, u, secret), tile)
    case Err(_) =>
    case Ok(b) =>
      var t := s.(db := s.db.(boards := s.db.boards[(u, secret) := b]));
      SameBooksInStep(s, t, g);
      ClosedInStep(t, u, secret, g);
  }

  /** The two states agree on all that grants are earned by and accounted for in. */
  ghost predicate SameBooks(s: State, t: State) {
    && t.paid == s.paid && t.pending == s.pending && t.lost == s.lost && t.closings == s.closings
    && t.db.results == s.db.results && t.db.checkins == s.db.checkins
  }

  predicate OffTheBooks(e: Event) {
    e.Buy? || e.Spend? || e.DungeonMove? || e.ChangePicture? || e.EditChallenge?
  }

  lemma BooksStay(s: State, e: Event)
    requires OffTheBooks(e)
    ensures SameBooks(s, Next(s, e))
  {
  }

  lemma SameBooksInStep(s: State, t: State, g: Grant)
    requires SameBooks(s, t)
    ensures InStep(s, t, g)
  {
  }

  lemma ResultsInStep(s: State, e: Event, g: Grant)
    requires Scored(s) && OnResults(e)
    ensures InStep(s, Next(s, e), g)
  {
    match e
    case StartChallenge(u, c) => StartInStep(s, u, c, g);
    case CompleteChallenge(u, c, elapsed, claimed, pieces) => CompleteInStep(s, u, c, elapsed, claimed, pieces, g);
    case FailChallenge(u, c, claimed) => FailInStep(s, u, c, claimed, g);
    case AnswerQuiz(u, c, answer, right) => AnswerInStep(s, u, c, answer, right, g);
  }

  /** A step that owes a grant is the one that earns it; all others leave both alone. */
  lemma NextInStep(s: State, e: Event, g: Grant)
    requires Scored(s)
    ensures InStep(s, Next(s, e), g)
  {
    if OnResults(e) {
      ResultsInStep(s, e, g);
    } else if OffTheBooks(e) {
      BooksStay(s, e);
      SameBooksInStep(s, Next(s, e), g);
    } else {
      match e
      case CheckIn(u, day) => CheckInInStep(s, u, day, g);
      case RevealTile(u, secret, tile) => RevealInStep(s, u, secret, tile, g);
      case Pay(p) => PayInStep(s, p, g);
      case Crash(p) => CrashInStep(s, p, g);
    }
  }

  /**
   Challenge, check-in and secret grants are paid at most once per event that earned them,
   never without one, and go unpaid only while in flight or when their request crashed.
   */
  lemma {:induction false} AlwaysConserved(db: DB, es: seq<Event>)
    requires Opening(db)
    ensures Conserved(Run(Initial(db), es))
  {
    if es != [] {
      var s := Run(Initial(db), Init(es));
      AlwaysConserved(db, Init(es));
      AlwaysScored(db, Init(es));
      var t := Next(s, Last(es));
      forall g ensures Accounts(t)[g] == if Earned(t, g) then 1 else 0 {
        NextInStep(s, Last(es), g);
      }
    }
  }

  // ----- Payments made with the event -------------------------------------------------------------

  lemma PurchasesKept(s: State, e: Event)
    requires PurchasesSound(s.db.purchases)
    ensures PurchasesSound(Next(s, e).db.purchases)
  {
    if e.Buy? { BuyKeeps(s, e.user, e.product, e.platform, e.tx); } else { OthersBuyNothing(s, e); }
  }

  lemma BuyKeeps(s: State, u: User, product: string, platform: string, tx: string)
    requires PurchasesSound(s.db.purchases)
    ensures PurchasesSound(BuyStep(s, u, product, platform, tx).db.purchases)
  {
  }

  lemma OthersBuyNothing(s: State, e: Event)
    requires !e.Buy?
    ensures Next(s, e).db.purchases == s.db.purchases
  {
  }

  /** Starting or finishing a challenge neither records an answer nor loses one. */
  lemma AnswersStay(s: State, e: Event, u: User, c: string)
    requires Scored(s) && OnResults(e) && !e.AnswerQuiz?
    ensures OnRecord(Next(s, e), u, c) <==> OnRecord(s, u, c)
  {
    var t := s.db.results;
    forall a ensures Results.HasAnswered(Next(s, e).db.results, u, c, a) <==> Results.HasAnswered(t, u, c, a) {
      match e
      case StartChallenge(v, d) => Results.StartCompletes(t, v, d, u, c, a);
      case CompleteChallenge(v, d, elapsed, claimed, pieces) =>
        Results.FinishAnswers(t, v, d, Completed, elapsed, CreditedPieces(pieces, claimed), u, c, a);
      case FailChallenge(v, d, claimed) =>
        Results.FinishAnswers(t, v, d, Failed, 0, if claimed < 0 then 0 else claimed, u, c, a);
    }
  }

  /** A verdict is given on the first answer to a quiz and on no other. */
  lemma AnswerOnRecord(s: State, v: User, d: string, answer: int, right: int, u: User, c: string)
    requires Scored(s)
    ensures var t := AnswerStep(s, v, d, answer, right);
      var recorded := Results.Answer(s.db.results, v, d, answer).1;
      && (recorded ==> !OnRecord(s, v, d))
      && (OnRecord(t, u, c) <==> OnRecord(s, u, c) || (recorded && v == u && d == c))
  {
    var before, after := s.db.results, AnswerStep(s, v, d, answer, right).db.results;
    var recorded := Results.Answer(before, v, d, answer).1;
    forall a
      ensures recorded ==> !Results.HasAnswered(before, v, d, a)
      ensures Results.HasAnswered(after, u, c, a) <==>
                Results.HasAnswered(before, u, c, a) || (recorded && v == u && d == c && a == answer)
    {
      Results.AnswerRecords(before, v, d, answer, u, c, a);
    }
    if recorded && v == u && d == c { assert Results.HasAnswered(after, u, c, answer); }
  }

  lemma VerdictsNext(s: State, e: Event, u: User, c: string)
    requires Scored(s) && PaidWithEvent(s)
    ensures (u, c) in Next(s, e).verdicts <==> OnRecord(Next(s, e), u, c)
  {
    if e.AnswerQuiz? {
      AnswerOnRecord(s, e.user, e.challenge, e.answer, e.right, u, c);
    } else if OnResults(e) {
      AnswersStay(s, e, u, c);
    } else if !e.EditChallenge? {
      RowsStay(s, e);
    }
  }

  lemma PaidWithEventNext(s: State, e: Event)
    requires Scored(s) && PaidWithEvent(s)
    ensures PaidWithEvent(Next(s, e))
  {
    PurchasesKept(s, e);
    forall u, c ensures (u, c) in Next(s, e).verdicts <==> OnRecord(Next(s, e), u, c) {
      VerdictsNext(s, e, u, c);
    }
  }

  /** A store transaction is credited once; every quiz answer on record has had its one verdict. */
  lemma {:induction false} AlwaysPaidWithEvent(db: DB, es: seq<Event>)
    requires Opening(db)
    ensures PaidWithEvent(Run(Initial(db), es))
  {
    if es != [] {
      AlwaysPaidWithEvent(db, Init(es));
      AlwaysScored(db, Init(es));
      PaidWithEventNext(Run(Initial(db), Init(es)), Last(es));
    }
  }

  /** Confirming a purchase again, by anyone and for any product, changes nothing. */
  lemma ReplayedPurchaseIsFree(
    s: State, u: User, product: string, v: User, other: string, platform: string, tx: string)
    requires RewardFor(product).Some?
    ensures var once := Next(s, Buy(u, product, platform, tx));
            Next(once, Buy(v, other, platform, tx)) == once
  {
    var once := Next(s, Buy(u, product, platform, tx));
    if !Recorded(s.db.purchases, platform, tx) {
      assert Last(once.db.purchases).tx == tx;
    }
    assert Recorded(once.db.purchases, platform, tx);
  }
}
