/** What every interleaving of requests, payments and crashes keeps of the balances. */
module LedgerBalance {
  import opened Prelude
  import opened Ledger
  import opened LedgerRuns
  import Results
  import HiddenSecret

  /** Taking any grant away from those owed takes away what it is worth. */
  lemma {:induction false} OwedLess(m: multiset<Grant>, g: Grant, u: User)
    requires g in m
    ensures Owed(m, u) == Owed(m - multiset{g}, u) + Due(g, u)
    decreases |m|
  {
    var h := PickGrant(m);
    if h != g {
      OwedLess(m - multiset{h}, g, u);
      OwedLess(m - multiset{g}, h, u);
      assert m - multiset{h} - multiset{g} == m - multiset{g} - multiset{h};
    }
  }

  lemma OwedMore(m: multiset<Grant>, g: Grant, u: User)
    ensures Owed(m + multiset{g}, u) == Owed(m, u) + Due(g, u)
  {
    OwedLess(m + multiset{g}, g, u);
    assert m + multiset{g} - multiset{g} == m;
  }

  /** A grant that a step puts in flight is owed from then on. */
  lemma GrantJoins(s: State, t: State, g: Grant, v: User)
    requires t.pending == s.pending + multiset{g} && t.lost == s.lost
    ensures Owed(t.pending + t.lost, v) == Owed(s.pending + s.lost, v) + Due(g, v)
  {
    OwedMore(s.pending + s.lost, g, v);
    assert t.pending + t.lost == s.pending + s.lost + multiset{g};
  }

  lemma GrantLeaves(s: State, t: State, g: Grant, v: User)
    requires g in s.pending && t.pending == s.pending - multiset{g} && t.lost == s.lost
    ensures Owed(t.pending + t.lost, v) == Owed(s.pending + s.lost, v) - Due(g, v)
  {
    OwedLess(s.pending + s.lost, g, v);
    assert t.pending + t.lost == s.pending + s.lost - multiset{g};
  }

  /** What the tables add up to moves by n for user u, and for nobody else. */
  ghost predicate NetMoves(s: State, t: State, u: User, n: int, v: User) {
    Net(t, v) == Net(s, v) + if v == u then n else 0
  }

  /** The balances, the purchases and the users are the same. */
  ghost predicate SameMoney(s: State, t: State) {
    && t.db.points == s.db.points && t.db.bonusStars == s.db.bonusStars
    && t.db.purchases == s.db.purchases && t.db.score.Keys == s.db.score.Keys
  }

  /** A step that moves no balance, and what the tables add up to for nobody. */
  lemma BalancedStill(opening: DB, s: State, t: State)
    requires Balanced(opening, s)
    requires SameMoney(s, t)
    requires forall v :: NetMoves(s, t, v, 0, v)
    ensures Balanced(opening, t)
  {
    forall v | v in t.db.points ensures InBalance(opening, t, v) {
      assert InBalance(opening, s, v);
      assert NetMoves(s, t, v, 0, v);
    }
  }

  lemma MoveInBalance(opening: DB, s: State, t: State, u: User, n: int, v: User)
    requires InBalance(opening, s, v) && NetMoves(s, t, u, n, v)
    requires t.db.points == Add(s.db.points, u, n) && (u in s.db.points ==> s.db.points[u] + n >= 0)
    requires t.db.bonusStars == s.db.bonusStars && t.db.purchases == s.db.purchases
    ensures InBalance(opening, t, v)
  {
  }

  /** A step that moves one user's balance by n, and the tables with it. */
  lemma BalancedMove(opening: DB, s: State, t: State, u: User, n: int)
    requires Balanced(opening, s)
    requires t.db.points == Add(s.db.points, u, n) && (u in s.db.points ==> s.db.points[u] + n >= 0)
    requires t.db.bonusStars == s.db.bonusStars && t.db.purchases == s.db.purchases
    requires t.db.score.Keys == s.db.score.Keys
    requires forall v :: NetMoves(s, t, u, n, v)
    ensures Balanced(opening, t)
  {
    forall v | v in t.db.points ensures InBalance(opening, t, v) {
      assert InBalance(opening, s, v);
      MoveInBalance(opening, s, t, u, n, v);
    }
  }

  lemma CompleteNet(s: State, u: User, c: string, elapsed: int, correct: int, t: State, v: User)
    requires Results.RowsSound(s.db.results) && Results.Finish(s.db.results, u, c, Completed, elapsed, correct).1
    requires t.db.results == Results.Finish(s.db.results, u, c, Completed, elapsed, correct).0
    requires t.db.purchases == s.db.purchases && t.db.checkins == s.db.checkins
    requires t.closings == s.closings && t.spent == s.spent && t.lost == s.lost && t.verdicts == s.verdicts
    requires t.pending == s.pending + multiset{ForChallenge(u, c)}
    ensures NetMoves(s, t, u, 0, v)
  {
    var a := Results.FinishMoves(s.db.results, u, c, Completed, elapsed, correct, CompletedBy(v));
    GrantJoins(s, t, ForChallenge(u, c), v);
  }

  lemma FinishMovesNoMoney(s: State, u: User, c: string, elapsed: int, claimed: int, pieces: nat)
    ensures SameMoney(s, CompleteStep(s, u, c, elapsed, claimed, pieces))
    ensures SameMoney(s, FailStep(s, u, c, claimed))
  {
  }

  lemma BalancedComplete(opening: DB, s: State, u: User, c: string, elapsed: int, claimed: int, pieces: nat)
    requires Balanced(opening, s) && Results.RowsSound(s.db.results)
    ensures Balanced(opening, CompleteStep(s, u, c, elapsed, claimed, pieces))
  {
    var t := CompleteStep(s, u, c, elapsed, claimed, pieces);
    if t != s {
      forall v ensures NetMoves(s, t, v, 0, v) {
        CompleteNet(s, u, c, elapsed, CreditedPieces(pieces, claimed), t, v);
      }
      FinishMovesNoMoney(s, u, c, elapsed, claimed, pieces);
      BalancedStill(opening, s, t);
    }
  }

  lemma FailNet(s: State, u: User, c: string, claimed: int, v: User)
    requires Results.RowsSound(s.db.results)
    ensures NetMoves(s, FailStep(s, u, c, claimed), v, 0, v)
  {
    var correct := if claimed < 0 then 0 else claimed;
    if Results.Finish(s.db.results, u, c, Failed, 0, correct).1 {
      var a := Results.FinishMoves(s.db.results, u, c, Failed, 0, correct, CompletedBy(v));
    }
  }

  lemma BalancedFail(opening: DB, s: State, u: User, c: string, claimed: int)
    requires Balanced(opening, s) && Results.RowsSound(s.db.results)
    ensures Balanced(opening, FailStep(s, u, c, claimed))
  {
    forall v ensures NetMoves(s, FailStep(s, u, c, claimed), v, 0, v) {
      FailNet(s, u, c, claimed, v);
    }
    FinishMovesNoMoney(s, u, c, 0, claimed, 0);
    BalancedStill(opening, s, FailStep(s, u, c, claimed));
  }

  lemma BalancedStart(opening: DB, s: State, u: User, c: string)
    requires Balanced(opening, s)
    ensures Balanced(opening, StartStep(s, u, c))
  {
    var t := StartStep(s, u, c);
    forall v ensures NetMoves(s, t, u, 0, v) {
      Results.StartMoves(s.db.results, u, c, CompletedBy(v));
    }
    BalancedMove(opening, s, t, u, 0);
  }

  /** A new verdict counts for its user if the answer was right. */
  lemma VerdictJoins(verdicts: map<(User, string), bool>, u: User, c: string, right: bool, v: User)
    requires (u, c) !in verdicts
    ensures |RightAnswersOf(verdicts[(u, c) := right], v)|
         == |RightAnswersOf(verdicts, v)| + if v == u && right then 1 else 0
  {
    assert RightAnswersOf(verdicts[(u, c) := right], v)
        == RightAnswersOf(verdicts, v) + if v == u && right then {(u, c)} else {};
  }

  ghost predicate SameCompletions(a: Results.Table, b: Results.Table, v: User) {
    Results.Sum(b, CompletedBy(v)) == Results.Sum(a, CompletedBy(v))
  }

  lemma JudgedNet(s: State, u: User, c: string, rows: Results.Table, right: bool, v: User)
    requires (u, c) !in s.verdicts && SameCompletions(s.db.results, rows, v)
    ensures NetMoves(s, Judged(s, u, c, rows, right), u, if right then 1 else 0, v)
  {
    VerdictJoins(s.verdicts, u, c, right, v);
  }

  lemma BalancedJudged(opening: DB, s: State, u: User, c: string, rows: Results.Table, right: bool)
    requires Balanced(opening, s) && (u, c) !in s.verdicts
    requires forall v :: SameCompletions(s.db.results, rows, v)
    ensures Balanced(opening, Judged(s, u, c, rows, right))
  {
    var n := if right then 1 else 0;
    forall v ensures NetMoves(s, Judged(s, u, c, rows, right), u, n, v) {
      JudgedNet(s, u, c, rows, right, v);
    }
    BalancedMove(opening, s, Judged(s, u, c, rows, right), u, n);
  }

  lemma BalancedAnswer(opening: DB, s: State, u: User, c: string, answer: int, right: int)
    requires Balanced(opening, s) && Scored(s) && PaidWithEvent(s)
    ensures Balanced(opening, AnswerStep(s, u, c, answer, right))
  {
    var (rows, recorded) := Results.Answer(s.db.results, u, c, answer);
    if recorded {
      AnswerOnRecord(s, u, c, answer, right, u, c);
      forall v ensures SameCompletions(s.db.results, rows, v) {
        var a := Results.AnswerMoves(s.db.results, u, c, answer, CompletedBy(v));
      }
      BalancedJudged(opening, s, u, c, rows, answer == right);
    }
  }

  lemma PurchaseJoins(ps: seq<Purchase>, p: Purchase, v: User)
    ensures Bought(ps + [p], v) == Bought(ps, v) + if p.user == v then p.points else 0
    ensures BoughtStars(ps + [p], v) == BoughtStars(ps, v) + if p.user == v then p.stars else 0
  {
    assert Init(ps + [p]) == ps;
  }

  lemma BuyNet(opening: DB, s: State, p: Purchase, v: User)
    requires InBalance(opening, s, v)
    ensures InBalance(opening, Purchased(s, p), v)
  {
    PurchaseJoins(s.db.purchases, p, v);
  }

  lemma BalancedPurchase(opening: DB, s: State, p: Purchase)
    requires Balanced(opening, s)
    ensures Balanced(opening, Purchased(s, p))
  {
    forall v | v in s.db.points ensures InBalance(opening, Purchased(s, p), v) {
      assert InBalance(opening, s, v);
      BuyNet(opening, s, p, v);
    }
  }

  lemma BalancedBuy(opening: DB, s: State, u: User, product: string, platform: string, tx: string)
    requires Balanced(opening, s)
    ensures Balanced(opening, BuyStep(s, u, product, platform, tx))
  {
    match RewardFor(product)
    case None =>
    case Some(r) => BalancedPurchase(opening, s, Purchase(u, product, platform, tx, r.points, r.stars));
  }

  lemma CheckInNet(s: State, u: User, day: int, v: User)
    requires (u, day) !in s.db.checkins
    ensures NetMoves(s, CheckInStep(s, u, day), u, 0, v)
  {
    var t := CheckInStep(s, u, day);
    assert CheckInsOf(t.db.checkins, v) == CheckInsOf(s.db.checkins, v) + if v == u then {(u, day)} else {};
    GrantJoins(s, t, ForCheckIn(u, day), v);
  }

  lemma BalancedCheckIn(opening: DB, s: State, u: User, day: int)
    requires Balanced(opening, s)
    ensures Balanced(opening, CheckInStep(s, u, day))
  {
    if (u, day) !in s.db.checkins {
      forall v ensures NetMoves(s, CheckInStep(s, u, day), u, 0, v) {
        CheckInNet(s, u, day, v);
      }
      BalancedMove(opening, s, CheckInStep(s, u, day), u, 0);
    }
  }

  lemma RevealNet(s: State, u: User, secret: string, tile: int, v: User)
    ensures NetMoves(s, RevealStep(s, u, secret, tile), v, 0, v)
  {
    var t := RevealStep(s, u, secret, tile);
    if t.closings != s.closings {
      assert Init(t.closings) == s.closings;
      GrantJoins(s, t, ForSecret(u, secret, Closings(s, u, secret) + 1), v);
    }
  }

  lemma RevealMovesNoMoney(s: State, u: User, secret: string, tile: int)
    ensures SameMoney(s, RevealStep(s, u, secret, tile))
  {
  }

  lemma BalancedReveal(opening: DB, s: State, u: User, secret: string, tile: int)
    requires Balanced(opening, s)
    ensures Balanced(opening, RevealStep(s, u, secret, tile))
  {
    var t := RevealStep(s, u, secret, tile);
    forall v ensures NetMoves(s, t, v, 0, v) {
      RevealNet(s, u, secret, tile, v);
    }
    RevealMovesNoMoney(s, u, secret, tile);
    BalancedStill(opening, s, t);
  }

  lemma SpendNet(s: State, u: User, amount: nat, n: int, v: User)
    requires n == 0 - amount
    ensures NetMoves(s, Deducted(s, u, amount), u, n, v)
  {
    assert Init(s.spent + [(u, amount)]) == s.spent;
  }

  lemma DeductionMoves(s: State, u: User, amount: nat, n: int, t: State)
    requires n == 0 - amount && t == Deducted(s, u, amount)
    ensures t.db.points == Add(s.db.points, u, n) && t.db.bonusStars == s.db.bonusStars
    ensures t.db.purchases == s.db.purchases && t.db.score == s.db.score
    ensures forall v :: NetMoves(s, t, u, n, v)
  {
    forall v ensures NetMoves(s, t, u, n, v) {
      SpendNet(s, u, amount, n, v);
    }
  }

  lemma BalancedDeduction(opening: DB, s: State, u: User, amount: nat, n: int, t: State)
    requires Balanced(opening, s) && u in s.db.points && s.db.points[u] >= amount
    requires n == 0 - amount && t == Deducted(s, u, amount)
    ensures Balanced(opening, t)
  {
    DeductionMoves(s, u, amount, n, t);
    BalancedMove(opening, s, t, u, n);
  }

  lemma BalancedSpend(opening: DB, s: State, u: User, requested: int)
    requires Balanced(opening, s)
    ensures Balanced(opening, SpendStep(s, u, requested))
  {
    var t := SpendStep(s, u, requested);
    if t != s {
      var amount: nat := if requested <= 0 then 1 else requested;
      assert t == Deducted(s, u, amount);
      BalancedDeduction(opening, s, u, amount, 0 - amount, t);
    }
  }

  lemma BalancedPay(opening: DB, s: State, g: Grant)
    requires Balanced(opening, s)
    ensures Balanced(opening, PayStep(s, g))
  {
    var t := PayStep(s, g);
    if t != s {
      forall v ensures NetMoves(s, t, g.user, Amount(g), v) {
        GrantLeaves(s, t, g, v);
      }
      BalancedMove(opening, s, t, g.user, Amount(g));
    }
  }

  lemma BalancedCrash(opening: DB, s: State, g: Grant)
    requires Balanced(opening, s)
    ensures Balanced(opening, CrashStep(s, g))
  {
    var t := CrashStep(s, g);
    if t != s {
      assert t.pending + t.lost == s.pending + s.lost;
      forall v ensures NetMoves(s, t, v, 0, v) {
      }
      BalancedStill(opening, s, t);
    }
  }

  lemma BalancedChange(opening: DB, s: State, secret: string)
    requires Balanced(opening, s)
    ensures Balanced(opening, ChangeStep(s, secret))
  {
    var t := ChangeStep(s, secret);
    forall v ensures NetMoves(s, t, v, 0, v) {
    }
    BalancedStill(opening, s, t);
  }

  lemma BalancedEdit(opening: DB, s: State, c: string, info: ChallengeInfo)
    requires Balanced(opening, s)
    ensures Balanced(opening, EditStep(s, c, info))
  {
    var t := EditStep(s, c, info);
    forall v ensures NetMoves(s, t, v, 0, v) {
    }
    BalancedStill(opening, s, t);
  }

  lemma BalancedResults(opening: DB, s: State, e: Event)
    requires Balanced(opening, s) && Scored(s) && PaidWithEvent(s) && OnResults(e)
    ensures Balanced(opening, Next(s, e))
  {
    match e
    case StartChallenge(u, c) => BalancedStart(opening, s, u, c);
    case CompleteChallenge(u, c, elapsed, claimed, pieces) =>
      BalancedComplete(opening, s, u, c, elapsed, claimed, pieces);
    case FailChallenge(u, c, claimed) => BalancedFail(opening, s, u, c, claimed);
    case AnswerQuiz(u, c, answer, right) => BalancedAnswer(opening, s, u, c, answer, right);
  }

  lemma BalancedOthers(opening: DB, s: State, e: Event)
    requires Balanced(opening, s) && !OnResults(e)
    ensures Balanced(opening, Next(s, e))
  {
    match e
    case EditChallenge(c, info) => BalancedEdit(opening, s, c, info);
    case Buy(u, product, platform, tx) => BalancedBuy(opening, s, u, product, platform, tx);
    case CheckIn(u, day) => BalancedCheckIn(opening, s, u, day);
    case RevealTile(u, secret, tile) => BalancedReveal(opening, s, u, secret, tile);
    case ChangePicture(secret) => BalancedChange(opening, s, secret);
    case Spend(u, amount) => BalancedSpend(opening, s, u, amount);
    case DungeonMove(u) => BalancedSpend(opening, s, u, 1);
    case Pay(g) => BalancedPay(opening, s, g);
    case Crash(g) => BalancedCrash(opening, s, g);
  }

  lemma BalancedNext(opening: DB, s: State, e: Event)
    requires Balanced(opening, s) && Scored(s) && PaidWithEvent(s)
    ensures Balanced(opening, Next(s, e))
  {
    if OnResults(e) { BalancedResults(opening, s, e); } else { BalancedOthers(opening, s, e); }
  }

  /**
   The balance is never negative, and always equals the opening balance plus purchases, one
   point per completed challenge, quiz answer judged right and day checked in, and the reward
   for every board completed, minus what was spent and what is in flight or was lost.
   */
  lemma {:induction false} AlwaysBalanced(db: DB, es: seq<Event>)
    requires Opening(db)
    ensures Balanced(db, Run(Initial(db), es))
  {
    if es == [] {
      assert forall u :: CheckInsOf({}, u) == {};
      assert forall u :: RightAnswersOf(map[], u) == {};
    } else {
      AlwaysBalanced(db, Init(es));
      AlwaysScored(db, Init(es));
      AlwaysPaidWithEvent(db, Init(es));
      BalancedNext(db, Run(Initial(db), Init(es)), Last(es));
    }
  }

  // ----- The present catalogue ----------------------------------------------------------------------

  /** The challenge as it is now calls the answer right. */
  predicate RightNow(challenges: map<string, ChallengeInfo>, c: string, answer: Option<int>) {
    answer.Some? && c in challenges && challenges[c].right == answer
  }

  function RightBy(challenges: map<string, ChallengeInfo>, u: User): Results.Row -> int {
    (r: Results.Row) => if r.user == u && RightNow(challenges, r.challenge, r.quiz) then 1 else 0
  }

  /** The present challenges and the answers on record add up to the points the answers were paid. */
  ghost predicate Agrees(s: State, u: User) {
    Results.Sum(s.db.results, RightBy(s.db.challenges, u)) == |RightAnswersOf(s.verdicts, u)|
  }

  /** The user's balance is what the tables, challenges included, add up to. */
  ghost predicate UserByCatalogue(opening: DB, s: State, u: User)
    requires u in s.db.points && u in opening.points
  {
    s.db.points[u] == opening.points[u] + NetBesideQuizzes(s, u)
                    + Results.Sum(s.db.results, RightBy(s.db.challenges, u))
  }

  /** Everyone's is, with no verdict remembered. */
  ghost predicate ByCatalogue(opening: DB, s: State) {
    forall u :: u in s.db.points && u in opening.points ==> UserByCatalogue(opening, s, u)
  }

  /** Editing the challenge turns the verdict on the user's answer to it. */
  ghost predicate Turns(s: State, u: User, c: string, info: ChallengeInfo) {
    match Results.Find(s.db.results, u, c)
    case None => false
    case Some(i) =>
      i < |s.db.results|
      && RightNow(s.db.challenges, c, s.db.results[i].quiz)
         != RightNow(s.db.challenges[c := info], c, s.db.results[i].quiz)
  }

  /**
   The event sets a verdict against the challenge as it is now: it edits a challenge so that an
   answer on record would be judged otherwise, or it records an answer that was judged by a
   right option since replaced and would now be judged otherwise.
   */
  ghost predicate Overrules(s: State, e: Event) {
    match e
    case EditChallenge(c, info) => exists u :: u in s.db.points && Turns(s, u, c, info)
    case AnswerQuiz(u, c, answer, right) =>
      && u in s.db.points && Results.Answer(s.db.results, u, c, answer).1
      && (answer == right) != RightNow(s.db.challenges, c, Some(answer))
    case _ => false
  }

  /** Weights that differ on one key alone. */
  lemma {:induction false} SumDiffers(
    t: Results.Table, v: Results.Row -> int, w: Results.Row -> int, u: User, c: string)
    requires Results.KeysUnique(t)
    requires forall r: Results.Row :: r.user != u || r.challenge != c ==> v(r) == w(r)
    ensures Results.Sum(t, w) - Results.Sum(t, v)
         == match Results.Find(t, u, c) case None => 0 case Some(i) => if i < |t| then w(t[i]) - v(t[i]) else 0
  {
    if t != [] {
      Results.FindFinds(Init(t), u, c);
      SumDiffers(Init(t), v, w, u, c);
    }
  }

  lemma EditAgrees(s: State, c: string, info: ChallengeInfo, u: User)
    requires Scored(s) && Agrees(s, u)
    ensures Agrees(EditStep(s, c, info), u) <==> !Turns(s, u, c, info)
  {
    var t := EditStep(s, c, info);
    Results.FindFinds(s.db.results, u, c);
    SumDiffers(s.db.results, RightBy(s.db.challenges, u), RightBy(t.db.challenges, u), u, c);
  }

  lemma AnswerAgrees(s: State, u: User, c: string, answer: int, right: int, v: User)
    requires Scored(s) && PaidWithEvent(s) && Agrees(s, v) && Results.Answer(s.db.results, u, c, answer).1
    ensures Agrees(AnswerStep(s, u, c, answer, right), v)
       <==> u != v || (answer == right) == RightNow(s.db.challenges, c, Some(answer))
  {
    AnswerOnRecord(s, u, c, answer, right, u, c);
    var a := Results.AnswerMoves(s.db.results, u, c, answer, RightBy(s.db.challenges, v));
    VerdictJoins(s.verdicts, u, c, answer == right, v);
  }

  /** Starting and finishing challenges leaves the answers alone. */
  lemma FinishAgrees(s: State, u: User, c: string, status: Status, elapsed: int, correct: int, v: User)
    requires Scored(s) && Agrees(s, v)
    ensures Results.Sum(Results.Start(s.db.results, u, c), RightBy(s.db.challenges, v))
         == |RightAnswersOf(s.verdicts, v)|
    ensures Results.Sum(Results.Finish(s.db.results, u, c, status, elapsed, correct).0, RightBy(s.db.challenges, v))
         == |RightAnswersOf(s.verdicts, v)|
  {
    var t, weight := s.db.results, RightBy(s.db.challenges, v);
    Results.StartMoves(t, u, c, weight);
    Results.FindFinds(t, u, c);
    if Results.Finish(t, u, c, status, elapsed, correct).1 {
      var a := Results.FinishMoves(t, u, c, status, elapsed, correct, weight);
    }
  }

  lemma OthersAgree(s: State, e: Event, v: User)
    requires Scored(s) && Agrees(s, v) && !e.EditChallenge? && !e.AnswerQuiz?
    ensures Agrees(Next(s, e), v)
  {
    match e
    case StartChallenge(u, c) => FinishAgrees(s, u, c, Failed, 0, 0, v);
    case CompleteChallenge(u, c, elapsed, claimed, pieces) =>
      FinishAgrees(s, u, c, Completed, elapsed, CreditedPieces(pieces, claimed), v);
    case FailChallenge(u, c, claimed) => FinishAgrees(s, u, c, Failed, 0, if claimed < 0 then 0 else claimed, v);
    case _ => RowsStay(s, e);
  }

  ghost predicate AllAgree(s: State) {
    forall u :: u in s.db.points ==> Agrees(s, u)
  }

  lemma EditAllAgree(s: State, c: string, info: ChallengeInfo)
    requires Scored(s) && AllAgree(s)
    ensures AllAgree(EditStep(s, c, info)) <==> !Overrules(s, EditChallenge(c, info))
  {
    forall u | u in s.db.points ensures Agrees(EditStep(s, c, info), u) <==> !Turns(s, u, c, info) {
      EditAgrees(s, c, info, u);
    }
  }

  lemma AnswerAllAgree(s: State, u: User, c: string, answer: int, right: int)
    requires Scored(s) && PaidWithEvent(s) && AllAgree(s)
    ensures AllAgree(AnswerStep(s, u, c, answer, right)) <==> !Overrules(s, AnswerQuiz(u, c, answer, right))
  {
    if Results.Answer(s.db.results, u, c, answer).1 {
      forall v | v in s.db.points
        ensures Agrees(AnswerStep(s, u, c, answer, right), v)
           <==> u != v || (answer == right) == RightNow(s.db.challenges, c, Some(answer))
      {
        AnswerAgrees(s, u, c, answer, right, v);
      }
    }
  }

  lemma OthersAllAgree(s: State, e: Event)
    requires Scored(s) && AllAgree(s) && Next(s, e).db.points.Keys == s.db.points.Keys
    requires !e.EditChallenge? && !e.AnswerQuiz?
    ensures AllAgree(Next(s, e))
  {
    forall v | v in s.db.points ensures Agrees(Next(s, e), v) {
      OthersAgree(s, e, v);
    }
  }

  /** A step takes the catalogue and the verdicts apart exactly if it overrules one. */
  lemma AgreeNext(s: State, e: Event)
    requires Scored(s) && PaidWithEvent(s) && AllAgree(s) && Next(s, e).db.points.Keys == s.db.points.Keys
    ensures AllAgree(Next(s, e)) <==> !Overrules(s, e)
  {
    match e
    case EditChallenge(c, info) => EditAllAgree(s, c, info);
    case AnswerQuiz(u, c, answer, right) => AnswerAllAgree(s, u, c, answer, right);
    case _ => OthersAllAgree(s, e);
  }

  lemma AgreeingUser(opening: DB, s: State, u: User)
    requires InBalance(opening, s, u)
    ensures UserByCatalogue(opening, s, u) <==> Agrees(s, u)
  {
  }

  lemma AgreeingIsByCatalogue(opening: DB, s: State)
    requires Balanced(opening, s)
    ensures ByCatalogue(opening, s) <==> AllAgree(s)
  {
    forall u | u in s.db.points ensures UserByCatalogue(opening, s, u) <==> Agrees(s, u) {
      assert InBalance(opening, s, u);
      AgreeingUser(opening, s, u);
    }
  }

  /** At every point of the run the present challenges account for all balances. */
  ghost predicate EverByCatalogue(db: DB, es: seq<Event>) {
    ByCatalogue(db, Run(Initial(db), es)) && (es != [] ==> EverByCatalogue(db, Init(es)))
  }

  ghost predicate NeverOverrules(db: DB, es: seq<Event>) {
    es != [] ==> !Overrules(Run(Initial(db), Init(es)), Last(es)) && NeverOverrules(db, Init(es))
  }

  /** The challenges as they are account for everyone's balance throughout exactly if no verdict is overruled. */
  lemma {:induction false} CatalogueAccountsExactly(db: DB, es: seq<Event>)
    requires Opening(db)
    ensures NeverOverrules(db, es) <==> EverByCatalogue(db, es)
  {
    var t := Run(Initial(db), es);
    AlwaysBalanced(db, es);
    AgreeingIsByCatalogue(db, t);
    if es == [] {
      assert forall u :: RightAnswersOf(map[], u) == {};
    } else {
      var s := Run(Initial(db), Init(es));
      CatalogueAccountsExactly(db, Init(es));
      AlwaysBalanced(db, Init(es));
      AlwaysScored(db, Init(es));
      AlwaysPaidWithEvent(db, Init(es));
      AgreeingIsByCatalogue(db, s);
      if EverByCatalogue(db, Init(es)) { AgreeNext(s, Last(es)); }
    }
  }
}
