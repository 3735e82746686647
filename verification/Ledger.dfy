/**
 Unlock points: everything that earns or spends them, with every handler split where it
 calls the store, so that requests interleave freely and a crash may fall between the
 event and the payment it owes (internal/repository/results.go, purchases.go, checkin.go,
 hidden_secret.go and the handlers in internal/api).
 */
module Ledger {
  import opened Prelude
  import Results
  import HiddenSecret

  /** A payment a handler still owes after the transaction that earned it. */
  datatype Grant =
    | ForChallenge(user: User, challenge: string)
    | ForCheckIn(user: User, day: int)
    | ForSecret(user: User, secret: string, nth: nat)  // the nth time the user completed it

  datatype Purchase = Purchase(user: User, product: string, platform: string, tx: string, points: nat, stars: nat)

  datatype Reward = Reward(points: nat, stars: nat)

  /** A challenge's piece count and the right option of its quiz, if it has one. */
  datatype ChallengeInfo = ChallengeInfo(pieces: nat, right: Option<int>)

  /** The tables. */
  datatype DB = DB(
    points: map<User, int>,
    bonusStars: map<User, int>,
    score: map<User, int>,
    challenges: map<string, ChallengeInfo>,
    results: Results.Table,
    purchases: seq<Purchase>,
    checkins: set<(User, int)>,
    boards: map<(User, string), HiddenSecret.Board>)

  /** The tables, the payments in flight, and what has happened so far. */
  datatype State = State(
    db: DB,
    pending: multiset<Grant>,
    lost: multiset<Grant>,                // owed by requests that crashed
    paid: seq<Grant>,                     // paid by a later step
    verdicts: map<(User, string), bool>,  // whether a recorded quiz answer was right, and paid with it
    spent: seq<(User, nat)>,
    closings: seq<(User, string)>)        // boards completed, in order

  /** What the store's product catalogue pays. */
  function RewardFor(product: string): Option<Reward> {
    if product == "unlock_points_50" then Some(Reward(50, 0))
    else if product == "unlock_points_20" then Some(Reward(20, 0))
    else if product == "expedition_stars_50" then Some(Reward(0, 50))
    else None
  }

  function Amount(g: Grant): nat {
    if g.ForSecret? then HiddenSecret.POINTS_REWARD else 1
  }

  /** Pieces a completion is credited with: a full grid unless fewer are claimed. */
  function CreditedPieces(pieces: nat, claimed: int): int {
    if claimed <= 0 || claimed > pieces then pieces else claimed
  }

  /**
   A completion carries the piece count, and an answer the right option, that its handler read
   from the challenge. An admin may have edited the challenge since.
   */
  datatype Event =
    | EditChallenge(challenge: string, info: ChallengeInfo)
    | StartChallenge(user: User, challenge: string)
    | CompleteChallenge(user: User, challenge: string, elapsed: int, claimed: int, pieces: nat)
    | FailChallenge(user: User, challenge: string, claimed: int)
    | AnswerQuiz(user: User, challenge: string, answer: int, right: int)
    | Buy(user: User, product: string, platform: string, tx: string)
    | CheckIn(user: User, day: int)
    | RevealTile(user: User, secret: string, tile: int)
    | ChangePicture(secret: string)
    | Spend(user: User, amount: int)
    | DungeonMove(user: User)  // one move that goes through spends one point
    | Pay(grant: Grant)
    | Crash(grant: Grant)

  function Add(m: map<User, int>, u: User, n: int): (r: map<User, int>)
    ensures r.Keys == m.Keys
  {
    if u in m then m[u := m[u] + n] else m
  }

  /** Creating a challenge for a date that has one, like updating it, rewrites it in place. */
  function EditStep(s: State, c: string, info: ChallengeInfo): State {
    s.(db := s.db.(challenges := s.db.challenges[c := info]))
  }

  function StartStep(s: State, u: User, c: string): State {
    s.(db := s.db.(results := Results.Start(s.db.results, u, c)))
  }

  function CompleteStep(s: State, u: User, c: string, elapsed: int, claimed: int, pieces: nat): State {
    var correct := CreditedPieces(pieces, claimed);
    var (rows, transitioned) := Results.Finish(s.db.results, u, c, Completed, elapsed, correct);
    if transitioned
    then s.(db := s.db.(results := rows, score := Add(s.db.score, u, correct)),
            pending := s.pending + multiset{ForChallenge(u, c)})
    else s
  }

  function FailStep(s: State, u: User, c: string, claimed: int): State {
    var correct := if claimed < 0 then 0 else claimed;
    var (rows, transitioned) := Results.Finish(s.db.results, u, c, Failed, 0, correct);
    if transitioned
    then s.(db := s.db.(results := rows, score := Add(s.db.score, u, correct)))
    else s
  }

  function Judged(s: State, u: User, c: string, rows: Results.Table, right: bool): State {
    s.(db := s.db.(results := rows, points := Add(s.db.points, u, if right then 1 else 0)),
       verdicts := s.verdicts[(u, c) := right])
  }

  /** A first answer is recorded with its verdict, and a right one paid in the same transaction. */
  function AnswerStep(s: State, u: User, c: string, answer: int, right: int): State {
    var (rows, recorded) := Results.Answer(s.db.results, u, c, answer);
    if recorded then Judged(s, u, c, rows, answer == right) else s
  }

  predicate Recorded(ps: seq<Purchase>, platform: string, tx: string) {
    exists i :: 0 <= i < |ps| && ps[i].platform == platform && ps[i].tx == tx
  }

  function Purchased(s: State, p: Purchase): State {
    s.(db := s.db.(
      purchases := s.db.purchases + [p],
      points := Add(s.db.points, p.user, p.points),
      bonusStars := Add(s.db.bonusStars, p.user, p.stars)))
  }

  function BuyStep(s: State, u: User, product: string, platform: string, tx: string): State {
    match RewardFor(product)
    case None => s
    case Some(r) =>
      if Recorded(s.db.purchases, platform, tx) then s
      else Purchased(s, Purchase(u, product, platform, tx, r.points, r.stars))
  }

  function CheckInStep(s: State, u: User, day: int): State {
    if (u, day) in s.db.checkins then s
    else s.(db := s.db.(checkins := s.db.checkins + {(u, day)}),
            pending := s.pending + multiset{ForCheckIn(u, day)})
  }

  function BoardOf(s: State, u: User, secret: string): HiddenSecret.Board {
    if (u, secret) in s.db.boards then s.db.boards[(u, secret)] else HiddenSecret.COVERED
  }

  function Closings(s: State, u: User, secret: string): nat {
    multiset(s.closings)[(u, secret)]
  }

  /** Completing a board owes its reward. */
  function Closed(s: State, u: User, secret: string): State {
    s.(closings := s.closings + [(u, secret)],
       pending := s.pending + multiset{ForSecret(u, secret, Closings(s, u, secret) + 1)})
  }

  function RevealStep(s: State, u: User, secret: string, tile: int): State {
    match HiddenSecret.Reveal(HiddenSecret.TILE_COUNT, BoardOf(s, u, secret), tile)
    case Err(_) => s
    case Ok(b) =>
      var t := s.(db := s.db.(boards := s.db.boards[(u, secret) := b]));
      if b.completed then Closed(t, u, secret) else t
  }

  function Deducted(s: State, u: User, amount: nat): State {
    s.(db := s.db.(points := Add(s.db.points, u, 0 - amount)), spent := s.spent + [(u, amount)])
  }

  /** Spending is guarded by the balance; a non-positive amount means one point. */
  function SpendStep(s: State, u: User, requested: int): State {
    var amount := if requested <= 0 then 1 else requested;
    if u in s.db.points && s.db.points[u] >= amount then Deducted(s, u, amount) else s
  }

  function PayStep(s: State, g: Grant): State {
    if g in s.pending
    then s.(db := s.db.(points := Add(s.db.points, g.user, Amount(g))),
            pending := s.pending - multiset{g}, paid := s.paid + [g])
    else s
  }

  function CrashStep(s: State, g: Grant): State {
    if g in s.pending then s.(pending := s.pending - multiset{g}, lost := s.lost + multiset{g}) else s
  }

  function ChangeStep(s: State, secret: string): State {
    s.(db := s.db.(boards := map k | k in s.db.boards && k.1 != secret :: s.db.boards[k]))
  }

  function Next(s: State, e: Event): State {
    match e
    case EditChallenge(c, info) => EditStep(s, c, info)
    case StartChallenge(u, c) => StartStep(s, u, c)
    case CompleteChallenge(u, c, elapsed, claimed, pieces) => CompleteStep(s, u, c, elapsed, claimed, pieces)
    case FailChallenge(u, c, claimed) => FailStep(s, u, c, claimed)
    case AnswerQuiz(u, c, answer, right) => AnswerStep(s, u, c, answer, right)
    case Buy(u, product, platform, tx) => BuyStep(s, u, product, platform, tx)
    case CheckIn(u, day) => CheckInStep(s, u, day)
    case RevealTile(u, secret, tile) => RevealStep(s, u, secret, tile)
    case ChangePicture(secret) => ChangeStep(s, secret)
    case Spend(u, amount) => SpendStep(s, u, amount)
    case DungeonMove(u) => SpendStep(s, u, 1)
    case Pay(g) => PayStep(s, g)
    case Crash(g) => CrashStep(s, g)
  }

  // ----- Sums over the tables and the history -----------------------------------------------

  function Bought(ps: seq<Purchase>, u: User): nat {
    if ps == [] then 0 else Bought(Init(ps), u) + if Last(ps).user == u then Last(ps).points else 0
  }

  function BoughtStars(ps: seq<Purchase>, u: User): nat {
    if ps == [] then 0 else BoughtStars(Init(ps), u) + if Last(ps).user == u then Last(ps).stars else 0
  }

  function Spent(xs: seq<(User, nat)>, u: User): nat {
    if xs == [] then 0 else Spent(Init(xs), u) + if Last(xs).0 == u then Last(xs).1 else 0
  }

  function CompletedBy(u: User): Results.Row -> int {
    (r: Results.Row) => if r.user == u && r.status == Completed then 1 else 0
  }

  /** The quizzes a user answered rightly, by the verdict of the time. */
  function RightAnswersOf(verdicts: map<(User, string), bool>, u: User): set<(User, string)> {
    set k | k in verdicts && k.0 == u && verdicts[k]
  }

  function CheckInsOf(checkins: set<(User, int)>, u: User): set<(User, int)> {
    set k | k in checkins && k.0 == u
  }

  function ClosedBy(closings: seq<(User, string)>, u: User): nat {
    if closings == [] then 0 else ClosedBy(Init(closings), u) + if Last(closings).0 == u then 1 else 0
  }

  function Due(g: Grant, u: User): nat {
    if g.user == u then Amount(g) else 0
  }

  ghost function PickGrant(m: multiset<Grant>): (g: Grant)
    requires m != multiset{}
    ensures g in m
  {
    var g :| g in m; g
  }

  /** What grants that are in flight or lost would have paid a user. */
  ghost function Owed(m: multiset<Grant>, u: User): nat
    decreases |m|
  {
    if m == multiset{} then 0
    else
      var g := PickGrant(m);
      Owed(m - multiset{g}, u) + Due(g, u)
  }

  /** What a user has bought and earned quizzes apart, less what is owed and what was spent. */
  ghost function NetBesideQuizzes(s: State, u: User): int {
    Bought(s.db.purchases, u)
    + Results.Sum(s.db.results, CompletedBy(u))
    + |CheckInsOf(s.db.checkins, u)| + HiddenSecret.POINTS_REWARD * ClosedBy(s.closings, u)
    - Owed(s.pending + s.lost, u) - Spent(s.spent, u)
  }

  ghost function Net(s: State, u: User): int {
    NetBesideQuizzes(s, u) + |RightAnswersOf(s.verdicts, u)|
  }

  // ----- The invariants ------------------------------------------------------------------------

  /** One user's balance is what the tables add up to, and so are the user's bonus stars. */
  ghost predicate InBalance(opening: DB, s: State, u: User) {
    && u in s.db.points && u in s.db.bonusStars && u in opening.points && u in opening.bonusStars
    && s.db.points[u] >= 0
    && s.db.points[u] == opening.points[u] + Net(s, u)
    && s.db.bonusStars[u] == opening.bonusStars[u] + BoughtStars(s.db.purchases, u)
  }

  ghost predicate Balanced(opening: DB, s: State) {
    && s.db.points.Keys == s.db.bonusStars.Keys == s.db.score.Keys == opening.points.Keys
    && opening.bonusStars.Keys == opening.points.Keys
    && forall u :: u in s.db.points ==> InBalance(opening, s, u)
  }

  /** The denormalised leaderboard score agrees with the results. */
  ghost predicate Scored(s: State) {
    && Results.Sound(s.db.results)
    && forall u :: u in s.db.score ==> s.db.score[u] == Results.Score(s.db.results, u)
  }

  /** What earned a grant has taken place. */
  ghost predicate Earned(s: State, g: Grant) {
    match g
    case ForChallenge(u, c) => Results.IsCompleted(s.db.results, u, c)
    case ForCheckIn(u, day) => (u, day) in s.db.checkins
    case ForSecret(u, secret, nth) => 1 <= nth <= Closings(s, u, secret)
  }

  /** Every earned grant is accounted for exactly once: paid, in flight, or lost in a crash. */
  ghost predicate Conserved(s: State) {
    forall g :: (multiset(s.paid) + s.pending + s.lost)[g] == if Earned(s, g) then 1 else 0
  }

  /** Purchases are recorded once, with the catalogue's reward. */
  ghost predicate PurchasesSound(ps: seq<Purchase>) {
    && (forall i, j :: 0 <= i < j < |ps| ==> ps[i].platform != ps[j].platform || ps[i].tx != ps[j].tx)
    && (forall i :: 0 <= i < |ps| ==> var p := ps[i]; RewardFor(p.product) == Some(Reward(p.points, p.stars)))
  }

  /** The user has an answer to the quiz on record. */
  ghost predicate OnRecord(s: State, u: User, c: string) {
    exists a :: Results.HasAnswered(s.db.results, u, c, a)
  }

  /** Exactly the answers on record have had a verdict, which paid or did not. */
  ghost predicate PaidWithEvent(s: State) {
    PurchasesSound(s.db.purchases) && forall u, c :: (u, c) in s.verdicts <==> OnRecord(s, u, c)
  }
}
