# Verification of the jigsaw backend

A Dafny model of the stateful rules of the jigsaw puzzle backend, with proofs of what those
rules guarantee over whole runs. `dafny verify dfyconfig.toml` checks everything.

Each component has its rules as functions on values, the lemmas about them, and, where the
program updates tables or fields in place, a class whose methods are proved to have exactly
the effect those functions describe.

| file | what it models |
|---|---|
| `TokenBucket.dfy`, `RateLimiting.dfy` | the per-client token-bucket limiter: one bucket, then many clients with background eviction, then the mutable object |
| `DungeonLayout.dfy`, `DungeonGame.dfy`, `DungeonRuns.dfy`, `DungeonRaces.dfy`, `DungeonStore.dfy` | dungeon maps and their validation; a player's moves, retreats, fights and completion; what holds over runs; requests split at their store calls while the map is replaced; the transactions over the tables |
| `Tiers.dfy`, `Campaign.dfy`, `CampaignRuns.dfy`, `CampaignRequests.dfy`, `CampaignEdits.dfy`, `CampaignRaces.dfy`, `CampaignStore.dfy` | the star ladder of the expedition; its requests; what holds over runs; what each request does and what runs pay; which edits can lock a level; its requests split at their store calls and interleaved; the handlers and the campaign view |
| `Levels.dfy` | experience points and levels |
| `Results.dfy`, `Ledger.dfy`, `LedgerEvents.dfy`, `LedgerRuns.dfy`, `LedgerBalance.dfy`, `PointsStore.dfy` | challenge results and scores; everything that earns or spends unlock points, with crashes and edits of challenges; what each event does; what every interleaving keeps of scores, grants and purchases; and of the balances; the transactions |
| `Leaderboard.dfy` | ranks and the leaderboard |
| `HiddenSecret.dfy`, `SecretRaces.dfy` | the reveal board; reveals split at their store calls while the picture is changed |
| `Stories.dfy`, `CheckIn.dfy`, `Paging.dfy` | sequential stories, the check-in calendar, page windows |
| `Interleavings.dfy` | runs of atomic steps of any system, and what holds throughout them |
| `Prelude.dfy` | optional values and results, ends of sequences, pigeonhole and counting lemmas |

## Conventions and assumptions

- One committed or rolled-back transaction, or one single-statement query, is one atomic
  step. In the ledger a handler is split at every call that changes points, steps of
  different requests interleave freely, and the later step may be lost in a crash; what a
  handler read from a challenge may have been edited since. Elsewhere a request is one step,
  save in `CampaignRaces`, `DungeonRaces` and `SecretRaces`: there the requests of players and
  admins are split between their last read and their write, and anything may come in between.
  Each of the three proves exactly which interleavings keep what the one-step model promises.
- Tokens and rates are real numbers and integers are unbounded: floating-point rounding and
  machine overflow are not modelled. Go's truncation of a float to nanoseconds and
  `Duration.Round` are modelled exactly. A call reads the clock once, and the clock of a
  limiter never runs backwards.
- Tables are sequences, sets or maps; a guarded `UPDATE` is a conditional step, and
  `ON CONFLICT DO NOTHING` is insert-if-absent. Verified store transaction ids, image
  existence and generated ids are inputs. Dates are day numbers.
- `Ledger.State` carries, beside the tables, the payments in flight and a history of what was
  paid, lost, spent and completed, which the invariants relate to the tables; the steps never
  read it except to pay what is in flight and to number a user's completions of one picture.
  Points are spent by the spending request and by dungeon moves, one point each.

## Where the code differs from what is said about it

- `retryAfter` is described as rounding up to a whole second, but `Duration.Round` rounds to
  the nearest: a client that follows the advice to the nanosecond can be refused again
  (`TokenBucket.AdviceFallsShort`). `TokenBucket.AdviceAloneAdmits` says exactly when the
  advice is enough, and one second more always is.
- Eviction is meant never to reset a client early. It does reset clients of a limiter whose
  rate is not positive, and of no other (`RateLimiting.EvictionInvisibleExactly`).
- The admin level list allocates a list of negative capacity, and so panics, for a page
  that starts beyond the end of the campaign (`Paging.AdminWindowIsPage`).
- A rejected call refreshes its bucket's last-seen time and so postpones eviction. With a
  positive rate nobody can tell; without one, erasing a rejected call turns a later rejection
  into an admission (`RateLimiting.RejectionPostponesEviction`, `ErasureIsFreeExactly`).
- An unlocked level is meant to stay unlocked. No request but an edit of a level's
  configuration can lock a level that is never deleted (`CampaignRuns.NeverRelocks`); one that
  is deleted and appended again can come back locked (`CampaignEdits.ReplacedLevelLocks`). An
  edit can lock a level exactly if it puts
  a level on the map, changes the stars of a map level, or leaves the level in a collection
  with fewer stars than it had, but for three edits too near an end of the campaign to matter
  (`CampaignEdits.SafeEdit`, `CampaignEdits.SafeEditsExactly`).
- The cap of 1000 levels is checked one call before the level is appended: k creates in flight
  at once can bring the campaign to 999 + k levels, and no more (`CampaignRaces.CapOutgrownBy`,
  `CapReached`, `CapKeptExactly`).
- A quiz answer is judged by the right option its handler read, once. Editing the challenge
  later does not take the point back, so the challenges as they are account for the balances
  only while no edit turns a verdict on record (`LedgerBalance.CatalogueAccountsExactly`).
- A move, a defeat or a completion reads the map before its transaction. Replacing the map in
  between can leave the player off the new map's rules (`DungeonRaces.LateMove`);
  `DungeonRaces.UndisturbedExactly` says which replacements cannot.
- A reveal reads the secret before its transaction. Changing the picture in between can open a
  shutter of the new picture with a puzzle of the old one (`SecretRaces.LateReveal`), and
  nothing else can (`SecretRaces.RevealsFitExactly`).
- A deletion between the check and the write of a start of the deleted level leaves progress on
  a level that is not there (`CampaignRaces.LateStart`), and one between those of an edit can
  bring the level back or, after two deletions, leave a gap in the numbering (`LateEditGap`,
  `LateEdit`). Nothing else can (`StartsLandExactly`, `EditsLandExactly`).
- The migration that created the dungeon tables speaks of a 6x6 grid; the validator uses 6
  columns and 8 rows, and so does the model.

## Model

| member | source | states |
|---|---|---|
| TokenBucket.NewConfig | internal/httpx/ratelimit.go:44-63 | the capacity is at least one token and the idle window at least ten minutes, whatever was asked for |
| TokenBucket.IdleWindow | internal/httpx/ratelimit.go:53-63 | the idle window is a full refill cut to nanoseconds when that exceeds ten minutes, and ten minutes in every other case, a rate of zero included |
| TokenBucket.RoundToSecond | internal/httpx/ratelimit.go:130 | the advice is a whole number of seconds within half a second of the wait, halves going up |
| TokenBucket.BalanceIsTightestSlack | internal/httpx/ratelimit.go:104-115 | while nothing is rejected, the balance is the minimum over all stretches of arrivals ending now of burst plus accrual minus calls |
| TokenBucket.ExactAdmission | internal/httpx/ratelimit.go:93-117 | for any arrival times, none is rejected if and only if every stretch of consecutive arrivals has at most burst plus rate times duration calls |
| TokenBucket.BalanceBounds | internal/httpx/ratelimit.go:104-115 | on every trace, rejections included, a balance lies between zero and the burst |
| TokenBucket.WindowBound | internal/httpx/ratelimit.go:93-117 | on every trace the calls admitted in any time window number at most burst plus rate times the window |
| TokenBucket.RejectionIsFree | internal/httpx/ratelimit.go:104-114 | on one bucket that is never evicted, erasing a rejected call changes no later decision, advice or balance |
| TokenBucket.AdmittedAfterWait | internal/httpx/ratelimit.go:104-131 | after a rejection, and any further rejected calls, a call is admitted exactly when the missing part of a token has accrued since |
| TokenBucket.AdviceNearTrueWait | internal/httpx/ratelimit.go:119-131 | the advice is a whole number of seconds, at least one, below the true wait by less than half a second and a nanosecond, and above it by at most half a second unless it is the one-second minimum |
| TokenBucket.AdviceWithoutRate | internal/httpx/ratelimit.go:119-126 | a bucket that never refills is advised to wait sixty seconds |
| TokenBucket.AdvicePlusASecondAdmits | internal/httpx/ratelimit.go:119-131 | waiting the advised time and one second more, with no admission in between, always admits |
| TokenBucket.AdviceAloneAdmits | internal/httpx/ratelimit.go:119-131 | waiting exactly the advised time admits if and only if the true wait is under a second, a whole number of seconds, or has at least half a second over |
| TokenBucket.AdviceFallsShort | internal/httpx/ratelimit.go:119-131 | a limiter and two calls after which a client that follows its advice is refused again |
| RateLimiting.TtlCoversRefill | internal/httpx/ratelimit.go:56-63 | a client idle for longer than the window has refilled completely, truncation notwithstanding |
| RateLimiting.EvictionInvisible | internal/httpx/ratelimit.go:78-117 | with a positive rate, no interleaving of sweeps with calls of any clients changes a decision or its advice |
| RateLimiting.EvictionInvisibleExactly | internal/httpx/ratelimit.go:53-63 | sweeps are unobservable on all traces if and only if the rate is positive |
| RateLimiting.DecidedByOwnArrivals | internal/httpx/ratelimit.go:93-117 | each decision of the whole limiter depends only on the arrival times of the calling client |
| RateLimiting.ErasureIsFreeExactly | internal/httpx/ratelimit.go:78-117 | in a limiter with sweeps, erasing a rejected call, or any call of another client, changes no later decision on any trace if and only if the rate is positive |
| RateLimiting.RejectionPostponesEviction | internal/httpx/ratelimit.go:78-117 | for every rate that is not positive, a trace on which erasing a rejected call turns a later rejection into an admission |
| RateLimiting.SweepsExactly | internal/httpx/ratelimit.go:78-89 | a sweep deletes exactly the buckets unseen for longer than the window |
| RateLimiting.ClientAdviceNearTrueWait | internal/httpx/ratelimit.go:93-131 | in a limiter with sweeps and other clients, every advice is that near the client's true wait |
| RateLimiting.ClientAdviceWithoutRate | internal/httpx/ratelimit.go:119-126 | without a positive rate every rejection, on any trace, advises sixty seconds |
| RateLimiting.ClientAdmittedAfterWait | internal/httpx/ratelimit.go:93-131 | in a limiter with sweeps and other clients, a rejected client that calls again, perhaps after further rejections, is admitted exactly when the missing part of a token has accrued |
| RateLimiting.ClientAdvicePlusASecond | internal/httpx/ratelimit.go:93-131 | whatever sweeps and other clients do, waiting the advised time and one second more admits |
| RateLimiting.ClientAdviceAlone | internal/httpx/ratelimit.go:93-131 | whatever sweeps and other clients do, waiting exactly the advised time admits if and only if the true wait is one that rounding does not cut short |
| RateLimiting.ClientExactAdmission | internal/httpx/ratelimit.go:78-117 | in a limiter with sweeps and other clients, a client is never refused if and only if its own arrivals conform to burst and rate |
| RateLimiting.ClientWindowBound | internal/httpx/ratelimit.go:78-117 | in a limiter with sweeps and other clients, a client gets at most burst plus rate times window calls through in any window |
| RateLimiting.RateLimiter.constructor | internal/httpx/ratelimit.go:44-76 | a new limiter has no clients and the settings analysed above |
| RateLimiting.RateLimiter.Cleanup | internal/httpx/ratelimit.go:78-89 | deletes exactly the clients idle for longer than the window and leaves the other buckets as they are |
| RateLimiting.RateLimiter.Allow | internal/httpx/ratelimit.go:93-117 | takes the decision of the bucket model and leaves every other client's bucket untouched |
| RateLimiting.RateLimiter.Refill | internal/httpx/ratelimit.go:104-110 | brings a bucket to its refilled, capped level in place |
| DungeonLayout.AdjacentExactly | internal/models/dungeon.go:150-165 | two cells are one step apart exactly if they share a side |
| DungeonLayout.RoadWithinGrid | internal/models/dungeon.go:178-208 | the grid is eight rows by six columns, so a valid road has at most 48 cells |
| DungeonLayout.ValidateDungeonLayout | internal/models/dungeon.go:178-249 | accepts exactly the layouts with a self-avoiding connected road from start to treasure and 1 to 20 monsters on distinct inner road cells; any error it returns names a defect that is there |
| DungeonLayout.ValidatePath | internal/models/dungeon.go:189-201 | the single pass with a seen set accepts exactly the duplicate-free, in-bounds, step-by-step roads |
| DungeonLayout.ValidateMonsters | internal/models/dungeon.go:209-235 | the single pass over the monsters accepts exactly the well-placed ones |
| DungeonGame.CountTestMeansAllDefeated | internal/repository/dungeon.go:581-593 | for every consistent progress, having as many defeats as monsters is the same as having defeated every monster |
| DungeonGame.InvariantKept | internal/repository/dungeon.go:296-619 | each operation keeps: position and previous cell adjacent and on the road, visited cells distinct, starting at the start and connected, defeats distinct, current and on visited cells, completion only with everything defeated and the treasure seen |
| DungeonGame.InvariantAlwaysHolds | internal/repository/dungeon.go:296-619 | that invariant in every reachable state |
| DungeonGame.MovesExactly | internal/repository/dungeon.go:296-380 | a move goes through exactly on an active, uncompleted dungeon, to a road cell one step away, with a point to spend; it takes the point, the step and the discovery and changes nothing else |
| DungeonGame.RetreatsExactly | internal/repository/dungeon.go:413-454 | a retreat goes back to the cell before if there is one, completed dungeon or not, and changes nothing else |
| DungeonGame.DefeatsExactly | internal/repository/dungeon.go:472-534 | a defeat is recorded exactly for an undefeated monster on the player's cell, and changes nothing else |
| DungeonGame.RetreatUndoesMove | internal/repository/dungeon.go:375-380 | a retreat after a move restores the position, but refunds nothing and keeps the cell discovered |
| DungeonGame.CompletesExactly | internal/repository/dungeon.go:573-593 | in consistent states completion succeeds if and only if the player stands at the treasure, uncompleted, with every monster beaten, and then sets the flag alone |
| DungeonGame.RewardedOnce | internal/repository/dungeon.go:573-600 | over any run between two layout changes completion is final and its reward is paid once, exactly when the run completes the dungeon |
| DungeonRuns.EnergyAccounting | internal/repository/dungeon.go:361-373 | over any run the balance falls by one point per move that went through and by nothing else in the dungeon |
| DungeonRuns.RewardedOncePerLayout | internal/repository/dungeon.go:542-818 | over any career with layout replacements, which drop progress, a player is rewarded at most once more than the layout was replaced |
| DungeonRuns.RetreatTwiceIsOnce | internal/repository/dungeon.go:443-454 | two retreats in a row do what one does, and cost nothing |
| DungeonRuns.VisitingIsPaid | internal/repository/dungeon.go:361-454 | since the last layout change, each cell beyond the start was paid for and effective retreats never outnumber paid moves |
| DungeonRuns.CompletionCost | internal/repository/dungeon.go:577-593 | however it is played, completing a dungeon has cost at least one point more than it has monsters |
| DungeonRuns.Frozen | internal/repository/dungeon.go:302-355 | in a completed or inactive dungeon no run makes a paid move or discovers anything, and a completed one changes no defeats either |
| DungeonRuns.AlwaysFinishable | internal/repository/dungeon.go:296-619 | from every consistent uncompleted state of an active dungeon with n road cells, some plan in which nothing is refused completes it for at most 2(n-1) points |
| DungeonRuns.FinishableFromTheStart | internal/repository/dungeon.go:296-619 | a player who has not moved completes it for exactly n-1 points |
| DungeonRuns.ReachableFinishable | internal/repository/dungeon.go:296-619 | the same from whatever state any run has led to |
| DungeonRaces.SafeExactly | internal/repository/dungeon.go:296-619 | on a given map, a request that read an earlier one keeps every consistent player consistent if and only if it is harmless, a condition on roads, starts, treasures and monsters alone |
| DungeonRaces.UndisturbedExactly | internal/repository/dungeon.go:296-818 | in every interleaving of moves, defeats, completions and replacements of the map, the player stays consistent and no request in flight can change that, wherever the player were, if and only if the map is never replaced by one on which a request in flight is not harmless |
| DungeonRaces.LateMove | internal/repository/dungeon.go:302-380 | a first move that lands after the map has got another start leaves the player inconsistent with it |
| DungeonRaces.MoveInOneGo | internal/repository/dungeon.go:296-408 | a move not interrupted between its read and its transaction is the move of the model |
| DungeonRaces.BeatInOneGo | internal/repository/dungeon.go:472-534 | a defeat not interrupted between its read and its transaction is the defeat of the model |
| DungeonRaces.FinishInOneGo | internal/repository/dungeon.go:542-619 | a completion not interrupted between its read and its transaction is the completion of the model |
| DungeonStore.AcceptedIsPlayable | internal/api/admin_dungeons.go:83-113 | whatever validation accepts satisfies everything the results about play rely on |
| DungeonStore.Store.AppendCellDedup | internal/repository/dungeon.go:175-182 | appends a cell exactly if it is not there yet |
| DungeonStore.Store.MoveDungeon | internal/repository/dungeon.go:296-408 | performs the move or refuses it with the right error, changing only this player's row and balance, and reports the undefeated monster met; keeps all tables consistent |
| DungeonStore.Store.RetreatDungeon | internal/repository/dungeon.go:413-467 | steps back or stays, changing only this player's row, at no cost |
| DungeonStore.Store.CompleteDungeonMonster | internal/repository/dungeon.go:472-534 | records the defeat or refuses it with the right error, changing only this player's row |
| DungeonStore.Store.CompleteDungeon | internal/repository/dungeon.go:542-619 | completes or refuses with the right error; the dungeon's treasure picture is then in the gallery unless one was there before, which stays, and nobody else's entry changes; every completed dungeon with a picture keeps its entry |
| DungeonStore.Store.UpdateDungeon | internal/repository/dungeon.go:772-818 | replaces a dungeon exactly if the submission is acceptable, and then drops all progress in it and in no other |
| DungeonStore.Store.CreateDungeon | internal/repository/dungeon.go:735-767 | adds a dungeon exactly if the submission is acceptable |
| DungeonStore.Store.ValidateRequest | internal/api/admin_dungeons.go:66-114 | lets through exactly the acceptable submissions, with a title, rewards in range, a sound layout and pictures that exist, and hands on playable dungeons |
| Levels.ThresholdClosedForm | internal/models/models.go:46-53 | the level-ups before level L cost 100(L-1)L(2L-1)/6 in all |
| Levels.LevelFromXP | internal/models/models.go:57-69 | the loop returns a level in 1..100 and a remainder with xp equal to the level's threshold plus the remainder, below the next cost except at the top |
| Levels.StandingUnique | internal/models/models.go:57-69 | no total has two such decompositions |
| Levels.StandingMonotone | internal/models/models.go:57-69 | more experience never means a lower level |
| Levels.ReachedExactlyAtThreshold | internal/models/models.go:57-69 | each level is reached at its cumulative cost and not a point before |
| Tiers.BandsOfTwenty | internal/models/expedition.go:28-51 | the default tiers: five bands of twenty levels with their stars, grids, times, names and rewards |
| Tiers.EffectiveFields | internal/models/expedition.go:77-104 | field by field, what is configured replaces the default and what is not leaves it |
| Tiers.RequiredRises | internal/models/expedition.go:114-123 | the ladder starts at nothing and rises at each level by its stars, if it is on the map |
| Tiers.EffectiveTier | internal/models/expedition.go:77-104 | each configured field replaces its default, and no other field changes |
| Tiers.RequiredStars | internal/models/expedition.go:55-61 | the loop has a five-piece linear closed form, 200 + 5(i-81) from level 81 on |
| Tiers.RequiredStarsFromTiers | internal/models/expedition.go:114-123 | the loop computes the star ladder all results below are about |
| Tiers.DefaultsAgree | internal/models/expedition.go:55-61 | without overrides both requirements coincide at every level |
| Tiers.RequiredMonotone | internal/models/expedition.go:114-123 | a later level never requires less than an earlier one |
| Tiers.PrefixPaysForNext | internal/models/expedition.go:106-123 | completing all map levels before a level earns at least the stars it requires |
| Tiers.TallyIsEarned | internal/repository/expedition.go:320-326 | adding up completed levels in any order gives the sum over the ladder |
| Campaign.SoundKept | internal/api/expedition.go:184-205 | every request that is not interrupted between check and write keeps the level rows exactly 1..N with 1 <= N <= 1000, stars in 1..5 and all progress within 1..N |
| Campaign.AddKeeps | internal/repository/expedition.go:125-137 | appending keeps the numbering gapless and adds one level |
| Campaign.DeleteKeeps | internal/repository/expedition.go:143-182 | a permitted deletion keeps the numbering gapless, removes one level and orphans no progress |
| Campaign.PicturesKept | internal/api/expedition.go:249-253 | no level without a picture is ever begun |
| CampaignRuns.LowestUncompletedIsOpen | internal/api/expedition.go:240-248 | a player with all map levels below a level completed passes its gate on earned stars alone |
| CampaignRuns.NeverDeadlocked | internal/api/expedition.go:240-306 | after any run of any requests, admin edits included, the lowest uncompleted map level is open |
| CampaignRuns.LevelPlayable | internal/api/expedition.go:219-352 | an open level with a picture is completed by a start and a completion that are both accepted, and nothing else becomes completed |
| CampaignRuns.CampaignCompletable | internal/api/expedition.go:219-352 | from wherever any run has led, each player can alone complete every level once all have pictures, no request being refused |
| CampaignRuns.PaidOnce | internal/repository/expedition.go:359-375 | over any run completion is final, and a level's experience falls due to a user once, exactly if the run completed it |
| CampaignRuns.BegunByStart | internal/repository/expedition.go:337-375 | nobody gets progress on a level, let alone completes it, without a start request that was accepted |
| CampaignRuns.StarsNeverFall | internal/repository/expedition.go:311-335 | no request but a configuration edit lowers anyone's stars |
| CampaignRuns.StaysUnlocked | internal/api/expedition.go:240-248 | no single request but a configuration edit locks an open level that still exists |
| CampaignRuns.NeverRelocks | internal/api/expedition.go:240-248 | over any run without configuration edits, an open level that is never deleted stays there and open |
| CampaignRequests.ExperienceIsEarned | internal/api/expedition.go:325-335 | over any run a user's experience rises by exactly the sum of what the levels it completed were worth, each at the request that completed it |
| CampaignRequests.FinishedPays | internal/api/expedition.go:310-335 | a completing transition pays its user the level's effective reward, and nobody else anything |
| CampaignRequests.FinishedRow | internal/repository/expedition.go:359-375 | a row in progress, and no other, becomes completed with the time given and the better piece count, partial counts being credited as claimed and others as the full grid |
| CampaignRequests.CompletionPaysStars | internal/repository/expedition.go:311-335 | completing a level raises its user's total by exactly its effective stars |
| CampaignRequests.StartsExactly | internal/api/expedition.go:219-260 | a start is accepted exactly on an existing, open level with a picture, and otherwise told why not |
| CampaignRequests.StartedRow | internal/repository/expedition.go:337-352 | the level is in progress afterwards unless it was completed, and a retry keeps the row's time and pieces |
| CampaignRequests.AbandonedRow | internal/repository/expedition.go:377-390 | a row in progress, and no other, becomes failed with the better piece count |
| CampaignRequests.AddsExactly | internal/repository/expedition.go:125-137 | an appended level has no picture and the default tier of its index |
| CampaignRequests.DeletesExactly | internal/repository/expedition.go:143-182 | exactly the last level, not the first, and not begun by anyone can be deleted; otherwise why not |
| CampaignRequests.ConfiguresExactly | internal/api/expedition.go:658-720 | an edit is accepted exactly within the ranges, sets every field of the tier, puts the level on the map if the flag was not sent, and keeps picture and other levels |
| CampaignRequests.UploadsExactly | internal/api/expedition.go:604-626 | an upload sets the picture of an existing level and nothing else |
| CampaignRequests.BuysExactly | internal/repository/purchases.go:30-94 | bought stars raise the buyer's total by their number, and nobody else's |
| CampaignEdits.ReplacedLevelLocks | internal/api/expedition.go:562-588 | a campaign whose open last level is locked once it has been deleted and appended again |
| CampaignEdits.SafeEditsExactly | internal/api/expedition.go:658-720 | an edit of a level keeps every open level open, in every campaign, for every user, if and only if it is safe, a condition on the level's tier before and after |
| CampaignEdits.SafeEditKeepsOpen | internal/api/expedition.go:658-720 | a safe edit keeps an open level open, whatever the other levels and the player's progress are |
| CampaignEdits.UnsafeEditLocks | internal/api/expedition.go:658-720 | for each edit that is not safe, a sound campaign, a player and an open level that it locks |
| CampaignEdits.EditMoves | internal/repository/expedition.go:311-335 | an edit of level j moves the requirement of later levels by the change of its map stars, and the total of those who completed it by the change of its stars |
| CampaignRaces.CreateInOneGo | internal/api/expedition.go:521-545 | a create whose check and append are not interrupted is the campaign's request |
| CampaignRaces.StartInOneGo | internal/api/expedition.go:219-266 | a start whose last check and insert are not interrupted is the campaign's request |
| CampaignRaces.EditInOneGo | internal/api/expedition.go:606-720 | an image or configuration edit whose check and write are not interrupted is the campaign's request |
| CampaignRaces.ClosedIsFinished | internal/repository/expedition.go:359-375 | the guarded update of a completion writes what the request writes |
| CampaignRaces.DeletionIsTheRequest | internal/repository/expedition.go:143-182 | the store's guarded deletion is the campaign's request |
| CampaignRaces.StartsLandExactly | internal/repository/expedition.go:337-352 | in every interleaving, progress stays on existing levels and no start in flight can change that, if and only if no level is deleted between the check and the insert of its start |
| CampaignRaces.LateStart | internal/repository/expedition.go:143-182 | in every site whose last level can be deleted, a start, the deletion and the insert leave progress on a missing level |
| CampaignRaces.EditsLandExactly | internal/repository/expedition.go:108-182 | in every interleaving, the rows stay exactly 1..N and no edit in flight can add one, if and only if no level is deleted between the check and the write of its edit; creates and starts never matter |
| CampaignRaces.LateEditGap | internal/repository/expedition.go:203-219 | an edit landing on N levels keeps the numbering gapless if and only if its level is at most N + 1 |
| CampaignRaces.LateEdit | internal/repository/expedition.go:203-219 | two deletions while an edit of the last level is in flight leave a gap |
| CampaignRaces.CapOutgrownBy | internal/api/expedition.go:521-545 | in every interleaving that cuts no edit short, the levels never number more than 999 plus the creates that were in flight at once |
| CampaignRaces.CapReached | internal/api/expedition.go:521-545 | that bound is reached for every number of creates |
| CampaignRaces.CapKeptExactly | internal/api/expedition.go:521-545 | with up to k creates in flight the cap of 1000 holds on all runs if and only if k is at most 1 |
| CampaignRaces.SoundThroughout | internal/api/expedition.go:184-720 | without overlapping creates and deletions that cut a start or an edit short, every interleaving keeps the rows 1..N with N <= 1000, stars in 1..5 and progress within 1..N |
| CampaignStore.BuildExpeditionState | internal/api/expedition.go:56-132 | the one-pass running sum shows each level with the requirement and lock the gate computes from scratch, and the counters count completed map levels only |
| CampaignStore.ViewExactly | internal/api/expedition.go:61-112 | what a level is shown as: requirement, lock, status and stars |
| CampaignStore.TotalIsShown | internal/api/expedition.go:56-132 | the total shown is the sum of the stars shown on the levels and the bonus stars |
| CampaignStore.CountersExactly | internal/api/expedition.go:87-124 | the counters are the number of map levels and of completed ones among them |
| CampaignStore.ClearedAtMostAll | internal/api/expedition.go:113-124 | completed map levels never outnumber map levels, and equal them only when all are completed |
| CampaignStore.ShownUnlockedExactly | internal/api/expedition.go:61-90 | a level is shown unlocked if and only if starting and completing it are not refused for want of stars |
| CampaignStore.Store.constructor | internal/database/migrations/0005_expedition.sql:9-12 | the seeded campaign is sound and has the seeded number of levels, all with default tiers and no pictures |
| CampaignStore.Store.ExpeditionLevelCount | internal/repository/expedition.go:111-119 | the highest index present |
| CampaignStore.Store.EffectiveTiers | internal/repository/expedition.go:186-201 | the loop over 1..count tabulates the tier of every existing level |
| CampaignStore.Store.TotalExpeditionStars | internal/repository/expedition.go:311-335 | stars of all completed levels, collection levels included, plus bonus stars, whatever order the rows come in |
| CampaignStore.Store.PassesGate | internal/api/expedition.go:244-248 | the handlers' check is the gate of the model |
| CampaignStore.Store.HandleCreateLevel | internal/api/expedition.go:521-545 | performs the request on the tables or refuses it with the right reason |
| CampaignStore.Store.HandleDeleteLevel | internal/api/expedition.go:562-588 | performs the request on the tables or refuses it with the right reason |
| CampaignStore.Store.HandleUpload | internal/api/expedition.go:604-626 | performs the request on the tables or refuses it with the right reason |
| CampaignStore.Store.HandleConfigure | internal/api/expedition.go:658-720 | performs the request on the tables or refuses it with the right reason |
| CampaignStore.Store.HandleStart | internal/api/expedition.go:219-266 | performs the request on the tables or refuses it with the right reason |
| CampaignStore.Store.HandleComplete | internal/api/expedition.go:281-352 | performs the request on the tables or refuses it with the right reason; returns the experience it paid, which is the level's effective reward exactly if the call completed it |
| CampaignStore.Store.HandleFail | internal/api/expedition.go:378-407 | performs the request on the tables or refuses it with the right reason |
| CampaignStore.Store.CompleteExpeditionLevel | internal/repository/expedition.go:359-375 | only a row in progress completes, and only then is a first completion reported |
| Results.StartsExactly | internal/repository/results.go:44-58 | a start adds a row in progress exactly if the user has none for the challenge, and changes no other |
| Results.FinishesExactly | internal/repository/results.go:60-139 | a challenge in progress, and no other, is finished, with the given status and pieces and, if completed, the given time; no other row changes |
| Results.AnswersExactly | internal/repository/results.go:149-166 | a completed challenge without an answer, and no other, takes one; no other row changes |
| Results.FinishScores | internal/repository/results.go:97-139 | a transition raises the user's sum of pieces by exactly the pieces it records, and nobody else's |
| Results.FinishedNeverChanges | internal/repository/results.go:44-89 | no operation alters a finished result except to record its one quiz answer |
| Results.AnswerRecords | internal/repository/results.go:149-166 | an answer is recorded only if there was none, and changes no completion |
| LedgerEvents.CompletesChallenge | internal/api/challenges.go:240-274 | completing a challenge in progress records time and pieces, scores the pieces and owes its point |
| LedgerEvents.FailsChallenge | internal/repository/results.go:78-95 | failing one in progress records it, scores the pieces claimed and owes nothing |
| LedgerEvents.NothingToFinish | internal/repository/results.go:97-139 | one that is not in progress is neither completed nor failed |
| LedgerEvents.CreditWithinGrid | internal/api/challenges.go:231-239 | the pieces credited are those claimed if there are between one and a full grid of them, and else a full grid |
| LedgerEvents.AnswersChallenge | internal/repository/results.go:149-196 | a first answer is recorded with its verdict and pays a point exactly if right |
| LedgerEvents.BuysExactly | internal/repository/purchases.go:30-94 | a new transaction for one of the three listed products is recorded and credited with what the product is worth; any other purchase does nothing |
| LedgerEvents.ChecksInExactly | internal/repository/checkin.go:15-34 | a check-in on a new day is recorded and owes a point, on a recorded one it does nothing |
| LedgerEvents.RevealsExactly | internal/repository/hidden_secret.go:175-256 | a reveal opens a closed shutter of an uncompleted board, and owes the reward exactly with the ninth |
| LedgerEvents.SpendsExactly | internal/repository/checkin.go:67-88 | spending takes the amount, or one point if none is named, exactly from a balance that covers it |
| LedgerEvents.PaysExactly | internal/repository/checkin.go:39-53 | a grant pays five points for a picture and one otherwise |
| LedgerBalance.AlwaysBalanced | internal/repository/checkin.go:36-88 | over every interleaving, with crashes, no balance is negative and each is what the tables add up to: opening balance, purchases, a point per completed challenge, first answer judged right when it was given and day checked in, the reward of every board completed, minus what was spent and what is in flight or was lost in a crash; bonus stars are opening plus bought |
| LedgerRuns.AlwaysScored | internal/repository/results.go:60-66 | in every reachable state the stored score, which the leaderboard reads, is the sum of the pieces of the user's results, which the statistics page adds up |
| LedgerBalance.CatalogueAccountsExactly | internal/repository/challenges.go:100-175 | the challenges as they are now account for every balance at every point of a run, with no verdict remembered, if and only if no edit turns the verdict on an answer on record and none is recorded with a verdict the challenge no longer gives |
| LedgerRuns.FinishedForGood | internal/repository/results.go:44-62 | a finished result stays as it is through every continuation, but for its quiz answer |
| LedgerRuns.AlwaysConserved | internal/api/challenges.go:240-274 | every challenge, check-in and picture grant ever earned is exactly once paid, in flight or lost in a crash, and none exists that was not earned |
| LedgerRuns.AlwaysPaidWithEvent | internal/repository/results.go:141-196 | over every interleaving, with edits of challenges, store transactions are on record once with the catalogue's reward, and exactly the quiz answers on record have had a verdict, one each, which the balance counts if it was right |
| LedgerRuns.ReplayedPurchaseIsFree | internal/repository/purchases.go:46-72 | presenting a store transaction again, by anyone and for any product, changes nothing |
| LedgerRuns.RevealInStep | internal/api/hidden_secrets.go:192-208 | a reveal owes its points exactly when it completes the board |
| LedgerRuns.CheckInInStep | internal/repository/checkin.go:15-34 | a check-in owes its point exactly when the day is new |
| PointsStore.Store.StartResult | internal/repository/results.go:47-58 | inserts a result in progress unless there is one, and returns the one there is |
| PointsStore.Store.FinishResult | internal/repository/results.go:97-139 | exactly a row in progress becomes finished with what was given, its pieces are scored in the same transaction, and no other row or score changes |
| PointsStore.Store.AnswerChallengeQuiz | internal/repository/results.go:149-196 | records a first answer to a completed challenge and pays one point exactly if it is right; returns the answer on file |
| PointsStore.Store.CreditPurchase | internal/repository/purchases.go:30-94 | credits both balances exactly if the platform's transaction is new, and otherwise changes nothing |
| PointsStore.Store.RecordCheckIn | internal/repository/checkin.go:17-27 | reports a check-in as new exactly if the day was not recorded |
| PointsStore.Store.AddUnlockPoints | internal/repository/checkin.go:39-53 | adds a positive amount and nothing else |
| PointsStore.Store.SpendUnlockPoints | internal/repository/checkin.go:67-88 | takes the amount exactly if the balance covers it, so no balance becomes negative |
| Leaderboard.GetLeaderboard | internal/repository/stats.go:77-118 | the first rows of the ordered table, numbered from 1, with levels that fit their experience |
| Leaderboard.RankCountsTheBetter | internal/repository/stats.go:55-75 | a user without a score is unranked, any other is ranked behind exactly the users with better ones |
| Leaderboard.RankMatchesPosition | internal/repository/stats.go:55-118 | a user with a positive score has a rank of at most the leaderboard position, and equal to it exactly for the first of a tie |
| HiddenSecret.RevealsExactly | internal/repository/hidden_secret.go:175-225 | a reveal opens exactly a closed shutter of an uncompleted board, completes it with the last, and otherwise is told why not |
| HiddenSecret.CompletedMeansAllRevealed | internal/repository/hidden_secret.go:224-225 | for any number of tiles, the count test holds exactly when every tile is open |
| HiddenSecret.AnyOrderCompletesOnTheLast | internal/repository/hidden_secret.go:214-225 | distinct tiles revealed in any order are never refused, and exactly the last completes the board |
| HiddenSecret.Store.CreateHiddenSecret | internal/repository/hidden_secret.go:345-361 | adds a secret that nobody has begun |
| HiddenSecret.Store.RevealTile | internal/repository/hidden_secret.go:175-256 | reveals or refuses with the right error and no change; every completed board has its gallery entry |
| HiddenSecret.Store.UpdateHiddenSecret | internal/repository/hidden_secret.go:368-415 | everyone's progress on the secret is dropped exactly if the picture changes; the gallery is kept |
| SecretRaces.AlwaysSound | internal/repository/hidden_secret.go:175-256 | in every interleaving of reveals and changes of the picture, boards stay sound and every completed one is in the gallery |
| SecretRaces.RevealsFitExactly | internal/repository/hidden_secret.go:175-415 | in every interleaving, each open shutter was solved for the present picture and no reveal in flight can change that, if and only if the picture is never changed between the read and the transaction of a reveal of another one |
| SecretRaces.GalleryKept | internal/repository/hidden_secret.go:236-244 | a gallery entry stays as it is through every interleaving |
| SecretRaces.LateReveal | internal/repository/hidden_secret.go:175-256 | a reveal that lands after the picture changed opens a shutter it was not solved for |
| SecretRaces.LandsExactly | internal/repository/hidden_secret.go:192-250 | a transaction acts on the board as it is, and puts the picture its request read into an empty gallery slot when it completes the board |
| SecretRaces.UpdatesExactly | internal/repository/hidden_secret.go:368-415 | an update covers the board exactly if the picture is another one, and never touches the gallery |
| SecretRaces.RevealInOneGo | internal/repository/hidden_secret.go:175-256 | a reveal not interrupted between its read and its transaction follows the board's rules and adds the picture to the gallery if it is the first to complete it; one of an inactive secret does nothing |
| Stories.AcceptedExactlyWhenUnlocked | internal/repository/stories.go:151-159 | completing a page is accepted if and only if the story view shows it unlocked |
| Stories.AddPageKeeps | internal/repository/stories.go:293-303 | page numbers stay gapless from 0 and progress stays a prefix when a page is added |
| Stories.CompletePageKeeps | internal/repository/stories.go:176-236 | progress stays a prefix for every user whatever page is requested |
| Stories.CompletesExactly | internal/repository/stories.go:176-236 | a page is completed exactly by a user of the story's level who has completed the page before; it is then on record, whatever it is worth, and pays the first time; otherwise why not |
| Stories.DoneIsPrefix | internal/repository/stories.go:143-164 | a user's completed pages are the first k |
| Stories.CountIsPrefix | internal/repository/stories.go:143-164 | the number of completed pages shown is the length of the completed prefix |
| Stories.ShownXPIsAwardedXP | internal/repository/stories.go:160-163 | over any run the experience shown as earned is the experience awarded |
| Stories.GateOpensAtThreshold | internal/repository/stories.go:194-204 | a story opens at its level's cumulative experience and not a point before |
| Stories.GetStory | internal/repository/stories.go:84-170 | the loop sets each flag as the rules say and sums completed pages and their experience |
| Stories.Store.AddStoryPage | internal/repository/stories.go:293-314 | appends at the next index, which is the number of pages |
| Stories.Store.CompleteStoryPage | internal/repository/stories.go:176-236 | performs the request or refuses it with the right reason |
| CheckIn.ClientDay | internal/api/checkin.go:22-34 | yesterday exactly if that is the date claimed, and today for every other claim or none |
| CheckIn.RunIsMaximal | internal/api/checkin.go:69-79 | a streak is the longest unbroken run of checked days ending on its last day |
| CheckIn.WindowedRun | internal/api/checkin.go:40-42 | reading only dates since a cut-off cuts a streak off there and does nothing else |
| CheckIn.BuildCheckinState | internal/api/checkin.go:64-90 | the loop ends; if today is checked the streak is the longest run of checked days ending today, up to 181 of them, and else the longest ending yesterday, up to 180; the week count is the number of checked days in today's Monday-to-Sunday week |
| CheckIn.CheckInsBounded | internal/api/checkin.go:15-34 | whatever dates are claimed, requests over days a..b record at most b-a+2 check-ins |
| CheckIn.CheckInsBoundMet | internal/api/checkin.go:15-34 | that bound is reached |
| Paging.ParsePage | internal/httpx/paging.go:44-62 | no window unless one was asked for; otherwise a window at a whole number of clamped limits |
| Paging.PageIsSlice | internal/api/expedition.go:167-182 | a page holds the list's rows from its offset on, as many as fit, and there are more exactly if it ends before the list |
| Paging.Walk | internal/httpx/paging.go:29-35 | fetching pages while there are more ends with the whole list, once and in order, in the least number of pages that can hold it |
| Paging.AdminWindow | internal/api/expedition.go:486-497 | builds the rows of the window, or panics where the capacity is negative |
| Paging.AdminWindowIsPage | internal/api/expedition.go:170-182 | the arithmetic window panics exactly for an offset beyond the campaign, and is otherwise the page of the full list |

## Left out

- Payment of experience after an event: the handlers add it in a later step; the model says when it falls due (`RewardedOnce`, `PaidOnce`) and pays it with the request. A crash in between would lose it, never double it.
- CampaignRaces.SoundThroughout: stars, experience and the star gate are not part of the interleaved steps; a start that passed its gate before an edit changed the ladder is let through, as in the program.
- CampaignStore.Store.HandleComplete: the tier read by a completion and the update it leads to are one step; an edit in between would change the pieces and experience it records, not whether it completes.
- DungeonLayout.ValidateDungeonLayout: which of several defects is reported first is not part of the contract.
- CampaignStore.Store.HandleConfigure: trimming of the category text is left to the caller.
- RateLimiting.RateLimiter.Cleanup: all idle times in a sweep are measured at one instant.
- DungeonRaces.UndisturbedExactly: the reward and treasure picture of a late completion, which are those of the map that was read, are not part of its state.
- Deleting dungeons and hidden secrets, which removes rows by cascade.
- The date window in which a challenge can be started or completed, and the check of the time claimed against the time allotted: they only remove behaviours.
- HTTP, JSON, logging, metrics, configuration and client address resolution.
- Receipt verification with the stores, tokens, passwords and image hosting.
- Field checks of emails, names and hidden-secret texts, achievements, collections and image lists.
