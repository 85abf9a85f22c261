# Verified models of the platform's stateful kernels

The services of this repository are mostly plumbing around a handful of small stateful kernels: a
matching engine, a tree-renaming plan, two message protocols, a publishing ledger, two rate limiters, a
circuit breaker, a deployment state machine, an event bus, a reachability worklist, a linear bandit, a
token codec, a pair finder and a round-robin gateway. Each kernel is modelled here in Dafny with the branches, edge
cases and constants of its code, and what it is for is proved for every input, every run or every
interleaving.

Code that updates objects or lists in place is written as classes and methods with loops, each proved
against a specification function; protocols between processes are state machines over their atomic
steps; encoders and predictors are functions. The properties are lemmas over the specifications.

| files | kernel | main results |
|---|---|---|
| `HeapQueue`, `Matching`, `OrderBook` | exchange order book | the two `heapq` heaps over mutable orders refine price-time matching on sorted queues; matching leaves every buy priced strictly below every sell, consumes queues strictly from the front, conserves quantity over every run, and never trades past either limit |
| `Rewriting`, `Renaming` | name migration | five successive replacements equal one left-to-right pass, leave no legacy name and are idempotent; the rename plan, executed while the tree moves under it, is applied in full if and only if no two siblings end up with one name |
| `StreamConsumer` | counter updates under WATCH/EXEC | no lost update, every polled event committed, held or given up by a failure, distinct consecutive totals, a retry if and only if overtaken, a bound on retries |
| `InferencePipeline` | asynchronous scoring | accepted jobs stay recoverable, outcomes are the predictor's for the job's own features; exact conditions for the ways this breaks |
| `Publishing`, `PublishingController` | daily publishing | conservation of jobs, how much a run attempts, the daily cap, the retry budget, draining |
| `TokenBucket`, `SlidingWindow` | rate limiting | bounds over every window against the full history |
| `PaymentCircuit` | payment circuit breaker | a request is refused exactly when the history shows three failures in a row and the last is recent |
| `Deployments`, `DeploymentStore` | deployment store | exactly which event sequences are accepted, progress to success, histories that replay to states; keys and deployments in bijection |
| `EventPipeline` | event bus and agents | draining terminates although handlers publish; exactly seven events per push, in stage order |
| `CleanupAudit` | import reachability | the worklist visits exactly the reachable files; quarantine is safe |
| `LinearAlgebra`, `LinUCB`, `LinUCBBandit` | bandit | for every dimension the arm matrices stay symmetric and nonsingular, the estimate is the ridge regression, exploration never grows; selection is the first arg-max |
| `Base64Url`, `JwtToken` | token codec | round trips, and exactly which token strings are accepted |
| `Arbitrage` | opportunity detection | grouping loses and duplicates nothing against all ordered pairs |
| `Gateway` | discovery and routing | endpoints stay distinct; exact hit counts of the rotation |

## Assumptions

- Clocks do not run backwards, and seconds, prices, quantities and probabilities are real numbers.
- What a service calls but does not define is a parameter: the publish function (returns any result or
  raises), the ONNX model, JSON writing and reading, signing, matrix inversion and square root, text
  normalisation, payout lookup, the patch digest, SARIF reading, identifiers drawn from `uuid4`.
- JSON is assumed only where the token round trip needs it: reading undoes writing.
- A step of a protocol is one atomic command of its broker or store.

## What the proofs found

- The token bucket restarts its clock at each refill and so drops the fraction of a token that had
  accrued (`TokenBucket.LossyCalls` is such a run: three tokens accrue, two are granted). Nothing is lost
  over a run if and only if every refill fits under the maximum and comes when a whole number of tokens
  has accrued (`TokenBucket.LostExactly`); while refills fit, less than half of the accrual is lost
  (`TokenBucket.HalfIsServed`).
- The request loop reports failures under the `job_id` of its variable `payload`: for bytes that do not
  decode that is the job of the previous message, and for an object without a job id or valid features the
  id it gives; and it scores whatever features a message carries. A foreign message on the request topic
  can therefore turn a finished job's record into something else (`InferencePipeline.ForeignOverwrites`, a
  run for each of the three). Over every run with new job ids and foreign messages that name an accepted
  job or none, the outcomes on the topics are truthful if and only if no step reported for a job anything
  but its outcome (`InferencePipeline.OutcomesExactly`), and the store can be spoilt by reading them if and
  only if one did (`InferencePipeline.SpoiltExactly`). The API's own requests never do
  (`InferencePipeline.OwnRequests`).
- In every state such a run reaches a correct final record changes in exactly two ways
  (`InferencePipeline.OutcomeStable`): its job id is submitted again, which puts it back to queued
  (`InferencePipeline.ResubmissionRegresses`), or an outcome misattributed to it is consumed.
- A 200 reply with an undecodable body counts as a success and then as a failure of the payment circuit.
  After a send without a decodable 200, requests are refused exactly when the failures counted that way
  reach three (`PaymentCircuit.FailedSendBlocks`); for the default of three attempts or more, that is when
  neither of the last two replies was such a 200 (`PaymentCircuit.ThreeAccumulate`).
- A planned rename whose destination exists is skipped silently; `Renaming.ApplyRenames` says exactly
  when that happens, and `Renaming.CollidingSiblings` is a tree where it does.
- Pushing an order that ties on price and time with another compares the two for equality first. It raises
  exactly when, of the orders met on the way to the heap's root, the first with the same price and time
  differs in quantity left or in the id it was given (`OrderBooks.OrderBook.Add`); an equal one, or one
  elsewhere, goes unnoticed. `OrderBooks.AddTwice` is such a pair of orders for either case.
- A bandit can score its arms after every history if and only if lambda is positive
  (`LinUCB.ScorableExactly`), which its constructor does not check.

## Model

| member | source | states |
|---|---|---|
| `HeapQueue.HeapPush` | services/exchange/src/orderbook.py:29-33 | pushing raises exactly when the first tie on the way from the new leaf to the root is with an unequal item; otherwise the array stays a heap with the entry added, and without ties its sorted listing gains the entry at its place |
| `HeapQueue.RaisesExactly` | services/exchange/src/orderbook.py:29-33 | the upward move compares two unequal items if and only if some entry on the whole way to the root ties and the one nearest to the leaf holds an unequal item, wherever the move would stop |
| `HeapQueue.HeapPop` | services/exchange/src/orderbook.py:52-57 | the entry popped is the head of the sorted listing, the rest stays a heap with the rest of the listing |
| `HeapQueue.SiftDown` | services/exchange/src/orderbook.py:29-33 | a heap with one entry possibly too small at the given position becomes a heap with the same entries |
| `HeapQueue.SiftUp` | services/exchange/src/orderbook.py:52-57 | a heap with a displaced root becomes a heap with the same entries (smaller child up to a leaf, then back) |
| `HeapQueue.SortedUnique` | services/exchange/src/orderbook.py:29-33 | without ties the entries of a heap determine one sorted listing, so the heap's internal layout cannot be observed |
| `HeapQueue.RootIsLeast` | services/exchange/src/orderbook.py:37-38 | no entry of a heap is less than the one at index 0 |
| `HeapQueue.SortAfterPush` | services/exchange/src/orderbook.py:29-33 | any heap holding the old entries and the new one lists as the old listing with the new entry inserted |
| `HeapQueue.SortAfterPop` | services/exchange/src/orderbook.py:52-57 | any heap holding all entries but the root lists as the old listing without its head |
| `OrderBooks.NewOrder` | services/exchange/src/orderbook.py:16-21 | an order is made exactly for side buy or sell, positive price and positive quantity; a missing or empty id is rendered |
| `OrderBooks.OrderBook.constructor` | services/exchange/src/orderbook.py:24-27 | a new book has no orders on either side |
| `OrderBooks.OrderBook.Add` | services/exchange/src/orderbook.py:29-33 | adding raises exactly when the first order on the way to its heap's root that has its price and time does not equal it; without ties it is insertion into the sorted queue of its side |
| `OrderBooks.OrderBook.FillHeads` | services/exchange/src/orderbook.py:52-57 | decrementing both head orders and popping the empty ones is one crossing of the sorted queues, and retires at least one order |
| `OrderBooks.OrderBook.Match` | services/exchange/src/orderbook.py:35-58 | the loop over the heaps leaves the book and emits the trades of the sorted-queue engine, in order, and every buy still resting is priced strictly below every sell still resting |
| `OrderBooks.OrderBook.Place` | services/exchange/src/main.py:33-36 | adding then matching gives the sorted-queue engine's outcome and leaves every resting buy priced strictly below every resting sell; from an uncrossed book every trade names the placed order |
| `OrderBooks.AddTwice` | services/exchange/src/orderbook.py:8-33 | adding two orders of one price and time without given ids raises if and only if their quantities differ |
| `OrderBooks.OneResting` | services/exchange/src/orderbook.py:29-33 | on a heap of one order, pushing one of the same price and time raises exactly when the two are unequal |
| `OrderBooks.OrderBook.ServeAll` | services/exchange/src/orderbook.py:29-58 | any sequence of adds and matches on the heaps of mutable orders gives the book and the trades of the sorted-queue engine's run; after one that ends in matching every resting buy is priced strictly below every resting sell |
| `OrderBooks.InsertView` | services/exchange/src/orderbook.py:29-33 | the heap key (negated price for buys, price for sells, then time) is price-time priority |
| `Matching.MatchAllSound` | services/exchange/src/orderbook.py:35-58 | matching keeps both queues sorted with positive quantities, leaves them uncrossed, emits positive trades only, and each trade retires an order |
| `Matching.MatchAllPriority` | services/exchange/src/orderbook.py:35-58 | each side is consumed strictly from the front: some prefix is gone, at most the next order is reduced, the rest is untouched |
| `Matching.MatchAllConserves` | services/exchange/src/orderbook.py:43-57 | for any set of order ids, what the side held before equals what it holds after plus the trades naming those ids |
| `Matching.RunConserves` | services/exchange/src/orderbook.py:29-58 | over any run of adds and matches each order's quantity equals its remainder plus the trades naming it |
| `Matching.BoughtEqualsSold` | services/exchange/src/orderbook.py:43-51 | the total bought equals the total sold over any trades |
| `Matching.RunSound` | services/exchange/src/orderbook.py:29-58 | every reachable book is sorted and positive, and uncrossed after a match (what that means in prices is RunApart's) |
| `Matching.MatchAllApart` | services/exchange/src/orderbook.py:39-41 | matching any sorted book leaves every buy priced strictly below every sell, and so trades at equal prices |
| `Matching.RunApart` | services/exchange/src/orderbook.py:29-58 | after any run of adds and matches that ends in matching every resting buy is priced strictly below every resting sell |
| `Matching.QueuesInPriority` | services/exchange/src/orderbook.py:29-33 | in a sound book better prices come first and, at equal prices, earlier times |
| `Matching.BetterFirst` | services/exchange/src/orderbook.py:35-58 | in one match an order loses quantity only if every order of its side at a better price, or earlier at its price, is used up |
| `Matching.RunFair` | services/exchange/src/orderbook.py:41-51 | every trade of any run joins a known buy and a known sell, at the sell's price and not above the buy's limit |
| `Matching.MatchAllFair` | services/exchange/src/orderbook.py:41-51 | within one match every trade is at the sell's price and within the buy's limit, and no resting order changes id or price |
| `Matching.PlacementTrades` | services/exchange/src/main.py:33-36 | placing one order in an uncrossed book yields only trades in which that order takes part |
| `Matching.PlacementSound` | services/exchange/src/main.py:33-36 | placing keeps an uncrossed book sound and uncrossed |
| `Matching.EnqueueSound` | services/exchange/src/orderbook.py:29-33 | adding a positive order keeps the queue in price-time order |
| `Rewriting.ApplyMapping` | scripts/full_migration.py:119-126 | the five replacements in sequence equal one left-to-right pass, counts are reported exactly for the patterns that occur, no pattern is left, and the length changes by the reported counts |
| `Rewriting.PassExtends` | scripts/full_migration.py:119-126 | replacing one more pattern after a pass equals a pass with that rule added, hit counts included |
| `Rewriting.PatternGone` | scripts/full_migration.py:119-126 | a rule whose pattern no replacement can help form leaves no occurrence of it anywhere in the output |
| `Rewriting.CleanIsFixed` | scripts/full_migration.py:119-126 | text with no pattern is unchanged and nothing is counted |
| `Rewriting.LengthFromHits` | scripts/full_migration.py:119-126 | output length is input length adjusted by each rule's hits times its growth |
| `Rewriting.MappingFits` | scripts/full_migration.py:72-78 | no replacement of the mapping table can supply a part of any pattern of it, and patterns are distinct |
| `Rewriting.MappedIsClean` | scripts/full_migration.py:72-78 | after the mapping none of the five legacy patterns occurs |
| `Rewriting.MappingIdempotent` | scripts/full_migration.py:119-126 | applying the mapping to its own output changes nothing and counts nothing |
| `Renaming.PlanRenames` | scripts/full_migration.py:144-165 | from a deepest-first listing the plan holds exactly the non-excluded paths whose name changes, once each, deepest first, with the mapped name |
| `Renaming.PlannedExactly` | scripts/full_migration.py:102-103 | planned are exactly the paths with no component of an excluded name that are not excluded files and whose own name changes |
| `Renaming.BelowExcluded` | scripts/full_migration.py:102-103 | nothing below a directory of an excluded name is planned, and its components keep their names |
| `Renaming.Move` | scripts/full_migration.py:168-179 | renaming a directory onto a free name relocates everything below it and keeps every content |
| `Renaming.PlaceAt` | scripts/full_migration.py:144-179 | a path's final place maps exactly those components whose prefix was renamed |
| `Renaming.PlaceStep` | scripts/full_migration.py:168-179 | one more rename, at a depth not above those before it, relocates every path to the place the enlarged set gives |
| `Renaming.SourceInPlace` | scripts/full_migration.py:168-179 | when a plan entry's turn comes its source is still where the plan says |
| `Renaming.FreeIsAbsent` | scripts/full_migration.py:168-179 | a destination that does not exist has nothing under it either |
| `Renaming.MoveRearranges` | scripts/full_migration.py:168-179 | executing a plan entry keeps the tree a rearrangement of the original: nothing lost, merged or changed |
| `Renaming.TakenIsCollision` | scripts/full_migration.py:168-179 | a destination is taken only if two siblings of the original tree end up with one name |
| `Renaming.AllDoneIsCollisionFree` | scripts/full_migration.py:168-179 | if every planned rename was done, no two siblings end up with one name |
| `Renaming.ApplyRenames` | scripts/full_migration.py:168-179 | the result is a rearrangement of the tree by the renames applied; every skipped one had a colliding sibling; all are applied if and only if no siblings collide |
| `Renaming.PlaceIsFinal` | scripts/full_migration.py:144-179 | after a complete migration a path's place maps exactly those components whose prefix is not excluded |
| `Renaming.Migrate` | scripts/full_migration.py:144-179 | planning on a listing of the tree and executing the plan applies it in full if and only if no siblings collide, and then the tree is exactly the final places with their contents |
| `Renaming.CollidingSiblings` | scripts/full_migration.py:168-179 | a tree of two siblings in which the only planned rename is bound to be skipped |
| `Renaming.ApplyOne` | scripts/full_migration.py:168-179 | an entry is applied, or skipped only because of a colliding sibling |
| `Renaming.MapNameIdempotent` | scripts/full_migration.py:144-165 | a mapped name maps to itself |
| `Renaming.RerunPlansNothing` | scripts/full_migration.py:144-179 | after a complete migration a second one plans no rename |
| `Renaming.StaysExcluded` | scripts/full_migration.py:102-103 | renames never bring an excluded path out of its exclusion |
| `StreamConsumer.TallyCounts` | services/stream-consumer/src/main.py:61-66 | folding the committed events of a key adds exactly the number of each type and of all |
| `StreamConsumer.StepInv` | services/stream-consumer/src/main.py:49-98 | every atomic step of any consumer keeps: the store is the tally of the commits, each snapshot is a prefix tally, a consumer is dirty exactly if overtaken |
| `StreamConsumer.RunInv` | services/stream-consumer/src/main.py:49-98 | the invariant holds after every interleaving |
| `StreamConsumer.CommitTallies` | services/stream-consumer/src/main.py:68-74 | a successful EXEC writes the tally that includes exactly one more event |
| `StreamConsumer.CommitConsumer` | services/stream-consumer/src/main.py:68-74 | a commit leaves every other consumer's reads either current or marked dirty |
| `StreamConsumer.NoLostUpdate` | services/stream-consumer/src/main.py:49-81 | under every interleaving each counter is its initial value plus the committed events of that type |
| `StreamConsumer.PollsAccounted` | services/stream-consumer/src/main.py:49-81 | over every run the times an event was polled are the commits of it, the consumers holding it uncommitted, and the failures that gave it up: a retry never drops its event |
| `StreamConsumer.RowsAccounted` | services/stream-consumer/src/main.py:84-105 | over every run the commits of an event are its inserted rows, the consumers about to insert one, and the failures in between |
| `StreamConsumer.EveryEventServed` | services/stream-consumer/src/main.py:49-105 | a run without failures that ends with all consumers idle has committed and inserted every polled event once per poll, and raised the counters by exactly those |
| `StreamConsumer.FromNothing` | services/stream-consumer/src/main.py:49-81 | from an empty server every counter is the number of commits of its type, and a key exists exactly if something was committed on it |
| `StreamConsumer.AloneGetsThrough` | services/stream-consumer/src/main.py:49-105 | from any state an idle consumer left alone polls, commits and inserts its event at the first try: the counter grows by one and the row reports it |
| `StreamConsumer.SnapshotTotals` | services/stream-consumer/src/main.py:49-81 | the i-th commit's snapshot totals one more than the commits on its key before it: totals are consecutive |
| `StreamConsumer.RowsDistinct` | services/stream-consumer/src/main.py:84-105 | no two persisted rows of a campaign carry the same total |
| `StreamConsumer.RetryMeansConflict` | services/stream-consumer/src/main.py:75-77 | an EXEC fails if and only if another commit on that key came after its WATCH; it then starts over with the same event and commits nothing, and otherwise returns with its snapshot committed |
| `StreamConsumer.RetriesBounded` | services/stream-consumer/src/main.py:49-81 | total retries never exceed (consumers - 1) times commits |
| `InferencePipeline.FallbackPredict` | services/model-service/src/main.py:81-84 | the score lies in [0,1] and is the weighted sum whenever that does |
| `InferencePipeline.SensibleCounts` | services/model-service/src/main.py:75-94 | when conversions <= clicks <= views the fallback score is the weighted sum of the two exact rates, never clamped, and zero without clicks |
| `InferencePipeline.LoadedModel` | services/model-service/src/main.py:75-94 | the rates are those of clicks to views and conversions to clicks, zero without a denominator; a loaded model is asked for exactly them and its second output is the score if there is one, else its first, else the call raises |
| `InferencePipeline.StepInv` | services/model-service/src/queue_runtime.py:68-124 | every step of API, request loop, response loop, redelivery or a foreign message keeps accepted jobs recoverable and lets every message name accepted jobs only |
| `InferencePipeline.StepRecoverable` | services/model-service/src/queue_runtime.py:68-124 | every step leaves each accepted job's own request or an outcome of it on a topic still to be consumed, or an outcome stored |
| `InferencePipeline.RunInv` | services/model-service/src/queue_runtime.py:68-124 | the same over every interleaving, with redelivery at any time |
| `InferencePipeline.AcceptedJobs` | services/model-service/src/main.py:128-150 | an accepted job is stored and recoverable whatever arrives; without a misattribution it is queued or at the predictor's outcome for its own features |
| `InferencePipeline.DrainedIsComplete` | services/model-service/src/queue_runtime.py:68-124 | with all topics consumed every accepted job is final, without a misattribution at the predictor's outcome for its own features |
| `InferencePipeline.CatchUp` | services/model-service/src/queue_runtime.py:68-124 | from every reachable state the loops have a finite run that consumes all topics |
| `InferencePipeline.OutcomeStable` | services/model-service/src/result_store.py:34-50 | in every reachable state a correct final record changes if and only if its job id is submitted again or a lying response or dead letter that names it is consumed |
| `InferencePipeline.ResubmissionRegresses` | services/model-service/src/main.py:128-150 | a concrete run in which resubmitting an id puts a finished job back to queued |
| `InferencePipeline.StalePayload` | services/model-service/src/queue_runtime.py:81-99 | in every reachable state a step leaves the outcomes on the topics truthful if and only if they were and it does not report for a job anything but its outcome: undecodable bytes reporting on the leftover payload's job, malformed objects on the id they give, requests on theirs |
| `InferencePipeline.OwnRequests` | services/model-service/src/queue_runtime.py:81-90 | a request can only misattribute if its features are not those its job was accepted with |
| `InferencePipeline.OutcomesExactly` | services/model-service/src/queue_runtime.py:68-100 | over any run with new ids and foreign messages anywhere, the outcomes on the topics end truthful if and only if they started so and no step misattributed |
| `InferencePipeline.SpoiltExactly` | services/model-service/src/queue_runtime.py:68-124 | after any run, reading the outcomes can leave a wrong one in the store if and only if some step misattributed |
| `InferencePipeline.ForeignOverwrites` | services/model-service/src/queue_runtime.py:81-124 | concrete runs, for every job that scores, in which undecodable bytes, a malformed object or other features replace its stored result without resubmission |
| `Publishing.AttemptHoldings` | services/arbitrage-engine/src/publishing/controller.py:40-84 | one attempt puts the job in exactly one of queue, results or dead letters |
| `Publishing.DequeueHoldings` | services/arbitrage-engine/src/core/database.py:180-184 | dequeuing takes out exactly the jobs it returns |
| `Publishing.StepHoldings` | services/arbitrage-engine/src/publishing/controller.py:28-91 | a daily run changes no job's number of holdings, an enqueue adds one |
| `Publishing.NothingLost` | services/arbitrage-engine/src/publishing/controller.py:28-91 | over any run and any publish outcomes, holdings of a job equal those at the start plus its submissions |
| `Publishing.BatchCounter` | services/arbitrage-engine/src/publishing/controller.py:40-60 | the day's counter grows by exactly the results recorded, and no other counter changes |
| `Publishing.NeverOverCap` | services/arbitrage-engine/src/publishing/controller.py:29-33 | no tenant/day counter ever exceeds the daily target |
| `Publishing.BuriedWhenSpent` | services/arbitrage-engine/src/publishing/controller.py:40-84 | over any run a dead letter has used exactly the whole retry budget, no queued job exceeds it, and only submitted publications are recorded |
| `Publishing.AttemptLeft` | services/arbitrage-engine/src/publishing/controller.py:62-73 | every attempt lowers the sum of remaining attempts by at least one |
| `Publishing.AttemptsBounded` | services/arbitrage-engine/src/publishing/controller.py:62-84 | attempts made plus attempts remaining never exceed retry budget + 1 less the retries already used, per submission |
| `Publishing.RunQueue` | services/arbitrage-engine/src/publishing/controller.py:28-91 | a run leaves the undrawn rest of the queue in order, followed by the jobs to be retried |
| `Publishing.DequeueExactly` | services/arbitrage-engine/src/core/database.py:180-184 | a dequeue of m takes the first m jobs, or the whole queue when it is not longer, and leaves the rest |
| `Publishing.DrawnExactly` | services/arbitrage-engine/src/publishing/controller.py:30-35 | a run attempts nothing once the target is reached, else exactly as much of the queue's head as the target still asks for, else the whole queue |
| `Publishing.RunReaches` | services/arbitrage-engine/src/publishing/controller.py:28-91 | if everything attempted is submitted, a run reaches the daily target or empties the queue, buries nothing and counts each job |
| `Publishing.RunWrites` | services/arbitrage-engine/src/publishing/controller.py:40-84 | after a run each attempted job is recorded with its network and external id, queued with one retry more, or dead with the text of what went wrong, by what its publishing call did |
| `Publishing.CounterCounts` | services/arbitrage-engine/src/publishing/controller.py:28-60 | over any sequence of submissions and runs a tenant's counter for a day grows by exactly the results recorded for it on that day |
| `Publishing.AttemptsPlain` | services/arbitrage-engine/src/publishing/controller.py:62-84 | from an empty ledger jobs submitted without retries are attempted at most retry budget + 1 times each |
| `Publishing.QueueDrains` | services/arbitrage-engine/src/publishing/controller.py:28-91 | enough daily runs with capacity empty the queue whatever is published |
| `PublishingController.InMemoryStore.EnqueuePublishJob` | services/arbitrage-engine/src/core/database.py:176-177 | the job goes to the end of its tenant's queue, nothing else changes |
| `PublishingController.InMemoryStore.DequeuePublishJobs` | services/arbitrage-engine/src/core/database.py:180-184 | returns the first jobs of the queue, as many as asked for when there are that many and the whole queue otherwise; the rest stays in order |
| `PublishingController.InMemoryStore.IncreaseDailyCounter` | services/arbitrage-engine/src/core/database.py:187-190 | returns and stores the old count plus one for that tenant and day only |
| `PublishingController.InMemoryStore.GetDailyCounter` | services/arbitrage-engine/src/core/database.py:193-194 | returns the count, storing zero for a new tenant and day |
| `PublishingController.InMemoryStore.PutDeadLetter` | services/arbitrage-engine/src/core/database.py:197-198 | appends one dead letter |
| `PublishingController.InMemoryStore.RecordPublishResult` | services/arbitrage-engine/src/core/database.py:201-202 | appends one result |
| `PublishingController.DailyPublishingController.Handle` | services/arbitrage-engine/src/publishing/controller.py:40-84 | one job's success, retry or dead-letter branch on the shared store is one attempt of the ledger |
| `PublishingController.DailyPublishingController.RunForTenant` | services/arbitrage-engine/src/publishing/controller.py:28-91 | the loop over the shared store is one daily run of the ledger; processed is the smaller of the capacity left and the queue's length, and the summary reports exactly what was recorded, buried and is left of the capacity |
| `TokenBucket.RefillBounds` | services/execution-engine/src/main.py:59-68 | a refill keeps tokens in range, adds at most what accrued and, below the maximum, at least half of it; without a refill less than one token has accrued |
| `TokenBucket.GrantsBounded` | services/execution-engine/src/main.py:59-73 | over any monotone calls grants plus tokens held are at most initial tokens plus accrual up to the last refill |
| `TokenBucket.GrantsSinceStart` | services/execution-engine/src/main.py:59-73 | grants never exceed initial tokens plus rate times elapsed time |
| `TokenBucket.GrantsInWindow` | services/execution-engine/src/main.py:59-73 | grants in any window of length T are fewer than maximum + rate*T + 1 |
| `TokenBucket.DroppedExactly` | services/execution-engine/src/main.py:65-68 | a refill drops nothing if and only if it fits under the maximum and a whole number has accrued; one that fits drops less than half |
| `TokenBucket.LostExactly` | services/execution-engine/src/main.py:59-73 | over any run nothing that accrued up to the last refill is lost if and only if every refill fits and comes on a whole number |
| `TokenBucket.HalfIsServed` | services/execution-engine/src/main.py:59-73 | while refills fit, nothing is lost before the first and strictly less than half of the accrual after it |
| `TokenBucket.LossyCalls` | services/execution-engine/src/main.py:59-73 | a concrete run that is granted two of three accrued tokens, and one over the same time that is granted all |
| `TokenBucket.RefusedExactly` | services/execution-engine/src/main.py:59-73 | a call is refused if and only if the bucket is empty and less than one token has accrued |
| `TokenBucket.Limiter.AcquireToken` | services/execution-engine/src/main.py:59-73 | the method on the two globals makes the transition and the decision of the bucket |
| `SlidingWindow.PrunedIsRecent` | services/exchange/src/security.py:28-35 | the pruned list always is the whole accepted history restricted to the last second, before and after each call |
| `SlidingWindow.RecentTwice` | services/exchange/src/security.py:30-31 | pruning earlier loses nothing a later prune would keep |
| `SlidingWindow.TenPerSecond` | services/exchange/src/security.py:28-35 | an accepted stamp and the tenth after it are at least a second apart |
| `SlidingWindow.RejectedExactly` | services/exchange/src/security.py:28-35 | a request is rejected if and only if ten were accepted and the tenth last of them is less than one second old |
| `SlidingWindow.RecentIsTail` | services/exchange/src/security.py:30-31 | of an ordered history the stamps kept are exactly the last ones, those less than one second old |
| `SlidingWindow.RateLimiter.RateLimit` | services/exchange/src/security.py:28-35 | a request is rejected exactly when ten stamps of its address are within the last second (one second, by RejectedExactly); other addresses are untouched |
| `PaymentCircuit.FieldsFromHistory` | services/payment/circuit.py:13-36 | the counter is the number of failures since the last success, the stamp the last failure's, over any calls |
| `PaymentCircuit.RefusedExactly` | services/payment/circuit.py:13-36 | under a monotone clock a request is refused if and only if at least three calls failed since the last success and the last failure is under thirty seconds old |
| `PaymentCircuit.Circuit.Allow` | services/payment/circuit.py:13-20 | the method on the globals makes the breaker's transition and decision |
| `PaymentCircuit.Send` | services/payment/adapter.py:17-43 | too few retries and an open circuit contact nothing and change nothing; otherwise attempts go on to the first decodable 200 or to the limit, the circuit has seen exactly their replies, an answer leaves it closed with no failures counted, and after a failure requests are refused exactly by the failures counted and the last one's time |
| `PaymentCircuit.AnswerClears` | services/payment/adapter.py:26-43 | after any attempts that end with a decodable 200 the count is zero, the circuit is closed and every later request is granted |
| `PaymentCircuit.FailuresAddUp` | services/payment/adapter.py:26-39 | after any attempts without a decodable 200 the counter, the stamp and the open flag are those of the replies, an undecodable 200 resetting the count |
| `PaymentCircuit.FailedSendBlocks` | services/payment/adapter.py:17-43 | after a send without a decodable 200, from any mix of replies, a request is refused exactly when three failures are counted and the last is under thirty seconds old |
| `PaymentCircuit.BadBodiesNeverTrip` | services/payment/adapter.py:28-38 | if the last reply was a 200 with an undecodable body the circuit is closed, whatever came before |
| `PaymentCircuit.ThreeAccumulate` | services/payment/adapter.py:17-43 | a failing send of three attempts or more counts three failures if and only if neither of its last two replies was a 200 with an undecodable body |
| `Deployments.FailureBalance` | services/master-orchestrator/src/deployment_controller.py:31-50 | failures minus applied fixes is 1 exactly in failed or fixing and 0 otherwise |
| `Deployments.ReachableStates` | services/master-orchestrator/src/deployment_controller.py:87-147 | in every reachable store each state is the replay of its history through the table, with the failure balance and the balance of every phase (which sequences the table accepts is AcceptedExactly's) |
| `Deployments.AcceptedExactly` | services/master-orchestrator/src/deployment_controller.py:31-50 | a new deployment accepts exactly the event sequences that are rounds of a build or deploy failure with its fix, cut off or continued to a success, and each leads to the state its last event names |
| `Deployments.EventuallySucceeds` | services/master-orchestrator/src/deployment_controller.py:31-50 | after any rounds of failure and fix, a build and a deployment that succeed are accepted event by event and end in succeeded |
| `Deployments.NeverStuck` | services/master-orchestrator/src/deployment_controller.py:31-50 | from every reachable deployment some accepted events lead to succeeded |
| `Deployments.Provenance` | services/master-orchestrator/src/deployment_controller.py:87-147 | over any run a record is what its creation asked for, its history the creation and then exactly the events sent to it and accepted, each with source, time and metadata, and it was last updated at its last entry |
| `Deployments.EventTouches` | services/master-orchestrator/src/deployment_controller.py:121-147 | an event is applied exactly if its deployment exists and the table accepts it there; it changes no other deployment and no key |
| `Deployments.PhaseBalance` | services/master-orchestrator/src/deployment_controller.py:31-50 | in a replayable history every phase was entered as often as left, plus one for the current phase |
| `Deployments.PlayInv` | services/master-orchestrator/src/deployment_controller.py:87-147 | every run keeps keys and deployments in one-to-one correspondence and histories replayable |
| `Deployments.KeysNameDeployments` | services/master-orchestrator/src/deployment_controller.py:87-119 | in every reachable store idempotency keys and deployments are in bijection |
| `Deployments.PlayKeeps` | services/master-orchestrator/src/deployment_controller.py:121-147 | histories only grow and a succeeded deployment never changes again |
| `Deployments.KeyStays` | services/master-orchestrator/src/deployment_controller.py:87-119 | a key names the same deployment for ever |
| `Deployments.RepeatedCreate` | services/master-orchestrator/src/deployment_controller.py:87-119 | after any calls in between, a create with a used key changes nothing and finds the first deployment |
| `DeploymentStores.DeploymentStore.Create` | services/master-orchestrator/src/deployment_controller.py:87-119 | on the two dictionaries of mutable records: the specification's new store, and the record of the key is returned |
| `DeploymentStores.DeploymentStore.ApplyEvent` | services/master-orchestrator/src/deployment_controller.py:121-147 | unknown id and disallowed event are errors that change nothing; otherwise only that record advances (which events are allowed is AcceptedExactly's and NeverStuck's) |
| `EventPipeline.DispatchRank` | services/singularity/src/agents.py:29-154 | whatever is published in reaction to an event is one stage further, at most one event per agent |
| `EventPipeline.DispatchWorks` | services/singularity/src/orchestrator.py:49-56 | replacing an event by its reactions strictly lowers a measure of the queue, for any list of these agents |
| `EventPipeline.DrainStage` | services/singularity/src/orchestrator.py:30-56 | a whole stage is handled before anything behind it and appends the next stage in order |
| `EventPipeline.SevenPerPush` | services/singularity/src/orchestrator.py:49-56 | N valid pushes give exactly 7N events ordered by stage, the k-th of each stage derived from the k-th push; the queue ends empty and nothing raises |
| `EventPipeline.DispatchWired` | services/singularity/src/run.py:26-35 | with the agents as wired each stage's event is answered by exactly its successor, the last by nothing |
| `EventPipeline.PolicyIff` | services/singularity/src/agents.py:87-131 | a push ends in a deploy policy if and only if no attack digest of its patch is a multiple of five, else in a revision |
| `EventPipeline.PatchStory` | services/singularity/src/agents.py:39-85 | for any report a valid push yields one finding for each result in order, with its rule and level, and one patch for all of them |
| `EventPipeline.PatchLines` | services/singularity/src/agents.py:71-85 | the patch has one line for each finding, in order |
| `EventPipeline.AttackStory` | services/singularity/src/agents.py:87-131 | the patch is attacked with the three payloads, each blocked by its own digest byte, the verdict is that all were blocked, and a failing verdict goes into the revision |
| `EventPipeline.RejectedPush` | services/singularity/src/agents.py:29-69 | a push without a report or with a blank one raises at once, one with an unreadable report after passing it on; nothing is left queued |
| `EventPipeline.EventBus.Publish` | services/singularity/src/orchestrator.py:21-28 | an empty topic and a payload that is no dictionary are errors that change nothing; otherwise the event is appended to queue and history |
| `EventPipeline.Orchestrator.DispatchEvent` | services/singularity/src/orchestrator.py:49-52 | the loop over agents publishes in agent order up to the first that raises |
| `EventPipeline.Orchestrator.Run` | services/singularity/src/orchestrator.py:54-56 | the loop terminates, drains as specified, and history always is the handled events followed by the queued ones |
| `CleanupAudit.TraverseReachable` | scripts/repo_cleanup_audit.py:175-186 | on any graph, cyclic ones and duplicate stack entries included, the loop ends with exactly the reachable files |
| `CleanupAudit.Expand` | scripts/repo_cleanup_audit.py:175-186 | visiting the top of the stack keeps every import of a visited file visited or stacked, and everything reachable |
| `CleanupAudit.ClosedHoldsReachable` | scripts/repo_cleanup_audit.py:175-186 | a set closed under imports that holds the starts holds everything reachable |
| `CleanupAudit.Analyze` | scripts/repo_cleanup_audit.py:189-208 | no entry point is an error; otherwise reachable and unreachable partition the files and no reachable file imports an unreachable one |
| `CleanupAudit.QuarantineIsSafe` | scripts/repo_cleanup_audit.py:189-208 | taking the unreachable files out of the graph changes no file's reachability |
| `LinUCB.RidgeSymmetric` | services/rl-engine/src/linucb.py:45-52 | every arm matrix is symmetric as a form, in every dimension |
| `LinUCB.RidgeForm` | services/rl-engine/src/linucb.py:45-52 | its quadratic form is at least lambda times the squared length |
| `LinUCB.UpdateSolves` | services/rl-engine/src/linucb.py:45-52 | a rank-one update is solved from solutions before it (Sherman-Morrison) |
| `LinUCB.SolveSolves` | services/rl-engine/src/linucb.py:28-43 | after any updates every linear system of the arm matrix has the constructed solution |
| `LinUCB.SolutionUnique` | services/rl-engine/src/linucb.py:28-43 | and only that one |
| `LinUCB.RidgeNonsingular` | services/rl-engine/src/linucb.py:28-43 | so inversion is always defined for positive lambda |
| `LinUCB.ScorableExactly` | services/rl-engine/src/linucb.py:28-43 | after every history each arm's matrix is invertible and no square-root argument negative, if and only if lambda is positive |
| `LinUCB.SpreadNonNegative` | services/rl-engine/src/linucb.py:34-37 | the square-root argument is never negative |
| `LinUCB.SpreadShrinks` | services/rl-engine/src/linucb.py:34-52 | the exploration term of any context never grows with a further update |
| `LinUCB.RidgeDet` | services/rl-engine/src/linucb.py:45-52 | in dimension two the determinant is at least lambda squared and never decreases |
| `LinUCBBandit.ObserveAdds` | services/rl-engine/src/linucb.py:45-52 | the in-place additions turn the matrix and vector of what was seen into those of one observation more |
| `LinUCBBandit.InverseSolves` | services/rl-engine/src/linucb.py:28-43 | multiplying by any true inverse gives the constructed solution |
| `LinUCBBandit.LeastSquares` | services/rl-engine/src/linucb.py:28-52 | the estimate is the ridge regression of the rewards seen: any other vector has a greater regularised squared error, by at least lambda times the squared distance |
| `LinUCBBandit.Optimistic` | services/rl-engine/src/linucb.py:34-39 | with a non-negative alpha the score is never below what the estimate predicts, and exactly that when alpha is zero |
| `LinUCBBandit.DedupeKeepsOrder` | services/rl-engine/src/linucb.py:14-17 | names given later only come behind, so the arms are in the order of first occurrence |
| `LinUCBBandit.NewBandit` | services/rl-engine/src/linucb.py:7-19 | a bandit is made exactly for a positive dimension and a nonempty arm list, with first occurrences of the arms in order |
| `LinUCBBandit.Bandit.constructor` | services/rl-engine/src/linucb.py:7-19 | every arm starts with what no observation gives |
| `LinUCBBandit.Bandit.AddArm` | services/rl-engine/src/linucb.py:21-26 | a known arm changes nothing; a new one comes last, with nothing seen |
| `LinUCBBandit.Bandit.Update` | services/rl-engine/src/linucb.py:45-52 | a wrong dimension changes nothing; otherwise the arm, added if new, has seen one observation more and every arm's matrix and vector are those of what it has seen |
| `LinUCBBandit.Bandit.Select` | services/rl-engine/src/linucb.py:28-43 | a wrong dimension and a singular matrix are errors; otherwise the arm returned is the first with the greatest score that is a number; with positive lambda nothing raises and the scores are those of what each arm has seen |
| `Base64Url.EncodeShape` | services/jwt-auth/src/main.py:26-28 | encoded text never contains '.' or '=' and its length is never 1 modulo 4 |
| `Base64Url.PaddedIsGroups` | services/jwt-auth/src/main.py:26-28 | padded output is the unpadded groups followed by the padding their length calls for |
| `Base64Url.EncodeKeepsBits` | services/jwt-auth/src/main.py:26-28 | read six bits a character the encoding is the input read eight bits a byte, filled with zeros (section 4 of RFC 4648) |
| `Base64Url.AlphabetAt` | services/jwt-auth/src/main.py:26-28 | the characters are those of the URL-safe alphabet, each with its index as value (section 5 of RFC 4648) |
| `Base64Url.RoundTrip` | services/jwt-auth/src/main.py:26-33 | decoding undoes encoding for every byte string, padding recovered from the length |
| `Base64Url.EncodeInjective` | services/jwt-auth/src/main.py:26-28 | different byte strings have different encodings |
| `Base64Url.LengthOneRejected` | services/jwt-auth/src/main.py:30-33 | text of length 1 modulo 4 over the alphabet is rejected |
| `Base64Url.ValueExactly` | services/jwt-auth/src/main.py:30-33 | a character counts if and only if it is in the alphabet, with its index, or is one of the standard alphabet's two signs |
| `Base64Url.DecodeBits` | services/jwt-auth/src/main.py:30-33 | text over the alphabet decodes exactly if its length is not 1 modulo 4, to as many bytes as its bits make, bit for bit in order |
| `JwtToken.TokenParts` | services/jwt-auth/src/main.py:35-56 | a token splits at its dots into exactly its three encoded parts |
| `JwtToken.DecodeEncoded` | services/jwt-auth/src/main.py:35-83 | decoding an encoded token with its secret gives exactly what the claim checks give on the original claims (tokens of any other making are DecodeExactly's) |
| `JwtToken.AcceptedIff` | services/jwt-auth/src/main.py:46-83 | the original claims come back if and only if required claims are present, exp is in the future, and audience and issuer match |
| `JwtToken.DecodeExactly` | services/jwt-auth/src/main.py:46-83 | for every token string: claims are returned if and only if HS256 is offered, there are three parts, the third decodes to the signature of the first two under the secret, and the second to those claims, which are in order |
| `JwtToken.ForgedRejected` | services/jwt-auth/src/main.py:60-68 | a token made with a secret that signs differently is rejected, with the signature error |
| `JwtToken.CheckErrors` | services/jwt-auth/src/main.py:70-83 | which error a claim set gives: the first of missing claims, bad expiry, expiry, audience and issuer that fails |
| `JwtToken.HeaderDecodes` | services/jwt-auth/src/main.py:36-44 | only HS256 is encoded; the first part decodes to type and algorithm with the caller's headers, which take precedence |
| `Arbitrage.Group` | services/arbitrage-engine/src/engine/arbitrage.py:4-8 | each group holds exactly the products of its normalised name, in list order, duplicates included |
| `Arbitrage.DetectGroup` | services/arbitrage-engine/src/engine/arbitrage.py:16-47 | the nested loops emit the group's pairs in loop order |
| `Arbitrage.GroupingIsComplete` | services/arbitrage-engine/src/engine/arbitrage.py:4-47 | over any listing of the names, the groups' pairs are as a multiset the pairs of the whole list |
| `Arbitrage.SmallGroup` | services/arbitrage-engine/src/engine/arbitrage.py:12-13 | skipping groups below two products loses nothing |
| `Arbitrage.Detect` | services/arbitrage-engine/src/engine/arbitrage.py:3-49 | the result is, as a multiset, the opportunities of all ordered pairs of the list |
| `Arbitrage.AllPairsExactly` | services/arbitrage-engine/src/engine/arbitrage.py:18-47 | an opportunity is reported if and only if some pair of equal name, different source, non-equal ids, known payout and profit above the threshold makes it |
| `Arbitrage.ReportedExactly` | services/arbitrage-engine/src/engine/arbitrage.py:18-47 | an opportunity is reported as often as there are ordered pairs of positions in the list that make it |
| `Gateway.ServiceDiscovery.Register` | enterprise_maturity/v3_runtime/service_discovery.py:26-29 | the instance replaces one with its endpoint; endpoints stay distinct per service; other services are untouched |
| `Gateway.ServiceDiscovery.Deregister` | enterprise_maturity/v3_runtime/service_discovery.py:31-32 | only that endpoint of that service goes |
| `Gateway.RegisterThenDeregister` | enterprise_maturity/v3_runtime/service_discovery.py:26-32 | registering keeps exactly the instances of other endpoints and the new one, and deregistering it undoes that up to them |
| `Gateway.HealthyDistinct` | enterprise_maturity/v3_runtime/service_discovery.py:34-35 | resolved instances have distinct endpoints |
| `Gateway.APIGateway.AddRoute` | enterprise_maturity/v3_runtime/api_gateway.py:22-23 | a path leads to the service last given for it; other paths and all indices stay |
| `Gateway.APIGateway.Route` | enterprise_maturity/v3_runtime/api_gateway.py:25-36 | unknown path and no healthy instance are errors that change nothing; otherwise the slot's instance is chosen and only that service's index advances |
| `Gateway.SlotAfter` | enterprise_maturity/v3_runtime/api_gateway.py:31-35 | after m routes the slot is the start plus m modulo n, and the stored index stays in 1..n |
| `Gateway.HitsExactly` | enterprise_maturity/v3_runtime/api_gateway.py:31-35 | in m consecutive routes instance k is hit m / n times, plus once if its turn comes in the remainder |
| `Gateway.RoundRobinFair` | enterprise_maturity/v3_runtime/api_gateway.py:31-35 | any rounds*n consecutive routes hit each of n instances exactly rounds times; any run differs by at most one |
| `Gateway.RouteAll` | enterprise_maturity/v3_runtime/api_gateway.py:25-36 | over consecutive routes on any paths, each service whose healthy instances stand still has them chosen in turn: whole rounds hit each equally often and no run differs by more than one |
| `Gateway.RotationHits` | enterprise_maturity/v3_runtime/api_gateway.py:31-36 | in a list that goes round distinct instances each occurs as often as its position is hit |
| `Gateway.RotationIndependent` | enterprise_maturity/v3_runtime/api_gateway.py:25-36 | over any mix of requests a service's index depends only on the number of its own, through whatever paths they came |

## Left out

- OrderBooks.OrderBook.Add: after the TypeError the heap is left partly moved, and after an unnoticed tie a later operation may raise, as quantities change; neither book is followed further.
- OrderBooks.OrderBook.ServeAll: speaks of orders that never tie on price and time.
- OrderBooks.OrderBook.Match: orders are changed only by the book while they rest; outside mutation of `qty` is not modelled.
- TokenBucket.GrantsInWindow: assumes, as the other bounds of the bucket do, a refill rate that is not negative and initial tokens between zero and the maximum, which the configuration is not checked for.
- LinUCBBandit.Bandit.Select: inversion is exact, and raises on singular matrices only; scores that are not numbers arise from negative roots only.
- LinUCB.RidgeDet: the determinant is treated for dimension two only; nonsingularity, symmetry and the exploration term are proved for every dimension.
- JwtToken.AcceptedIff: assumes the clock is not negative, so that a token without an expiry is expired.
- Renaming.PlanRenames: the directory listing is given deepest first, as the original's sort makes it; the order within a depth is arbitrary.
- Renaming.ApplyRenames: every parent of a path is in the tree; symbolic links, case-insensitive file systems and permission errors are not modelled.
- CleanupAudit.Analyze: import edges, entry points and protected files are given, all among the scanned files; finding them by scanning text is not modelled.
- StreamConsumer.NoLostUpdate: speaks of stream consumers only; services/feature-store/src/main.py:131-158 writes the same keys without WATCH and can lose updates.
- InferencePipeline.StepInv: assumes new job ids (what a repeated one does is stated above), a predictor that gives equal outcomes for equal features, and result-store writes that succeed.
- InferencePipeline.StalePayload: foreign messages name an accepted job or none, and appear on the request topic only; features objects that carry a job id of their own are not modelled.
- PaymentCircuit.Send: waiting between attempts appears only as the times of the attempts; a 200 whose body does not decode is taken to raise the HTTP library's request error, as its versions since 2.27 do.
- Publishing.BuriedWhenSpent: assumes submitted jobs start with no more retries than the budget.
- Publishing.NothingLost: only the publish function and the status check may raise; queue operations succeed.
- DeploymentStores.DeploymentStore.Create: the identifier drawn is not in use already.
- EventPipeline.SevenPerPush: payloads are typed by topic, so the defaults agents use for absent keys of internal events do not occur.
- Arbitrage.Detect: product ids are texts, absent or null; ids of other types that print alike are not told apart.
- Gateway.APIGateway.Route: host and port are one endpoint text.
- Crashes, TTL expiry, lost replies and connection failures of Redis, Kafka and Postgres, and floating-point rounding.
- The nonce set and signature verification of services/exchange/src/security.py, and cryptographic strength: set membership and opaque functions.
- The deployment-pipeline optimiser, autoscaler, cost and capital guards: short branches that would add only easy members.
- The SQL branches of services/arbitrage-engine/src/core/database.py: only the in-memory store is modelled.
- File-content migration, reports and quarantine moves on a real file system, HTTP handlers, metrics and logging.
- ONNX, policy, simulation and world-model code: opaque numerics.
