# pgstate-gateway: verified model

A Dafny model of the two parts of the gateway that keep shared state, with proofs about whole
runs: the per-IP rate limiter with live limit changes and eviction, and the lock and state
protocol of the Terraform HTTP backend. `dafny verify dfyconfig.toml` checks everything.

**Rate limiter.** `TokenBucket` is the contract of golang.org/x/time/rate in exact integers: time in
nanoseconds, tokens in units of 1/(60 * 10^9), so a limit of L a minute refills L units a
nanosecond. `RateLimiter` has the limiter as a class over a mutable map of client objects, each
method proved against a function on tables. `AtomicRuns` compares whole runs of atomic requests,
reloads and cleanup passes, and `VisibleEviction` says when a client can notice there that its
bucket was deleted. `InterleavedLimiter` splits a request into configuration snapshot, getLimiter
and Allow, and getLimiter itself into its retunings, between which Allow of other requests may fall;
time passes anywhere. `LimiterTuning`, `LimiterWindow` and `PrivateBuckets` prove what survives
that, `AtomicRefinement` that atomic runs are a special case. `AdmissionWindows` says without
buckets which requests are admitted. `PairedRuns`, `UnfoldingPairs`, `InterleavedEviction` and
`InterleavedDominance` compare interleaved runs that differ in cleanup only. A rejected request is
answered 429 (section 4 of RFC 6585).

**Lock and state protocol.** `Database` has the two tables, one atomic step per SQL statement, and
what an error may mean: no effect, an effect whose acknowledgement was lost, or an effect still to
come. `Protocol` is the step relation of any number of requests in flight, `Handlers` the handlers
as imperative code proved to take those steps. 423 is section 11.3 of RFC 4918. `Outcomes` says what
every request is told; `Linearizability`, `LockOwnership`, `LockConflicts`, `Workspaces` and
`StateCoherence` hold for all clients; `Serializability` adds clients that lock, read, write and
unlock in that order.

**Together.** `Gateway` puts the limiter in front of the handlers and turns the window bound
into a bound on database statements.

Four results are sharper than, or differ from, what one would first write down:

- The window bound tolerates a delay between getLimiter and Allow of up to four minutes and one
  nanosecond, and fails for every longer one. So does the refinement to private buckets.
- Eviction changes no decision on requests that run alone if and only if no reload ever goes above
  an earlier limit. With interleaved requests any reload that changes the limit can make it
  visible, a lower limit too: requests with old snapshots bring the old limit back. There the
  exact condition is that no reload changes the limit, and that Allow is in time as above.
- After a reload the limit need not settle when all older requests and a newer one have passed
  getLimiter: the last to pass decides. `SettledForeverExactly` gives the exact condition.
- Updates are serial, whatever the fates of the statements, if and only if no client goes on, to
  another POST or to UNLOCK, after a 500 to its POST: that POST may still land, under the lock of
  another. A client that does go on needs POSTs never to land late.

The repository's README describes the lock gauge as a count per workspace; the code counts all
rows, and so does `LockRowsAreConserved`.

## Model

| member | source | states |
|---|---|---|
| `TokenBucket.Limiter.Allow` | internal/middleware/rate_limit.go:125-126 | admits exactly when a whole token is present, takes it then, and leaves the bucket untouched otherwise |
| `TokenBucket.Limiter.SetLimit` | internal/middleware/rate_limit.go:76 | the bucket is refilled under the old rate before the new one applies |
| `TokenBucket.Limiter.SetBurst` | internal/middleware/rate_limit.go:77 | the bucket is refilled under the old burst; surplus tokens wait for the next refill to be clamped |
| `TokenBucket.AdvanceComposes` | internal/middleware/rate_limit.go:76-77 | refilling to a time in between changes nothing: buckets may be advanced at any moment |
| `TokenBucket.FullAfterAMinute` | internal/middleware/rate_limit.go:83-84 | a bucket tuned to L a minute is full after a minute unused, for every L |
| `RateLimiter.IPRateLimiter.constructor` | internal/middleware/rate_limit.go:42-53 | the table starts empty, at the configured limit |
| `RateLimiter.IPRateLimiter.Cleanup` | internal/middleware/rate_limit.go:57-65 | a pass removes exactly the clients idle for more than five minutes, whatever the order of the map |
| `RateLimiter.IPRateLimiter.RetuneClients` | internal/middleware/rate_limit.go:75-78 | every bucket is retuned in place, once, whatever the order of the map |
| `RateLimiter.IPRateLimiter.GetLimiter` | internal/middleware/rate_limit.go:68-95 | follows a changed limit, then refreshes the client or creates it with a full bucket; hands out the bucket in the table |
| `RateLimiter.LookupEffects` | internal/middleware/rate_limit.go:68-95 | what getLimiter makes of every entry: a changed limit retunes all and keeps their tokens, a new address gets a full bucket, only its own lastSeen moves |
| `RateLimiter.IPRateLimiter.Handle` | internal/middleware/rate_limit.go:119-133 | a request that runs alone is passed on exactly when its bucket, after the lookup under the published limit, holds a token, and is told 429 otherwise |
| `AdmissionWindows.AdmittedExactlyIfEveryWindowHasRoom` | internal/middleware/rate_limit.go:55-126 | without buckets, for requests that run alone at a fixed limit L: an address is admitted exactly when every window of its own requests has room for one more, a window having room for L and L more a minute, whatever is evicted and whoever else calls |
| `AdmissionWindows.InterleavedAdmittedExactlyIfEveryWindowHasRoom` | internal/middleware/rate_limit.go:55-126 | the same for interleaved requests by the times of Allow, if Allow is in time |
| `AtomicRuns.CleanupNeverCostsAdmissions` | internal/middleware/rate_limit.go:55-95 | cumulative dominance for requests that run alone: at every prefix of every run of atomic requests, with any limit changes, an address is admitted at least as often as without cleanup |
| `InterleavedDominance.EvictionNeverCostsAdmissions` | internal/middleware/rate_limit.go:55-126 | cumulative dominance for interleaved requests: of two runs in lockstep, one with evictions and one without, the one with them has admitted the address at least as often at every moment, with any limit changes, if Allow follows getLimiter within five minutes |
| `InterleavedDominance.LockstepIsPaired` | internal/middleware/rate_limit.go:119-133 | two runs in lockstep are runs of the limiter in which the same requests take the same steps at the same times, the second without evictions |
| `AtomicRuns.SingleDecisionsMayDiffer` | internal/middleware/rate_limit.go:60-84 | there is a run, with one reload, in which one request is served only thanks to the eviction and a later one only without it |
| `VisibleEviction.EvictionIsUnseen` | internal/middleware/rate_limit.go:55-95 | for requests that run alone: if no reload raises the limit, each address gets the same decisions with cleanup as without |
| `VisibleEviction.EvictionIsUnseenExactlyIfNoLimitRises` | internal/middleware/rate_limit.go:55-95 | for requests that run alone and every sequence of reloads: cleanup changes no decision in any run with these reloads if and only if none goes above an earlier limit |
| `InterleavedEviction.EvictionIsUnseenExactlyAtAFixedLimit` | internal/middleware/rate_limit.go:55-126 | for interleaved requests and every sequence of reloads: of any two runs with these reloads that differ in cleanup only both give every address the same answers, if and only if no reload changes the limit, and Allow follows getLimiter within four minutes and one nanosecond or the limit is 0 |
| `AtomicRuns.SharedTableActsAsPrivateBuckets` | internal/middleware/rate_limit.go:55-95 | at a fixed limit every address gets exactly the decisions of a private bucket that is never deleted |
| `PrivateBuckets.ActsPrivateExactlyUpToSafeGap` | internal/middleware/rate_limit.go:55-126 | the same for interleaved requests, the private bucket being fed with the times of Allow: it holds in all runs if and only if Allow follows getLimiter within four minutes and one nanosecond |
| `AtomicRuns.TableContents` | internal/middleware/rate_limit.go:55-66 | for any schedule of passes, exactly which addresses are in the table and with which lastSeen |
| `AtomicRuns.TableHoldsTheLastFiveToSixMinutes` | internal/middleware/rate_limit.go:55-66 | with a pass every minute: every address of the last five minutes, none older than six |
| `AtomicRefinement.AtomicRunIsInterleaved` | internal/middleware/rate_limit.go:119-133 | every run of atomic requests, reloads and passes is one interleaved run with the same table in which every address calls Allow at the same times and gets the same answers |
| `AtomicRefinement.AtomicWindowBound` | internal/middleware/rate_limit.go:55-95 | the window bound for atomic runs |
| `InterleavedLimiter.ShapeAlways` | internal/middleware/rate_limit.go:68-95 | in every reachable state no two addresses share a bucket, exactly the holder of the mutex is inside getLimiter, and nothing is dated in the future |
| `InterleavedLimiter.WhatCanHappen` | internal/middleware/rate_limit.go:57-126 | in every reachable state exactly which steps can be taken: Allow waits for no mutex, getLimiter and eviction do, and an entry is evicted exactly after more than five minutes |
| `LimiterTuning.UniformTuning` | internal/middleware/rate_limit.go:72-89 | with nobody inside getLimiter every bucket in the table has limit and burst currentLimit, which was always published at some time |
| `LimiterTuning.SettledForeverExactly` | internal/middleware/rate_limit.go:72-74 | currentLimit equals the published limit in every future without a reload, if and only if it does now and every snapshot yet to enter carries it |
| `LimiterTuning.SettlesOnTheNewestLimit` | internal/middleware/rate_limit.go:122-125 | once all requests in flight at the last reload have passed getLimiter, the next newer one settles the limit for good |
| `LimiterTuning.StaleSnapshotFlipsTheLimitBack` | internal/middleware/rate_limit.go:72-74 | a concrete run in which a stale snapshot, entering after a newer one, restores the old limit |
| `LimiterTuning.CriticalSectionIsAtomic` | internal/middleware/rate_limit.go:68-95 | getLimiter, its retuning loop taken in any order and not interrupted, is the atomic lookup |
| `LimiterTuning.AllowIsAtomic` | internal/middleware/rate_limit.go:126 | Allow on the bucket of the table is the atomic Allow |
| `LimiterTuning.CleanupPassIsAtomic` | internal/middleware/rate_limit.go:58-64 | evicting idle entries one by one until none is left, in any order, is the atomic pass |
| `LimiterWindow.EvictedBucketsAreNotUsed` | internal/middleware/rate_limit.go:60-62 | a request that calls Allow in time always uses the bucket its address has in the table |
| `LimiterWindow.WindowBound` | internal/middleware/rate_limit.go:55-95 | in every interleaved run with limits up to M, one address is admitted at most M + M * (to - from) / minute times in any interval, evictions included |
| `LimiterWindow.GapBreaksTheBound` | internal/middleware/rate_limit.go:91-126 | a run that breaks the bound when Allow may come one nanosecond later |
| `LimiterWindow.WindowBoundHoldsExactlyUpToSafeGap` | internal/middleware/rate_limit.go:55-126 | the bound holds for all runs if and only if Allow follows getLimiter within four minutes and one nanosecond |
| `Database.LockRepository.Acquire` | internal/repository/postgres/lock_repository.go:70-95 | inserts if absent and says whether it did; an error says nothing about the effect |
| `Database.LockRepository.Release` | internal/repository/postgres/lock_repository.go:97-119 | deletes exactly the row with this id and says whether it did |
| `Database.LockRepository.Get` | internal/repository/postgres/lock_repository.go:39-68 | reads the row or its absence, changing nothing |
| `Database.StateRepository.Get` | internal/repository/postgres/state_repository.go:39-62 | reads the row or its absence, changing nothing |
| `Database.StateRepository.Update` | internal/service/state_service.go:49-61 | writes document and serial of one body together; a body that is not JSON is refused without effect |
| `Database.StateRepository.Delete` | internal/repository/postgres/state_repository.go:86-100 | removes the row if there is one |
| `Handlers.Handler.LockState` | internal/api/handler.go:154-201 | answer, table and conflict counter by request, tables and fates: 200 and the row on a free workspace, 423 with the holder there is, 400, 500; and the steps of a LOCK, with anything running between its two statements |
| `Handlers.Handler.UnlockState` | internal/api/handler.go:203-248 | answer and table likewise: 200 and no row if the id matches, 409 with the holder there is or "Lock not found", 400, 500; and the steps of an UNLOCK |
| `Handlers.Handler.GetState` | internal/api/handler.go:89-111 | answer likewise: 200 with the document, 404, 400, 500; and the steps of a GET |
| `Handlers.Handler.PostState` | internal/api/handler.go:113-136 | answer and row likewise: 200 and document with serial, 400, 500; and the steps of a POST |
| `Handlers.Handler.DeleteState` | internal/api/handler.go:138-152 | answer and row likewise: 200 and no row, 400, 500; and the steps of a DELETE |
| `Protocol.PhasesAdvance` | internal/api/handler.go:176-200 | a request executes its first statement once and its answer is final |
| `Outcomes.AnswersAreExact` | internal/api/handler.go:89-248 | in every run every request is told 400 exactly if it cannot be used, and otherwise what the tables and the fate at its own statements say, for all five operations |
| `Outcomes.FirstStatementDecides` | internal/api/handler.go:96-222 | whenever a first statement runs, its outcome, unless it missed, is the answer for good: 500 on any error, else by operation and tables |
| `Outcomes.ConflictsNameTheHolder` | internal/api/handler.go:183-246 | whenever a refused LOCK or UNLOCK reads the current lock, the 423 or 409 names the holder there is; without one it is empty or says "Lock not found"; after a failed read it names nobody |
| `Outcomes.DeleteIsToldTheTruth` | internal/api/handler.go:144-151 | a DELETE is told 200 exactly when its statement was acknowledged |
| `Outcomes.DeletedIsGone` | internal/repository/postgres/state_repository.go:86-100 | right after an acknowledged DELETE the row is absent |
| `Outcomes.NothingBlocks` | internal/api/handler.go:89-248 | any request can arrive at any time and run its statements with any fate; what was late and has not landed may still land, of every kind |
| `Linearizability.TableIsTheObject` | internal/service/lock_service_test.go:36-64 | the lock table is the map of an atomic lock object fed the operations that took effect, lost and late acknowledgements included |
| `Linearizability.StatusIsTheObjectsAnswer` | internal/api/handler.go:176-247 | each 200, 423 and 409 is what the atomic object answers at a moment inside the request, whatever happens before the second query |
| `Linearizability.RealTimeOrder` | internal/api/handler.go:176-247 | requests that do not overlap are linearized in their order |
| `LockOwnership.EffectsAlternate` | internal/repository/postgres/lock_repository.go:81-118 | inserts and deletes on a workspace alternate, each delete carrying the id of the insert before it |
| `LockOwnership.AnswerIsAGrant` | internal/api/handler.go:200 | a LOCK answered 200 was granted at one of its own steps |
| `LockOwnership.GrantHolds` | internal/api/handler.go:176-200 | after a 200 the row stays until an UNLOCK with its id takes effect |
| `LockOwnership.GrantsExclude` | internal/api/handler.go:176-200 | between two granted LOCKs of a workspace the first has been unlocked |
| `LockOwnership.StaleUnlocksAreHarmless` | internal/repository/postgres/lock_repository.go:108-118 | UNLOCKs with other ids, however many and however late, never remove the holder |
| `LockConflicts.ExactlyOneWins` | test/integration_test.go:293-333 | N interleaved LOCKs of a free workspace: one 200, N - 1 times 423, all naming the winner |
| `LockConflicts.NamedHolderWasThere` | internal/api/handler.go:185-197 | the holder in a 423 or 409 was in the table at a moment inside the request |
| `LockConflicts.NeverNamesTheCaller` | internal/api/handler.go:185-243 | if ids are used once and UNLOCK waits for the 200, a conflict never names the caller |
| `LockConflicts.LockRowsAreConserved` | internal/metrics/metrics.go:107-109 | lock rows are effective inserts minus effective deletes |
| `LockConflicts.CounterCountsConflicts` | internal/api/handler.go:183-197 | the conflict counter is the number of refused LOCKs, and of 423 answers when none is in flight |
| `Workspaces.ProjectionIsARun` | internal/repository/postgres/lock_repository.go:50-118 | the requests on one workspace are by themselves a run with the same answers and rows |
| `Workspaces.StepsCommute` | internal/repository/postgres/state_repository.go:50-98 | steps on different workspaces commute |
| `StateCoherence.StoredRowsAreCoherent` | internal/service/state_service.go:49-61 | every stored row is document and serial of one submitted body |
| `StateCoherence.RowIsTheLastWrite` | internal/repository/postgres/state_repository.go:75-98 | the row is the one the last effective POST or DELETE left |
| `StateCoherence.GetReturnsTheLastPost` | internal/api/handler.go:96-110 | a 200 GET returns the document of the last effective POST before it read, a 404 means none or a later DELETE |
| `Serializability.WritesHappenUnderTheLock` | internal/api/handler.go:127-134 | among clients that follow the protocol every write happens while the writer holds the lock, is newer than its writes before, and is its update of the state it found, though POST does not check; clients must not go on after a 500 to a POST, or no POST may land late |
| `Serializability.UpdatesAreSerial` | internal/api/handler.go:89-248 | under the same condition the state is the clients' last writes applied one client at a time in LOCK order; no acknowledged write is lost but to a later one of the same client |
| `Serializability.LatePostLosesAnUpdate` | internal/repository/postgres/state_repository.go:75-82 | for every rule that lets a client go on after a 500: a run in which its POST lands under the lock of another client and destroys that client's acknowledged update |
| `Serializability.SerialExactlyIfFailuresKeepTheLock` | internal/api/handler.go:113-135 | updates are serial, and writes stay under the lock, in all runs with all fates if and only if clients do not go on after a 500 to a POST |
| `Gateway.LimiterRunsAlone` | internal/api/handler.go:67-77 | the limiter behaves in the gateway as it does alone |
| `Gateway.HandlersRunAlone` | internal/api/handler.go:67-77 | the handlers behave in the gateway as they do alone |
| `Gateway.HandledMeansAdmitted` | internal/middleware/rate_limit.go:126-131 | in every run every request at a handler was admitted by the limiter; one that was told 429 never gets there |
| `Gateway.ForwardedExactlyIfAdmitted` | internal/middleware/rate_limit.go:126-131 | a request can go on to its handler, whatever it asks for, exactly if it was admitted and is not there already |
| `Gateway.StatementsAreCounted` | internal/api/handler.go:67-77 | each request reaches one handler, once; statements are one per executed request and one per conflict read |
| `Gateway.DatabaseLoadIsBounded` | internal/api/handler.go:67-77 | all requests of one address that the limiter answers in an interval, admitted or not, issue at most twice the window bound in statements |

## Left out

- The internals of golang.org/x/time/rate: float64 rounding and its truncation of waits below a nanosecond; the bucket is an exact-arithmetic contract.
- TokenBucket.Limiter.Allow: does not model the mutex inside a bucket; its operations are atomic steps.
- RateLimiter.IPRateLimiter.GetLimiter: one clock reading per critical section; the interleaved model lets time pass between any two of its steps.
- RateLimiter.IPRateLimiter.RetuneClients: one clock reading for all buckets; in the interleaved model each SetLimit and SetBurst has its own.
- RateLimiter.IPRateLimiter.Cleanup: one clock reading per pass; in the interleaved model each eviction has its own.
- InterleavedDominance.EvictionNeverCostsAdmissions: the two runs retune the address's own bucket at the same moments while both have one; otherwise the order of the retuning loop alone, without any eviction, could put either run ahead.
- RateLimiter.IPRateLimiter.Handle: a request that runs alone; the interleaved model has any number at once.
- Negative limits, which the configuration does not rule out: limits are natural numbers.
- Clocks that run backwards between goroutines: time never decreases along a run.
- LimiterWindow.WindowBound: an eviction is a step of its own that may interleave with others; a cleanup pass is a series of them, and the retunings of the loop may come in any order, so the bound covers more schedules than the code has.
- Reading the address from headers, authentication, security headers, CORS, body-size cap, timeouts, logging and latency metrics.
- PostgreSQL, connection pooling and migrations beyond one atomic step per statement on a table keyed by workspace; `updated_at`.
- JSON parsing and JSONB normalisation: a body carries the document JSONB would store and the serial the header decodes to, and equal documents stand for equal JSON.
- Handlers.Handler.LockState: the messages of the 400, 500 and conflict texts are one value `Text`; the health check and the delegating service layer are not modelled.
- LockConflicts.CounterCountsConflicts: the counter moves in the same step as the refused insert returns.
- Serializability.UpdatesAreSerial: each client takes the lock once and reads before its first POST, on a workspace that is unlocked at the start; a LOCK is repeated only after a 423; clients that send DELETE or skip the lock are not covered.
- Loading of configuration files, TLS, signals and shutdown; a reload is an event that publishes a limit.
