# ulsync-server: a verified model of the sync engine

ulsync-server keeps, per user, one row for every `(id, part)` key. Devices push envelopes; the
greatest ranks win; every attempt takes a number from the user's counter; devices follow a cursor
over those numbers and are woken when something new is stored. The code is short. What makes it
correct, or not, is the interleaving of many pushes, pulls and live streams, and that is what this
project models and proves.

## How the model is built

- `Conflict` has the rank comparison twice, as Go writes it and as SQLite's BINARY collation and the
  upsert's WHERE clause write it.
- `Accounts` is the specification: one user's counter and rows, and last-write-wins on them.
  `Tables` is what the server has: two tables shared by all users and the SQL statements over them.
  Every table operation is proved to be the account operation for its user and nothing for others.
- `Store` is the class over the tables. Its methods are the transactions, with a failure possible at
  every statement. `Paging` is the page query as a relation that any query plan may satisfy (the
  index does not forbid equal numbers), and the proof that it has exactly one answer once numbers
  are distinct.
- `Replica` is a device that only follows cursors. `LiveSync` is the whole server as a transition
  system: pushes that commit and notify as separate steps, devices that connect in any of the three
  pull modes, query, receive events one at a time, are cut off anywhere and come back. `Steps` reads
  every step off the states around it; `Guarantees`, `Progress` and `Projection` are the theorems over
  all reachable states and all runs.
- `KeyCache` is the token verifier's cache as a second transition system: requests that pass through
  sections of one lock, in any interleaving. `Verifier` is the class those sections are methods of.
- `Stream`, `PushHandler`, `DiffHandler`, `LiveRegistry`, `Origin`, `Metrics`, `Verifier`, `Migrate`
  and `QueryInt` are the imperative code of their source files, proved against specifications.
- `Convergence` and `Divergence` hold the laws of arrival order and of the divergence check.

Assumptions. A write transaction is one atomic step (one writer connection, immediate locking,
internal/store/store.go:81 and internal/store/store.go:194-199), and a failed one has no effect.
`Since` and `StoredRanks` each read one committed snapshot. Numbers stay below 2^63, so counters and
ranks are unbounded integers. Text and ids are byte sequences.

## Where the code does less than its comments say

Each of these is a lemma with the exact condition, not a change to the code.

- internal/store/upsert.go:22-23 says the outcome does not depend on arrival order. The stored ranks
  do not; the stored content does when envelopes tie on all three ranks and differ elsewhere
  (`ContentOrderFreeIff`, `TieKeepsFirstArrival`), and the creation time always does.
- A pull accepts any `since`. A cursor above the user's counter hides the next writes, and only such
  a cursor does (`NextWriteVisibleIff`).
- The push gate joins id and part with a NUL byte, so two different keys can be refused as
  duplicates; `FalseDuplicateIff` says exactly which, and `FalseDuplicateHappens` gives acceptable
  batches. Ids without NUL bytes are safe.
- The divergence check accepts edit time zero and revision zero, which push refuses, so it can list
  keys that no push can answer (`PushableIff`).
- `EnsureOrigin` reads and writes in two steps, so two first imprints can both be granted and the
  first is told a name the store then loses (`TwoImprintsRace`). A name is final, and every later
  grant tells it, exactly when no call that read empty is about to write another (`NameIsFinalIff`).
- Two migrations with one version: the second is skipped without an error (`AllAppliedIffDistinct`).
- A reload of aged keys is not exclusive: any number of requests can be fetching at once
  (`AllCanRefreshAtOnce`). Within one TTL of a fetch's start a check begins another exactly when no
  request at all has stamped the cache in between (`RefreshAgainIff`), and TTL spacing holds of every
  run in which no age check falls inside a renewal (`RefreshesAreSpaced`).
- docs/OPEN_QUESTIONS.md records that a pull limit above the maximum is truncated where the protocol
  text refuses it; the model follows the code.

## Model

| member | source | states |
|---|---|---|
| Conflict.WinsIffUpsertWhere | internal/store/conflict.go:24-32 | the Go rule and the upsert's WHERE clause agree on all ranks, source ids of unequal length included |
| Conflict.CollationIsTextOrder | internal/store/conflict.go:18-19 | Go's string order is SQLite's BINARY collation |
| Conflict.WinsIsStrictTotalOrder | internal/store/conflict.go:14-32 | winning is irreflexive and transitive, and of two distinct ranks exactly one wins |
| Conflict.WinsReads | internal/store/conflict.go:24-32 | the later edit wins; at one time the greater revision; equal in both, the source id with the greater byte at the first difference, or the longer one that continues the other |
| Tables.UpsertSqlWritesIff | internal/store/upsert.go:40-45 | the statement writes exactly when there is no row or the row is not later, greater in revision or above in source id, said rank by rank; otherwise the tables stay as they are |
| Tables.UpsertOneRefines | internal/store/upsert.go:14-46 | allocation plus conditional upsert on the shared tables is one last-write-wins write to the user's account; other accounts do not move; the flag is whether the envelope won |
| Tables.CommitRefines | internal/store/upsert.go:128-153 | a committed batch is the fold of single writes, for every account at once |
| Accounts.WriteAllGrows | internal/store/upsert.go:14-46 | a batch keeps numbers distinct and within the counter, takes exactly one number per envelope, removes no row, lowers no rank, and moves every changed row above all numbers issued before |
| Accounts.BatchIsSimultaneous | internal/store/upsert.go:118-123 | with distinct keys each applied flag is decided by the store before the batch, and the i-th envelope when applied is stored with the number next_seq+i+1 |
| Accounts.NothingAppliedNothingMoved | internal/httpapi/push.go:164-169 | a batch with no applied envelope leaves every row as it was, so there is nobody to wake |
| Accounts.WriteAllConcat | internal/store/upsert.go:118-123 | how envelopes are split into batches does not matter to the rows, the counter or the flags |
| Store.Store.AllocateSeq | internal/store/store.go:154-165 | returns the next number and consumes it; a failure consumes nothing |
| Store.Store.Upsert | internal/store/upsert.go:96-116 | one write to the user's account, or no change at all when any of its four statements fails |
| Store.Store.UpsertMany | internal/store/upsert.go:128-153 | all of the batch or none of it, the counter included; an empty batch is an error |
| Store.UpsertEach | internal/store/upsert.go:138-147 | the loop of the batch transaction computes the fold and the flags in order |
| Store.Store.Since | internal/store/since.go:23-60 | a page of this user's rows after the cursor, selected from the shared table, and its next cursor |
| Store.Store.StoredRanks | internal/store/ranks.go:39-79 | the ranks of exactly the requested keys that are stored |
| Paging.PageIff | internal/store/since.go:8-18 | on a sound account the page query has exactly one answer: the first limit rows above the cursor in number order |
| Paging.RowsAboveIsExact | internal/store/since.go:11-18 | that listing is the rows above the cursor, each once, numbers strictly ascending |
| Paging.NextWriteVisibleIff | internal/store/since.go:55-58 | the next applied write is above a cursor exactly when the cursor does not exceed the counter |
| Convergence.WinnerIsGreatest | internal/store/upsert.go:40-44 | after any sequence of writes a key holds the content of some candidate that no candidate beats |
| Convergence.StoredIsGreatest | internal/store/upsert.go:20-24 | after any sequence of writes a key's row has the latest edit time of all that competed, the greatest revision among those, and no source id above it among those |
| Convergence.OrderCannotChangeRanks | internal/store/upsert.go:20-24 | two orders of the same envelopes, repeats allowed, store the same keys with the same greatest ranks, and the same content where top ties agree |
| Convergence.ContentOrderFreeIff | internal/store/upsert.go:22-23 | the stored content is the same in every order exactly when the envelopes tied for the greatest ranks carry the same content |
| Convergence.TieKeepsFirstArrival | internal/store/conflict.go:14 | of two envelopes tied on all ranks the first to arrive stays, so the two orders differ |
| Convergence.CreationIsFirstArrival | internal/store/upsert.go:20-21 | creation time is the first arrival's whatever wins later |
| Replica.PageFollows | internal/httpapi/sse.go:80-88 | a page cut after any event keeps every row at or below the device's cursor equal to what the device holds |
| Replica.GrowthKeepsFollowsThrough | internal/store/upsert.go:30-46 | server writes between a page and its delivery cannot break that, however much of it is still on the wire |
| Replica.FollowsThroughAppend | internal/httpapi/sse.go:60-65 | pages written one behind the other keep it after every prefix |
| LiveSync.StepKeepsInv | internal/httpapi/pull.go:154-166 | each step of push, notify, subscribe, query, delivery, wakeup, timeout and disconnect keeps the system invariant |
| LiveSync.RunKeepsInv | internal/httpapi/sse.go:33-93 | the invariant holds in every reachable state, any number of pushes and devices interleaved |
| LiveSync.CommitKeepsInv | internal/httpapi/push.go:146-169 | a commit that moved a row leaves a notification owed to every waiting connection of the user |
| Steps.QueryReads | internal/httpapi/pull.go:143-220 | a query reads exactly the rows above the cursor in order up to the limit; plain pulls, polls that found rows and woken polls send that page and its cursor and end; a stream sends it and waits once a page is short; an empty first poll sends nothing and waits |
| Steps.WaitEnds | internal/httpapi/pull.go:220-235 | a poll that times out answers one cursor, the one it was asked with; a signal taken sends the connection back to its query |
| Steps.OneAnswerOnly | internal/httpapi/pull.go:143-235 | in every reachable state a plain pull or poll has sent nothing, or one page and its cursor, and then it is over |
| Steps.DeviceReads | internal/httpapi/pull.go:154-159 | connecting subscribes before any query, from the device's cursor and with nothing sent; delivery is one event at a time in order; a lost connection keeps the copy |
| Steps.EnrollReads | internal/store/since.go:55-58 | a device may start at any cursor; one no higher than the counter counts as issued |
| Steps.CommitReads | internal/httpapi/push.go:146-169 | a commit writes the batch, touches no connection, and owes one notification exactly when it changed a row |
| Steps.NotifyReads | internal/live/registry.go:73-82 | a notification settles one push and leaves a signal with exactly the user's live connections that are not over |
| Steps.ReserveAndDiffRead | internal/store/store.go:154-165 | a bare reservation takes one number and nothing else; a divergence check changes nothing |
| Steps.StepsAvailable | internal/httpapi/pull.go:161-166 | no step is ruled out: connecting in any mode, answering a query, taking a signal, timing out a waiting poll, delivering what was sent |
| Steps.ReachableGoesOn | internal/store/store.go:77-100 | the server starts empty and any enabled step leads on to a reachable state |
| Steps.BurstIsQueries | internal/httpapi/sse.go:74-93 | the catch-up loop is the stream of the system left to query an unchanging store: the same events, then waiting at the last number |
| Guarantees.NoLostWakeup | internal/httpapi/pull.go:154-159 | a connection waiting below a stored row holds a signal, or a committed push of its user has yet to notify |
| Guarantees.QuietMeansCaughtUp | internal/httpapi/sse.go:51-66 | a waiting connection with no signal and no push in flight has sent everything, and a device that received it holds exactly the rows stored after its start, all of them when it began at zero |
| Guarantees.ReplicaAgreement | internal/store/since.go:20-60 | in every reachable state each row stored after a device's start is above its cursor or is the version it holds, and it holds no key the server does not |
| Steps.ShortPageCompletes | internal/httpapi/sse.go:69-73 | after a query with a page shorter than the limit, in any mode, and the delivery of what was sent, a device with a server-issued start holds exactly the rows stored after it |
| Guarantees.StreamOrder | internal/httpapi/sse.go:74-93 | over a whole connection, from its first event on, each envelope number exceeds the initial cursor and all before it, and each cursor event is the greatest number sent before it or the initial cursor |
| Guarantees.ResumeAnywhere | internal/httpapi/pull.go:104-107 | a device cut off after any event reconnects from the last cursor it saw without a gap |
| Guarantees.NumbersAreDistinct | internal/store/migrations/0001_init.sql:28 | distinct numbers in 1..next_seq in every reachable state, though the index does not require it |
| Guarantees.RunGrows | internal/store/store.go:139-165 | along any run the counter rises by exactly the envelopes pushed, won or lost, plus the bare reservations, and no row or rank is lost |
| Progress.RoutineRunsAreShort | internal/httpapi/sse.go:51-93 | each notification, query, wakeup or delivery of a stream, in any order, lowers what is left to do, so a run of them is no longer than that |
| Progress.EveryScheduleCatchesUp | internal/httpapi/sse.go:69-93 | every schedule of those steps, from any reachable state, is finite, can stop only when the stream is at rest, and then the device holds exactly the rows stored after its start |
| Progress.StreamCanAlwaysCatchUp | internal/httpapi/sse.go:69-93 | such a schedule exists wherever a run has led |
| Projection.RunProjects | internal/live/registry.go:73-82 | removing all other users' steps from a run leaves the user's rows, counter, devices, signals, event logs and replies the same |
| Stream.StreamCatchUp | internal/httpapi/sse.go:74-93 | on an unchanging store the loop terminates and writes exactly the burst of the rows above the cursor in floor(n/limit)+1 queries; it is cut short only by a query of those that fails, after the pages before it, or by an event the connection does not take |
| Stream.BurstReads | internal/httpapi/sse.go:69-73 | a burst emits each row once in order and floor(n/limit)+1 cursor events, so an exact multiple of the limit ends with an empty page |
| Stream.WritePage | internal/httpapi/sse.go:80-87 | the envelope events of a page and then its cursor, or a prefix when the connection breaks |
| Stream.EventWriter.Write | internal/httpapi/sse.go:98-110 | one event is appended, or the connection is broken and nothing is |
| LiveRegistry.Registry.Subscribe | internal/live/registry.go:35-49 | a new waiter with an empty channel joins its own user's bucket only |
| LiveRegistry.Registry.Unsubscribe | internal/live/registry.go:54-68 | removes exactly that waiter, twice is once, and no empty bucket stays |
| LiveRegistry.Registry.Notify | internal/live/registry.go:73-82 | leaves one signal in each of exactly that user's waiters |
| LiveRegistry.Registry.Len | internal/live/registry.go:86-94 | the number of distinct waiters subscribed |
| LiveRegistry.CountMembers | internal/live/registry.go:89-93 | summing bucket sizes counts distinct waiters, since no waiter is in two buckets |
| LiveRegistry.Waiter.TryReceive | internal/live/registry.go:98-100 | a receive finds at most one signal and consumes it |
| PushHandler.ValidateWireEnvelope | internal/httpapi/push.go:215-238 | names no field exactly when the envelope is acceptable, and otherwise a field at fault |
| PushHandler.WireFaultIsFirst | internal/httpapi/push.go:210-238 | a field is named exactly when it is at fault and no field looked at before it is |
| PushHandler.WireToEnvelope | internal/httpapi/push.go:183-207 | converts exactly the acceptable envelopes with decodable payload, keeping every field but the number, and otherwise names the faulty field or the payload |
| PushHandler.Gate | internal/httpapi/push.go:123-144 | lets a batch through only when it is clean, and refuses with the first fault in request order, the duplicate check first |
| PushHandler.HandlePush | internal/httpapi/push.go:95-178 | a refused or failed push changes nothing and wakes nobody; an accepted one writes the batch, answers from the store before it, and wakes this user exactly when something applied |
| PushHandler.CleanKeysDistinct | internal/httpapi/push.go:123-131 | every accepted batch has pairwise distinct keys |
| PushHandler.FalseDuplicateIff | internal/httpapi/push.go:126-132 | two different keys are refused as duplicates exactly when one id continues the other with a NUL and the parts absorb the rest; never when ids have no NUL |
| PushHandler.PairRefusedIff | internal/httpapi/push.go:123-144 | two envelopes acceptable one by one are refused together exactly when their joined keys collide, and then as duplicates |
| PushHandler.FalseDuplicateHappens | internal/httpapi/push.go:123-132 | for any short a, b, c the keys (a, b NUL c) and (a NUL b, c) make an acceptable pair that is refused as a duplicate |
| PushHandler.PulledAsPushed | internal/httpapi/pull.go:171-186 | the i-th envelope of an accepted batch, when it applies, is stored field by field as pushed with number next_seq+i+1 and the first arrival's creation time, and a page from below that number lists it or is full and still below it |
| Divergence.CheckPredictsPush | internal/httpapi/diff.go:124-149 | a key is listed exactly when pushing its first-seen ranks would apply: missing when absent, stale with the server's ranks when stored and losing |
| Divergence.CheckAnswers | internal/httpapi/diff.go:124-149 | missing is the requested keys without a row, stale those whose row loses to the first item's ranks, with the row's ranks; each list in the order of first occurrence |
| Divergence.NothingTwice | internal/httpapi/diff.go:171-177 | no key is listed twice, in one list or across both |
| Divergence.AnsweredCheckIsEmpty | internal/httpapi/diff.go:68-72 | once the listed items are pushed, in any order among any other pushes, the same check lists nothing |
| DiffHandler.ValidateDiffItem | internal/httpapi/diff.go:185-200 | names no field exactly when the item is well formed |
| DiffHandler.DiffFaultIsFirst | internal/httpapi/diff.go:185-200 | a field is named exactly when it is at fault and no field looked at before it is |
| DiffHandler.ValidateDiffItems | internal/httpapi/diff.go:161-180 | the first fault of the first faulty item, or the first-seen keys in order with the first item of each |
| DiffHandler.Classify | internal/httpapi/diff.go:124-149 | the loop over first-seen keys produces exactly the missing and stale lists |
| DiffHandler.HandleDiff | internal/httpapi/diff.go:74-157 | the reply lists exactly the missing and stale keys of the request, once each and in request order, judged by the user's rows, or is the error case that applies |
| DiffHandler.PushableIff | internal/httpapi/diff.go:193-196 | an accepted item can be answered by some acceptable push exactly when its edit time and revision are positive |
| Origin.MetaStore.BindAuthoredOrigin | internal/store/origin.go:54-73 | starts exactly when the store is unnamed or carries the configured origin, and then it carries it |
| Origin.MetaStore.EnsureOrigin | internal/store/origin.go:86-134 | decides from the stored origin and writes only an imprint; a failed call writes nothing |
| Origin.GrantedIsStored | internal/store/origin.go:75-134 | through any restarts and calls a named store keeps its name, a granted call returns the stored name, and a mismatch names both truly |
| Origin.NamedByFirst | internal/store/origin.go:79-81 | over any run from an empty database, the name is the first one offered by an authored start or by an imprinting call with an origin, and stays |
| Origin.NamedByIff | internal/store/origin.go:79-81 | the store is named exactly when the run offers a name in one of these two ways |
| Origin.RefusalIff | internal/store/origin.go:92-133 | whatever the run before, exactly which requests are told an origin is required and which that theirs mismatches |
| Origin.TwoImprintsRace | internal/store/origin.go:105-115 | with read and write apart, two first imprints are both granted and the first was told a name the store no longer has |
| Origin.ReadThenWriteIsCall | internal/store/origin.go:86-134 | with nothing in between, the read and the write are the atomic call and tell its reply |
| Origin.LateWritersOnly | internal/store/origin.go:153-161 | a later name of a named store comes only from an imprint that read empty before the naming, and never once those are gone |
| Origin.NameIsFinalIff | internal/store/origin.go:105-115 | a name never changes again, whatever follows, exactly when no call that read empty is about to write another; exactly then every later grant tells it |
| Metrics.Collector.ObserveLatency | internal/metrics/metrics.go:150-158 | the ring keeps the tail of the observations |
| Metrics.RingIsTail | internal/metrics/metrics.go:30-46 | after k observations the valid slots are the last min(k, 1024) samples as a multiset |
| Metrics.Collector.P95 | internal/metrics/metrics.go:107-128 | one of the last min(k, 1024) observations with at least 95 in a hundred of them at or below it and fewer than that strictly below; zero when there are none |
| Metrics.RankIsP95 | internal/metrics/metrics.go:119-127 | the sample at that sorted rank is such a one: ceil(95n/100) samples are not above it and n-ceil(95n/100)+1 not below it |
| Verifier.Verifier.constructor | internal/auth/verifier.go:75-128 | start-up keys, aged from start-up when there is a source; an empty set of that age when a URL does not answer |
| Verifier.Verifier.CheckAge | internal/auth/verifier.go:246-252 | the keys are old exactly when a TTL is set and a stamp is at least that old |
| Verifier.Verifier.TakeUnknownKIDSlot | internal/auth/verifier.go:228-235 | one atomic grant, spaced a minute from the last one in any interleaving |
| Verifier.Verifier.RefetchUnknownKID | internal/auth/verifier.go:228-240 | granted exactly when no grant was given for a minute; then the keys and their age are those fetched, if a source answered, and unchanged otherwise |
| Verifier.Verifier.RefreshIfStale | internal/auth/verifier.go:245-263 | reloads for age exactly when stale, at least one TTL apart in sequential runs even when every fetch fails, and a failed one keeps the keys and waits a whole TTL |
| KeyCache.GrantsAreFew | internal/auth/verifier.go:39-43 | over every interleaved run, fetches for unknown kids are granted at least a minute apart and number at most floor(T/minute)+1 in any span T |
| KeyCache.KnownKidFetchesNothing | internal/auth/verifier.go:152-154 | a request whose kid is cached when it looks never fetches for it |
| KeyCache.UnknownKidFetchesIff | internal/auth/verifier.go:152-154 | a request whose kid is not cached when it looks goes on to ask for the slot whatever others do, and fetches exactly when the last grant is a minute old |
| KeyCache.EveryRequestGetsReady | internal/auth/verifier.go:144-156 | a request takes at most five sections after its age check and always has a next one until it is ready |
| KeyCache.RefreshAgainIff | internal/auth/verifier.go:245-263 | after a fetch for age began at t1, a check at t2 begins another exactly when every stamp since is a TTL old; within one TTL, exactly when no request has stamped the cache |
| KeyCache.OverlapMeansUnfinished | internal/auth/verifier.go:255-262 | two fetches for age begin within one TTL only while the first is unfinished |
| KeyCache.RefreshesAreSpaced | internal/auth/verifier.go:242-263 | in every run where no age check falls inside a renewal, fetches for age begin at least one TTL apart, even if all fail and whatever unknown kids do |
| KeyCache.AllCanRefreshAtOnce | internal/auth/verifier.go:250-255 | one TTL after start-up any number of requests can all be fetching the keys |
| Verifier.Verifier.Reload | internal/auth/verifier.go:266-324 | a failed reload leaves the key set and its age unchanged |
| KeyCache.FewInSpan | internal/auth/verifier.go:39-43 | times at least one interval apart number at most floor(T/interval)+1 in any span T |
| Migrate.Schema.ApplyMigration | internal/store/migrate.go:136-163 | script and record commit together or neither does |
| Migrate.Schema.ApplyMigrations | internal/store/migrate.go:107-131 | an open fails exactly when there is nothing to apply from, the version cannot be read or the loop meets a failure, and then has applied what comes before; what is applied stays a prefix of the ascending list, a successful open has applied all, and another changes nothing |
| Migrate.AllAppliedIffDistinct | internal/store/migrate.go:121-129 | a fresh database gets every migration of a positive list exactly when no two share a version |
| Migrate.OnePerVersion | internal/store/migrate.go:58-63 | a fresh database gets each version once, ascending, from the file of that version whose name comes first |
| Migrate.PendingIsRest | internal/store/migrate.go:116-128 | with a prefix recorded, what the loop applies is exactly the rest |
| QueryInt.ParseNonNegativeQueryInt | internal/httpapi/pull.go:68-82 | accepts a non-empty text exactly when it is all digits with a value below 2^63, and then yields that value |
| QueryInt.DecimalRoundTrip | internal/httpapi/pull.go:63-67 | the decimal form of any number is all digits and reads back as that number |
| QueryInt.FirstDigitWeighsMost | internal/httpapi/pull.go:77-81 | a number is read from its highest digit down |
| QueryInt.NoLeadingZero | internal/httpapi/pull.go:63-67 | a printed cursor has no leading zero, but for zero itself |
| QueryInt.ParsePull | internal/httpapi/pull.go:92-142 | every request that reaches the store has a limit in 1..maxLimit, truncated above it, and the cursor it named or zero |

## Left out

- SQLite itself, `database/sql`, WAL and connection pools: their atomic transactions and snapshot reads are the model's steps.
- HTTP routing, headers, status codes, JSON and SSE framing, write deadlines, flushing and heartbeats: only the sequence of events and replies is kept.
- Base64 decoding of payloads (section 4 of RFC 4648): a parameter of the push handler.
- JWT parsing and signature checks, key decoding and JWKS documents: a reload yields a key map or fails.
- The wall clock and `server_now_ms`: not used in ranking. The key cache takes clock samples as parameters.
- Verifier.Verifier.RefreshIfStale: the method is one request without others in between; what interleaved requests do is in `KeyCache`.
- Metrics.Collector.P95: the rank is the integer ceiling of 95n/100, not the floating-point expression at internal/metrics/metrics.go:120.
- LiveSync.Acted: `pullHandler`, `serveLivePoll` and the wait loop of `serveLiveSSE` block on channels, so they are modelled on values, as steps of a transition system; a waiter there is the connection's signal, and the `Waiter` objects are in `LiveRegistry`.
- LiveSync.Queried: a page's events join the connection's log in the same step as its query; the device still receives them one at a time and may be cut off between any two.
- Progress.EveryScheduleCatchesUp: of schedules in which no further push commits and the device is not cut off; under endless pushes a stream need not come to rest.
- `sort.Slice` and `strconv.ParseUint` are library code, modelled by what they return.
- `splitSQLStatements`, file name parsing and the text of the migrations: a migration is an opaque effect.
- Request counters, `LastError`, `Stats`, configuration, the admin panel, health check, seeding, load scripts and the installer: input, output or single-branch facts.
