# EKIP, modelled and proved

EKIP ingests documents from remote sources, retrieves and answers from them, and
investigates incidents. This project models the parts of it whose correctness is hardest
to see from one function, and proves what they are for. Run
`dafny verify dfyconfig.toml` in this directory (Dafny 4.11).

## What is modelled

**The ingestion sync** (`DocumentStore`, `Replay`, `SyncProtocol`, `Traversal`,
`SyncSafety`, `SyncExact`, `SyncProgress`, `SyncReach`, `SyncBlocked`, `SyncCompletion`,
`SyncLedger`, `SyncDisconnect`, `SyncRecovery`, `SyncWorker`, `IngestionCheckpoint`). A worker walks a paginated remote
source, commits each changed item on its own, and saves the next cursor after each page.
`SyncProtocol` is a step machine over durable state, in which an attempt can die between
any two steps, a commit can land although its caller is told that it failed, and another
session can disconnect the connector at any time without the attempt noticing.
`SyncWorker` is the worker itself as imperative code over a database session; each of its
attempts is proved to be a run of the step machine, and each state it ever makes durable
to be a state of that run. The results are stated over all runs and all walks: no page is
skipped; the store is always that of one uninterrupted pass over a prefix of the walk, and
after a success that of one pass over all of it, with the same rows, versions and chunks;
a sync can succeed if and only if one pass completes; and one successful sync after another
leaves the store of one pass over all their walks. Each job row tells the last thing that
was committed for its attempt, and no attempt fetches a page twice. Whether it also recovers from every
crash depends on the walk, and the exact conditions are proved: within one sync, that no
page carries an id with two contents and no other id changes before one of the first page
does; and if a walk may be gone through again after success, that no id changes at all.

**Token buckets** (`RateLimiter`, `DistributedRateLimiter`). The in-process limiter and
the Redis script refine each other step for step. Granted are exactly the calls that keep
within the burst and the refill over every stretch of calls on their key. Expiry never grants more and is
invisible exactly for callers with a capacity or a rate of at least one. Grants in any
window are bounded by capacity plus refill, also when Redis' clock steps back.

**Text** (`Utf8`, `MetadataValue`, `PromptSafety`, `Decimal`, `Text`, `Markers`, `Grounding`,
`Citations`, `AnswerNode`, `Retry`). UTF-8 truncation, evidence fencing, and the answer
pipeline from the model's draft to the text and citations that are delivered.

**Leader clustering** (`Cosine`, `Clustering`), over real vectors, with Cauchy-Schwarz and
when it is an equality.

**The critique of hypotheses** (`Hypotheses`, `Critique`, `Review`): two passes at most,
one revision at most, exactly when it accepts, rejects or fails, and what an acceptance may
change. What a model writes as it is asked to is read back unaltered.

## What was found

- The `documents` table has a unique key on (organization, source, external id, content
  hash), in app/database/models/ingestion_models.py:84-91. So content that an id had before
  is not stored as a new version: the insert is refused, and that error is not retried. A
  source that goes back to older content can therefore not be synced at all: if one pass is
  refused, no run ever succeeds (`SyncExact.RefusedWalkNeverSucceeds`,
  `SyncCompletion.CanSucceedIff`).
- For the same reason the comment in app/ingestion/service.py:703-708, that a process death
  replays one page idempotently, and the one in app/ingestion/service.py:451-458 do not hold
  for every page. `Replay.ReplayIff` and `Replay.CrashThenReplay` give the exact condition
  for one segment, and `Replay.ReplayCanFail` the smallest example. On any page that carries
  one id with two contents a single crash of an otherwise undisturbed run can end the sync
  for good, whatever happens later (`SyncBlocked.TwoHashesCanBlock`); so can a single crash
  after an id has changed between two pages, if the checkpoint is then ignored once
  (`SyncBlocked.MovedBackCanBlock`).
  `SyncRecovery.RecoversIffSafe` and `SyncRecovery.RecoversIffOneHash` say exactly which
  walks are spared.
- If an item's commit lands but is reported lost, the retry finds the item unchanged and
  it is counted as skipped. The versions an attempt committed are exactly those it counts
  as processed and those commits (`SyncExact.RunKeepsBooks`), so the count, also in the job row
  (`SyncCompletion.CompletedRowIff`), is right if and only if there was none. There can be one on every walk whose first item is new
  (`SyncCompletion.CommittedButNotCounted`).
- If the commit that completes a sync lands but is reported lost, the job row can read
  "failed" although `last_synced_at` has moved: exactly if the failure is then recorded
  (`SyncCompletion.CompletedRowIff`), which can happen on every walk that one pass
  completes (`SyncCompletion.FailedThoughSynced`).
- The comment in app/core/tenancy/repository.py:428-440, that a sync in flight never revives
  a connector that was disconnected meanwhile, does not hold. The guard there reads the row
  through `session.get` on a session that keeps what it has read across commits
  (app/database/session.py:146-150), so it misses a disconnect since its last checkpoint or
  rollback. The disconnect lasts exactly if no attempt then writes another status than the
  one it had read (`SyncDisconnect.DisconnectLastsIff`); on every walk that one pass
  completes a missed one ends with the sync time moved and, unless the connector was active
  before, with the connector active again (`SyncDisconnect.DisconnectMissed`). Once an
  attempt has noticed, nothing of the row is ever written (`SyncDisconnect.GoneForGood`).
- `acquire` with an explicit capacity below one never takes a token, in process or in Redis
  (`RateLimiter.NoTokenBelowOne`, `DistributedRateLimiter.NeverGranted`).
- A rejected try on a key that is present changes nothing later. On a key that is absent
  that holds exactly for callers who give a capacity; otherwise the try starts a slow key's
  clock (`RateLimiter.RejectionOnAbsentIff`).
- Expiry of the Redis key can be observed by callers without a capacity whose rate is below
  one: `DistributedRateLimiter.SlowKeyForgets`.
- The comment in app/agents/knowledge_gap/clustering.py:34-36 calls a similarity of 0.0 the
  minimum; the minimum is -1. With a threshold of -1 or less, an embedding still leads a
  cluster of its own, exactly if it is opposite to all the others
  (`Clustering.OppositeNeverJoins`, `Clustering.OppositeExists`).
- A contradiction note that names one known reference twice is kept, although
  app/agents/investigation/critique.py:360-361 asks for two things that conflict
  (`Critique.OneReferenceTwiceIsKept`). A kept note names two different ones exactly if the
  entry named two different known ones (`Critique.NamesTwoIff`).

## Assumptions

- The remote is frozen for the duration of a sync, as are start time, mode and
  configuration: it answers each cursor with the same page, so nothing is said about
  completeness over a source that changes meanwhile.
- Attempts of one connector do not overlap, and nobody else writes the same documents. Of
  the connector's row nobody else writes anything but a disconnect.
  Whether an attempt accepts the stored checkpoint is arbitrary in `SyncProtocol`; when it
  does is the subject of `IngestionCheckpoint`.
- Floating-point numbers are real numbers; the square root is a parameter with its
  defining equation.
- The tables of Unicode digits and spaces are a parameter (`Text.Alphabet`) of which only
  the facts in `Valid` are used.
- SHA-256, `str()` and date printing are parameters; the fingerprint is taken to be
  injective.
- Models, embeddings, the network, clocks and failures are arbitrary oracles or
  nondeterministic choices. One run of the Redis script takes one instant. A wait or a
  number of rounds that has no end in the code is given one, at which the caller counts as
  cancelled. Only for the bound on the rounds of the Redis wait is the server's clock taken
  to be steady: it never steps back, and a sleep and a call each overshoot by at most 15
  seconds.

## Model

| member | source | states |
|---|---|---|
| DocumentStore.LatestIsNewest | app/ingestion/repository.py:203-226 | the version a reader gets is the one added last, and its number is the length of the chain |
| DocumentStore.ChainDistinct | app/database/models/ingestion_models.py:84-91 | no content comes back within one id's version chain |
| DocumentStore.ProcessKeepsTable | app/ingestion/service.py:1105-1122 | versions run 1..n per id without a repeated hash, and every chunk belongs to a row whose chunks are numbered from 0, after every insert |
| DocumentStore.EffectIff | app/ingestion/service.py:1094-1122 | by the history of its id an item is too large, unchanged if its content is the last, refused if it is an earlier one, and a new version if it is neither, each exactly |
| DocumentStore.ProcessAppends | app/ingestion/service.py:1108-1122 | an insert appends one hash to its own id's history, becomes its latest content, and leaves all other ids alone |
| DocumentStore.ProcessAddsChunks | app/ingestion/service.py:1127-1153 | a version and its chunks arrive together; the chunks of all other rows stay |
| DocumentStore.AddKeepsStored | app/ingestion/repository.py:229-283 | an insert forgets nothing and stores only its own content |
| Replay.PassResult | app/ingestion/service.py:661-696 | a completed pass shows for every id the last content it carried, and stores exactly what it carried besides what was there |
| Replay.PassCompletesIff | app/ingestion/service.py:1095-1122 | a pass completes if and only if every item is within limits and is either what its id shows at that point or content its id never had |
| Replay.PassConcat | app/ingestion/service.py:661-696 | continuing where a pass stopped is processing the whole |
| Replay.ReplayIff | app/ingestion/service.py:451-458 | processing a segment again succeeds if and only if it gives each id one hash, and then changes nothing |
| Replay.CrashThenReplay | app/ingestion/service.py:703-708 | a crash after any item, then the segment from its start: the outcome of one pass if the items done give each id one hash, otherwise failure |
| Replay.ReplayCanFail | app/ingestion/service.py:703-708 | a page of two items that completes once and on no second try |
| SyncProtocol.RunsJoin | app/ingestion/service.py:441-975 | attempt after attempt is one run |
| SyncProtocol.CrashIsRun | app/ingestion/service.py:698-736 | dying at any point of any run leaves a state that ends a run |
| Traversal.Linear | app/ingestion/service.py:621-736 | any two points of a walk by next cursors are comparable |
| Traversal.NothingAfterWhole | app/ingestion/service.py:698-699 | nothing lies beyond the page without a successor |
| Traversal.CursorsDistinct | app/ingestion/service.py:256-265 | a walk that ends never shows a cursor twice, so the repeated-cursor check never stops it |
| SyncSafety.Advance | app/ingestion/service.py:661-696 | processing the next item moves the attempt's point on: all earlier items stored, every id not seen again final |
| SyncSafety.Undisturbed | app/ingestion/service.py:1105-1153 | a version added at any point of the walk disturbs no other point, in particular not the checkpoint's |
| SyncSafety.NextKeepsInv | app/ingestion/service.py:600-762 | every step, including crashes and landed commits reported lost, keeps the invariant |
| SyncSafety.RunKeepsInv | app/ingestion/service.py:600-762 | the invariant holds after every run |
| SyncSafety.NoPageSkipped | app/ingestion/service.py:703-708 | in every reachable state a stored cursor is that of a page of the walk, and every item of every earlier page is stored |
| SyncSafety.OnlyCompletionMovesSyncTime | app/ingestion/service.py:738-762 | `last_synced_at` moves, and the checkpoint is cleared, only in a commit that ends a complete walk with all of it stored |
| SyncSafety.AtTheEnd | app/ingestion/service.py:698-762 | where a walk ends, every item is stored and every id shows its final content |
| SyncExact.PassedItem | app/ingestion/service.py:1105-1122 | an item a pass has been over is never inserted again, and is unchanged exactly if the pass gave its id no other content later |
| SyncExact.NextKeepsExact | app/ingestion/service.py:600-762 | over every walk, every step keeps the store equal to one pass over some prefix of the walk |
| SyncExact.RunKeepsExact | app/ingestion/service.py:600-762 | so does every run |
| SyncExact.SuccessIsOnePass | app/ingestion/service.py:451-458 | over every walk, when an attempt succeeds one pass completes too, and the store is exactly the one it leaves: rows, versions and chunks |
| SyncExact.SuccessMatchesOnePass | app/ingestion/service.py:600-762 | every id then shows the last content the walk gave it, as after one uninterrupted in-order pass |
| SyncExact.RefusedWalkNeverSucceeds | app/database/models/ingestion_models.py:84-91 | if one pass over the walk does not complete, no run of any length ever commits success |
| SyncExact.NextKeepsBooks | app/ingestion/service.py:643-748 | every step keeps the job rows and counters in order |
| SyncExact.RunKeepsBooks | app/ingestion/repository.py:136-200 | in every reachable state at most one row is running and none queued, discovered = processed + skipped on running and succeeded rows and at least that on failed ones, the versions and chunks an attempt committed are those it counts and those whose commit was reported lost, items are only processed of pages within the size cap whose next cursor is there and new, it fetches at most one page more than its cap, and what its session has read of the connector's status is still so unless another session has disconnected it |
| SyncExact.IdleIsInitial | app/ingestion/service.py:738-762 | where a run leaves no attempt and no checkpoint, in particular where a sync has completed, the next sync finds what this one found: a sound table and job rows in order |
| SyncLedger.RowTellsLastWrite | app/ingestion/service.py:719-845 | in every reachable state every row added since carries the counters its attempt had at the last commit that wrote the row, and the status that commit gave it, as closing and dead-lettering leave it |
| SyncLedger.OlderRowsStay | app/ingestion/repository.py:136-172 | rows of earlier syncs keep their counters, and are at most closed and dead-lettered |
| SyncLedger.PagesAreCounted | app/ingestion/service.py:643-650 | the pages and items an attempt counts are those fetched for its job, the page it failed on included |
| SyncLedger.NoPageTwice | app/ingestion/service.py:256-265 | whatever the remote answers, no attempt fetches the page at one cursor twice |
| SyncProgress.CalmItemsIsPass | app/ingestion/service.py:661-696 | the item loop does what one pass does |
| SyncProgress.PagePasses | app/ingestion/service.py:239-265 | a page of a walk that ends passes the contract check while the page cap lasts, and fails it afterwards |
| SyncProgress.CalmPagesReach | app/ingestion/service.py:621-736 | an undisturbed attempt does the rest of the walk if it fits, otherwise exactly its page budget |
| SyncProgress.CeilDivIsCeiling | app/ingestion/service.py:248-251 | the number of attempts is the ceiling of pages over the cap |
| SyncProgress.ExactlyCeilAttempts | app/ingestion/service.py:239-265 | N pages under a cap of M take exactly ceil(N/M) attempts, which together store what one pass stores |
| Replay.ShownIsDone | app/ingestion/service.py:1105-1109 | after a pass, repeating any of its items that it still shows changes nothing |
| SyncProgress.RestIsReady | app/ingestion/service.py:600-618 | what is left from an earlier point is accepted, and comes to the same, if what is repeated is still shown |
| SyncProgress.AlwaysRecovers | app/ingestion/service.py:600-762 | after any run over a walk that changes no id, at most ceil(N/M) undisturbed attempts finish with exactly the store of one pass |
| SyncReach.OnPage | app/ingestion/service.py:698-736 | from the end of any page an undisturbed run goes on to the start of the next one, if need be with a new attempt, and leaves the checkpoint there and the store alone |
| SyncReach.ToPage | app/ingestion/service.py:600-736 | an undisturbed run reaches any page of the walk, with the checkpoint there and the store of one pass over the pages before |
| SyncReach.ToItem | app/ingestion/service.py:661-696 | and any item of it, with the store of one pass so far |
| SyncBlocked.NextKeepsBlocked | app/ingestion/service.py:703-708 | for any page whose content is stored but no longer shown, no step gets past it or completes the sync |
| SyncBlocked.BlockedForever | app/ingestion/service.py:703-708 | no run out of a blocked state ever completes or moves `last_synced_at` |
| SyncBlocked.TwoHashesCanBlock | app/ingestion/service.py:703-708 | whenever any page carries an id with two contents, an undisturbed run that dies a single time, at its end, leaves a state from which no run ever completes |
| SyncBlocked.MovedBackCanBlock | app/ingestion/service.py:600-618 | the same for an id that changes between two pages of which the earlier is not the first, while the first page is unchanged: one crash and one ignored checkpoint, in a run otherwise undisturbed |
| SyncCompletion.CompletingRun | app/ingestion/service.py:738-762 | every walk that one pass completes has an undisturbed run that ends in success |
| SyncCompletion.CanSucceedIff | app/ingestion/service.py:600-762 | a sync can succeed by some run if and only if one pass over the walk completes |
| SyncCompletion.CompletedRowIff | app/ingestion/service.py:738-845 | at any later time the row of a completed job reads succeeded if and only if no failure of that attempt was recorded after the completion; either way it carries the attempt's counters, which are true of the documents and chunks it added |
| SyncCompletion.FailedThoughSynced | app/ingestion/service.py:763-845 | on every walk that one pass completes, a run ends with everything stored and the sync time moved while the row reads failed |
| SyncCompletion.CommittedButNotCounted | app/ingestion/service.py:1045-1072 | on every walk whose first item is new, a run commits that item and counts it as skipped |
| SyncCompletion.SyncsAreOnePass | app/ingestion/service.py:441-975 | any number of successful syncs one after another, each with any crashes and failures, leave exactly the store of one pass over all their walks, and the next can start |
| SyncDisconnect.GoneForGood | app/core/tenancy/repository.py:445-446 | once a disconnect has been noticed no run changes status, checkpoint or sync time |
| SyncDisconnect.NextNotices | app/core/tenancy/repository.py:473-481 | an attempt notices a disconnect with its next checkpoint or failure at the latest |
| SyncDisconnect.DisconnectLastsIff | app/core/tenancy/repository.py:428-447 | a disconnect lasts through a run if and only if no attempt of it writes a status other than the one it had last read |
| SyncDisconnect.DisconnectMissed | app/database/session.py:146-150 | on every walk that one pass completes, a disconnect just before the last commit goes unnoticed: the sync time moves, and a connector that was not active before is made active |
| SyncRecovery.CalmPagesStuck | app/ingestion/service.py:621-736 | an undisturbed attempt in a blocked state adds nothing and fails |
| SyncRecovery.BlockedNeverRecovers | app/ingestion/service.py:600-762 | no number of undisturbed attempts leads out of a blocked state |
| SyncRecovery.NextKeepsResumable | app/ingestion/service.py:600-762 | over a walk that meets the condition of the next row, every step of an uncompleted sync keeps what is repeated from the checkpoint on acceptable, even while a disconnect goes unnoticed |
| SyncRecovery.RecoversIffSafe | app/ingestion/service.py:703-708 | within one sync, every state that any run leads to recovers with exactly the store of one pass if and only if no page carries an id with two contents and no id changes before one of the first page does |
| SyncRecovery.RecoversIffOneHash | app/ingestion/service.py:451-458 | if the walk may be gone through again after success, every state recovers if and only if no id ever changes its content |
| SyncWorker.Session.Commit | app/ingestion/service.py:1045-1046 | a commit can be lost, or land while the caller is told it failed |
| SyncWorker.Session.Elsewhere | app/core/tenancy/service.py:848-852 | another session's disconnect, between any two steps of the attempt |
| SyncWorker.FetchBatchWithRetry | app/ingestion/service.py:401-438 | at most three calls; a permanent error ends at once, a transient one only after three |
| SyncWorker.RetryableIff | app/ingestion/service.py:381-418 | tried again are exactly lost connections and the statuses 408, 425, 429, 500 and 502 to 504 |
| SyncWorker.ProcessOneItem | app/ingestion/service.py:1075-1153 | the effect on the open transaction is that of the store's specification, or an exception |
| SyncWorker.ProcessOneItemWithRetry | app/ingestion/service.py:997-1072 | at most three tries and at most one version with its chunks across them, including commits that landed but were reported lost |
| SyncWorker.ProcessPage | app/ingestion/service.py:661-696 | the item loop is a run of the step machine, and an undisturbed one computes the specification |
| SyncWorker.EndPage | app/ingestion/service.py:698-762 | the checkpoint or completion commit, with its lost and landed outcomes and with what had been read of the connector before, is a step of the machine |
| SyncWorker.RunPage | app/ingestion/service.py:621-736 | one round of fetch, check, process and commit |
| SyncWorker.PageLoop | app/ingestion/service.py:621-762 | the loop ends within the page cap, in success or a failing attempt |
| SyncWorker.RecordFailureWithRetry | app/ingestion/service.py:806-942 | the failure is written on the attempt's session or on up to three fresh ones, perhaps several times, perhaps never; neither store nor checkpoint nor sync time is touched |
| SyncWorker.OpenAttempt | app/ingestion/repository.py:136-172 | predecessors left running are closed and the new row is running in one commit |
| SyncWorker.ExecuteAttempt | app/ingestion/service.py:441-975 | an attempt is a run of the step machine, with any disconnects from another session in between, every state made durable meanwhile is a state of that run, and undisturbed it has the specified outcome |
| IngestionCheckpoint.LoadOfBuilt | app/ingestion/service.py:177-236 | a checkpoint yields exactly what was put in if source and mode are the same, the configurations agree on every key that does not begin with an underscore, its age is within -300 seconds and the limit, the cursor is not empty and times are aware; otherwise nothing |
| IngestionCheckpoint.LoadIff | app/ingestion/service.py:177-214 | whatever object is stored: it is believed if and only if its date is aware and recent and it agrees with the checkpoint this worker would have written then, in this mode and under this configuration |
| IngestionCheckpoint.LoadNeedsObject | app/ingestion/service.py:177-190 | anything but an object is no checkpoint |
| IngestionCheckpoint.WorkerPatchKeepsOperator | app/ingestion/service.py:159-174 | writing keys that begin with an underscore leaves all others as they are |
| IngestionCheckpoint.NextAttemptResumes | app/ingestion/service.py:709-733 | the next attempt resumes where the last page left it, whatever other worker-owned keys were written, and afresh after completion |
| RateLimiter.TokenBucketRateLimiter.Refill | app/shared/rate_limiter.py:64-87 | the stored bucket is the refilled one and other keys are untouched |
| RateLimiter.TokenBucketRateLimiter.TryAcquire | app/shared/rate_limiter.py:121-142 | a token is taken exactly if there is one; no limit for a rate of zero or less |
| RateLimiter.TokenBucketRateLimiter.Acquire | app/shared/rate_limiter.py:89-119 | undisturbed, with a capacity of at least one, it takes a token in the first round or, after the computed wait, in the second; with a smaller capacity in no round at all |
| RateLimiter.GrantedExactlyAfterWait | app/shared/rate_limiter.py:112-119 | after a rejection a later try succeeds exactly from the computed wait on |
| RateLimiter.NoTokenBelowOne | app/shared/rate_limiter.py:108-119 | a capacity below one never grants |
| RateLimiter.RefillComposes | app/shared/rate_limiter.py:82-87 | refilling at two instants is refilling at the later |
| RateLimiter.RejectionIsNeutral | app/shared/rate_limiter.py:121-142 | a rejected try on a present bucket changes no later outcome |
| RateLimiter.RejectionOnAbsentIff | app/shared/rate_limiter.py:82-87 | on an absent bucket a rejected try changes no later outcome if and only if a capacity was given |
| RateLimiter.KeysAreIndependent | app/shared/rate_limiter.py:31-35 | a key's bucket and grants depend on the calls on that key alone |
| RateLimiter.KeyBudget | app/shared/rate_limiter.py:64-142 | tokens left plus grants never exceed one full bucket plus the refill |
| RateLimiter.WindowBound | app/shared/rate_limiter.py:64-142 | in any window of calls on any keys, from any state, one key is granted at most burst + rate × elapsed, where the burst is the capacity given, or else the rate and at least one |
| RateLimiter.GrantedIffConforming | app/shared/rate_limiter.py:121-142 | among any calls on any keys, a call is granted if and only if one more grant keeps within the start and the refill since the key's first call, and within the burst and the refill since each call on the key |
| RateLimiter.ColdStart | app/shared/rate_limiter.py:134-135 | of calls at one instant on an absent key exactly the first ones that the start covers are granted: the rate without a capacity, otherwise the capacity |
| DistributedRateLimiter.Redis.Eval | app/shared/distributed_rate_limiter.py:28-56 | one run of the script on the key's live entry, or none or an unseen one when the connection fails |
| DistributedRateLimiter.RedisTokenBucketRateLimiter.TryAcquire | app/shared/distributed_rate_limiter.py:120-159 | the script's answer, or permission when Redis does not answer; only the key's own entry changes |
| DistributedRateLimiter.RedisTokenBucketRateLimiter.Acquire | app/shared/distributed_rate_limiter.py:97-118 | every round but the last is refused and a completed wait takes exactly one token; on a steady clock, with a capacity of at least one, sleeping as long as the script says makes the second round succeed; with a capacity below one no round does |
| DistributedRateLimiter.NeverGranted | app/shared/distributed_rate_limiter.py:97-118 | a bucket below one token grants nothing at any instants, whatever it held before |
| DistributedRateLimiter.ScriptRefinesBucket | app/shared/distributed_rate_limiter.py:28-56 | on an instant not before the last the script grants exactly when the in-process bucket does and leaves the same bucket |
| DistributedRateLimiter.RunRefines | app/shared/distributed_rate_limiter.py:28-56 | so does every run from an absent key |
| DistributedRateLimiter.ResolvedIsSensible | app/shared/distributed_rate_limiter.py:109-110 | resolved parameters are in the range the other results need |
| DistributedRateLimiter.TtlCoversRefill | app/shared/distributed_rate_limiter.py:82-84 | the time-to-live is a minute or more and covers two full refills |
| DistributedRateLimiter.TtlIsLeast | app/shared/distributed_rate_limiter.py:82-84 | and it is the least such whole number of milliseconds |
| DistributedRateLimiter.FullAfterTtl | app/shared/distributed_rate_limiter.py:82-84 | a bucket left alone for its time-to-live is full |
| DistributedRateLimiter.ExpiryNeverGrantsMore | app/shared/distributed_rate_limiter.py:53-54 | at every point of every run the expiring store has granted at most what one that never forgets has |
| DistributedRateLimiter.FullStartHidesExpiry | app/shared/distributed_rate_limiter.py:82-95 | a key that starts full cannot be told from one that never expires |
| DistributedRateLimiter.ExpiryInvisibleIff | app/shared/distributed_rate_limiter.py:82-95 | expiry is invisible on every run if and only if a capacity is given or the rate is at least one |
| DistributedRateLimiter.SlowKeyForgets | app/shared/distributed_rate_limiter.py:109-110 | a slow key is refused after its expiry where a remembered one would be granted |
| DistributedRateLimiter.RetryAfterWaitIsGranted | app/shared/distributed_rate_limiter.py:47-52 | a retry before the expiry is granted if and only if it comes the returned milliseconds later or more, and the wait ends at least 30 seconds before the expiry |
| DistributedRateLimiter.SweepsAreUnseen | app/shared/distributed_rate_limiter.py:53-54 | on a clock that never steps back it makes no difference when Redis deletes an expired key |
| DistributedRateLimiter.RunKeepsCovered | app/shared/distributed_rate_limiter.py:35-53 | through calls, deletions and clock steps, grants stay covered by one full bucket and the refill of the forward steps |
| DistributedRateLimiter.ForwardWindowBound | app/shared/distributed_rate_limiter.py:35-53 | whatever the clock does, and whenever Redis deletes an expired key, grants are at most burst + rate × the sum of the clock's forward steps, in the caller's rate and capacity |
| DistributedRateLimiter.LazyWindowBound | app/shared/distributed_rate_limiter.py:35-53 | in particular over the instants of the calls alone |
| DistributedRateLimiter.RedisColdStart | app/shared/distributed_rate_limiter.py:109-110 | of calls at one instant on an absent key exactly the first ones that the start covers are granted |
| Utf8.StepReadsCharacter | app/ingestion/repository.py:332-338 | decoding reads back each encoded character, whatever follows |
| Utf8.EncodingIsTheTable | app/ingestion/repository.py:332-338 | the encoding is that of section 3 of RFC 3629: number of bytes, leading bits, and six bits in each further byte |
| Utf8.StepDropsCutCharacter | app/ingestion/repository.py:332-338 | a character cut short, at the end or before a byte that does not continue it, is dropped whole and nothing else with it |
| Utf8.StepDropsStrayByte | app/ingestion/repository.py:332-338 | a byte that starts no character is dropped alone |
| Utf8.FittingIsLongest | app/ingestion/repository.py:332-338 | the longest prefix of whole characters within so many bytes |
| Utf8.DecodeOfCut | app/ingestion/repository.py:332-338 | decoding any byte prefix of an encoding gives exactly the characters that fit in it |
| Utf8.RoundTrip | app/ingestion/repository.py:332-338 | decoding an encoding gives the string back |
| Utf8.DecodeIsSound | app/ingestion/repository.py:332-338 | whatever the bytes, only encodable characters come out, and no more than went in |
| MetadataValue.MarkerIsFourteenBytes | app/ingestion/repository.py:328-329 | the marker takes 14 bytes |
| MetadataValue.MarkerSpells | app/ingestion/repository.py:328-329 | the marker is an ellipsis and "[truncated]" |
| MetadataValue.FitIsLongestPrefix | app/ingestion/repository.py:328-338 | unchanged exactly if it fits, otherwise the longest prefix of whole characters within 1986 bytes and the marker; never more than 2000 bytes |
| MetadataValue.FitIsIdempotent | app/ingestion/repository.py:332-338 | fitting a fitted value changes nothing |
| PromptSafety.ReplaceCreatesNone | app/agents/prompt_safety.py:52-54 | a replacement pass leaves no tag behind and creates none |
| PromptSafety.OnlyAtTheFence | app/agents/prompt_safety.py:52-56 | a tag absent from the text occurs nowhere but where a fence tag begins |
| PromptSafety.FencedExactlyOnce | app/agents/prompt_safety.py:46-56 | whatever the evidence, the open tag occurs once, at the start, and the close tag once, at the end |
| PromptSafety.UnchangedIff | app/agents/prompt_safety.py:52-54 | evidence is altered if and only if it holds a tag |
| PromptSafety.TagsAreDefanged | app/agents/prompt_safety.py:52-54 | each tag, wherever it stands, becomes its words in brackets, and the text on both sides becomes what it would be alone |
| PromptSafety.FenceHoldsEvidence | app/agents/prompt_safety.py:52-56 | between the fence tags, each on a line of its own, is the evidence so treated, unaltered if it holds no tag |
| Text.CollapseStripIsWords | app/agents/answer/markers.py:36-36 | collapsing spaces and trimming leaves the words, one space apart |
| Text.StripPadded | app/agents/answer/markers.py:36-36 | trimming removes exactly the spaces around a text |
| Markers.DistinctIsFirstSeen | app/agents/answer/markers.py:24-29 | the same numbers, each once, in the order of first appearance |
| Markers.ExtractCitationMarkers | app/agents/answer/markers.py:20-29 | the loop computes the distinct numbers of all markers |
| Markers.BracketedDigitsAreRead | app/agents/answer/markers.py:17-26 | a run of digits in brackets is read as the marker of their number, and removed |
| Markers.PrintedIsRead | app/agents/answer/markers.py:17-26 | a number printed in decimal in brackets is read as the marker of that number, and removed |
| Markers.OthersArePlain | app/agents/answer/markers.py:17-17 | nothing but digits in brackets is a marker: any other character stands for itself |
| Markers.NoBracketNoMarker | app/agents/answer/markers.py:17-17 | text without an opening bracket holds no marker and stays as it is |
| Markers.ScanSplits | app/agents/answer/markers.py:17-17 | no marker straddles a space: each side reads as it does alone |
| Markers.MarkersSplit | app/agents/answer/markers.py:25-25 | the markers of a text with a space in it are those of its two sides |
| Markers.StripMarkersIsContent | app/agents/answer/markers.py:32-36 | stripping markers leaves the remaining words, one space apart |
| Grounding.JoinKeepsMarkersAndWords | app/agents/answer/node.py:236-236 | joining sentences makes and loses no marker and no word |
| Grounding.PartsAreWhole | app/agents/answer/grounding.py:41-55 | no part can be cut further, and every part but the last ends like a sentence |
| Grounding.SentencesAreWhole | app/agents/answer/grounding.py:53-55 | no sentence is empty or holds a full stop, exclamation mark or question mark followed by a space, and every sentence but the last ends with one |
| Grounding.SplitKeepsMarkersAndWords | app/agents/answer/grounding.py:53-55 | nor does splitting into sentences |
| Grounding.Best | app/agents/answer/grounding.py:85-88 | the greatest similarity to any chunk, attained by one of them |
| Grounding.KeptExactly | app/agents/answer/grounding.py:78-106 | survivors are in order and are exactly the sentences with text besides markers and a chunk with a similarity of at least 0.55, or above 0.35 and approved by the judge |
| Grounding.VerifyGrounding | app/agents/answer/grounding.py:58-106 | the loop computes the survivors; none without sentences or chunks |
| Citations.BuildCitations | app/agents/answer/citations.py:22-50 | the loop computes the citations of the in-range numbers |
| Citations.CiteAt | app/agents/answer/citations.py:38-49 | each citation carries the ids and address of the chunk its number names, and its content or the first 300 characters and three dots |
| Citations.CiteOneMore | app/agents/answer/citations.py:31-49 | one more marker adds the citation of its chunk if it is in range, and nothing if not |
| Citations.CitedByJoined | app/agents/answer/citations.py:30-50 | cited are the chunks in range that a sentence's marker names, each once, in order of first mention |
| AnswerNode.GenerateAnswerWithOutcome | app/agents/answer/node.py:175-245 | the sequence of checks computes the specified outcome |
| AnswerNode.AnswerIsGrounded | app/agents/answer/node.py:217-245 | every answer is the words of the surviving sentences and cites exactly the in-range chunks they name, each once, in order |
| AnswerNode.DeclinesIff | app/agents/answer/node.py:175-233 | each reason for not answering is given exactly when it applies; grounding failed if and only if no sentence of the draft is supported |
| AnswerNode.DeliveredIsSupported | app/agents/answer/grounding.py:80-104 | every delivered sentence is one of the draft's, says something, and has a chunk with a similarity above 0.35 |
| AnswerNode.NothingDropped | app/agents/answer/node.py:236-245 | if no sentence is dropped, text and citations are those of the raw answer |
| AnswerNode.AnswerAgentNode | app/agents/answer/node.py:135-170 | the node answers if and only if one of its first three attempts does, with the first such answer; otherwise it declines and cites nothing |
| Retry.OutcomeIsFirstSuccess | app/agents/retry.py:61-88 | a value exactly if one of the first three attempts has one, and the earliest |
| Retry.CallWithRetry | app/agents/retry.py:36-88 | at most three attempts; the record becomes the number that failed, and stays if none did |
| Cosine.CosineSimilarity | app/agents/knowledge_gap/clustering.py:32-44 | the loop sums compute the similarity; it raises exactly for different lengths |
| Cosine.CauchySchwarz | app/agents/knowledge_gap/clustering.py:39-44 | the squared product sum is at most the product of the square sums |
| Cosine.SimilarityIsBounded | app/agents/knowledge_gap/clustering.py:32-44 | every similarity lies in [-1, 1] |
| Cosine.SimilarityIgnoresScale | app/agents/knowledge_gap/clustering.py:32-44 | a positive factor on one vector changes nothing |
| Cosine.DotWithUnit | app/agents/knowledge_gap/clustering.py:39-39 | the product takes in every component, each with the factor one |
| Cosine.DotAdds | app/agents/knowledge_gap/clustering.py:39-39 | and is linear, so it is the sum of the products of the components |
| Cosine.BoundsAreMetIff | app/agents/knowledge_gap/clustering.py:32-44 | a similarity is 1 if and only if one vector is a positive multiple of the other and not zero, and -1 if and only if a negative one |
| Cosine.LawOfCosines | app/agents/knowledge_gap/clustering.py:32-44 | with the norms the similarity tells the distance of the vectors; to a zero vector it is 0 |
| Clustering.Cluster.Add | app/agents/knowledge_gap/clustering.py:61-63 | the member and its embedding are added in place |
| Clustering.FindClosest | app/agents/knowledge_gap/clustering.py:85-91 | the best-so-far loop computes the specified choice |
| Clustering.ClusterBySimilarity | app/agents/knowledge_gap/clustering.py:66-98 | the members of the specified clusters; it raises exactly if the lengths differ |
| Clustering.ClosestIsFirstMaximum | app/agents/knowledge_gap/clustering.py:85-91 | the chosen cluster is the earliest of the closest above -1 |
| Clustering.JoinsClosestOrLeads | app/agents/knowledge_gap/clustering.py:85-96 | an embedding joins exactly if some cluster meets the threshold and is above -1, then the earliest of the closest; otherwise it leads a new one |
| Clustering.OppositeNeverJoins | app/agents/knowledge_gap/clustering.py:86-93 | at a threshold of -1 or less an embedding leads if and only if it is a negative multiple of every cluster's sum |
| Clustering.OppositeExists | app/agents/knowledge_gap/clustering.py:86-93 | there are opposite embeddings |
| Clustering.ClosenessIsBounded | app/agents/knowledge_gap/clustering.py:86-86 | the start value of the search is a true lower bound |
| Clustering.MeanIsAsSum | app/agents/knowledge_gap/clustering.py:56-59 | comparing with the mean is comparing with the sum |
| Clustering.ClustersPartition | app/agents/knowledge_gap/clustering.py:72-98 | for every input the clusters partition the positions, each increasing, ordered by leader, and each sum is the componentwise sum of its members |
| Clustering.PrefixIsRestriction | app/agents/knowledge_gap/clustering.py:84-96 | clustering a prefix is restricting the whole clustering to it |
| Hypotheses.ValidatedAreSound | app/agents/investigation/hypothesis.py:192-237 | whatever the model wrote, kept hypotheses have a confidence in [0, 1] and real citations only, at least one |
| Hypotheses.GeneratedAreSound | app/agents/investigation/hypothesis.py:145-163 | so has every generated draft, and neither its team nor a next step is blank |
| Hypotheses.EntryIsRead | app/agents/investigation/hypothesis.py:208-237 | a well-formed entry is kept exactly if it cites a known reference, with its description trimmed, its confidence brought into [0, 1] and its known references in order |
| Hypotheses.KeptWasEntry | app/agents/investigation/hypothesis.py:208-230 | whatever is kept was such an entry |
| Hypotheses.RealIdsAppend | app/agents/investigation/hypothesis.py:223-223 | references are filtered one by one, in order |
| Hypotheses.DraftReadsBack | app/agents/investigation/hypothesis.py:145-163 | a sound draft written as the model is asked to is read back as it is |
| Decimal.PrintParses | app/agents/investigation/critique.py:200-200 | a printed index parses back |
| Decimal.PrintAppends | app/agents/investigation/critique.py:200-200 | ten times a number and a digit is printed as the number and the digit |
| Critique.ValidateStructurally | app/agents/investigation/critique.py:166-202 | the loop computes the specified issues |
| Critique.StructuralTagsAre | app/agents/investigation/critique.py:188-202 | reported are exactly too little evidence and each hypothesis at or above the threshold with too few citations |
| Critique.OverconfidentIndices | app/agents/investigation/critique.py:405-413 | the loop computes the indices in the tags, or raises |
| Critique.TagsReadBack | app/agents/investigation/critique.py:191-213 | the tags read back as exactly the overconfident hypotheses, and the other tag is there exactly with too little evidence |
| Critique.FilterContradictions | app/agents/investigation/critique.py:356-376 | the loop computes the kept notes |
| Critique.NotesAreReal | app/agents/investigation/critique.py:370-375 | no kept note cites an unknown reference, has fewer than two, or says nothing |
| Critique.OneReferenceTwiceIsKept | app/agents/investigation/critique.py:372-374 | one reference named twice counts as two |
| Critique.NamesTwoIff | app/agents/investigation/critique.py:372-375 | a kept note names two different references if and only if the entry named two different known ones |
| Critique.NoteIsRead | app/agents/investigation/critique.py:365-375 | a well-formed note is kept exactly if two of its references are known, with the detail trimmed and the known references |
| Critique.CritiqueReadsBack | app/agents/investigation/critique.py:323-353 | a critique written as the model is asked to is read back as it is: verdict, indices, notes and guidance |
| Critique.MalformedRaisesIff | app/agents/investigation/critique.py:329-335 | a reply raises if and only if it is no object, its verdict is none of the three words, or its indices are no list |
| Critique.GuidanceIsCut | app/agents/investigation/critique.py:342-346 | guidance is trimmed and cut at 500 characters |
| Critique.ApplyPenalties | app/agents/investigation/critique.py:416-438 | the loop computes the fixed penalties of the flagged and the unsupported |
| Critique.IssueTagsAre | app/agents/investigation/critique.py:441-446 | a critique adds exactly a tag for each unsupported hypothesis, and one if there is a contradiction |
| Review.ReviewInvestigation | app/agents/investigation/critique.py:454-605 | the specified outcome with at most two critiques, one revision and nine model calls; none at all exactly if switched off, nothing to judge or too little evidence |
| Review.StatusMeansVerdict | app/agents/investigation/critique.py:481-617 | reviewed if and only if accepted or rejected; a rejection carries no hypotheses; a failed review alters nothing |
| Review.IssuesAreReported | app/agents/investigation/critique.py:441-446 | every structural issue of the first draft, and of a revised one that was checked, is reported |
| Review.AcceptedIff | app/agents/investigation/critique.py:501-605 | accepted if and only if there is enough evidence and the first critique accepts, or it asks for a revision, there is one, and the second accepts |
| Review.RejectedIff | app/agents/investigation/critique.py:501-605 | rejected if and only if there is too little evidence, the first critique rejects, or it asks for a revision that has no hypotheses or that the second critique does not accept |
| Review.FailedIff | app/agents/investigation/critique.py:506-585 | failed if and only if the first critique, the revision it asks for, or the critique of that never comes; the verdict is then the first one, if any; a revision is counted exactly if there is one |
| Review.ReportedIff | app/agents/investigation/critique.py:481-605 | reported are exactly the structural issues and what the critiques add, of the first draft and of a revision |
| Review.AcceptOnlyLowers | app/agents/investigation/critique.py:416-438 | acceptance alters nothing but the confidences of flagged hypotheses, lowered by 0.2 and by 0.3, floored at zero |

## Left out

- Connectors, HTTP, Redis and Postgres clients, decryption, the job queue, web interfaces, logging and tracing: represented only by their nondeterministic outcomes.
- Delta resume tokens (`supports_resume_token`): in the checkpoint's round trip, but not in the walk of the step machine.
- Row-level-security context and project resolution: no effect on the proved state.
- The connector lock, the tenancy service's audit events and the vector store: assumptions, not results.
- DocumentStore.ProcessAddsChunks: embeddings, offsets and access codes of chunks are not modelled, because only identity, order and content matter to replay.
- SyncWorker.Session.Commit: savepoints are folded into the transaction, because an exception inside one rolls back no less.
- SyncWorker.OpenAttempt: a disconnect between the check of the status and the commit of the job row is taken to come right after that commit, because the two touch different rows.
- RateLimiter.TokenBucketRateLimiter.Acquire: concurrent waiters on one key are not modelled; the bound on what they get together is WindowBound.
- Markers.ExtractCitationMarkers: a marker of more than 4300 digits, which Python refuses to convert, is not modelled as an error.
- Critique.OverconfidentIndices: signs, underscores and spaces that Python's `int` accepts read as errors here; no tag the code writes has them.
- The removal of code fences around a reply and JSON parsing: a reply is given as parsed or not.
- Idempotence of `strip_markers` and that its output holds no marker: false for `[[1]2]`, and promised nowhere.
- Retry delays, Retry-After parsing, confidence scoring, evaluation metrics, cost budgets and reciprocal rank fusion: they would add only easier members.
