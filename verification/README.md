# Dafny model of the material generation backend

The backend plans exam material for a week of an academic cycle, lets workers typeset it, and keeps the
result consistent while callbacks, caches, migrations and cron jobs race. These files model the parts of it
where that consistency is hard to see from one function, and prove what holds over every input, every run
and every interleaving.

| file | what it models |
|---|---|
| `Wrappers.dfy` | optional values, results, identifiers |
| `MaterialWebhook.dfy` | one worker callback on the tenant's tables, as a function and as the method that updates them in place |
| `WebhookRuns.dfy` | any sequence of callbacks: closed form, confluence, merge dispatch |
| `WebhookConcurrency.dfy` | callbacks as overlapping READ COMMITTED transactions, related to the one-at-a-time model |
| `Shuffling.dfy` | the in-place Fisher-Yates shuffle and the orders it draws |
| `QuestionSelection.dfy` | difficulty labels, the three-tier greedy selector |
| `BoundedPool.dfy` | the SQL-sampled candidate pool and the service that selects from it |
| `MaterialQuota.dfy` | splitting a target quantity and a difficulty quota over syllabus cells |
| `ReviewPlan.dfy` | the review plan, its saved rows, and what a worker loads and reports from them |
| `AntiRepetition.dfy` | planning, saving, callbacks and approvals over one question ledger |
| `AuthState.dfy` | the two-tier auth cache in time, and the guard's revocation test |
| `CatalogCache.dfy` | the versioned catalog cache under races of fills and bumps |
| `TenantMigrations.dfy` | one migration runner, the fan-out, and crashing, racing runners |
| `TenantTransactions.dfy` | trees of nested `runInTenant` / `runInSchema` calls |
| `Syllabus.dfy`, `SyllabusClone.dfy`, `SyllabusService.dfy` | distribution cells, cloning, the service and its runs |
| `CycleWeeks.dfy` | creation and regrow of a cycle's weeks |
| `WorkerPool.dfy` | the bounded worker pool |
| `CronLock.dfy` | the expiring, never released Redis lock of cron jobs |

A class stands where the source updates rows or fields in place; its methods are proved against a function or
relation, and the theorems are about that function or relation. Concurrent protocols are step systems: a state,
an `Enabled` predicate, a `Next` function and a `Reaches` predicate for runs. I/O, clocks, randomness and uuids
are parameters or arbitrary choices.

## Where code and documentation disagree

The model follows the code. These differences are theorems, each with an exact condition or a concrete run.

- The merge is announced as dispatched exactly once (`handle-material-webhook.use-case.ts:342`).
  `MergeCanRepeat` gives four legal reports that queue two. `SecondMergeIff` says exactly which runs do,
  `MergesCountEntries` how many a run queues, and `MergeIffLastCourseFinishes` which single call queues one.
- A success is called authoritative (lines 126-130). The guard read takes no lock: a success is undone exactly when
  a callback of the same course that was already past its guard commits after it with another status
  (`SuccessUndoneIff`), and `OverlapOnOneCourseUndoesSuccess` is such a run. With one callback per course in flight it
  stands (`SuccessStandsWhenApart`); the serialisability theorems assume that and interleave courses freely.
- A cached auth state is called the state Postgres holds. Its permissions and its user row are read by two statements
  of one READ COMMITTED transaction, so writes between them can leave a pair Postgres never held (`TornRead`).
  `WholeIffCut` says exactly when the pair is a state held between the reads, and `TornIffWritesCross` which writes
  tear it: a change of the part read first followed by, or together with, a change of the other part. The staleness
  bound holds for each part.
- A revocation's instant is evaluated before its update commits (`auth.service.ts:567`), so of two overlapping
  revocations the earlier instant can land last and let through tokens the other refused (`EarlierStampLandsLast`).
  `RevocationHoldsIff` says exactly when a landed revocation holds for good.
- Dropping the cached auth state is said to make the next request read Postgres (`auth.service.ts:570-575`).
  `DropTakesHoldIff` and `RevocationTakesHoldIff` say exactly when every later answer is as new as the drop, and `DropRacesWithFill` is a run in
  which a fill already under way puts the revoked state back. `AnswersAreRecent` and `RevokedTokenIsRefused` give the
  bound that always holds, and `StalenessBoundIsTight` that it is met.
- Orphaned catalog entries are said never to be read again (`catalog.use-case.ts:50-58`). A dropped version key or
  a bypassed version read falls back to version 0, whose entries can predate the update
  (`EvictedKeyResurrectsVersionZero`, `BypassedVersionReadIsStale`, `StaleZeroIsReachable`); `FreshIff` says exactly
  when a read is fresh in runs where both may happen. Two bumps in one millisecond share a version
  (`EqualStampsRetireNothing`); `SharedVersionFreshIff` says exactly when that does no harm.
- Skipping a week another regrow has already stored is called correct, not lossy
  (`academic-time.repository.ts:34-43`), and check and regrow are said to see one snapshot
  (`academic-time.use-case.ts:90-96`). An update soft-deletes every week its list does not name before it saves, so
  no number is ever taken and nothing is skipped (`StaleRegrowFacts`). But the list comes from an earlier read, and
  the later of two writers drops and replaces the weeks of the earlier (`LaterRegrowReplacesEarlier`), or leaves a
  cycle without a week it counts (`StaleUpdateLosesWeek`); `StaleUpdateMatchesIff` says exactly when it does not.
- A template whose counts add up passes validation, but `||` replaces a stored 0 by two fifths of the target.
  `StoredQuotaHonoured` and `ValidatedTemplateFails` say exactly when a validated template is not honoured, and
  when it makes generation fail.
- The lock interface advises a time to live shorter than the schedule interval. `ExactlyOncePerTickIff` shows that
  with replica skew it has to leave a skew's room before the next tick.
- An add to an occupied cell is meant to overwrite it. The guard counts the old cell as well as the new value
  (`WhenOverwritesAreRefused`), and the overwrite needs a transaction that survives a unique violation
  (`AddOverwrites`), which the comments at `handle-material-webhook.use-case.ts:200-203` say a transaction does not.
- A cycle clone lists archived syllabuses of both cycles and then fails on them (`ArchivedSourceBlocksCycle`);
  `CloneCycleSucceedsIff` says exactly when it goes through, and `CloneCycleMovesCells` what it then leaves.

## Model

| member | source | states |
|---|---|---|
| MaterialWebhook.MaterialStore.Execute | backend-nestjs/src/materials/use-cases/handle-material-webhook.use-case.ts:86-402 | The in-place callback leaves every table, the queue and the events as the atomic step says, and errs exactly on missing fields or an unknown status |
| MaterialWebhook.MaterialStore.WriteUsages | backend-nestjs/src/materials/use-cases/handle-material-webhook.use-case.ts:213-254 | Under its savepoint the ledger is replaced for this course or left exactly as it was |
| MaterialWebhook.MaterialStore.RollUpParent | backend-nestjs/src/materials/use-cases/handle-material-webhook.use-case.ts:297-384 | Parent, material and queue change together, only once all siblings are finished |
| MaterialWebhook.InsertAllRows | backend-nestjs/src/materials/use-cases/handle-material-webhook.use-case.ts:225-242 | The conflict-ignoring insert adds each question's first mention whose key was free, and nothing else |
| MaterialWebhook.ReplaceLedgerRows | backend-nestjs/src/materials/use-cases/handle-material-webhook.use-case.ts:187-243 | Delete-then-insert ends with exactly the supplied usages, duplicates collapsed, and other courses' rows as before |
| MaterialWebhook.LedgerAllOrNothing | backend-nestjs/src/materials/use-cases/handle-material-webhook.use-case.ts:187-254 | After any delivery the course's rows are the old ones or exactly the collapsed usages, keys stay unique, and a change implies a success status was committed |
| MaterialWebhook.LedgerFailureKeepsStatus | backend-nestjs/src/materials/use-cases/handle-material-webhook.use-case.ts:205-253 | A rolled-back ledger write changes nothing of the callback but the ledger |
| WebhookRuns.RunFrame | backend-nestjs/src/materials/use-cases/handle-material-webhook.use-case.ts:107-181 | Callbacks create, drop and move no rows |
| WebhookRuns.FirstSuccessDecides | backend-nestjs/src/materials/use-cases/handle-material-webhook.use-case.ts:70-181 | The first "completed" or "completed_with_warnings" said of a course decides, whatever follows: its status, urls, sizes, warnings and instant of completion are the course's, over what earlier reports left |
| WebhookRuns.LastWordStands | backend-nestjs/src/materials/use-cases/handle-material-webhook.use-case.ts:70-154 | Without such a word a course stands where the last "empty_bank", "failed" or "processing" put it, or where it started, and is not completed |
| WebhookRuns.EmptyBankThenCompleted | backend-nestjs/src/materials/use-cases/handle-material-webhook.use-case.ts:142-154 | A course told "empty_bank" and later "completed" is completed |
| WebhookRuns.UnknownStatusIsError | backend-nestjs/src/materials/use-cases/handle-material-webhook.use-case.ts:60-99 | Any other string is the error, and no table changes |
| WebhookRuns.RedeliveryChangesNothing | backend-nestjs/src/materials/use-cases/handle-material-webhook.use-case.ts:121-154 | After a success, or with the word for the status a course already has, a callback changes no table |
| WebhookRuns.RollUpInvariant | backend-nestjs/src/materials/use-cases/handle-material-webhook.use-case.ts:297-340 | Whenever every course is finished, request and material carry the roll-up of the course statuses |
| WebhookRuns.RollUpMeans | backend-nestjs/src/materials/use-cases/handle-material-webhook.use-case.ts:297-340 | With no course pending or processing, request and material are failed exactly when a course failed, completed exactly when all completed without warnings, and else to be reviewed |
| WebhookRuns.OpenRequestWaits | backend-nestjs/src/materials/use-cases/handle-material-webhook.use-case.ts:297-384 | While a course is open no callback touches request, material or queue, and a single-course request never queues a merge |
| WebhookRuns.EventIffSuccess | backend-nestjs/src/materials/use-cases/handle-material-webhook.use-case.ts:270-402 | Exactly the call that brings a course its success announces it, with its request's cycle and week |
| WebhookRuns.Confluence | backend-nestjs/src/materials/use-cases/handle-material-webhook.use-case.ts:121-340 | Two interleavings with the same per-course order that finish every course end with the same statuses everywhere |
| WebhookRuns.MergeIffEnteringFinalSuccess | backend-nestjs/src/materials/use-cases/handle-material-webhook.use-case.ts:342-383 | One merge is queued exactly when the parent enters completed or review-required from outside |
| WebhookRuns.FailureBetweenMerges | backend-nestjs/src/materials/use-cases/handle-material-webhook.use-case.ts:142-154 | Between two merges of a request a failure was reported to a course without a success |
| WebhookRuns.SuccessIsAbsorbing | backend-nestjs/src/materials/use-cases/handle-material-webhook.use-case.ts:126-140 | Once every course holds a success no callback changes anything |
| WebhookRuns.LastMerge | backend-nestjs/src/materials/use-cases/handle-material-webhook.use-case.ts:342-383 | A merge queued with every course successful is the last one ever |
| WebhookRuns.ExactlyOneMerge | backend-nestjs/src/materials/use-cases/handle-material-webhook.use-case.ts:342-383 | From processing, with no failure reported and two or more courses finished, exactly one merge was queued |
| WebhookRuns.MergeIffLastCourseFinishes | backend-nestjs/src/materials/use-cases/handle-material-webhook.use-case.ts:297-383 | From the state before a call: a merge is queued exactly when the report finishes, without failing, the one course the others waited for and the parent is not finally successful |
| WebhookRuns.MergesCountEntries | backend-nestjs/src/materials/use-cases/handle-material-webhook.use-case.ts:342-383 | Every run queues as many merges as it enters an all-finished, none-failed moment from outside |
| WebhookRuns.SecondMergeIff | backend-nestjs/src/materials/use-cases/handle-material-webhook.use-case.ts:342-359 | A run from processing queues a second merge exactly when its courses were all finished without a failure, then with one, then without one again |
| WebhookRuns.MergeCanRepeat | backend-nestjs/src/materials/use-cases/handle-material-webhook.use-case.ts:342-359 | Four legal reports to two courses queue two merges |
| WebhookConcurrency.CommitIsDelivery | backend-nestjs/src/materials/use-cases/handle-material-webhook.use-case.ts:256-383 | Committing an up-to-date transaction equals the atomic callback on the committed tables |
| WebhookConcurrency.CommitKeepsOthers | backend-nestjs/src/materials/use-cases/handle-material-webhook.use-case.ts:256-264 | A commit leaves the guard read and the uncommitted writes of every other course's callback up to date |
| WebhookConcurrency.CallbacksSerialise | backend-nestjs/src/materials/use-cases/handle-material-webhook.use-case.ts:256-385 | Every interleaving, aborts after the dispatch included, ends in the tables of the callbacks delivered one at a time in commit order, and in their queue plus the jobs of the aborted dispatchers |
| WebhookConcurrency.OrphansAreLostDispatches | backend-nestjs/src/materials/use-cases/handle-material-webhook.use-case.ts:368-385 | There is exactly one extra job for each transaction that dispatched a merge and then did not commit |
| WebhookConcurrency.ConcurrentExactlyOneMerge | backend-nestjs/src/materials/use-cases/handle-material-webhook.use-case.ts:256-385 | No roll-up is lost: with no failure reported, every interleaving that finishes all courses queues exactly one merge besides the jobs of aborted dispatchers |
| WebhookConcurrency.SuccessUndoneIff | backend-nestjs/src/materials/use-cases/handle-material-webhook.use-case.ts:121-154 | In every run, overlapping or not, a committed success is replaced exactly when a callback of that course with another status, already past its guard, commits afterwards |
| WebhookConcurrency.SuccessStandsWhenApart | backend-nestjs/src/materials/use-cases/handle-material-webhook.use-case.ts:126-130 | With one callback of a course in flight at a time a committed success is never undone |
| WebhookConcurrency.OverlapOnOneCourseUndoesSuccess | backend-nestjs/src/materials/use-cases/handle-material-webhook.use-case.ts:109-154 | A run of two overlapping callbacks of one course commits a success and then a failure over it, which neither serial order does |
| Shuffling.Shuffle | backend-nestjs/src/question-bank/strategies/question-selection.strategy.ts:33-40 | In place it applies one swap per position, from the last down, with the index drawn for it, and permutes |
| Shuffling.EveryOrderIsDrawn | backend-nestjs/src/question-bank/strategies/question-selection.strategy.ts:33-40 | Every order of the pool comes out of some draw of indices |
| Shuffling.OrdersAreDrawnOnce | backend-nestjs/src/materials/use-cases/generate-material.use-case.ts:239-245 | And of only one, so the shuffle is unbiased when the indices are |
| QuestionSelection.LabelsSplitLevels | backend-nestjs/src/question-bank/constants/question-levels.constant.ts:10-52 | Levels 43 to 52 split into easy, medium and hard in that order, for every synonym and letter case; other labels name no level |
| QuestionSelection.SelectBestQuestions | backend-nestjs/src/question-bank/strategies/question-selection.strategy.ts:21-73 | The loop over shrinking pools is the greedy selection from some orders of the unused and the used questions |
| QuestionSelection.PickConserves | backend-nestjs/src/question-bank/strategies/question-selection.strategy.ts:47-69 | One pick moves one question out of one pool, on level if any unused one is, else unused, else recycled |
| QuestionSelection.PicksComeFromPools | backend-nestjs/src/question-bank/strategies/question-selection.strategy.ts:47-72 | No question is answered more often than the pools hold it; used ones only with recycling |
| QuestionSelection.EmptyAnswers | backend-nestjs/src/question-bank/strategies/question-selection.strategy.ts:47-72 | The number of nulls is exactly the shortfall of the available questions, for every shuffle |
| QuestionSelection.Priorities | backend-nestjs/src/question-bank/strategies/question-selection.strategy.ts:16-20 | A null or recycled answer comes only after all unused questions were answered; an off-level one only after all unused of its level were |
| BoundedPool.UniformProfile | backend-nestjs/src/question-bank/strategies/question-selection.strategy.ts:47-72 | How many on-level, off-level, recycled and empty answers equal requests get depends on three pool sizes only |
| BoundedPool.BoundedPoolRefinesSubtopic | backend-nestjs/src/question-bank/flat-questions.repository.ts:39-52 | Selecting from any bounded pool gives the same profile as from the whole subtopic, for any samples and shuffles and any oversample from 1 |
| BoundedPool.PoolParts | backend-nestjs/src/question-bank/flat-questions.repository.ts:291-338 | The union of three sampled tiers has the subtopic's tier sizes up to the limit, inside it, with at most three times the tier limit of rows |
| BoundedPool.GetRandomQuestions | backend-nestjs/src/question-bank/question-bank.service.ts:36-62 | It answers min(limit, subtopic size) distinct questions from at most 9 * limit rows: as many unused ones of the difficulty as the whole subtopic has, up to the limit, and recycled ones only for what unused ones cannot cover |
| BoundedPool.PoolIsOversampled | backend-nestjs/src/question-bank/flat-questions.repository.ts:291-338 | The pool holds each tier three times the limit over, as far as the subtopic goes |
| MaterialQuota.PlanTopics | backend-nestjs/src/materials/use-cases/generate-material.use-case.ts:219-262 | It succeeds exactly when easy and medium together stay within the target; topic k is then cell k's, with an even share and one more for the first remainder of them, as many topics as cells or questions |
| MaterialQuota.QuotaConserved | backend-nestjs/src/materials/use-cases/generate-material.use-case.ts:228-262 | Topics sum to the target, carry one level per question, and hand out exactly the quota's easy, medium and hard ones |
| MaterialQuota.QuotaDefaults | backend-nestjs/src/materials/use-cases/generate-material.use-case.ts:219-232 | An absent target is 35, an absent easy or medium count two fifths of it rounded down, and the three counts always sum to the target |
| MaterialQuota.TopicsBalanced | backend-nestjs/src/materials/use-cases/generate-material.use-case.ts:247-262 | The quantities of a course's topics differ by at most one, and are equal when the cells divide the target |
| MaterialQuota.StoredQuotaHonoured | backend-nestjs/src/materials/use-cases/generate-material.use-case.ts:219-232 | A validated quota is handed out as stored exactly when no stored 0 has a non-zero default |
| MaterialQuota.ValidatedTemplateFails | backend-nestjs/src/academic-time/academic-time.use-case.ts:349-369 | A template that passed validation makes generation fail exactly when a defaulted 0 overshoots the target |
| MaterialQuota.ZeroEasyTemplateFails | backend-nestjs/src/academic-time/academic-time.use-case.ts:349-369 | Ten questions with no easy ones, eight medium and two hard are accepted when stored and make generation fail |
| ReviewPlan.BuildReviewPlan | backend-nestjs/src/materials/use-cases/generate-material.use-case.ts:106-148 | The loops concatenate, in position order, one greedy selection per course and topic from that topic's pool |
| ReviewPlan.TopicPlanFacts | backend-nestjs/src/materials/use-cases/generate-material.use-case.ts:107-144 | A topic has one slot per question asked, none excluded, all of its subtopic, and max(0, quantity - pool) empty ones |
| ReviewPlan.TopicPlanDistinct | backend-nestjs/src/materials/use-cases/generate-material.use-case.ts:113-144 | No question fills two slots of one topic entry |
| ReviewPlan.TopicPlanPassesNoneOver | backend-nestjs/src/materials/use-cases/generate-material.use-case.ts:107-144 | When a slot stays EMPTY every mapped, existing, unexcluded question of the subtopic fills an earlier slot; when it is off level, every one of that level does |
| ReviewPlan.PlanFollowsRequest | backend-nestjs/src/materials/use-cases/generate-material.use-case.ts:106-148 | Positions run course by course, topic by topic, one per level of the topic, in order |
| ReviewPlan.RequestSlotCounts | backend-nestjs/src/materials/use-cases/generate-material.use-case.ts:439-460 | In a request of any courses each course saves exactly its target of slots, and the positions of the whole request are 1 to the sum of the targets |
| ReviewPlan.LoadCourseQuestions | backend-nestjs/src/materials/processors/pdf-generation.processor.ts:172-237 | The loop extracts the loadable rows in order, flags the replaced ones, and accounts for every row of the course |
| ReviewPlan.LoadsPrintableRows | backend-nestjs/src/materials/processors/pdf-generation.processor.ts:172-237 | Loadable are exactly the course's found and replaced rows with a question the bank still serves, in position order; never an empty or removed one |
| ReviewPlan.UsageOfRow | backend-nestjs/src/materials/processors/pdf-generation.processor.ts:290-308 | Usage k is the k-th printed row at place k + 1, marked a replacement exactly when a replaced row printed that question |
| ReviewPlan.PlannedIsPrinted | backend-nestjs/src/materials/processors/pdf-generation.processor.ts:172-237 | A freshly saved plan prints every planned question of the course that the bank still serves, and nothing else |
| ReviewPlan.PlannedAvoidsExcluded | backend-nestjs/src/materials/use-cases/generate-material.use-case.ts:264-271 | The saved questions of a course avoid its exclusion set |
| AntiRepetition.MaterialsNeverShareQuestions | backend-nestjs/src/materials/repositories/materials.repository.ts:10-22 | End to end, different materials of one cycle and course hold disjoint questions, across regenerations, failures and redeliveries |
| AntiRepetition.DeliveredIsNotRepeated | backend-nestjs/src/materials/repositories/materials.repository.ts:10-22 | Over deliveries: a question delivered by an accepted success is recorded, stays so until its material is saved again or its course's ledger replaced, and meanwhile no other generation of that cycle and course plans or delivers it |
| AntiRepetition.RecordStands | backend-nestjs/src/materials/use-cases/generate-material.use-case.ts:386-394 | A recorded question outlives every run that neither saves its own material again nor replaces its course's ledger |
| AntiRepetition.UnrecordedIsPlanned | backend-nestjs/src/materials/use-cases/generate-material.use-case.ts:264-271 | Nothing else is held back: a slot stays EMPTY only if each question of its subtopic is recorded for that cycle and course or planned in the topic |
| AntiRepetition.GenerationRecordsItsPlan | backend-nestjs/src/materials/processors/pdf-generation.processor.ts:290-308 | From plan to ledger: a generation's accepted report records exactly its planned questions that the bank still serves |
| AntiRepetition.SaveFreesOwnRows | backend-nestjs/src/materials/use-cases/generate-material.use-case.ts:386-428 | A save frees exactly the rows of its own material's earlier requests and adds its request and course rows; all else stays |
| AntiRepetition.SaveKeepsInv | backend-nestjs/src/materials/use-cases/generate-material.use-case.ts:386-428 | Freeing the rows of a material's earlier requests and opening a new one keeps the promise |
| AntiRepetition.ApproveAndFinish | backend-nestjs/src/materials/use-cases/approve-material-review.use-case.ts:244-268 | An approval puts its request, material and courses back to work and touches no other row, nor the ledger |
| AntiRepetition.WorkKeepsInv | backend-nestjs/src/materials/use-cases/handle-material-webhook.use-case.ts:213-254 | A callback that reports what was planned keeps the promise |
| AntiRepetition.SuccessRecordsDelivery | backend-nestjs/src/materials/processors/pdf-generation.processor.ts:290-308 | An accepted success with a working ledger records exactly the questions delivered |
| AntiRepetition.OverlapRepeats | backend-nestjs/src/materials/repositories/materials.repository.ts:10-22 | Two materials planned from one ledger for a topic with one question left both plan it, and their callbacks break the promise |
| AuthState.LocalCache.Get | backend-nestjs/src/auth/auth.service.ts:365-373 | An expired entry is a miss and is evicted; nothing else changes |
| AuthState.LocalCache.Set | backend-nestjs/src/auth/auth.service.ts:380-394 | At capacity a new key displaces exactly the oldest; the size never passes the cap |
| AuthState.AnswersAreRecent | backend-nestjs/src/auth/auth.service.ts:264-359 | The permissions of every answer of every process, and its user row, are each what Postgres held less than 60 s plus the fill delay ago |
| AuthState.LocalAnswersAreRecent | backend-nestjs/src/auth/auth.service.ts:58-72 | What the per-process tier answers was held less than 4 s plus that delay ago |
| AuthState.OneVersionIffNoWriteBetween | backend-nestjs/src/auth/auth.service.ts:311-328 | The two reads of a fill, in either order, see one version exactly when nothing was written between them |
| AuthState.WholeIffCut | backend-nestjs/src/auth/auth.service.ts:311-328 | A fill's value is a state Postgres held between its two reads exactly when at some moment between them the part read first was still, and the other already, as it was read |
| AuthState.TornIffWritesCross | backend-nestjs/src/auth/auth.service.ts:311-328 | Only a change of the part read first with or before a change of the other part tears a fill, and every such pair does unless a part returns to an earlier value |
| AuthState.TornRead | backend-nestjs/src/auth/auth.service.ts:311-328 | A run whose answer pairs old permissions with a new revocation, a state Postgres never held |
| AuthState.StalenessBoundIsTight | backend-nestjs/src/auth/auth.service.ts:330-350 | A run from the empty system in which a permission withdrawn at time 0 is still served one millisecond before that bound |
| AuthState.RejectedIffEarlierSecond | backend-nestjs/src/auth/auth.guard.ts:71-99 | A token is refused exactly when minted in an earlier second than the revocation (iat: section 4.1.6 of RFC 7519) |
| AuthState.RevokedTokenIsRefused | backend-nestjs/src/auth/auth.service.ts:534-577 | After the window every answer refuses every token minted in an earlier second than a landed revocation's instant, if no revocation stamped that early was still to land |
| AuthState.RevocationHoldsIff | backend-nestjs/src/auth/auth.service.ts:534-568 | A token refused now is refused by every answer after the window, for good, exactly when no revocation still to land was stamped in its second or before |
| AuthState.EarlierStampLandsLast | backend-nestjs/src/auth/auth.service.ts:566-568 | A run from the empty system in which the earlier of two overlapping revocations lands last and the token the other refused passes |
| AuthState.FreshTokenIsNeverRefused | backend-nestjs/src/auth/auth.guard.ts:81-99 | A token minted at or after every landed revocation's instant is refused by no answer |
| AuthState.DropTakesHoldIff | backend-nestjs/src/auth/auth.service.ts:499-577 | Every later answer is at least as new as version n exactly when no unexpired entry of either tier, and no fill that can still write, holds an older part |
| AuthState.RevocationTakesHoldIff | backend-nestjs/src/auth/auth.service.ts:534-577 | A revocation with its drop takes hold at once exactly when no other process holds an unexpired entry and no fill under way may still write |
| AuthState.EvictedIsMissed | backend-nestjs/src/auth/auth.service.ts:365-394 | An evicted or dropped entry is missed by its own process or tier, and by no other |
| AuthState.DropRacesWithFill | backend-nestjs/src/auth/auth.service.ts:570-577 | A run from the empty system in which a fill under way during a revocation's drop makes the next request pass a revoked token |
| CatalogCache.EntriesFollowTheirBump | backend-nestjs/src/catalogs/catalog.use-case.ts:60-106 | Every entry under a bumped version was read after that bump |
| CatalogCache.ReadsAfterBumpAreFresh | backend-nestjs/src/catalogs/catalog.use-case.ts:139-274 | A read that starts after an update's bump landed reflects the update, under every interleaving of fills and bumps |
| CatalogCache.FreshIff | backend-nestjs/src/catalogs/catalog.use-case.ts:60-274 | With evictions and bypassed reads in the run, a read after a landed bump is fresh exactly when its version is not 0, or it went to the repository, or version 0 holds nothing older of its variant |
| CatalogCache.ExpiredIsReadAgain | backend-nestjs/src/catalogs/catalog.use-case.ts:139-274 | A request whose entry expired is answered from the repository, and every other as before |
| CatalogCache.BypassedVersionReadIsStale | backend-nestjs/src/catalogs/catalog.use-case.ts:60-80 | A bypassed version read can be answered from before the update |
| CatalogCache.EvictedKeyResurrectsVersionZero | backend-nestjs/src/catalogs/catalog.use-case.ts:50-94 | An evicted version key brings old version-0 entries back |
| CatalogCache.EqualStampsRetireNothing | backend-nestjs/src/catalogs/catalog.use-case.ts:83-94 | A run from the empty system in which a second bump in the same millisecond retires nothing: the next request is answered from before its update |
| CatalogCache.SharedVersionFreshIff | backend-nestjs/src/catalogs/catalog.use-case.ts:83-106 | Shared stamp or not, a version stays fresh for a variant exactly when no entry under it is older and no request that loaded older data under it can still write |
| CatalogCache.SharedVersionReadIsFresh | backend-nestjs/src/catalogs/catalog.use-case.ts:60-106 | A read that starts under such a version is answered with the repository at that moment or newer |
| CatalogCache.StaleZeroIsReachable | backend-nestjs/src/catalogs/catalog.use-case.ts:60-106 | The stale state those lemmas start from is reached by a proper run |
| TenantMigrations.TenantSchema.RunMigrations | backend-nestjs/src/database/tenant-migration.service.ts:34-81 | From any crash point it applies what is missing, in order, up to the first failure; it succeeds exactly when the ledger is complete |
| TenantMigrations.RunForAllTenants | backend-nestjs/src/database/tenant-migration.service.ts:98-147 | Every tenant is visited, one failure stops none, and the counters partition the tenants |
| TenantMigrations.ExactlyOnceInOrder | backend-nestjs/src/database/tenant-migration.service.ts:53-77 | Through crashes, failures and races the ledger is a prefix of the list and equals the migrations that took effect, once each |
| TenantMigrations.FinishedMeansComplete | backend-nestjs/src/database/tenant-migration.service.ts:34-81 | A runner that reaches the end leaves the schema of an uninterrupted run |
| TenantMigrations.EndsLeaveSchema | backend-nestjs/src/database/tenant-migration.service.ts:34-81 | However a runner ends, schema and other runners stay as they are and it may start again |
| TenantMigrations.UpgradeCompletes | backend-nestjs/src/database/tenant-migration.service.ts:83-91 | After migrations are appended, a runner that reaches the end brings any partial schema to that of a tenant provisioned today |
| TenantMigrations.LockPreventsConflicts | backend-nestjs/src/database/tenant-migration.service.ts:158-197 | Under the schema lock the ledger's key never refuses a row |
| TenantMigrations.UnlockedRunnersCollide | backend-nestjs/src/database/tenant-migration.service.ts:164-169 | Without it, in a run from the empty schema, two runners that read the same ledger collide and the second is refused |
| TenantTransactions.RunsOnAskedSchema | backend-nestjs/src/database/tenant.service.ts:30-57 | No operation writes on a transaction whose search path is not the schema it asked for |
| TenantTransactions.CallsWithoutSchema | backend-nestjs/src/database/tenant.service.ts:17-43 | A call that names no schema is a call on the request's tenant and an error without one; so is a name with a quote, semicolon, space or dot |
| TenantTransactions.CompanySchemasAreAccepted | backend-nestjs/src/database/schema-name.util.ts:15-21 | The schema named after any company's uuid is accepted, and is the one the call runs on |
| TenantTransactions.CommitsAsOneUnit | backend-nestjs/src/database/tenant.service.ts:44-56 | An unbroken same-schema nest commits as one transaction with exactly its rows in order, or not at all if an error escapes; another schema's transaction is untouched |
| TenantTransactions.JoiningIsInlining | backend-nestjs/src/database/tenant.service.ts:44-48 | A nest of calls to one schema means the same as the flattened operation |
| TenantTransactions.CaughtErrorKeepsPartialWrites | backend-nestjs/src/database/tenant.service.ts:46-48 | Joining gives no savepoint: a caught inner error leaves its writes to be committed |
| TenantTransactions.BrokenNestCommitsOnItsOwn | backend-nestjs/src/database/tenant.service.ts:33-37 | Through another schema and back a third transaction opens and stays committed when the first fails |
| Syllabus.AddKeepsInv | backend-nestjs/src/syllabus/syllabus.use-case.ts:74-100 | An add, overwriting or not, keeps every week within 100 and every cell unique |
| Syllabus.UpdateKeepsInv | backend-nestjs/src/syllabus/syllabus.use-case.ts:102-136 | So does an update, which leaves the updated cell out of its sum |
| Syllabus.SumExcept | backend-nestjs/src/syllabus/repositories/syllabus.repository.ts:183-202 | The excluding sum is the sum over the other cells |
| Syllabus.AddOverwrites | backend-nestjs/src/syllabus/repositories/syllabus.repository.ts:136-168 | Adding to an occupied cell keeps the row, takes the new count and leaves all other rows alone |
| Syllabus.AddInserts | backend-nestjs/src/syllabus/repositories/syllabus.repository.ts:136-168 | Adding to a free cell stores it as asked under a fresh id, and its count is what its week gains |
| Syllabus.EditsMoveSums | backend-nestjs/src/syllabus/repositories/syllabus.repository.ts:205-241 | An update gives its cell the count and its week the difference; a delete takes the cell and its count away; nothing else changes |
| Syllabus.WhenOverwritesAreRefused | backend-nestjs/src/syllabus/syllabus.use-case.ts:81-90 | An overwrite is refused exactly when old and new count together pass the limit; the same change as an update only when the new one does |
| SyllabusClone.CloneIsNeverOverLimit | backend-nestjs/src/syllabus/syllabus.use-case.ts:320-352 | A clone from a source within the cap is never refused for the cap |
| SyllabusClone.CloneKeepsInv | backend-nestjs/src/syllabus/syllabus.use-case.ts:169-215 | A clone keeps the cap and the uniqueness of cells and active syllabuses |
| SyllabusClone.CloneWeekSums | backend-nestjs/src/syllabus/syllabus.use-case.ts:276-318 | Other syllabuses keep their sums, hidden weeks end empty, and within a cycle visible weeks get exactly the source's |
| SyllabusClone.CloneMovesCells | backend-nestjs/src/syllabus/syllabus.use-case.ts:217-307 | On the cells: each source cell of a visible week has its copy with the same week, topic, subtopic and count, under no template, its own, or across cycles the target's first namesake; left behind are exactly those of hidden weeks and of templates with nowhere to go; the target holds nothing else |
| SyllabusClone.CloneMovesCounts | backend-nestjs/src/syllabus/syllabus.use-case.ts:276-318 | Each week of the target holds what the source's moved cells hold, all of it when none is left behind, in any cycle |
| SyllabusClone.CloneSetsDefaultTemplate | backend-nestjs/src/syllabus/syllabus.use-case.ts:354-370 | The target's default template becomes the source's or its namesake where there is one; no other row changes |
| SyllabusClone.CloneCopiesCells | backend-nestjs/src/syllabus/syllabus.use-case.ts:284-307 | The target's cells are exactly the copies of the kept source cells, in both directions |
| SyllabusClone.CollidesIff | backend-nestjs/src/syllabus/repositories/syllabus.repository.ts:243-251 | The unique index refuses a batch exactly when two source cells are sent to one |
| SyllabusClone.CloneSucceedsExactlyWhen | backend-nestjs/src/syllabus/syllabus.use-case.ts:217-270 | A clone succeeds exactly when both syllabuses are active, no template the source refers to and its cycle lists lacks a namesake across cycles, and no two cells that move are sent to one |
| SyllabusClone.NothingMerges | backend-nestjs/src/syllabus/syllabus.use-case.ts:247-261 | When no two templates of the source cycle share a name, no two cells are sent to one |
| SyllabusClone.NamesakesCollide | backend-nestjs/src/syllabus/syllabus.use-case.ts:247-261 | Two namesake source templates on one cell make the clone fail on the unique index |
| SyllabusService.SyllabusUseCase.AddDistribution | backend-nestjs/src/syllabus/syllabus.use-case.ts:74-100 | It accepts exactly when the week has room (and a collision can be recovered from), and a refusal changes nothing |
| SyllabusService.SyllabusUseCase.UpdateDistributionQuantity | backend-nestjs/src/syllabus/syllabus.use-case.ts:102-136 | A missing cell or a full week changes nothing; otherwise exactly that count changes |
| SyllabusService.SyllabusUseCase.DeleteDistribution | backend-nestjs/src/syllabus/repositories/syllabus.repository.ts:229-241 | Exactly the addressed cell of that syllabus goes, or nothing |
| SyllabusService.SyllabusUseCase.AssertCloneWeeklyLimits | backend-nestjs/src/syllabus/syllabus.use-case.ts:331-352 | One pass finds exactly the weeks of the batch that pass the limit |
| SyllabusService.SyllabusUseCase.CopyDistributions | backend-nestjs/src/syllabus/syllabus.use-case.ts:276-307 | The loop builds the batch the clone theorems are about |
| SyllabusService.SyllabusUseCase.CloneSyllabus | backend-nestjs/src/syllabus/syllabus.use-case.ts:169-215 | Clearing and refilling in place ends as the clone function says; an error brings every cell back |
| SyllabusService.SyllabusUseCase.CloneCycleSyllabuses | backend-nestjs/src/syllabus/syllabus.use-case.ts:372-422 | All syllabuses are cloned or, on any failure midway, nothing has changed |
| SyllabusService.CloneCycleKeepsInv | backend-nestjs/src/syllabus/syllabus.use-case.ts:372-422 | A cycle clone keeps the cap and is never refused for it |
| SyllabusService.CloneCycleSucceedsIff | backend-nestjs/src/syllabus/syllabus.use-case.ts:372-422 | A cycle clone succeeds exactly when there are source syllabuses, all active, the last target row of each course is active or absent, their templates have namesakes and no two cells of one are sent to one |
| SyllabusService.CloneCycleMovesCells | backend-nestjs/src/syllabus/syllabus.use-case.ts:372-422 | After a cycle clone every syllabus of the source cycle, cell by cell as it was before, is copied in an active one of the target cycle |
| SyllabusService.ArchivedSourceBlocksCycle | backend-nestjs/src/syllabus/repositories/syllabus.repository.ts:42-63 | One archived syllabus in the source cycle makes the whole clone fail |
| SyllabusService.EveryRunKeepsInv | backend-nestjs/src/syllabus/syllabus.use-case.ts:18-24 | Over every run of adds, updates, deletes and clones, every week of every syllabus stays within 100 |
| CycleWeeks.WeeksAreOrdered | backend-nestjs/src/academic-time/academic-time.use-case.ts:56-72 | Weeks are disjoint, ordered by number, seven days apart and as long as the days per week say, from the cycle's first day to its last |
| CycleWeeks.OperationsStoreWhatIsSent | backend-nestjs/src/academic-time/academic-time.use-case.ts:102-191 | A cycle is created with what was sent; an update stores each setting sent and keeps the others, or changes nothing under an active syllabus; a toggle sets its own visibility; no other cycle is touched |
| CycleWeeks.CycleStore.CreateCycle | backend-nestjs/src/academic-time/academic-time.use-case.ts:33-76 | A new cycle gets one fresh visible week per number and ends with its last week; other rows are untouched |
| CycleWeeks.CycleStore.UpdateCycle | backend-nestjs/src/academic-time/academic-time.use-case.ts:102-191 | Refused for an unknown cycle, or exactly when dates or weeks change under an active syllabus; otherwise weeks regrow row by row as related |
| CycleWeeks.CycleStore.SaveWeeksSafely | backend-nestjs/src/academic-time/repositories/academic-time.repository.ts:44-67 | Rows are saved one at a time, a taken number costing only its own row, or everything if the transaction does not survive the violation |
| CycleWeeks.CycleStore.WriteUpdate | backend-nestjs/src/academic-time/repositories/academic-time.repository.ts:121-151 | On the tables as they are when it runs, the settings sent are stored, unnamed weeks soft-deleted and the list saved, or nothing if the transaction fails |
| CycleWeeks.CycleStore.ToggleWeekVisibility | backend-nestjs/src/academic-time/repositories/academic-time.repository.ts:169-173 | Only the addressed week's visibility changes |
| CycleWeeks.CycleStore.ToggleCycleVisibility | backend-nestjs/src/academic-time/repositories/academic-time.repository.ts:153-156 | Only the addressed cycle's visibility changes; its weeks do not |
| CycleWeeks.SaveAllSaves | backend-nestjs/src/academic-time/repositories/academic-time.repository.ts:44-67 | Nothing is skipped, nor fails, when each entry is its number's live row or meets none |
| CycleWeeks.SavesKeepNumbersOnce | backend-nestjs/src/academic-time/repositories/academic-time.repository.ts:44-67 | Through any save of any list no live number of a cycle is ever stored twice |
| CycleWeeks.TakenNumberCosts | backend-nestjs/src/academic-time/repositories/academic-time.repository.ts:44-67 | An entry of a taken number costs itself, or the whole save where the transaction does not survive the violation |
| CycleWeeks.StaleRegrowFacts | backend-nestjs/src/academic-time/repositories/academic-time.repository.ts:34-67 | A regrow written from an old read skips nothing: it drops every week it did not see and stores its own dates and visibility, weeks dropped meanwhile staying dropped |
| CycleWeeks.StaleUpdateMatchesIff | backend-nestjs/src/academic-time/repositories/academic-time.repository.ts:121-151 | Such an update leaves the weeks matching the settings exactly when the settings it leaves out are still as read and no week of its list was dropped meanwhile |
| CycleWeeks.StaleWriteKeepsRows | backend-nestjs/src/academic-time/repositories/academic-time.repository.ts:128-149 | Whatever it saw, it removes no row and moves none |
| CycleWeeks.LaterRegrowReplacesEarlier | backend-nestjs/src/academic-time/repositories/academic-time.repository.ts:34-43 | Of two updates to two weeks from one read, the later writer drops the earlier's second week and stores its own |
| CycleWeeks.StaleUpdateLosesWeek | backend-nestjs/src/academic-time/repositories/academic-time.repository.ts:121-151 | An update of the days per week from the same read leaves a two-week cycle without its second week |
| CycleWeeks.RegrownMatches | backend-nestjs/src/academic-time/academic-time.use-case.ts:155-187 | After a regrow the live weeks are exactly 1..totalWeeks, once each, on the dates the settings give |
| CycleWeeks.InvAlongRun | backend-nestjs/src/academic-time/academic-time.use-case.ts:33-199 | That holds for every cycle at every moment of every run of creations, updates and toggles |
| CycleWeeks.RowsKeepIdentity | backend-nestjs/src/academic-time/academic-time.use-case.ts:158-181 | An id keeps cycle and number for ever, dropped ids never return, only its own toggle changes a week's visibility |
| CycleWeeks.RegrowthIsNew | backend-nestjs/src/academic-time/academic-time.use-case.ts:171-180 | A number that existed keeps its row; one that did not gets a new, visible one |
| WorkerPool.BoundedRun | backend-nestjs/src/common/utils/map-with-concurrency.util.ts:36-50 | Every interleaving is finite, keeps at most min(concurrency, n) tasks in flight and calls each task once, in order |
| WorkerPool.MapRefinesTasks | backend-nestjs/src/common/utils/map-with-concurrency.util.ts:25-53 | At the end the map rejects exactly when some task does, and otherwise holds the tasks' values in input order |
| WorkerPool.SurvivorsFinishTheRest | backend-nestjs/src/common/utils/map-with-concurrency.util.ts:39-50 | A rejection does not stop the others: one surviving worker still sees every task called |
| WorkerPool.LaunchEstablishesInv | backend-nestjs/src/common/utils/map-with-concurrency.util.ts:30-49 | A concurrency below one is an error and any other launches min(concurrency, n) workers |
| CronLock.RedisLock.TryAcquire | backend-nestjs/src/common/locking/redis-distributed-lock.ts:37-58 | It wins exactly when the server answers and the key is free, and otherwise changes nothing |
| CronLock.RedisLock.RunExclusively | backend-nestjs/src/common/locking/redis-distributed-lock.ts:60-73 | Work runs only for the winner, and finishing it gives the key back to nobody |
| CronLock.ClaimsAreApart | backend-nestjs/src/common/locking/distributed-lock.interface.ts:15-22 | Two claims of one key are a time to live apart, so runs that fit in it never overlap |
| CronLock.FirstAttemptWins | backend-nestjs/src/common/locking/redis-distributed-lock.ts:40-46 | The first attempt at a key wins, whatever other keys saw |
| CronLock.ExactlyOncePerTickIff | backend-nestjs/src/common/locking/distributed-lock.interface.ts:15-22 | Every schedule has exactly one run per tick if and only if skew < ttl and skew + ttl <= interval |

## Left out

- CallbacksSerialise: allows one callback per course in flight, because the guard read takes no lock; SuccessUndoneIff covers the other runs. Two course rows of one request are assumed to name different courses, and the parent row to exist, as the course row's foreign key demands.
- Approval, reconciliation and review screens: only as the source of resets and redeliveries.
- MaterialsNeverShareQuestions: as DeliveredIsNotRepeated, assumes a generation of a cycle and course is planned after the previous one's callbacks are over and without curated replacements, as OverlapRepeats shows it must.
- ReviewPlan.RequestSlotCounts: the courses of a request are assumed distinct, and a topic to belong to one course.
- ReviewPlan.TopicPlanDistinct: distinctness per topic entry; two entries of one subtopic select independently in the code. The mapping of a question to a subtopic is assumed to be listed once.
- LoadCourseQuestions: the random fetch for a request without review rows, image signing and the question text are not modelled.
- BoundedPool.GetRandomQuestions: exclude ids are assumed to be canonical numbers (the SQL drops non-numeric ones), and a question is assumed mapped once to its subtopic.
- Upper-casing of difficulty labels covers ASCII letters; template names are compared in their trimmed, lower-cased form, which is taken as given.
- Fractions 0.4 and 0.2 of a target are the integer divisions 2n/5 and n/5.
- AuthState.AnswersAreRecent: one clock for all processes, and a cache write that lands within a bounded delay of its two database reads; role resolution is one statement with an opaque result.
- CatalogCache.FreshIff: assumes strictly increasing bump stamps; EqualStampsRetireNothing shows why, and SharedVersionFreshIff covers equal ones.
- TenantMigrations: a migration's DDL is one effect; the separate connection that holds the advisory lock is not modelled.
- TenantTransactions: errors are exceptions of the operation; a statement error the database answers by refusing the rest of the transaction, and operations run in parallel inside one transaction, are not modelled.
- Syllabus.AddKeepsInv: sequential operations; two concurrent check-then-write adds can jointly pass the cap, as the source admits. Foreign keys and the generated flag are not modelled.
- CycleWeeks.InvAlongRun: about operations one at a time; StaleUpdateMatchesIff covers an update that others wrote before. The syllabus check of an update is a parameter.
- CycleWeeks: a cycle's name and year, its deletion and the archiving of its syllabuses are not modelled; dates are day numbers.
- WorkerPool.LaunchEstablishesInv: non-integer concurrency is not modelled.
- CronLock.ExactlyOncePerTickIff: Redis reachable; without it the lock fails closed and a tick can pass without a run.
- PDF and HTML rendering, object storage, framework wiring, logging, metrics, the dashboard, onboarding, design defaults, id reconciliation, provisioning, the frontend and main-schema migrations.
