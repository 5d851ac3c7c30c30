# A verified model of the document extraction service

The service takes uploaded documents through a checkpointed extraction pipeline,
routes them by confidence to delivery, human review or a dead-letter queue, lets
people retry, review and erase them, and pushes results to webhooks. All of this
happens concurrently on the same rows. This project models that behaviour in
Dafny and proves what holds over every run.

`dafny verify dfyconfig.toml` checks everything.

## How it is modelled

**One document under concurrency** (`Documents`, `Protocol`, `Invariant`,
`ErasureSafety`, `ErasureRedrive`, `NoSilentDrop`, `DeliveredOnce`, `DeadLetters`,
`ReviewRaces`, `ReviewSerial`, `RetryOnce`, `Decisions`, `Outcomes`, `DocumentTables`).
A `Cell` holds everything stored under one document id: the row with its version,
its children, the audit events, the entry in the cancellation set and the blob.
Uploads, pipeline runs, outcome writes, webhook deliveries, erasures, reviews and
dead-letter retries are actors; each moves one step at a time (`Advance`), any
number of them interleave over any number of documents, any of them may stop for
good between two steps, and the process may restart, which loses the cancellation
set and every actor. A transaction is one or more reads followed by one atomic
commit. A commit fails when an updated document or review row has changed version,
when a child has no parent, or when a second extraction or review task would be
inserted. As in the mapper, a row whose fields are written back unchanged issues
no UPDATE and is not version-checked. The reads of one transaction are separate
steps, as at PostgreSQL's default READ COMMITTED level. `DocumentTables` has the
same transactions as methods that assign fields and add rows in loops, each proved
equal to the commit function that the protocol uses. `Decisions` and `Outcomes` say
of each commit when it is refused and what it writes, in the row values themselves.

**The pipeline** (`Pipeline`, `PipelineRuns`, `PipelineReference`, `Reentries`, `Runner`). Nodes answer a state with a
partial update that is merged key by key. The parser, the injection scan, the
too-short and too-garbled tests and the model's answers are oracles. A crash leaves
the checkpoint after some node; a re-entry merges the runner's seed over it and
starts from START. `PipelineReference` is a second definition of what a fresh run comes
to, case by case and without nodes, to which every run is proved equal in every key. `Runner` turns a final state into the rows that its outcome
transaction writes, personal fields encrypted.

**Encryption** (`Encryption`, `FieldDicts`). The cipher and its base64 (section 4
of RFC 4648) are one abstract pair of functions with an inverse law and a
wrong-tenant law; a concrete instance shows that the laws can be met. The walk is a
function on nested values, and `FieldDicts` runs it in place on a tree of
dictionaries on the heap, after a deep copy.

**The components around them**: the circuit breaker (`Breaker`), the tenant counter
(`RateLimiter`), the key cache (`KeyCache`), the worker pool (`WorkerPool`), schema
versions (`SchemaRegistry`, `SchemaCommits`), the webhook loop (`WebhookDelivery`), and the scoring
arithmetic (`Text`, `Confidence`, `Guardrails`), over exact rationals with
round-half-even to four places.

## Assumptions

- One process with one cancellation set; commits are atomic.
- Document ids are never reused, and there is one review task a document, so a
  review task is named by its document and a dead letter by its position.
- A pipeline run may start for any document at any time, with any final state. This
  covers uploads, double scheduling, runs that read the row before the retry that
  scheduled them has committed, and runs whose retry was then refused.
- The answers of the outside world to one actor are fixed when it starts; they are
  arbitrary, so this loses nothing.
- Fields of the breaker's, the cache's and the cell's history (`history`, `readAt`,
  `born`) exist for the statements only.

## Where the code and its documentation differ

The model follows the code. For each of these but the last there is a proved lemma
with a concrete run or input, beside the exact condition or bound that does hold.

- *Optimistic locking keeps reviewers from clobbering each other*
  (`app/services/review.py:12-14`): not when a reviewer repeats the decision that he
  read. That writes the same review row, so nothing is version-checked, and if the
  review task has moved on in between, the document or the extraction is
  overwritten. A document can end REJECTED with an accepted review task and no dead
  letter (`ReviewRaces.RejectionCanBeLost`). A document row that is read as already
  decided is not version-checked either, so that after one such overwriting even a
  first, current acceptance can lose a rejection
  (`ReviewRaces.AcceptanceCanLoseRejection`). Exactly which commits do this, in any
  state a run reaches, is `NoSilentDrop.LostExactlyWhen`, and over whole runs
  `NoSilentDrop.RejectedAreBackedExactlyWhen`; exactly which fail to act as if alone
  is `ReviewSerial.SerialExactlyWhen`, and over whole interleavings
  `ReviewSerial.ReviewersAreSerialExactlyWhen`. A reviewer who acts on an open review
  task never starts it (`NoSilentDrop.OpenTasksAreNeverStale`).
- *A retry is idempotent ... rather than re-enqueueing the same document twice*
  (`app/api/routers/dlq.py:3-5`): the rows are, but the run is scheduled inside the
  request, before its commit. Every request that reads the entry before the first of
  them has committed schedules a run, also when its own commit is then refused
  (`RetryOnce.RunsAreEarlyReads`, `RetryOnce.RefusedRetryStillRuns`); a document that a
  run of the system reaches is in `RetryOnce.ReachedFailureRunsTwice`.
- *No silent drop*: the retry of a dead letter sets its document to PENDING, also when
  the dead letter is that of a webhook and the document had been delivered. The run
  that follows cannot deliver it again, because its extraction exists, and rolls back;
  the document stays PENDING with nothing left to retry
  (`DeliveredOnce.WebhookRetryStrands`, `DeliveredOnce.StrandedStays`). The rule behind
  it is `DeliveredOnce.DeliveredOrQueuedOnce`.
- *A single tombstone audit event* (`app/services/erasure.py:5-6`): one for every
  erasure that gets to its row delete (`ErasureRedrive.TombstonesAreDeletes`), which
  two that overlap both do (`ErasureRedrive.TwoTombstones`). An erasure that is refused
  at its first commit leaves its entry in the cancellation set, and with it every later
  run of the document without an outcome (`ErasureRedrive.RefusedErasureBlocksRuns`,
  `ErasureRedrive.RefusalIsReached`).
- *A crash is recovered from the checkpoint*: yes if the first checkpointed
  extraction is not empty. Otherwise an error, a failure reason or an empty
  extraction may stay behind; so may the LOW_CONFIDENCE of a run that finished on an
  empty extraction and is retried (`Reentries.RaisedLeavesItsError`,
  `Reentries.EmptyLeavesItsReason`). `PipelineRuns.CrashesAreExact` says exactly when,
  for any number of crashes.
- The per-tenant queue limit can be exceeded by one for every dead-letter retry that
  has ended (`RateLimiter.BoundIsTight`), and setting a tenant's concurrency limit,
  even to the same value, lets a second set of jobs in (`WorkerPool.ChangeAddsUp`).
- The cancellation registry is described as checked between nodes
  (`app/worker/cancellation.py:3-7`); the nodes only look at a key that the runner
  always seeds with False, so the registry counts at the outcome write alone.

## Model

| member | source | states |
|---|---|---|
| ErasureSafety.RowOrTombstone | app/services/erasure.py:38-71 | In every state that any interleaving of any number of uploads, runs, reviews, retries, deliveries and erasures can reach, a committed document has its row or an ERASURE_COMPLETED event, never both and never neither, and child rows exist only beside the row. |
| ErasureSafety.ErasedForGood | app/services/erasure.py:57-69 | Once the event is there, whatever runs afterwards, the event stays and neither the document row nor any child row for the id is ever there again. |
| ErasureSafety.BlobErasedForGood | app/services/erasure.py:49-70 | An erasure that reached its end and whose blob delete did not raise leaves no blob, then or at any later time. |
| ErasureSafety.TombstoneMeansNoBlob | app/services/erasure.py:49-69 | External data goes before the rows and the tombstone comes last: on every run of the system on which no blob delete raises, a document with its ERASURE_COMPLETED event has no blob, wherever its erasures stopped. |
| ErasureSafety.LateRunStops | app/worker/runner.py:63-68 | A run that loads after the tombstone finds no row, stops at that step and changes nothing. |
| ErasureSafety.CancelMakesRunsStale | app/services/erasure.py:41-47 | When an erasure's first transaction commits, every run already past its guard holds an older version than the row's, even when the status was already cancelled and no UPDATE was issued. |
| ErasureSafety.RunsStayStale | app/worker/runner.py:149-153 | While the registry entry stands, no step of any actor gives a run a current version. |
| ErasureSafety.CancelledOutcomesAreDropped | app/worker/runner.py:142-193 | From the commit of an erasure's first transaction on, for as long as the registry entry stands, no outcome commit changes the document row, whatever retries and reviews do to its status meanwhile. |
| ErasureRedrive.RedriveCompletes | app/services/erasure.py:38-71 | From any state of a living document, whatever earlier erasures stopped at or left behind, one more erasure without faults and with the document to itself leaves no row, child, blob or registry entry, adds its event, and changes nothing else. |
| ErasureRedrive.EntryBlocksRuns | app/worker/runner.py:149-153 | While a registry entry is not cleared and the process does not restart, no run of the document gets to its outcome commit but those that were there already. |
| ErasureRedrive.RefusedErasureBlocksRuns | app/services/erasure.py:41-47 | An erasure refused at its first commit while the document is there gives up, changes nothing, and leaves its entry, which then blocks every later run in that way. |
| ErasureRedrive.RefusalIsReached | app/services/erasure.py:41-47 | Some run of the system comes to such a refusal: a run past its guard commits between the erasure's read and its commit. |
| ErasureRedrive.TombstonesAreDeletes | app/services/erasure.py:57-69 | Over every run of the system a document has exactly as many ERASURE_COMPLETED events as erasures got to its row delete, at most as many as read it while it was there, and those at most as many as were asked for; so a single one if a single erasure read it. |
| ErasureRedrive.TwoTombstones | app/services/erasure.py:43-69 | Some run of the system leaves two events. |
| Invariant.StepKeeps | app/worker/runner.py:142-231 | Every step of every kind of actor keeps the document's invariant, changes the rows only in the allowed ways, and leaves the actor with a correct view of them. |
| Invariant.ActorsAreStable | app/db/models.py:163 | No allowed change spoils what another actor has read: an equal version still means an equal row, for documents and review tasks. |
| Invariant.MoveKeepsOrder | app/services/erasure.py:41-47 | The cross-actor order behind the cancellation barrier: a run past its guard never read a newer row than an erasure about to cancel it. |
| Invariant.ExecuteKeeps | app/services/erasure.py:38-71 | The invariant holds at the end of every run of the whole system, and over every run each document only evolves: events are never lost, an erased row never returns, versions only grow. |
| NoSilentDrop.DeliveredAndQueuedAreBacked | app/worker/runner.py:170-231 | In every reachable state a completed document has its extraction, and a document in review has its extraction and an open review task. |
| DeliveredOnce.DeliveredOrQueuedOnce | app/worker/runner.py:142-231 | Over every run of the system at most one outcome ever delivers or queues a document, and for a living document one has exactly when it has its extraction, so that every later one rolls back. |
| DeliveredOnce.StrandedStays | app/api/routers/dlq.py:50-60 | A PENDING document with its extraction and no dead letter left to retry stays exactly as it is under any interleaving of retries and of runs that would deliver or queue it. |
| DeliveredOnce.WebhookRetryStrands | app/worker/runner.py:142-231 | Some run of the system comes to such a document: it is delivered, its webhook is exhausted, the dead letter is retried, and the run that follows rolls back. |
| NoSilentDrop.RejectedAreBackedExactlyWhen | app/services/review.py:57-73 | Over every run of the whole system, every rejected document has a dead letter or a declined review task at all times if and only if no review commit of the run is a losing one, as NoSilentDrop.LostExactlyWhen defines it. |
| NoSilentDrop.LostExactlyWhen | app/services/review.py:57-73 | From any reachable state with its rejection backed, a review commit takes the backing away if and only if there is no dead letter and it either repeats a rejection over a review task that now says otherwise and a current document that was not rejected, or changes a current decision to another while taking a document that has since been rejected for completed. |
| NoSilentDrop.OthersKeepBacking | app/worker/runner.py:142-231 | No step of any other actor takes the backing away. |
| NoSilentDrop.RejectedAreBacked | app/services/review.py:57-73 | A simpler condition that suffices: in every state of a run without a stale re-decision, a rejected document has a dead letter or a declined review task. |
| NoSilentDrop.StaleExactlyWhen | app/db/models.py:242 | When a review commit escapes the version check and does damage, in terms of what the request read and of the versions now: it repeats the decision read, the review task has moved on, and the document's status or the corrections still differ. |
| NoSilentDrop.LostExactlyWhenStale | app/services/review.py:57-73 | As long as no re-decision of the run has been stale, a review commit leaves a rejection without backing if and only if it is a stale rejection of a document without a dead letter whose review task now carries another decision. |
| NoSilentDrop.OpenTasksAreNeverStale | app/services/review.py:57-69 | A reviewer who acts on an open review task is always version-checked. |
| ReviewRaces.RejectionCanBeLost | app/services/review.py:51-73 | Some run of the system ends with a rejected document that has no dead letter and an accepted review task. |
| ReviewRaces.AcceptanceCanLoseRejection | app/services/review.py:51-73 | Some run reaches a backed rejection whose backing is lost by a commit that is no re-decision: a current acceptance of a document read as completed. |
| ReviewSerial.ReviewersAreSerialExactlyWhen | app/services/review.py:38-104 | For any interleaving of any number of reviewers from any reachable state, the review row, the document row and the extraction are at all times as the requests committed so far would leave them, each made alone, one after another in commit order, if and only if each commit acts as if alone. |
| ReviewSerial.SerialExactlyWhen | app/services/review.py:51-120 | In any reachable state a request that commits has the effect it would have had alone if and only if: with the review task moved on, it read a document so decided and its corrections give the extraction as read or as it is; otherwise, a document it read as so decided still is and its corrections come out on the extraction it read as on the present one. |
| ReviewSerial.ReachedReviewers | app/services/review.py:38-85 | The reviewers of a document in any state that a run of the system reaches are such reviewers. |
| ReviewSerial.ReviewersAreSerial | app/services/review.py:38-104 | A simpler condition that suffices: from a review task as the pipeline queues it, any interleaving without a stale re-decision is serial. |
| ReviewSerial.SerialExactlyWhenNotStale | app/services/review.py:51-73 | In a settled state, one as the pipeline or a decision made alone leaves it, the condition is just that the request is not a stale re-decision. |
| ReviewSerial.SettledIsNeeded | app/services/review.py:51-73 | In a reachable state that is not settled, a commit that is not stale need not act as if alone. |
| ReviewSerial.OneChangePerVersion | app/db/models.py:242 | However reviewers interleave, stale or not, committed requests that change the review row name strictly increasing versions, so at most one per version. |
| ReviewSerial.CorrectingTwiceIsCorrectingOnce | app/services/review.py:99-103 | Applying the same corrections again changes nothing, with fields that have no new value left out. |
| ReviewSerial.CommitKeepsSettled | app/services/review.py:57-73 | Repeating a decision at the current version changes nothing but the audit log; a new decision moves the version on by one and leaves review task, document and extraction in agreement. |
| ReviewSerial.QueuedTaskIsSettled | app/worker/runner.py:170-231 | What the pipeline queues for review is in the state from which reviewers are serial. |
| ReviewSerial.RaceIsNotSerial | app/services/review.py:51-73 | The race of a stale re-decision ends in a state that no sequence of requests made one after another reaches. |
| DeadLetters.DeadLettersCountOnce | app/api/routers/dlq.py:50-60 | In every state that a run of the whole system reaches, whatever else is running, each dead letter has never been retried or has been retried exactly once. |
| DeadLetters.RetriedForGood | app/api/routers/dlq.py:50-53 | A dead letter that has been retried stays exactly so for as long as its document is there, over every continuation, so that no later request passes the status check. |
| RetryOnce.RetriesCountOnce | app/api/routers/dlq.py:45-67 | When only retry requests for one dead letter interleave, the whole document ends as it was or as one single request leaves it. |
| RetryOnce.EveryCheckPassedIsARun | app/api/routers/dlq.py:50-66 | In any interleaving of any actors, the runs scheduled are exactly the requests that passed the status check, less those still waiting for their document: none is lost and none is refused. |
| RetryOnce.ChecksPassUntilFirstCommit | app/api/routers/dlq.py:50-53 | Requests pass the status check until the first of them commits, and none passes it after. |
| RetryOnce.RunsAreEarlyReads | app/api/routers/dlq.py:45-67 | Any number of requests for one entry, interleaved in any way to their ends, schedule exactly as many runs as of them read the entry before the first one committed; so at most one run if and only if at most one did. |
| RetryOnce.RefusedRetryStillRuns | app/api/routers/dlq.py:55-67 | From any retryable document that is not pending, two requests in step schedule two runs while one of their commits is refused. |
| RetryOnce.ReachedFailureRunsTwice | app/api/routers/dlq.py:55-67 | A document rejected by a run of the system is one on which this happens. |
| RetryOnce.SecondCommitsExactlyWhenLate | app/api/routers/dlq.py:50-60 | Of the commits: before the first, every request's commit succeeds; after it, exactly those whose document was read as the first commit left it. |
| RetryOnce.OneCommitExactlyWhen | app/api/routers/dlq.py:50-60 | At most one request commits, in any interleaving, if and only if no request comes to commit after another with the document read as that one left it. |
| RetryOnce.OneCommitWithoutLateReads | app/api/routers/dlq.py:55-60 | If the document was not pending and no request reads it after another has committed, at most one request commits, in any interleaving. |
| RetryOnce.LateReadCommitsAgain | app/api/routers/dlq.py:55-60 | From any retryable state, a request that read the entry in time and reads its document after another has committed commits as well. |
| Decisions.AcceptanceWrites | app/services/review.py:57-73 | An acceptance that commits leaves the review task ACCEPTED, with its corrections and reason as they were, one version on, or untouched if it was read so, and the document COMPLETED; the extraction and everything else stay. |
| Decisions.RejectionWrites | app/services/review.py:57-73 | A rejection that commits leaves the task DECLINED with the reason given and the document REJECTED. |
| Decisions.CorrectionWrites | app/services/review.py:59-103 | A correction that commits leaves the task CORRECTED with exactly the corrections sent, each field with a new value holding it in the extraction and every other field as it was, and the document COMPLETED. |
| Decisions.DecisionRefusedExactlyWhen | app/services/review.py:45-73 | A decision rolls back if and only if a row that it changes has moved on from the version read or is gone. |
| Decisions.ValidExactlyWhen | app/services/review.py:57-69 | An unknown action and a correction without corrections are the only invalid ones. |
| Outcomes.OutcomeRefusedExactlyWhen | app/worker/runner.py:142-231 | An outcome rolls back if and only if it changes a row that has moved on or is gone, adds anything to a document that is gone, or would write a second extraction or review task. |
| Outcomes.OutcomeWrites | app/worker/runner.py:155-231 | What it writes otherwise, in every column: status (ERROR for one that runs do not end in), tier, confidence if there is one, extraction, review task of version 1, reports, dead letter (UNKNOWN without a reason) and event. |
| Outcomes.IngestWrites | app/services/ingest.py:87-101 | The row of an upload: PENDING, without tier or confidence, at version 2 with its storage key. |
| Outcomes.RetryWrites | app/api/routers/dlq.py:55-60 | When a retry is refused, and that it writes only the entry (RETRYING, one retry more) and the PENDING of a document that was not. |
| Outcomes.DeliveryWrites | app/services/webhook_delivery.py:66-120 | A delivery rolls back exactly when the document is gone and something hangs off it, and else adds its attempts, one event, and WEBHOOK_DELIVERY_FAILED exactly if nothing was delivered. |
| Outcomes.CancelWrites | app/services/erasure.py:43-47 | The first transaction of an erasure: refused when a document read in another status has moved on or is gone; it writes the status alone. |
| Outcomes.BlobStepWrites | app/services/erasure.py:49-55 | The blob goes exactly if there is a key that is not empty and the delete does not raise. |
| Outcomes.ErasureWrites | app/services/erasure.py:58-69 | The last transaction: nothing stays but the audit log, with one event more. |
| Outcomes.NobodyLeavesNothing | app/services/erasure.py:38-71 | Over every run of the system, nothing is ever stored under an id for which no actor was started. |
| Runner.OutcomeIsNeverSilent | app/worker/runner.py:142-231 | The whole document after a fresh run's committed outcome: the run's row, reports and one event, an extraction (delivered), an extraction and an open review task (queued), one more dead letter with the run's own reason, never GUARDRAIL_BLOCK (rejected), or none of these (cancelled); all else, deliveries included, as it was. |
| Runner.DeadLetterNamesItsCause | app/worker/runner.py:173-183 | The reason in the dead letter that a fresh run leaves is PARSE_FAILED if the parser raised, PARSE_EMPTY_OUTPUT if the text was empty, INJECTION_DETECTED on a hit, EXTRACTION_FAILED if the model raised and LOW_CONFIDENCE otherwise; a cancelled run leaves none. |
| Runner.ReportsAreWritten | app/worker/runner.py:159-169 | The reports that a fresh run leaves, with their names, their results as strings and their multipliers: none without a text, else the injection scan and the text quality. |
| Runner.RunRefusedExactlyWhen | app/worker/runner.py:142-231 | When the outcome transaction of a run rolls back, encryption included: only for want of a key, for a personal string that is no envelope, of an extraction that is to be written. |
| Runner.StoredExtractionIsTheAnswer | app/worker/runner.py:196-221 | The extraction that a delivered or queued fresh run stores has an envelope for every personal string, and decrypts to exactly what the model answered. |
| Runner.EveryRunIsAccounted | app/pipeline/nodes.py:160-194 | From any state, one left by any crash included, a run ends completed, in review, rejected with a named reason, or cancelled. |
| Runner.FallbacksAreNeverTaken | app/worker/runner.py:155-178 | Over every run of the whole system with such outcomes, no document is ever in ERROR or in an intermediate status and no dead letter has the reason UNKNOWN. |
| DocumentTables.Tables.FlushDocument | app/db/models.py:155-163 | The UPDATE writes exactly when something changed and the row is still there at the version read, and then moves the version on. |
| DocumentTables.Tables.PersistOutcome | app/worker/runner.py:155-231 | The transaction run statement by statement, reports added in a loop, commits or rolls back as the protocol's outcome step does and leaves the same rows. |
| DocumentTables.Tables.WriteExtraction | app/worker/runner.py:196-231 | The extraction row, and the review task exactly for a document that goes to review. |
| DocumentTables.Tables.CorrectFields | app/services/review.py:99-103 | The loop over corrections gives the same extraction in whatever order the fields are taken. |
| DocumentTables.Tables.AssignDecision | app/services/review.py:57-69 | The fields assigned branch by branch are those of the decision, whose values Decisions.CorrectionWrites and its companions give. |
| DocumentTables.Tables.ApplyAction | app/services/review.py:57-85 | The decision, with its three row updates, commits or rolls back as the protocol's review step does and leaves the same rows. |
| DocumentTables.Tables.RetryDeadLetter | app/api/routers/dlq.py:55-60 | The retry commits or rolls back as the protocol's retry step does and leaves the same rows. |
| DocumentTables.Tables.Cancel | app/services/erasure.py:43-47 | The first transaction of an erasure, against the row version it read. |
| DocumentTables.Tables.DeleteRows | app/services/erasure.py:58-69 | The row and every child go, one event is added, and nothing else changes. |
| PipelineRuns.FreshRunEnds | app/pipeline/nodes.py:27-194 | Every run on a fresh thread ends completed, in review, rejected or cancelled with tier HIGH, MEDIUM, LOW, LOW, has a failure reason exactly when rejected and never GUARDRAIL_BLOCK, and calls the model exactly when it was not cancelled, some text was parsed and nothing was injected. |
| PipelineReference.RunIsReference | app/pipeline/nodes.py:33-194 | Every fresh run ends, in every key of its state, as a second definition without nodes says: who stopped it, with what error, reports, multiplier, score, tier and reason. |
| PipelineReference.CheckpointsAreMarked | app/pipeline/nodes.py:33-174 | Every checkpoint on the way carries the status and the step of how far the run is and how it stands. |
| PipelineReference.EmptyExactlyWhenShort | app/pipeline/parsers/base.py:15-19 | A text of whitespace, a core and whitespace, without newlines, ends a fresh run in PARSE_EMPTY_OUTPUT if and only if the core has fewer than ten characters. |
| PipelineReference.NewlinesAreNotCounted | app/pipeline/parsers/base.py:15-19 | A newline anywhere makes no difference to that. |
| PipelineReference.NoTextIsBlocked | app/pipeline/nodes.py:63-80 | A text that is absent or blank is blocked by the text-quality guardrail, with its report, and the reason is that of the injection scan if that hits first. |
| PipelineReference.DefaultsApply | app/pipeline/nodes.py:125-164 | What stands in for an absent score, schema, extraction or multiplier. |
| PipelineRuns.ParsedTextHasInk | app/pipeline/parsers/base.py:15-19 | Text that the parser accepts is never empty to the text-quality guardrail, through Unicode whitespace stripping. |
| PipelineRuns.GuardsBlockOnInjection | app/domain/guardrails/text_quality.py:20-34 | On accepted text the guardrails block exactly when the injection scan hits. |
| PipelineRuns.DeliveredRunsAreComplete | app/pipeline/nodes.py:125-171 | A fresh run's confidence lies in [0, 1], and it is delivered only if the fraction of required fields present times the guardrail multiplier is at least the high threshold less 0.00005. |
| PipelineRuns.WarnedIsNotDelivered | app/pipeline/nodes.py:160-171 | At any high threshold above 0.8, the default included, no document whose text drew a WARN is delivered, whatever the model answers. |
| PipelineRuns.MoreFieldsNeverLowerTier | app/pipeline/nodes.py:130-171 | One more non-empty extracted field never lowers the tier that a fresh run reaches, through the rounding and the fallback for a missing self-report. |
| PipelineRuns.WarnNeverRaisesTier | app/domain/guardrails/base.py:55-61 | For any list of guardrails, turning a PASS into a WARN with a multiplier of at most 1 never raises the tier, through both roundings. |
| PipelineRuns.WarnedRunRanksNoHigher | app/pipeline/nodes.py:63-88 | A whole run on text that draws a WARN reaches no higher tier than if it had not. |
| PipelineRuns.EarlyCrashIsForgotten | app/worker/runner.py:70-72 | A crash before the extraction is checkpointed leaves nothing that parse and guardrail do not write again. |
| PipelineRuns.LateCrashIsRedone | app/pipeline/nodes.py:91-122 | A crash after it keeps the extraction: the re-entry ends in the full state of the uninterrupted run and does not call the model. |
| PipelineRuns.HaltedRunIsRepeated | app/pipeline/nodes.py:27-30 | A run that parse or guardrail stops ends in the same full state when re-entered, whatever the model would answer. |
| PipelineRuns.CrashesLeaveNoTrace | app/worker/runner.py:70-72 | After any number of crashes and re-entries the run ends in the full state of one uninterrupted run on the first checkpointed extraction, if that is not empty or the model is never reached, and the model is not called again once it is checkpointed. |
| PipelineRuns.CrashesAreExact | app/pipeline/nodes.py:91-194 | For any number of crashes at any nodes and any answers, the run ends in the full state of one uninterrupted run on the answer in the end if and only if the model is never reached, or every answer checkpointed before it without settling raised exactly if it raises, and, where zero confidence is rejected and a run had finished on one of them without a raise, its confidence is below both thresholds. |
| PipelineRuns.ReentryIsExact | app/worker/runner.py:70-72 | The same for one re-entry, that of a finished run by a dead-letter retry included. |
| Reentries.RaisedLeavesItsError | app/worker/runner.py:70-72 | A concrete run whose model times out and answers well on the retry does not end as an uninterrupted run on the good answer. |
| Reentries.EmptyLeavesItsReason | app/worker/runner.py:70-72 | Nor does one that finished on an empty extraction. |
| PipelineRuns.EmptyIsRejected | app/pipeline/nodes.py:125-171 | Finishing on an empty extraction is a rejection exactly when both thresholds are above zero. |
| Text.StripKeepsInk | app/domain/confidence.py:43-48 | Stripping leaves something exactly when some character is not whitespace. |
| Text.SpacesAreTheseCodePoints | app/pipeline/parsers/base.py:15-19 | The characters that count as whitespace, by code point. |
| Text.StripFindsCore | app/pipeline/parsers/base.py:15-19 | Stripping whitespace around a core that begins and ends otherwise leaves just the core. |
| Text.NewlineDoesNotCount | app/pipeline/parsers/base.py:15-19 | Removing newlines removes each, wherever it stands. |
| Confidence.Round4IsMonotone | app/domain/confidence.py:64-69 | Rounding half to even to four places keeps the order. |
| Confidence.Round4IsClose | app/domain/confidence.py:64-69 | It moves a value by at most 0.00005. |
| Confidence.RoundingIsHalfEven | app/domain/confidence.py:55-69 | What lies between two halves rounds to the integer between them, and a half to the even neighbour. |
| Confidence.Round4IsInPlaces | app/domain/confidence.py:63-69 | Rounding gives a multiple of a ten-thousandth, namely the rounded number of them. |
| Confidence.PresentExactlyWhen | app/domain/confidence.py:43-48 | A value counts unless it is absent, null or a string of nothing but whitespace. |
| Confidence.FillIsExactly | app/pipeline/nodes.py:136-139 | With a schema of properties, fill rate times properties is the smaller of them and the extracted fields; without one it is 1 unless nothing was extracted. |
| Confidence.ConfidenceIsExactly | app/pipeline/nodes.py:130-151 | The confidence is the rounded product of the multiplier and the least of the self-report, if there is one, the completeness and the fill rate. |
| Confidence.NoReportIsFullReport | app/pipeline/nodes.py:140-143 | A missing self-report is scored as one of full confidence. |
| Confidence.MissingAreTheRest | app/domain/confidence.py:51-52 | The fields reported missing are exactly the required ones not present, repetitions included. |
| Confidence.CompleteExactlyWhenNothingMissing | app/domain/confidence.py:35-40 | Completeness is one less the fraction missing, and 1 exactly when nothing is missing. |
| Confidence.ConfidenceIsBounded | app/domain/confidence.py:55-69 | Whatever the model claims, the overall confidence lies in [0, 1], at most the rounded multiplier and at most completeness times the multiplier plus the rounding. |
| Confidence.BreakdownExplains | app/domain/confidence.py:55-69 | The least of the three rounded signals reported, times the multiplier, gives the overall confidence up to 0.0001. |
| Confidence.MoreFieldsNeverHurt | app/pipeline/nodes.py:130-151 | A further non-empty field never lowers the confidence. |
| Confidence.PenaltyNeverHelps | app/domain/confidence.py:55-69 | A smaller multiplier never raises the confidence. |
| Confidence.RankIsMonotone | app/domain/confidence.py:72-78 | A higher confidence never routes lower, for any thresholds, even when they are crossed. |
| Guardrails.AggregateMultiplier | app/domain/guardrails/base.py:55-61 | The loop computes the rounded product of the WARN multipliers. |
| Guardrails.AggregateOfOneMore | app/domain/guardrails/base.py:55-61 | One more outcome multiplies the product before rounding by its multiplier if it is a WARN, and leaves it otherwise. |
| Guardrails.AggregateIsBounded | app/domain/guardrails/base.py:55-61 | The aggregate lies in [0, 1] and each WARN bounds it, wherever it stands. |
| Guardrails.WarnLowersAggregate | app/domain/guardrails/base.py:55-61 | Turning a PASS into a WARN never raises the aggregate. |
| Encryption.ValueRoundTrip | app/domain/encryption.py:66-86 | A plain value becomes an envelope that opens to it under its tenant and under no other. |
| Encryption.PartitionAtFirstDot | app/domain/encryption.py:91 | A path is split at its first dot, and not at all without one. |
| Encryption.KeysOfJoined | app/domain/encryption.py:89-101 | Dotless keys joined by dots are the keys that the path names, with one trailing dot as without. |
| Encryption.EncryptSeals | app/domain/encryption.py:104-111 | With a key, the plain string found at the end of any such joined path is an envelope afterwards, and opens to what it was. |
| Encryption.EnvelopesAreMarked | app/domain/encryption.py:62-71 | An envelope begins with ocrenc:v1: and whatever does is one. |
| Encryption.WalkSees | app/domain/encryption.py:89-101 | A walk changes the string at the end of its path and nothing else anywhere, and raises exactly when there is such a string and the transform raises on it. |
| Encryption.EncryptSees | app/domain/encryption.py:104-111 | With a key, for any nested dict, any paths (repeated, prefixes of each other, trailing dots) and any nonces, every addressed plain string becomes an envelope that opens to it, envelopes stay, and nothing else changes. |
| Encryption.EncryptRaisesExactlyWhen | app/domain/encryption.py:42-71 | encrypt_fields raises if and only if no usable master key is configured and some addressed string is no envelope. |
| Encryption.EncryptTwiceIsOnce | app/domain/encryption.py:66-68 | Encrypting again, with other nonces, changes nothing. |
| Encryption.FieldsRoundTrip | app/domain/encryption.py:104-121 | decrypt_fields undoes whatever encrypt_fields returns, when no addressed string carried the envelope prefix. |
| Encryption.DecryptRaises | app/domain/encryption.py:76-86 | One addressed envelope that does not open makes the whole call raise. |
| Encryption.WrongTenantRaises | app/domain/encryption.py:82-86 | Another tenant's context raises as soon as one field was really encrypted. |
| Encryption.ToyIsLawful | app/domain/encryption.py:66-86 | The laws asked of the cipher have an instance. |
| FieldDicts.Dict.Walk | app/domain/encryption.py:89-101 | The walk by assignment on a tree of dictionaries on the heap leaves what the walk on values gives, and leaves siblings alone. |
| FieldDicts.DeepCopy | app/domain/encryption.py:108 | The copy has the same contents and shares no dictionary with the original. |
| FieldDicts.EncryptFields | app/domain/encryption.py:104-111 | The loop over fields on the copy gives what the function on values gives, ending in an error exactly when it does; the argument is left alone. |
| FieldDicts.DecryptFields | app/domain/encryption.py:114-121 | The same for decryption, ending in an error exactly when a value raises. |
| Breaker.WithinIsExact | app/domain/circuit_breaker.py:62-67 | Pruning keeps exactly the failures inside the window, each as often as it was recorded. |
| Breaker.WithinIsSuffix | app/domain/circuit_breaker.py:62-67 | Of times in order it keeps an end piece, and exactly that which lies inside the window. |
| Breaker.TrippedAtIsFirst | app/domain/circuit_breaker.py:68-71 | The open time is that of the first failure since the last success whose trailing window held at least the threshold count, and there is none when no failure did. |
| Breaker.PruneTwice | app/domain/circuit_breaker.py:62-67 | Pruning what was pruned earlier loses nothing that a later window counts. |
| Breaker.Prune | app/domain/circuit_breaker.py:65 | The comprehension keeps what the specification keeps. |
| Breaker.CircuitBreaker.RecordFailure | app/domain/circuit_breaker.py:62-71 | After it the pruned list and the open time are still the functions of the whole event history that Valid states. |
| Breaker.CircuitBreaker.RecordSuccess | app/domain/circuit_breaker.py:73-78 | The same for a success, which closes the breaker. |
| Breaker.CircuitBreaker.Begin | app/domain/circuit_breaker.py:80-83 | A call is let through exactly when, in the run of overlapping calls that the breaker has recorded, a call arriving now starts. |
| Breaker.CircuitBreaker.End | app/domain/circuit_breaker.py:84-90 | The end of a call is recorded as its outcome. |
| Breaker.StateIsThatOfRun | app/domain/circuit_breaker.py:54-60 | The state that the class reports is the one that the run of overlapping calls says, whenever the run is what it has recorded. |
| Breaker.TripStands | app/domain/circuit_breaker.py:62-78 | The open time stands through any overlapping calls and any number of failures until a success. |
| Breaker.HalfOpenLetsEveryoneThrough | app/domain/circuit_breaker.py:54-90 | Once the cooldown has passed since a trip, every call is let through until some success is recorded, however many fail meanwhile. |
| Breaker.OpenStopsEveryone | app/domain/circuit_breaker.py:54-83 | Before that no call starts, unless a success was recorded. |
| Breaker.StoppedExactlyWhen | app/domain/circuit_breaker.py:54-90 | Of overlapping calls just those are stopped that arrive less than the cooldown after a failure which, first since the last success, had at least the threshold of failures, counted in the run itself, in its window; the breaker is closed exactly when there is no such failure. |
| RateLimiter.TenantRateLimiter.Acquire | app/services/rate_limit.py:29-35 | A slot is taken exactly when the count is below the limit; a refusal changes nothing. |
| RateLimiter.TenantRateLimiter.Release | app/services/rate_limit.py:37-44 | The count goes down by one but never below zero; the key goes with the last slot. |
| RateLimiter.Extract | app/api/routers/extract.py:46-88 | An upload leaves the counters as they were unless it was enqueued, and then adds one slot for its tenant alone. |
| RateLimiter.CounterTracksUploads | app/worker/runner.py:51-60 | Over every run of uploads and retries a tenant's counter never exceeds the uploads that hold a slot and falls short of them by at most the retry runs that have ended. |
| RateLimiter.ExactWithoutRetries | app/services/rate_limit.py:29-44 | Without an ended retry the counter is exact. |
| RateLimiter.SlotsWithinLimit | app/api/routers/extract.py:53-61 | With a fixed limit a tenant's live uploads never exceed the limit plus the ended retries. |
| RateLimiter.BoundIsTight | app/api/routers/dlq.py:62-66 | For every number of retries there is a run that meets that bound exactly. |
| KeyCache.TTLCache.Get | app/services/auth.py:69-77 | A hit is an entry not past its expiry; an expired one is dropped. |
| KeyCache.TTLCache.Set | app/services/auth.py:79-82 | A full cache is emptied before the entry is stored. |
| KeyCache.AnswersAreHonest | app/services/auth.py:91-122 | Whatever lookups overlap, every answer at time t comes from a database read for that very key, stored no earlier than t less the TTL: the context of its row if there was one, neither revoked nor past its expiry when stored, and else a refusal. |
| KeyCache.FoundForTtl | app/services/auth.py:69-122 | What a lookup finds answers the next one up to and with the TTL without a read of the database; after it the entry is gone and the next one reads again. |
| KeyCache.AskedIs | app/services/auth.py:69-97 | An asked key is answered from the cache exactly when its entry is not past its expiry; otherwise the entry is dropped and the lookup goes to the database. |
| KeyCache.RevokedKeysDie | app/services/auth.py:91-122 | A revoked key is accepted for at most the TTL plus one lookup's latency. |
| KeyCache.ExpiredKeysDie | app/services/auth.py:112-126 | A key past its own expiry is accepted for at most the TTL. |
| KeyCache.SizeIsBounded | app/services/auth.py:79-82 | The cache never exceeds its maximum size, or one entry if that is 0. |
| WorkerPool.Pool.SemaphoreFor | app/worker/pool.py:33-40 | The tenant's semaphore is kept, or created once at the limit then in force. |
| WorkerPool.Pool.SetTenantLimit | app/worker/pool.py:42-49 | A limit below 1 is refused; otherwise the limit is set and the semaphore forgotten. |
| WorkerPool.EachSemaphoreHolds | app/worker/pool.py:51-76 | In every interleaving of submissions, finishes, failures and limit changes, each semaphore ever created has at most its own limit of jobs running. |
| WorkerPool.TenantIsBounded | app/worker/pool.py:33-76 | A tenant's running jobs are at most the sum of the limits of its semaphores that have holders. |
| WorkerPool.FixedLimitHolds | app/worker/pool.py:33-76 | If the limit was never changed, they keep within the one limit. |
| WorkerPool.CurrentHasLastLimit | app/worker/pool.py:33-49 | Over every run, the semaphore in force for a tenant has the limit last set for it, or the default if none was. |
| WorkerPool.SubmittedMeetsLastLimit | app/worker/pool.py:33-64 | After a submission the tenant's semaphore in force has that limit, and the job waits on it. |
| WorkerPool.ChangeAddsUp | app/worker/pool.py:42-49 | The sum is needed: a limit of 1, set again to 1, lets two jobs run. |
| SchemaRegistry.SnapshotsAreTheVersions | app/services/schema_registry.py:34-153 | Over every interleaving of create, update, seed, activate, deprecate and ingest transactions, a schema that is no draft has snapshots of exactly the versions 1 to the current one, in order without repeats, an active schema has at least 3 seeds, and every document's pinned version has a snapshot. |
| SchemaRegistry.ActivationWasCurrent | app/services/schema_registry.py:125-153 | The unique snapshot number stops every activation that read a stale row, although schemas have no version column. |
| SchemaRegistry.PinnedHasSnapshot | app/services/ingest.py:58-66 | A version read from an active schema has a snapshot by the time it is pinned. |
| SchemaRegistry.PinnedSnapshotIsStable | app/services/schema_registry.py:128-130 | A snapshot is never rewritten or duplicated later, so documents keep their pinned contract. |
| SchemaCommits.CommittedExactlyWhen | app/services/schema_registry.py:84-153 | When a transaction on a schema commits: the row is there, no row that would be active has fewer than 3 seeds, and an activation read 3 seeds and finds its snapshot number free. |
| SchemaCommits.CommittedWrites | app/services/schema_registry.py:84-153 | What each of them writes, in every column. |
| SchemaCommits.CreateWrites | app/services/schema_registry.py:37-64 | A name is taken once; a schema begins as a draft of version 1 without seeds. |
| SchemaCommits.TransactionsBeginAndEnd | app/services/ingest.py:58-66 | Reads need the row, and an upload an active one. |
| SchemaRegistry.SchemaTables.AddSeed | app/services/schema_registry.py:106-122 | The count written is that of the row read plus one, refused if the trigger objects. |
| SchemaRegistry.SchemaTables.Activate | app/services/schema_registry.py:132-153 | The activation commits exactly when seeds, snapshot number and trigger allow, and adds one snapshot of the definition read. |
| WebhookDelivery.Deliver | app/services/webhook_delivery.py:66-120 | For any replies, exceptions that escape included, and any schedule, delivery stops at the first 2xx, the first escape or the end, having slept exactly the delays between its attempts; unless an exception escaped, it logs attempts 1 to the last in order, each with the status or the error of its reply, one closing event, and a dead letter exactly when nothing was delivered, and beside a living row its commit adds just that; an escape leaves nothing. |

## Left out

- PipelineRuns.CrashesLeaveNoTrace: asks that the first checkpointed answer be a non-empty extraction if the model is reached, because the statement is false otherwise; PipelineRuns.CrashesAreExact is the exact condition.
- NoSilentDrop.RejectedAreBacked: asks that no review commit be a stale re-decision, because the statement is false otherwise; NoSilentDrop.RejectedAreBackedExactlyWhen is the exact condition.
- NoSilentDrop.LostExactlyWhenStale: is relative to runs in which no re-decision has been stale so far; NoSilentDrop.LostExactlyWhen holds in every state with its rejection backed.
- ReviewSerial.ReviewersAreSerial: asks for a settled start and no stale re-decision, because the statement is false otherwise; ReviewSerial.ReviewersAreSerialExactlyWhen is the exact condition.
- ReviewSerial.SerialExactlyWhenNotStale: is relative to settled states; ReviewSerial.SerialExactlyWhen holds in every reachable state.
- RetryOnce.OneCommitWithoutLateReads: asks that no request read late and that the document was not pending, because the statement is false otherwise; RetryOnce.SecondCommitsExactlyWhenLate says exactly which requests commit.
- ErasureSafety.CancelledOutcomesAreDropped: speaks of the document row; an outcome that would write the row back unchanged is not version-checked and may still add children, which the erasure then deletes.
- ErasureSafety.BlobErasedForGood: says nothing when the blob delete raised, since the code suppresses that.
- ErasureSafety.TombstoneMeansNoBlob: covers the runs on which no blob delete raises and storage keys are not empty, for the same reason.
- Checkpoints and vectors: a run in flight may write checkpoints after the single purge, and a review writes its vector outside the transaction, so nothing is claimed of either after a tombstone; the purge is a step that may raise.
- The link from a run's seed to the database: the runner loads the live schema, not the pinned snapshot, so only the existence of the snapshot is stated.
- Several replicas: each has a cancellation set of its own; the status check that backs it up is modelled, a second registry is not.
- Cancellation of asyncio tasks, and deletion of tenants.
- Floating-point error, and the rounding of the confidence column to three places: arithmetic is exact.
- Strings with lone surrogates, which Python cannot encode and on which encryption would raise: strings are sequences of Unicode scalar values.
- Equality of JSON values across Python's bool, int and float, which the mapper uses to tell whether a column changed.
- Cryptographic strength, key derivation, hashing, signatures and JWT: abstract or absent.
- The injection patterns, the word and printable counts of the text-quality guardrail, PDF and OCR parsing, model providers and prompts: oracles.
- A deep copy of dictionaries that share parts, and dictionaries inside lists, which the walk never enters: a dictionary is a tree.
- The attempt column's upper bound, report details, token counts and other columns that no rule depends on.
- Schema activation as the only writer of the deprecated status: no code deprecates a schema, so it is a step of the environment from active.
- Row-level security, request and response schemas, metrics, logging, configuration, deployment.
