# Submission-callback grading state machine

A Dafny model of the `PUT /submission-callback` handler of the submission
webhook (`apps/submission-webhook/src/index.ts`). The judging engine calls
this handler once per graded test case. The call carries the test case's
tracking token and the verdict: a status description, a time and a memory.

The handler runs in these steps:

1. It writes the verdict to the test case whose `judge0TrackingId` equals
   the token. The description is translated through the `outputMapping`
   table.
2. It re-reads every test case of that test case's submission.
3. If none is still `PENDING`, it finalises the submission:
   - the status is `AC` when every test case is `AC`, otherwise `REJECTED`;
   - the time and the memory are the largest over the test cases, an unset
     value counting as 0.
4. If the finalised submission has an active contest, it computes the
   points and upserts the single contest-submission row for
   (user, problem, contest).
5. It replies `Received`. A missing record ends the call with a not-found
   reply; any other failure ends it with an internal-error reply.

Files:

- `records.dfy` (module `Records`): the rows (test case, submission,
  contest, contest submission), the callback payload and the replies.
- `aggregation.dfy` (module `Aggregation`): the pure decision.
  - `PendingCases` and `FailedCases` are the two filters.
  - `Max` is `Math.max` over the mapped costs.
  - `Derive` gives `StillPending` or `Final(status, time, memory)`.
- `tables.dfy` (module `Tables`): each table operation as a function from the
  old table to the new one:
  - look up the test case by its unique token and write the verdict;
  - list the test cases of one submission;
  - write the submission;
  - upsert by the composite key.
- `webhook.dfy` (module `Webhook`):
  - `Deliver` is the specification of one call, as a state-to-state
    function over a snapshot `Db` of the tables.
  - `Store` is a class with one map field per table.
  - `Store.HandleCallback` and its helper methods change those fields step
    by step. `HandleCallback` is proved to produce exactly the state and
    reply that `Deliver` gives.
- `properties.dfy` (module `CallbackProperties`): what one delivery does,
  proved about `Deliver`. It also proves that two verdicts for different
  test cases of one submission leave the same test cases in either order, and
  the same store when no case of the submission is left pending.

The model has these external inputs:

- `parsed`: the outcome of payload validation.
- `mapping`: the contents of `outputMapping`.
- `getPoints`: the scoring function. It returns `None` when the call throws.

## Model

| member | source | states |
|---|---|---|
| `Records.CostOf` | apps/submission-webhook/src/index.ts:59-62 | an unset time or memory reads as 0 (`x \|\| 0`), a set one as its own value |
| `Aggregation.PendingCases` | apps/submission-webhook/src/index.ts:43-45 | keeps exactly the test cases whose status is `PENDING` |
| `Aggregation.FailedCases` | apps/submission-webhook/src/index.ts:46-48 | keeps exactly the test cases whose status is not `AC` |
| `Aggregation.Max` | apps/submission-webhook/src/index.ts:58-63 | the result is one of the values and no value exceeds it |
| `Aggregation.Derive` | apps/submission-webhook/src/index.ts:43-63 | pending iff some case is `PENDING`. When final: never `PENDING`; `AC` iff every case is `AC`; time and memory bound every case's unset-as-0 value and equal one of them |
| `Aggregation.Times` | apps/submission-webhook/src/index.ts:59 | one time per listed case, in the listed order, each the case's unset-as-0 time |
| `Aggregation.Memories` | apps/submission-webhook/src/index.ts:62 | one memory per listed case, in the listed order, each the case's unset-as-0 memory |
| `Aggregation.DeriveIgnoresOrder` | apps/submission-webhook/src/index.ts:37-41 | the outcome depends only on which test cases were read, not on their order or repetition |
| `Tables.Resolve` | apps/submission-webhook/src/index.ts:20-23 | finds the one test case that carries the token. `None` exactly when no test case carries it |
| `Tables.Mapped` | apps/submission-webhook/src/index.ts:25 | an unmapped description yields no status (`undefined`, which leaves the column alone); a mapped one yields the mapping's entry. The delivery-level effect is stated by `CallbackProperties.OnlyAddressedCaseChanges` |
| `Tables.Graded` | apps/submission-webhook/src/index.ts:24-28 | the written test case keeps its submission and token, takes the mapped status or keeps its old one, and gets the reported time and memory |
| `Tables.Finalised` | apps/submission-webhook/src/index.ts:56-64 | the written submission keeps every field the contest step reads (id, user, problem, difficulty, contest) and takes the outcome's status, time and memory |
| `Tables.FinalisedOverwrites` | apps/submission-webhook/src/index.ts:52-64 | a later finalisation overwrites everything an earlier one wrote, which is why a late verdict wins whatever was finalised before it |
| `Tables.ContestActive` | apps/submission-webhook/src/index.ts:71 | no contest id, and the empty id (falsy in JavaScript), never count as an active contest; an active contest exists in the contest table |
| `Tables.Upsert` | apps/submission-webhook/src/index.ts:81-99 | the key is present afterwards and holds the new points. An absent key gets the created row; an existing row keeps its submissionId and key. Other rows are unchanged, the row count grows by at most one, and every row stays under its own key |
| `Tables.UpsertIsIdempotent` | apps/submission-webhook/src/index.ts:81-99 | repeating an upsert with the same row and points leaves the table as the first upsert left it |
| `Webhook.Deliver` | apps/submission-webhook/src/index.ts:10-119 | one delivery keeps tokens unique, every submission under its own id and one row per contest key. It leaves contests, test-case ids, tokens and owners unchanged |
| `Webhook.Verdict` | apps/submission-webhook/src/index.ts:37-63 | the aggregation over the submission's test cases as the store lists them never finalises to `PENDING`; `CallbackProperties.CompleteIsFinal` and `CallbackProperties.PendingCaseBlocksFinalisation` state when it is final |
| `Webhook.WithVerdict` | apps/submission-webhook/src/index.ts:52-64 | writing the outcome touches only the submission table and keeps the store's unique constraints |
| `Webhook.Finalise` | apps/submission-webhook/src/index.ts:43-101 | finalisation and scoring keep the store's unique constraints and do not touch test cases or contests |
| `Webhook.Score` | apps/submission-webhook/src/index.ts:71-100 | scoring changes at most the contest-submission table, keeping one row per key; its three outcomes are stated by `CallbackProperties.ScoreReplies` |
| `Webhook.PointsOf` | apps/submission-webhook/src/index.ts:72-79 | the scoring function receives the contest id, user, problem, difficulty and the contest's start and end, in that order |
| `CallbackProperties.PointsReadOnlyScoringFields` | apps/submission-webhook/src/index.ts:71-79 | two submissions that agree on contest, user, problem and difficulty are scored alike, so the verdict just written (status, time, memory) does not reach the scorer |
| `Webhook.Store.UpdateTestCaseByToken` | apps/submission-webhook/src/index.ts:20-29 | a missing token changes nothing and yields `None`. Otherwise only the addressed entry is replaced, by the graded row, which is returned |
| `Webhook.Store.FindTestCases` | apps/submission-webhook/src/index.ts:37-41 | one row per test case of the submission, and exactly those test cases |
| `Webhook.Store.UpdateSubmission` | apps/submission-webhook/src/index.ts:52-69 | a missing submission changes nothing and yields `None`. Otherwise only that entry is replaced, by the finalised row, which is returned |
| `Webhook.Store.UpsertContestSubmission` | apps/submission-webhook/src/index.ts:81-99 | the table becomes the upsert of the old table and keeps one row per key |
| `Webhook.Store.ScoreSubmission` | apps/submission-webhook/src/index.ts:71-100 | the new contest table and the reply are those of `Score` |
| `Webhook.Store.FinaliseSubmission` | apps/submission-webhook/src/index.ts:37-101 | the new tables and the reply are those of `Finalise`, whatever order the store lists the test cases in |
| `Webhook.Store.HandleCallback` | apps/submission-webhook/src/index.ts:10-119 | the new tables and the reply are those of `Deliver` |
| `CallbackProperties.UnresolvedDeliveryChangesNothing` | apps/submission-webhook/src/index.ts:13-35 | an invalid payload gives `InvalidInput`, and a token no test case carries gives `NotFound`. Both leave every table unchanged |
| `CallbackProperties.OnlyAddressedCaseChanges` | apps/submission-webhook/src/index.ts:20-29 | only the addressed test case changes. Its status becomes the mapped status (unchanged for an unmapped description), and its time and memory are set. Its owner and token stay |
| `CallbackProperties.PendingCaseBlocksFinalisation` | apps/submission-webhook/src/index.ts:43-103 | while a case of the submission is pending after the write, submissions and contest submissions are untouched and the reply is `Received` |
| `CallbackProperties.CompleteSiblingsGiveFinalVerdict` | apps/submission-webhook/src/index.ts:46-63 | with no pending case, the outcome is final. The submission is `AC` iff all cases are `AC`, otherwise `REJECTED`, with the max time and memory |
| `CallbackProperties.FinaliseWritesVerdict` | apps/submission-webhook/src/index.ts:50-69 | finalising a submission with no pending case writes the verdict of its test cases to it, keeps the other submissions and removes none |
| `CallbackProperties.CompleteIsFinal` | apps/submission-webhook/src/index.ts:43-50 | with no pending test case the aggregation is final |
| `CallbackProperties.CompleteSubmissionIsFinalised` | apps/submission-webhook/src/index.ts:50-69 | with no pending case after the write, an existing submission gets that verdict and no other submission changes |
| `CallbackProperties.ScoreWritesOnlyItsRow` | apps/submission-webhook/src/index.ts:71-99 | scoring writes only for an active contest, only the submission's own row, with the computed points; a created row names the submission by its id. The converse is `CallbackProperties.ScoreReplies` |
| `CallbackProperties.ScoreReplies` | apps/submission-webhook/src/index.ts:71-103 | no active contest: `Received` and nothing written; a throwing scoring function: `InternalError` and nothing written; otherwise `Received` and the (user, problem, contest) row holds the points, a new row naming the submission |
| `CallbackProperties.FinaliseWritesOnlyItsRow` | apps/submission-webhook/src/index.ts:50-100 | a contest write needs a final outcome, an existing submission and an active contest, and touches only that submission's row |
| `CallbackProperties.ContestWriteOnlyForActiveContest` | apps/submission-webhook/src/index.ts:71-100 | a delivery writes a contest submission only when the submission is complete and has an active contest. It touches only that submission's (user, problem, contest) row. The converse is `CallbackProperties.ActiveContestIsScored` |
| `CallbackProperties.MissingSubmissionGivesNotFound` | apps/submission-webhook/src/index.ts:52-110 | a complete delivery for a submission that does not exist replies `NotFound`; the test-case write stays and nothing else changes |
| `CallbackProperties.NoActiveContestSkipsScoring` | apps/submission-webhook/src/index.ts:71-103 | a complete delivery for a submission without an active contest replies `Received` and writes no contest submission |
| `CallbackProperties.ThrowingScoreGivesInternalError` | apps/submission-webhook/src/index.ts:72-117 | a complete delivery whose scoring function throws replies `InternalError`, writes no contest submission, and the submission keeps its verdict |
| `CallbackProperties.ActiveContestIsScored` | apps/submission-webhook/src/index.ts:71-103 | a complete delivery for a submission with an active contest and points `p` replies `Received`; its (user, problem, contest) row then holds `p`, and a newly created row names the submission |
| `CallbackProperties.FinaliseKeepsFinalSubmissions` | apps/submission-webhook/src/index.ts:52-64 | finalisation writes at most the one submission, never with `PENDING`, removes none and never changes a submission's id, user, problem, difficulty or contest |
| `CallbackProperties.FinalisedSubmissionStaysFinal` | apps/submission-webhook/src/index.ts:50-69 | no delivery re-opens a finalised submission, writes `PENDING` or removes a submission, and only the submission owning the addressed test case can change |
| `CallbackProperties.RedeliveryIsIdempotent` | apps/submission-webhook/src/index.ts:20-99 | delivering the same verdict again, scored by the same function, leaves the same tables and reply as delivering it once |
| `CallbackProperties.FinaliseIsIdempotent` | apps/submission-webhook/src/index.ts:43-99 | finalising twice from the same test cases, with the same scoring function, equals finalising once |
| `CallbackProperties.ScoreIsIdempotent` | apps/submission-webhook/src/index.ts:71-99 | scoring the same submission twice with the same scoring function equals scoring it once |
| `CallbackProperties.FinaliseAbsorbs` | apps/submission-webhook/src/index.ts:43-99 | a finalisation from complete test cases ends where it would have ended had no earlier finalisation of the submission run under the same scoring function |
| `CallbackProperties.DeliveriesCommute` | apps/submission-webhook/src/index.ts:20-99 | two verdicts for different test cases of one submission leave the same test cases in either order, and, under one scoring function, the same store once no case of the submission is pending |
| `CallbackProperties.FinaliseAgainRescoresOnly` | apps/submission-webhook/src/index.ts:43-99 | finalising again, under any scoring function, keeps the test cases, submissions and contests the first finalisation left; only contest submissions can differ |
| `CallbackProperties.LateRedeliveryKeepsVerdict` | apps/submission-webhook/src/index.ts:20-99 | a repeated delivery, whatever its scoring function returns, leaves the test cases and submissions as the first delivery left them |
| `CallbackProperties.LateRedeliveryTakesLatePoints` | apps/submission-webhook/src/index.ts:71-99 | a repeated delivery of a complete submission with an active contest re-scores it: the (user, problem, contest) row then holds the points the later scoring function returns |

## Left out

- Express setup, the JSON middleware and `app.listen` (lines 7-8, 121) are transport plumbing and are not modelled.
- The payload schema lives in another package and is not part of this model. Its validation (lines 11-17) is the boolean `parsed`: `false` gives `InvalidInput` and changes nothing.
- Logging through `console.error` is not modelled.
- The model is sequential: one delivery at a time. Concurrent deliveries are not modelled. Neither is a record vanishing between the update and the re-read (the race the comment at line 106 mentions).
- Prisma's `P2025` exception is modelled as a `None` result of the table operation that found no record.
  - A missing test case gives `NotFound` with nothing written.
  - A missing submission gives `NotFound` after the test case was already written. The handler has no rollback.
- The `if (!testCase)` test at line 31 is covered by the same `NotFound` path, since an update by unique key either returns the row or throws.
- Other storage failures, such as connectivity, are not modelled. In the model `InternalError` arises only from a throwing `getPoints`.
  - A `getPoints` failure that carries Prisma's `P2025` code would in fact be answered `NotFound`; the model maps every `getPoints` failure to `InternalError`.
- `./points` (`getPoints`) is not part of this model. It is the opaque parameter `getPoints`, applied to the contest id, user, problem, difficulty and contest window. Any clock it reads is folded into that function.
- CallbackProperties.RedeliveryIsIdempotent, CallbackProperties.FinaliseIsIdempotent, CallbackProperties.ScoreIsIdempotent, CallbackProperties.FinaliseAbsorbs and CallbackProperties.DeliveriesCommute assume the scoring function returns the same result at both deliveries. The handler calls `getPoints` again on every complete delivery (lines 72-79) and its update clause overwrites the row's points (lines 96-98), so a scorer that reads the clock gives a late duplicate delivery different points. `CallbackProperties.LateRedeliveryKeepsVerdict` and `CallbackProperties.LateRedeliveryTakesLatePoints` state that general case: the test cases and submissions stay as they were, and the contest row takes the later points.
- `./outputMapping` is not part of this model. It is the parameter `mapping`.
  - An unmapped description evaluates to `undefined`. Prisma treats `undefined` as "leave the column as it is", so the test case's status is not written, while its time and memory are.
  - The handler does not reject an unknown description, and the model does not claim it does.
- Time and memory are naturals. `Number(...)` coercion, floating point, NaN and strings as times are not modelled. `testcase.time || "0"` is read as "unset counts as 0".
- `Aggregation.Derive` requires a non-empty list of test cases. `Math.max()` with no arguments is `-Infinity`, which the handler cannot reach: the test case just written always belongs to the re-read list, and `Store.HandleCallback` proves this before calling it.
- The included `problem` relation is not a separate table. Its `difficulty` is a field of the submission row.
- `Tables.Upsert` follows the code, whose update clause sets only `points`. An existing contest-submission row keeps the `submissionId` of the submission that created it; only the points follow the latest finalisation.
- `CallbackProperties.DeliveriesCommute` covers two test cases of the same submission. Two submissions of the same user and problem in the same contest share one contest-submission row. Their deliveries do not commute: whichever scores first creates the row and names itself in it, and the model does not claim otherwise.
- `CallbackProperties.DeliveriesCommute` does not claim that deliveries commute in general. A late verdict whose description maps to `PENDING` re-opens its test case, and the submission's final state then depends on delivery order. Example: cases a and b of one submission are both `AC`, and the callbacks are "a is ok" and "b is being processed". In the order a then b, the submission is finalised `AC` and stays so. In the order b then a, it stays `PENDING`. Two verdicts for the same test case do not commute either: the last write wins (lines 20-29). So the result is independent of delivery order only when the last delivery leaves no case of the submission pending.
- Submissions are keyed by their `id`, so the store invariant requires each submission row's `id` to equal its key. The handler relies on the same fact when it writes `response.id` into a new contest-submission row.
