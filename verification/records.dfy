/**
 * The records the submission-callback handler reads and writes: test cases,
 * submissions, contests and contest submissions, and the judge's callback
 * payload.  Identifiers are opaque strings; times and memory are naturals.
 */
module Records {

  type Id = string

  datatype Option<+T> = None | Some(value: T)

  /** Internal status of one test case.  `Other` stands for every member of the
      test-case result vocabulary besides `PENDING` and `AC` (wrong answer,
      time limit, compilation error, ...): the handler only ever compares a
      status with those two. */
  datatype CaseStatus = PENDING | AC | Other(code: string)

  /** Status of a submission: created `PENDING`, finalised to `AC` or `REJECTED`. */
  datatype SubmissionStatus = PENDING | AC | REJECTED

  /** A test case row (its id is the key of the test-case table). */
  datatype TestCase = TestCase(
    submissionId: Id,
    token: string,            // the judge's tracking id, unique over all test cases
    status: CaseStatus,
    time: Option<nat>,        // unset until the judge reports
    memory: Option<nat>)

  /** A submission row together with the relations the handler includes:
      the difficulty of its problem and its optional active contest id. */
  datatype Submission = Submission(
    id: Id,
    userId: Id,
    problemId: Id,
    difficulty: string,
    activeContestId: Option<Id>,
    status: SubmissionStatus,
    time: Option<nat>,
    memory: Option<nat>)

  /** A contest row; only its window is read. */
  datatype Contest = Contest(startTime: int, endTime: int)

  /** The composite unique key of the contest-submission table. */
  datatype ContestKey = ContestKey(userId: Id, problemId: Id, contestId: Id)

  datatype ContestSubmission = ContestSubmission(
    submissionId: Id,
    userId: Id,
    problemId: Id,
    contestId: Id,
    points: int)

  /** The judge's callback payload once it has been parsed. */
  datatype Callback = Callback(token: string, description: string, time: nat, memory: nat)

  /** What the handler answers. */
  datatype Reply = Received | InvalidInput | NotFound | InternalError

  /** The external scoring function, applied to (contestId, userId, problemId,
      difficulty, contest start, contest end); `None` stands for a call that
      throws. */
  type PointsFn = (Id, Id, Id, string, int, int) -> Option<int>

  /** The unset-as-zero reading of an optional time or memory (`x || 0`). */
  function CostOf(x: Option<nat>): (n: nat)
    ensures x.None? ==> n == 0
    ensures x.Some? ==> n == x.value
  {
    if x.Some? then x.value else 0
  }
}
