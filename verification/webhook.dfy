/**
 * The `PUT /submission-callback` handler: write the judge's verdict to the
 * addressed test case, re-read the submission's test cases, finalise the
 * submission once none is pending, and upsert the contest score when the
 * submission belongs to an active contest.
 */
module Webhook {
  import opened Records
  import opened Aggregation
  import opened Tables

  /** A snapshot of the tables the handler touches. */
  datatype Db = Db(
    testCases: map<Id, TestCase>,
    submissions: map<Id, Submission>,
    contests: map<Id, Contest>,
    contestSubmissions: map<ContestKey, ContestSubmission>)

  datatype Delivery = Delivery(db: Db, reply: Reply)

  /** The unique constraints of the store: tracking ids are unique, every
      submission is stored under its own id, and every contest submission
      under its own (user, problem, contest). */
  ghost predicate Consistent(db: Db)
  {
    && TokensUnique(db.testCases)
    && (forall sid :: sid in db.submissions ==> db.submissions[sid].id == sid)
    && RowsMatchKeys(db.contestSubmissions)
  }

  /** The state and reply after one delivery, from the state before it.
      `parsed` says whether the payload passed validation. */
  ghost function Deliver(db: Db, parsed: bool, cb: Callback,
                         mapping: map<string, CaseStatus>, getPoints: PointsFn): (d: Delivery)
    requires Consistent(db)
    ensures Consistent(d.db)
    ensures d.db.contests == db.contests
    ensures d.db.testCases.Keys == db.testCases.Keys
    ensures forall id :: id in db.testCases ==>
      d.db.testCases[id].token == db.testCases[id].token &&
      d.db.testCases[id].submissionId == db.testCases[id].submissionId
  {
    if !parsed then Delivery(db, InvalidInput)
    else
      match Resolve(db.testCases, cb.token)
      case None => Delivery(db, NotFound)
      case Some(id) =>
        var tc := Graded(db.testCases[id], Mapped(mapping, cb.description), cb.time, cb.memory);
        var graded := db.(testCases := db.testCases[id := tc]);
        assert graded.testCases[id] == tc;
        assert tc in Siblings(graded.testCases, tc.submissionId);
        Finalise(graded, tc.submissionId, getPoints)
  }

  /** The aggregation over the test cases the store lists for a submission. */
  ghost function Verdict(tcs: map<Id, TestCase>, sid: Id): (o: Outcome)
    requires Siblings(tcs, sid) != {}
    ensures o.Final? ==> o.status != SubmissionStatus.PENDING
  {
    Derive(Enumerate(Siblings(tcs, sid)))
  }

  /** The store after a final outcome is written to the submission `sid`. */
  function WithVerdict(db: Db, sid: Id, o: Outcome): (r: Db)
    requires sid in db.submissions && o.Final?
    ensures r.testCases == db.testCases && r.contests == db.contests
    ensures r.contestSubmissions == db.contestSubmissions
    ensures Consistent(db) ==> Consistent(r)
  {
    db.(submissions := db.submissions[sid := Finalised(db.submissions[sid], o)])
  }

  /** Steps after the test-case write: aggregate the siblings and, when none
      is pending, write the submission and score it. */
  ghost function Finalise(db: Db, sid: Id, getPoints: PointsFn): (d: Delivery)
    requires Siblings(db.testCases, sid) != {}
    ensures Consistent(db) ==> Consistent(d.db)
    ensures d.db.testCases == db.testCases && d.db.contests == db.contests
  {
    var o := Verdict(db.testCases, sid);
    if o.StillPending? then Delivery(db, Received)
    else if sid !in db.submissions then Delivery(db, NotFound)
    else Score(WithVerdict(db, sid, o), sid, getPoints)
  }

  /** The contest step, after the submission `sid` has been written: upsert
      its points when it belongs to an active contest. */
  ghost function Score(db: Db, sid: Id, getPoints: PointsFn): (d: Delivery)
    requires sid in db.submissions
    ensures Consistent(db) ==> Consistent(d.db)
    ensures d.db.testCases == db.testCases && d.db.contests == db.contests
    ensures d.db.submissions == db.submissions
  {
    var s := db.submissions[sid];
    if !ContestActive(s, db.contests) then Delivery(db, Received)
    else
      var cid := s.activeContestId.value;
      match PointsOf(s, db.contests, getPoints)
      case None => Delivery(db, InternalError)
      case Some(p) =>
        var key := ContestKey(s.userId, s.problemId, cid);
        var row := ContestSubmission(s.id, s.userId, s.problemId, cid, p);
        Delivery(db.(contestSubmissions := Upsert(db.contestSubmissions, key, row, p)), Received)
  }

  /** The scoring function applied to the submission's contest, user,
      problem, difficulty and contest window. */
  function PointsOf(s: Submission, contests: map<Id, Contest>, getPoints: PointsFn): (p: Option<int>)
    requires ContestActive(s, contests)
    ensures var c := contests[s.activeContestId.value];
      p == getPoints(s.activeContestId.value, s.userId, s.problemId, s.difficulty, c.startTime, c.endTime)
  {
    var cid := s.activeContestId.value;
    getPoints(cid, s.userId, s.problemId, s.difficulty, contests[cid].startTime, contests[cid].endTime)
  }

  /** The store, one map per table. */
  class Store {
    var testCases: map<Id, TestCase>
    var submissions: map<Id, Submission>
    var contests: map<Id, Contest>
    var contestSubmissions: map<ContestKey, ContestSubmission>

    function Snapshot(): (db: Db)
      reads this
    {
      Db(testCases, submissions, contests, contestSubmissions)
    }

    ghost predicate Valid()
      reads this
    {
      Consistent(Snapshot())
    }

    constructor (db: Db)
      requires Consistent(db)
      ensures Valid() && Snapshot() == db
    {
      testCases := db.testCases;
      submissions := db.submissions;
      contests := db.contests;
      contestSubmissions := db.contestSubmissions;
    }

    /** Update by the unique tracking id; `None` when no test case carries it. */
    method UpdateTestCaseByToken(token: string, status: Option<CaseStatus>, time: nat, memory: nat)
      returns (updated: Option<TestCase>)
      requires Valid()
      modifies this`testCases
      ensures Valid()
      ensures match Resolve(old(testCases), token)
        case None => updated.None? && testCases == old(testCases)
        case Some(id) =>
          updated == Some(Graded(old(testCases)[id], status, time, memory)) &&
          testCases == old(testCases)[id := updated.value]
    {
      if exists id :: id in testCases && testCases[id].token == token {
        var id :| id in testCases && testCases[id].token == token;
        var tc := Graded(testCases[id], status, time, memory);
        testCases := testCases[id := tc];
        updated := Some(tc);
      } else {
        updated := None;
      }
    }

    /** Every test case owned by the submission, one row per record, in no
        particular order. */
    method FindTestCases(sid: Id) returns (rows: seq<TestCase>)
      ensures |rows| == |SiblingIds(testCases, sid)|
      ensures forall t :: t in rows <==> t in Siblings(testCases, sid)
    {
      rows := [];
      var rest := testCases.Keys;
      ghost var found: set<Id> := {};
      while rest != {}
        invariant rest <= testCases.Keys
        invariant forall x :: x in found <==> x in testCases && x !in rest && testCases[x].submissionId == sid
        invariant |rows| == |found|
        invariant forall t :: t in rows <==> exists x :: x in found && testCases[x] == t
        decreases rest
      {
        var id :| id in rest;
        rest := rest - {id};
        if testCases[id].submissionId == sid {
          assert id !in found;
          rows := rows + [testCases[id]];
          found := found + {id};
        }
      }
      assert found == SiblingIds(testCases, sid);
    }

    /** Write a final outcome to the submission; `None` when it does not exist. */
    method UpdateSubmission(sid: Id, o: Outcome) returns (updated: Option<Submission>)
      requires Valid() && o.Final?
      modifies this`submissions
      ensures Valid()
      ensures sid !in old(submissions) ==> updated.None? && submissions == old(submissions)
      ensures sid in old(submissions) ==>
        updated == Some(Finalised(old(submissions)[sid], o)) &&
        submissions == old(submissions)[sid := updated.value]
    {
      if sid in submissions {
        var s := Finalised(submissions[sid], o);
        submissions := submissions[sid := s];
        updated := Some(s);
      } else {
        updated := None;
      }
    }

    /** Upsert by (user, problem, contest). */
    method UpsertContestSubmission(key: ContestKey, create: ContestSubmission, points: int)
      requires Valid() && KeyOf(create) == key && create.points == points
      modifies this`contestSubmissions
      ensures Valid()
      ensures contestSubmissions == Upsert(old(contestSubmissions), key, create, points)
    {
      contestSubmissions := Upsert(contestSubmissions, key, create, points);
    }

    /** Aggregation, submission write and contest upsert, after the test case
        of the submission `sid` has been written. */
    method FinaliseSubmission(sid: Id, getPoints: PointsFn) returns (reply: Reply)
      requires Valid() && Siblings(testCases, sid) != {}
      modifies this`submissions, this`contestSubmissions
      ensures Valid()
      ensures Delivery(Snapshot(), reply) == Finalise(old(Snapshot()), sid, getPoints)
    {
      var rows := FindTestCases(sid);
      DeriveIgnoresOrder(rows, Enumerate(Siblings(testCases, sid)));
      assert Derive(rows) == Verdict(testCases, sid);
      var outcome := Derive(rows);
      if outcome.StillPending? {
        return Received;
      }
      var response := UpdateSubmission(sid, outcome);
      if response.None? {
        return NotFound;
      }
      reply := ScoreSubmission(sid, response.value, getPoints);
    }

    /** The contest step for the submission just written. */
    method ScoreSubmission(sid: Id, s: Submission, getPoints: PointsFn) returns (reply: Reply)
      requires Valid() && sid in submissions && submissions[sid] == s
      modifies this`contestSubmissions
      ensures Valid()
      ensures Delivery(Snapshot(), reply) == Score(old(Snapshot()), sid, getPoints)
    {
      if ContestActive(s, contests) {
        var cid := s.activeContestId.value;
        var points := PointsOf(s, contests, getPoints);
        if points.None? {
          return InternalError;
        }
        UpsertContestSubmission(ContestKey(s.userId, s.problemId, cid),
                                ContestSubmission(s.id, s.userId, s.problemId, cid, points.value),
                                points.value);
      }
      return Received;
    }

    /** The handler body, from the parsed payload to the reply. */
    method HandleCallback(parsed: bool, cb: Callback,
                          mapping: map<string, CaseStatus>, getPoints: PointsFn)
      returns (reply: Reply)
      requires Valid()
      modifies this`testCases, this`submissions, this`contestSubmissions
      ensures Valid()
      ensures Delivery(Snapshot(), reply) == Deliver(old(Snapshot()), parsed, cb, mapping, getPoints)
    {
      if !parsed {
        return InvalidInput;
      }
      var testCase := UpdateTestCaseByToken(cb.token, Mapped(mapping, cb.description), cb.time, cb.memory);
      if testCase.None? {
        return NotFound;
      }
      var sid := testCase.value.submissionId;
      ghost var id := Resolve(old(testCases), cb.token).value;
      assert testCases[id] == testCase.value;
      assert testCase.value in Siblings(testCases, sid);
      reply := FinaliseSubmission(sid, getPoints);
    }
  }
}
