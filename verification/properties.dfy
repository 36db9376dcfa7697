/**
 * What one delivery of a judge verdict does to the store, stated about the
 * specification `Deliver` that the handler method is proved to implement.
 */
module CallbackProperties {
  import opened Records
  import opened Aggregation
  import opened Tables
  import opened Webhook

  /** The listing the aggregation reads holds exactly the submission's test cases. */
  lemma ListedSiblings(tcs: map<Id, TestCase>, sid: Id)
    ensures forall k :: k in tcs && tcs[k].submissionId == sid ==> tcs[k] in Enumerate(Siblings(tcs, sid))
    ensures forall t :: t in Enumerate(Siblings(tcs, sid)) ==>
      exists k :: k in tcs && tcs[k].submissionId == sid && tcs[k] == t
  {
  }

  /** A delivery whose tracking id is carried by `id` writes the verdict to
      `id` and then finalises that test case's submission. */
  lemma DeliverResolved(db: Db, cb: Callback, mapping: map<string, CaseStatus>,
                        getPoints: PointsFn, id: Id)
    requires Consistent(db)
    requires id in db.testCases && db.testCases[id].token == cb.token
    ensures var tc := Graded(db.testCases[id], Mapped(mapping, cb.description), cb.time, cb.memory);
      var graded := db.(testCases := db.testCases[id := tc]);
      && Consistent(graded)
      && Siblings(graded.testCases, tc.submissionId) != {}
      && Deliver(db, true, cb, mapping, getPoints) == Finalise(graded, tc.submissionId, getPoints)
  {
    assert Resolve(db.testCases, cb.token) == Some(id);
    var tc := Graded(db.testCases[id], Mapped(mapping, cb.description), cb.time, cb.memory);
    var graded := db.(testCases := db.testCases[id := tc]);
    assert graded.testCases[id] == tc;
    assert tc in Siblings(graded.testCases, tc.submissionId);
  }

  /** A rejected payload, or a tracking id that no test case carries, ends the
      call without writing any table. */
  lemma UnresolvedDeliveryChangesNothing(db: Db, parsed: bool, cb: Callback,
                                         mapping: map<string, CaseStatus>, getPoints: PointsFn)
    requires Consistent(db)
    requires !parsed || forall id :: id in db.testCases ==> db.testCases[id].token != cb.token
    ensures Deliver(db, parsed, cb, mapping, getPoints).db == db
    ensures Deliver(db, parsed, cb, mapping, getPoints).reply == if parsed then NotFound else InvalidInput
  {
  }

  /** The verdict is written to the one test case carrying the tracking id,
      and to nothing else of the test-case table. */
  lemma OnlyAddressedCaseChanges(db: Db, cb: Callback, mapping: map<string, CaseStatus>,
                                 getPoints: PointsFn, id: Id)
    requires Consistent(db)
    requires id in db.testCases && db.testCases[id].token == cb.token
    ensures var after := Deliver(db, true, cb, mapping, getPoints).db.testCases;
      && after.Keys == db.testCases.Keys
      && (forall k :: k in db.testCases && k != id ==> after[k] == db.testCases[k])
      && after[id].submissionId == db.testCases[id].submissionId
      && after[id].token == cb.token
      && after[id].status == (if cb.description in mapping then mapping[cb.description]
                              else db.testCases[id].status)
      && after[id].time == Some(cb.time)
      && after[id].memory == Some(cb.memory)
  {
  }

  /** While any test case of the submission is pending after the write, the
      submission and contest tables are left alone and the judge still gets
      `Received`. */
  lemma PendingCaseBlocksFinalisation(db: Db, cb: Callback, mapping: map<string, CaseStatus>,
                                      getPoints: PointsFn, id: Id, pending: Id)
    requires Consistent(db)
    requires id in db.testCases && db.testCases[id].token == cb.token
    ensures var d := Deliver(db, true, cb, mapping, getPoints);
      pending in d.db.testCases &&
      d.db.testCases[pending].submissionId == db.testCases[id].submissionId &&
      d.db.testCases[pending].status == CaseStatus.PENDING
      ==>
      d.reply == Received &&
      d.db.submissions == db.submissions &&
      d.db.contestSubmissions == db.contestSubmissions
  {
    DeliverResolved(db, cb, mapping, getPoints, id);
    var tc := Graded(db.testCases[id], Mapped(mapping, cb.description), cb.time, cb.memory);
    var graded := db.(testCases := db.testCases[id := tc]);
    var sid := tc.submissionId;
    FinaliseUnfolds(graded, sid, getPoints);
    var tcs := graded.testCases;
    if pending in tcs && tcs[pending].submissionId == sid && tcs[pending].status == CaseStatus.PENDING {
      assert tcs[pending] in Siblings(tcs, sid);
      assert tcs[pending] in Enumerate(Siblings(tcs, sid));
    }
  }

  /** No test case of the submission `sid` is pending. */
  ghost predicate Complete(tcs: map<Id, TestCase>, sid: Id)
  {
    forall k :: k in tcs && tcs[k].submissionId == sid ==> tcs[k].status != CaseStatus.PENDING
  }

  /** `s` carries the verdict of the test cases of `sid`: `AC` exactly when
      every one is `AC`, `REJECTED` otherwise, and the largest time and memory
      among them (unset read as 0). */
  ghost predicate IsFinalVerdict(tcs: map<Id, TestCase>, sid: Id, s: Submission)
  {
    && (s.status == SubmissionStatus.AC || s.status == SubmissionStatus.REJECTED)
    && (s.status == SubmissionStatus.AC <==>
          forall k :: k in tcs && tcs[k].submissionId == sid ==> tcs[k].status == CaseStatus.AC)
    && s.time.Some? && s.memory.Some?
    && (forall k :: k in tcs && tcs[k].submissionId == sid ==>
          CostOf(tcs[k].time) <= s.time.value && CostOf(tcs[k].memory) <= s.memory.value)
    && (exists k :: k in tcs && tcs[k].submissionId == sid && CostOf(tcs[k].time) == s.time.value)
    && (exists k :: k in tcs && tcs[k].submissionId == sid && CostOf(tcs[k].memory) == s.memory.value)
  }

  /** With no pending test case left, the aggregation is final and carries
      the verdict of the submission's test cases. */
  lemma CompleteSiblingsGiveFinalVerdict(tcs: map<Id, TestCase>, sid: Id, s: Submission)
    requires Siblings(tcs, sid) != {} && Complete(tcs, sid)
    ensures Verdict(tcs, sid).Final?
    ensures IsFinalVerdict(tcs, sid, Finalised(s, Verdict(tcs, sid)))
  {
    var rows := Enumerate(Siblings(tcs, sid));
    ListedSiblings(tcs, sid);
    CompleteIsFinal(tcs, sid);
    var o := Verdict(tcs, sid);
    var i :| 0 <= i < |rows| && o.time == CostOf(rows[i].time);
    var j :| 0 <= j < |rows| && o.memory == CostOf(rows[j].memory);
    assert rows[i] in rows && rows[j] in rows;
    if o.status != SubmissionStatus.AC {
      var f :| 0 <= f < |rows| && rows[f].status != CaseStatus.AC;
      assert rows[f] in rows;
    }
  }

  /** With no pending test case left, the aggregation is final. */
  lemma CompleteIsFinal(tcs: map<Id, TestCase>, sid: Id)
    requires Siblings(tcs, sid) != {} && Complete(tcs, sid)
    ensures Verdict(tcs, sid).Final?
  {
    var rows := Enumerate(Siblings(tcs, sid));
    ListedSiblings(tcs, sid);
    forall i | 0 <= i < |rows| ensures rows[i].status != CaseStatus.PENDING {
      assert rows[i] in rows;
    }
  }

  /** Finalising a submission none of whose test cases is pending writes the
      verdict of its test cases to that submission alone. */
  lemma FinaliseWritesVerdict(db: Db, sid: Id, getPoints: PointsFn)
    requires Siblings(db.testCases, sid) != {} && sid in db.submissions
    requires Complete(db.testCases, sid)
    ensures var after := Finalise(db, sid, getPoints).db.submissions;
      && after.Keys == db.submissions.Keys
      && (forall s :: s in db.submissions && s != sid ==> after[s] == db.submissions[s])
      && IsFinalVerdict(db.testCases, sid, after[sid])
  {
    CompleteSiblingsGiveFinalVerdict(db.testCases, sid, db.submissions[sid]);
    FinaliseUnfolds(db, sid, getPoints);
    VerdictWritesOneSubmission(db, sid, Verdict(db.testCases, sid));
  }

  /** Writing an outcome replaces the one submission and keeps the others. */
  lemma VerdictWritesOneSubmission(db: Db, sid: Id, o: Outcome)
    requires sid in db.submissions && o.Final?
    ensures var after := WithVerdict(db, sid, o).submissions;
      && after.Keys == db.submissions.Keys
      && (forall s :: s in db.submissions && s != sid ==> after[s] == db.submissions[s])
      && after[sid] == Finalised(db.submissions[sid], o)
  {
  }

  /** Once no test case of the submission is pending after the write, an
      existing submission receives the verdict of its test cases and no other
      submission changes. */
  lemma CompleteSubmissionIsFinalised(db: Db, cb: Callback, mapping: map<string, CaseStatus>,
                                      getPoints: PointsFn, id: Id)
    requires Consistent(db)
    requires id in db.testCases && db.testCases[id].token == cb.token
    ensures var d := Deliver(db, true, cb, mapping, getPoints);
      var tcs := d.db.testCases;
      var sid := db.testCases[id].submissionId;
      Complete(tcs, sid) && sid in db.submissions
      ==>
      && d.db.submissions.Keys == db.submissions.Keys
      && (forall s :: s in db.submissions && s != sid ==> d.db.submissions[s] == db.submissions[s])
      && IsFinalVerdict(tcs, sid, d.db.submissions[sid])
  {
    DeliverResolved(db, cb, mapping, getPoints, id);
    var tc := Graded(db.testCases[id], Mapped(mapping, cb.description), cb.time, cb.memory);
    var graded := db.(testCases := db.testCases[id := tc]);
    var sid := tc.submissionId;
    var tcs := graded.testCases;
    if Complete(tcs, sid) && sid in db.submissions {
      FinaliseWritesVerdict(graded, sid, getPoints);
    }
  }

  /** `cs'` differs from `cs` at most in the row of the submission's (user,
      problem, contest): a new row names this submission, an existing row
      keeps the submission it names, and a written row holds the points the
      scoring function returned. */
  ghost predicate ScoredRow(cs: map<ContestKey, ContestSubmission>, cs': map<ContestKey, ContestSubmission>,
                            sid: Id, s: Submission, contests: map<Id, Contest>, getPoints: PointsFn)
    requires ContestActive(s, contests)
  {
    var cid := s.activeContestId.value;
    var key := ContestKey(s.userId, s.problemId, cid);
    && (forall k :: k in cs && k != key ==> k in cs' && cs'[k] == cs[k])
    && cs'.Keys <= cs.Keys + {key}
    && (key in cs' && key in cs ==> cs'[key].submissionId == cs[key].submissionId)
    && (key in cs' && key !in cs ==> cs'[key].submissionId == sid)
    && (cs' != cs ==> key in cs' && PointsOf(s, contests, getPoints) == Some(cs'[key].points))
  }

  /** Scoring writes only for an active contest, and only the submission's own row. */
  lemma ScoreWritesOnlyItsRow(db: Db, sid: Id, getPoints: PointsFn)
    requires Consistent(db) && sid in db.submissions
    ensures var d := Score(db, sid, getPoints);
      d.db.contestSubmissions != db.contestSubmissions ==>
        d.reply == Received && ContestActive(db.submissions[sid], db.contests)
    ensures ContestActive(db.submissions[sid], db.contests) ==>
      ScoredRow(db.contestSubmissions, Score(db, sid, getPoints).db.contestSubmissions,
                sid, db.submissions[sid], db.contests, getPoints)
  {
    var s := db.submissions[sid];
    if ContestActive(s, db.contests) {
      var cid := s.activeContestId.value;
      var points := PointsOf(s, db.contests, getPoints);
      if points.Some? {
        var key := ContestKey(s.userId, s.problemId, cid);
        var row := ContestSubmission(s.id, s.userId, s.problemId, cid, points.value);
        assert Score(db, sid, getPoints).db.contestSubmissions
            == Upsert(db.contestSubmissions, key, row, points.value);
      }
    }
  }

  /** The scoring function sees only the submission's contest, user, problem
      and difficulty: its status, time and memory cannot change the points. */
  lemma PointsReadOnlyScoringFields(s: Submission, t: Submission, contests: map<Id, Contest>,
                                    getPoints: PointsFn)
    requires SameScoring(s, t) && ContestActive(s, contests)
    ensures ContestActive(t, contests)
    ensures PointsOf(s, contests, getPoints) == PointsOf(t, contests, getPoints)
  {
  }

  /** `ScoredRow` reads only the fields of the submission that scoring reads. */
  lemma ScoredRowDependsOnScoringFields(cs: map<ContestKey, ContestSubmission>, cs': map<ContestKey, ContestSubmission>,
                                        sid: Id, s: Submission, t: Submission,
                                        contests: map<Id, Contest>, getPoints: PointsFn)
    requires SameScoring(s, t) && ContestActive(s, contests)
    ensures ContestActive(t, contests)
    ensures ScoredRow(cs, cs', sid, s, contests, getPoints) == ScoredRow(cs, cs', sid, t, contests, getPoints)
  {
  }

  /** Finalisation writes a contest row only for a final outcome of an
      existing submission with an active contest. */
  lemma FinaliseWritesOnlyItsRow(db: Db, sid: Id, getPoints: PointsFn)
    requires Consistent(db) && Siblings(db.testCases, sid) != {}
    ensures var d := Finalise(db, sid, getPoints);
      d.db.contestSubmissions != db.contestSubmissions ==>
        && d.reply == Received
        && sid in db.submissions
        && ContestActive(db.submissions[sid], db.contests)
        && Verdict(db.testCases, sid).Final?
    ensures sid in db.submissions && ContestActive(db.submissions[sid], db.contests) ==>
      ScoredRow(db.contestSubmissions, Finalise(db, sid, getPoints).db.contestSubmissions,
                sid, db.submissions[sid], db.contests, getPoints)
  {
    FinaliseUnfolds(db, sid, getPoints);
    var o := Verdict(db.testCases, sid);
    if o.Final? && sid in db.submissions {
      var written := WithVerdict(db, sid, o);
      ScoreWritesOnlyItsRow(written, sid, getPoints);
      if ContestActive(db.submissions[sid], db.contests) {
        ScoredRowDependsOnScoringFields(db.contestSubmissions, Score(written, sid, getPoints).db.contestSubmissions,
                                        sid, written.submissions[sid], db.submissions[sid], db.contests, getPoints);
      }
    }
  }

  /** A contest-submission write happens only when the submission is
      complete and has an active contest, and then touches only its own row. */
  lemma ContestWriteOnlyForActiveContest(db: Db, cb: Callback, mapping: map<string, CaseStatus>,
                                         getPoints: PointsFn, id: Id)
    requires Consistent(db)
    requires id in db.testCases && db.testCases[id].token == cb.token
    ensures var d := Deliver(db, true, cb, mapping, getPoints);
      var sid := db.testCases[id].submissionId;
      d.db.contestSubmissions != db.contestSubmissions ==>
        && d.reply == Received
        && sid in db.submissions
        && ContestActive(db.submissions[sid], db.contests)
        && Complete(d.db.testCases, sid)
    ensures var sid := db.testCases[id].submissionId;
      sid in db.submissions && ContestActive(db.submissions[sid], db.contests) ==>
        ScoredRow(db.contestSubmissions, Deliver(db, true, cb, mapping, getPoints).db.contestSubmissions,
                  sid, db.submissions[sid], db.contests, getPoints)
  {
    DeliverResolved(db, cb, mapping, getPoints, id);
    var tc := Graded(db.testCases[id], Mapped(mapping, cb.description), cb.time, cb.memory);
    var graded := db.(testCases := db.testCases[id := tc]);
    var sid := tc.submissionId;
    FinaliseWritesOnlyItsRow(graded, sid, getPoints);
    ListedSiblings(graded.testCases, sid);
  }

  /** The three outcomes of the contest step for a written submission: no
      active contest replies `Received` and writes nothing; a throwing scoring
      function replies `InternalError` and writes nothing; otherwise the
      submission's (user, problem, contest) row holds the points, a new row
      names the submission, and the reply is `Received`. */
  lemma ScoreReplies(db: Db, sid: Id, getPoints: PointsFn)
    requires Consistent(db) && sid in db.submissions
    ensures var s := db.submissions[sid];
      !ContestActive(s, db.contests) ==> Score(db, sid, getPoints) == Delivery(db, Received)
    ensures var s := db.submissions[sid];
      ContestActive(s, db.contests) && PointsOf(s, db.contests, getPoints).None? ==>
        Score(db, sid, getPoints) == Delivery(db, InternalError)
    ensures var s := db.submissions[sid];
      var d := Score(db, sid, getPoints);
      ContestActive(s, db.contests) && PointsOf(s, db.contests, getPoints).Some? ==>
        var key := ContestKey(s.userId, s.problemId, s.activeContestId.value);
        && d.reply == Received
        && key in d.db.contestSubmissions
        && d.db.contestSubmissions[key].points == PointsOf(s, db.contests, getPoints).value
        && (key !in db.contestSubmissions ==> d.db.contestSubmissions[key].submissionId == sid)
  {
  }

  /** Once no test case of the submission is pending after the write, the
      delivery answers `NotFound` for a missing submission and otherwise writes
      the verdict and scores the submission. */
  lemma CompleteDeliveryUnfolds(db: Db, cb: Callback, mapping: map<string, CaseStatus>,
                                getPoints: PointsFn, id: Id)
    requires Consistent(db)
    requires id in db.testCases && db.testCases[id].token == cb.token
    requires var tc := Graded(db.testCases[id], Mapped(mapping, cb.description), cb.time, cb.memory);
      Complete(db.testCases[id := tc], tc.submissionId)
    ensures var tc := Graded(db.testCases[id], Mapped(mapping, cb.description), cb.time, cb.memory);
      var graded := db.(testCases := db.testCases[id := tc]);
      var sid := tc.submissionId;
      && Consistent(graded)
      && Siblings(graded.testCases, sid) != {}
      && Verdict(graded.testCases, sid).Final?
      && Deliver(db, true, cb, mapping, getPoints) ==
           if sid !in db.submissions then Delivery(graded, NotFound)
           else Score(WithVerdict(graded, sid, Verdict(graded.testCases, sid)), sid, getPoints)
  {
    DeliverResolved(db, cb, mapping, getPoints, id);
    var tc := Graded(db.testCases[id], Mapped(mapping, cb.description), cb.time, cb.memory);
    var graded := db.(testCases := db.testCases[id := tc]);
    CompleteIsFinal(graded.testCases, tc.submissionId);
    FinaliseUnfolds(graded, tc.submissionId, getPoints);
  }

  /** A complete submission that does not exist: the reply is `NotFound`, and
      the test-case write stays the only change (there is no rollback). */
  lemma MissingSubmissionGivesNotFound(db: Db, cb: Callback, mapping: map<string, CaseStatus>,
                                       getPoints: PointsFn, id: Id)
    requires Consistent(db)
    requires id in db.testCases && db.testCases[id].token == cb.token
    ensures var d := Deliver(db, true, cb, mapping, getPoints);
      var sid := db.testCases[id].submissionId;
      Complete(d.db.testCases, sid) && sid !in db.submissions ==>
        d.reply == NotFound && d.db == db.(testCases := d.db.testCases)
  {
    DeliverResolved(db, cb, mapping, getPoints, id);
    var tc := Graded(db.testCases[id], Mapped(mapping, cb.description), cb.time, cb.memory);
    if Complete(db.testCases[id := tc], tc.submissionId) {
      CompleteDeliveryUnfolds(db, cb, mapping, getPoints, id);
    }
  }

  /** A complete submission without an active contest: the reply is
      `Received` and no contest submission is written. */
  lemma NoActiveContestSkipsScoring(db: Db, cb: Callback, mapping: map<string, CaseStatus>,
                                    getPoints: PointsFn, id: Id)
    requires Consistent(db)
    requires id in db.testCases && db.testCases[id].token == cb.token
    ensures var d := Deliver(db, true, cb, mapping, getPoints);
      var sid := db.testCases[id].submissionId;
      Complete(d.db.testCases, sid) && sid in db.submissions &&
      !ContestActive(db.submissions[sid], db.contests)
      ==>
      d.reply == Received && d.db.contestSubmissions == db.contestSubmissions
  {
    DeliverResolved(db, cb, mapping, getPoints, id);
    var tc := Graded(db.testCases[id], Mapped(mapping, cb.description), cb.time, cb.memory);
    var sid := tc.submissionId;
    if Complete(db.testCases[id := tc], sid) && sid in db.submissions {
      CompleteDeliveryUnfolds(db, cb, mapping, getPoints, id);
      var graded := db.(testCases := db.testCases[id := tc]);
      ScoreReplies(WithVerdict(graded, sid, Verdict(graded.testCases, sid)), sid, getPoints);
    }
  }

  /** A complete submission with an active contest whose scoring function
      throws: the reply is `InternalError`, no contest submission is written,
      and the submission keeps the verdict already written to it. */
  lemma ThrowingScoreGivesInternalError(db: Db, cb: Callback, mapping: map<string, CaseStatus>,
                                        getPoints: PointsFn, id: Id)
    requires Consistent(db)
    requires id in db.testCases && db.testCases[id].token == cb.token
    ensures var d := Deliver(db, true, cb, mapping, getPoints);
      var sid := db.testCases[id].submissionId;
      Complete(d.db.testCases, sid) && sid in db.submissions &&
      ContestActive(db.submissions[sid], db.contests) &&
      PointsOf(db.submissions[sid], db.contests, getPoints).None?
      ==>
      && d.reply == InternalError
      && d.db.contestSubmissions == db.contestSubmissions
      && IsFinalVerdict(d.db.testCases, sid, d.db.submissions[sid])
  {
    DeliverResolved(db, cb, mapping, getPoints, id);
    var tc := Graded(db.testCases[id], Mapped(mapping, cb.description), cb.time, cb.memory);
    var sid := tc.submissionId;
    if Complete(db.testCases[id := tc], sid) && sid in db.submissions {
      CompleteDeliveryUnfolds(db, cb, mapping, getPoints, id);
      CompleteSubmissionIsFinalised(db, cb, mapping, getPoints, id);
      var graded := db.(testCases := db.testCases[id := tc]);
      ScoreReplies(WithVerdict(graded, sid, Verdict(graded.testCases, sid)), sid, getPoints);
    }
  }

  /** A complete submission with an active contest whose scoring function
      returns points: the reply is `Received`, the submission's (user,
      problem, contest) row holds those points, and a newly created row names
      this submission. */
  lemma ActiveContestIsScored(db: Db, cb: Callback, mapping: map<string, CaseStatus>,
                              getPoints: PointsFn, id: Id)
    requires Consistent(db)
    requires id in db.testCases && db.testCases[id].token == cb.token
    ensures var d := Deliver(db, true, cb, mapping, getPoints);
      var sid := db.testCases[id].submissionId;
      Complete(d.db.testCases, sid) && sid in db.submissions &&
      ContestActive(db.submissions[sid], db.contests) &&
      PointsOf(db.submissions[sid], db.contests, getPoints).Some?
      ==>
      var s := db.submissions[sid];
      var key := ContestKey(s.userId, s.problemId, s.activeContestId.value);
      && d.reply == Received
      && key in d.db.contestSubmissions
      && d.db.contestSubmissions[key].points == PointsOf(s, db.contests, getPoints).value
      && (key !in db.contestSubmissions ==> d.db.contestSubmissions[key].submissionId == sid)
  {
    DeliverResolved(db, cb, mapping, getPoints, id);
    var tc := Graded(db.testCases[id], Mapped(mapping, cb.description), cb.time, cb.memory);
    var sid := tc.submissionId;
    if Complete(db.testCases[id := tc], sid) && sid in db.submissions {
      CompleteDeliveryUnfolds(db, cb, mapping, getPoints, id);
      var graded := db.(testCases := db.testCases[id := tc]);
      ScoreReplies(WithVerdict(graded, sid, Verdict(graded.testCases, sid)), sid, getPoints);
    }
  }

  /** No submission is removed or changes its id, owner, problem or contest;
      a submission that is written gets a status other than `PENDING`, so a
      final submission stays final. */
  ghost predicate KeepsFinalSubmissions(before: map<Id, Submission>, after: map<Id, Submission>)
  {
    && after.Keys == before.Keys
    && forall s :: s in before ==>
         && SameScoring(after[s], before[s])
         && (after[s] != before[s] ==> after[s].status != SubmissionStatus.PENDING)
         && (before[s].status != SubmissionStatus.PENDING ==> after[s].status != SubmissionStatus.PENDING)
  }

  /** Finalisation writes at most the submission `sid`, never with `PENDING`. */
  lemma FinaliseKeepsFinalSubmissions(db: Db, sid: Id, getPoints: PointsFn)
    requires Siblings(db.testCases, sid) != {}
    ensures KeepsFinalSubmissions(db.submissions, Finalise(db, sid, getPoints).db.submissions)
    ensures forall t :: t in db.submissions && t != sid ==>
      Finalise(db, sid, getPoints).db.submissions[t] == db.submissions[t]
  {
    FinaliseUnfolds(db, sid, getPoints);
    var o := Verdict(db.testCases, sid);
    if o.Final? && sid in db.submissions {
      VerdictKeepsFinalSubmissions(db, sid, o);
      VerdictWritesOneSubmission(db, sid, o);
    } else {
      assert Finalise(db, sid, getPoints).db == db;
    }
  }

  /** Writing a final outcome keeps every submission final and its owner. */
  lemma VerdictKeepsFinalSubmissions(db: Db, sid: Id, o: Outcome)
    requires sid in db.submissions && o.Final? && o.status != SubmissionStatus.PENDING
    ensures KeepsFinalSubmissions(db.submissions, WithVerdict(db, sid, o).submissions)
  {
  }

  /** Some test case of the submission `sid` carries the tracking id. */
  ghost predicate OwnsToken(tcs: map<Id, TestCase>, sid: Id, token: string)
  {
    exists k :: k in tcs && tcs[k].token == token && tcs[k].submissionId == sid
  }

  /** No delivery re-opens a finalised submission, writes `PENDING`, removes a
      submission, or changes who submitted what to which contest; and only
      the submission owning the addressed test case can change. */
  lemma FinalisedSubmissionStaysFinal(db: Db, parsed: bool, cb: Callback,
                                      mapping: map<string, CaseStatus>, getPoints: PointsFn)
    requires Consistent(db)
    ensures KeepsFinalSubmissions(db.submissions, Deliver(db, parsed, cb, mapping, getPoints).db.submissions)
    ensures forall t :: t in db.submissions && !OwnsToken(db.testCases, t, cb.token) ==>
      Deliver(db, parsed, cb, mapping, getPoints).db.submissions[t] == db.submissions[t]
  {
    if parsed && Resolve(db.testCases, cb.token).Some? {
      var id := Resolve(db.testCases, cb.token).value;
      DeliverResolved(db, cb, mapping, getPoints, id);
      var tc := Graded(db.testCases[id], Mapped(mapping, cb.description), cb.time, cb.memory);
      FinaliseKeepsFinalSubmissions(db.(testCases := db.testCases[id := tc]), tc.submissionId, getPoints);
    }
  }

  /** Delivering the same verdict a second time leaves the store and the reply
      as the first delivery left them. */
  lemma {:induction false} RedeliveryIsIdempotent(db: Db, parsed: bool, cb: Callback,
                                                  mapping: map<string, CaseStatus>, getPoints: PointsFn)
    requires Consistent(db)
    ensures var once := Deliver(db, parsed, cb, mapping, getPoints);
      Deliver(once.db, parsed, cb, mapping, getPoints) == once
  {
    var once := Deliver(db, parsed, cb, mapping, getPoints);
    if parsed && Resolve(db.testCases, cb.token).Some? {
      var id := Resolve(db.testCases, cb.token).value;
      var status := Mapped(mapping, cb.description);
      var tc := Graded(db.testCases[id], status, cb.time, cb.memory);
      var graded := db.(testCases := db.testCases[id := tc]);
      var sid := tc.submissionId;
      assert graded.testCases[id] == tc;
      assert tc in Siblings(graded.testCases, sid);
      assert once == Finalise(graded, sid, getPoints);
      assert once.db.testCases == graded.testCases;
      assert Resolve(once.db.testCases, cb.token) == Some(id);
      assert Graded(tc, status, cb.time, cb.memory) == tc;
      assert once.db.testCases[id := tc] == once.db.testCases;
      FinaliseIsIdempotent(graded, sid, getPoints);
    }
  }

  /** Finalising twice from the same test cases is finalising once. */
  lemma FinaliseIsIdempotent(db: Db, sid: Id, getPoints: PointsFn)
    requires Siblings(db.testCases, sid) != {}
    ensures Finalise(Finalise(db, sid, getPoints).db, sid, getPoints) == Finalise(db, sid, getPoints)
  {
    FinaliseUnfolds(db, sid, getPoints);
    var o := Verdict(db.testCases, sid);
    if o.Final? && sid in db.submissions {
      var once := Score(WithVerdict(db, sid, o), sid, getPoints);
      FinaliseUnfolds(once.db, sid, getPoints);
      VerdictRewriteIsNoop(once.db, sid, o);
      ScoreIsIdempotent(WithVerdict(db, sid, o), sid, getPoints);
    }
  }

  /** Finalising again, with whatever scoring function, keeps the test cases,
      submissions and contests the first finalisation left; only the
      contest-submission table can differ. */
  lemma FinaliseAgainRescoresOnly(db: Db, sid: Id, getPoints: PointsFn, laterPoints: PointsFn)
    requires Siblings(db.testCases, sid) != {}
    ensures var once := Finalise(db, sid, getPoints);
      var twice := Finalise(once.db, sid, laterPoints);
      && twice.db.testCases == once.db.testCases
      && twice.db.submissions == once.db.submissions
      && twice.db.contests == once.db.contests
  {
    FinaliseUnfolds(db, sid, getPoints);
    var o := Verdict(db.testCases, sid);
    if o.Final? && sid in db.submissions {
      var once := Score(WithVerdict(db, sid, o), sid, getPoints);
      FinaliseUnfolds(once.db, sid, laterPoints);
      VerdictRewriteIsNoop(once.db, sid, o);
    }
  }

  /** Delivering the same callback again finalises the submission again from
      the test cases the first delivery left, which the second write keeps. */
  lemma RedeliveryRefinalises(db: Db, cb: Callback, mapping: map<string, CaseStatus>,
                              getPoints: PointsFn, laterPoints: PointsFn, id: Id)
    requires Consistent(db)
    requires id in db.testCases && db.testCases[id].token == cb.token
    ensures var once := Deliver(db, true, cb, mapping, getPoints);
      var sid := db.testCases[id].submissionId;
      && Siblings(once.db.testCases, sid) != {}
      && once == Finalise(db.(testCases := once.db.testCases), sid, getPoints)
      && Deliver(once.db, true, cb, mapping, laterPoints) == Finalise(once.db, sid, laterPoints)
  {
    var once := Deliver(db, true, cb, mapping, getPoints);
    var status := Mapped(mapping, cb.description);
    var tc := Graded(db.testCases[id], status, cb.time, cb.memory);
    DeliverResolved(db, cb, mapping, getPoints, id);
    assert once.db.testCases == db.testCases[id := tc];
    assert Resolve(once.db.testCases, cb.token) == Some(id);
    assert Graded(tc, status, cb.time, cb.memory) == tc;
    assert once.db.testCases[id := tc] == once.db.testCases;
  }

  /** A repeated delivery scored by a different function (a scorer that reads
      the clock, say) leaves the test cases and submissions as the first
      delivery left them, whatever the two functions return. */
  lemma LateRedeliveryKeepsVerdict(db: Db, parsed: bool, cb: Callback,
                                   mapping: map<string, CaseStatus>,
                                   getPoints: PointsFn, laterPoints: PointsFn)
    requires Consistent(db)
    ensures var once := Deliver(db, parsed, cb, mapping, getPoints);
      var twice := Deliver(once.db, parsed, cb, mapping, laterPoints);
      && twice.db.testCases == once.db.testCases
      && twice.db.submissions == once.db.submissions
  {
    if parsed && Resolve(db.testCases, cb.token).Some? {
      var id := Resolve(db.testCases, cb.token).value;
      var once := Deliver(db, true, cb, mapping, getPoints);
      RedeliveryRefinalises(db, cb, mapping, getPoints, laterPoints, id);
      FinaliseAgainRescoresOnly(db.(testCases := once.db.testCases), db.testCases[id].submissionId,
                                getPoints, laterPoints);
    }
  }

  /** The repeated delivery re-scores: once the submission is complete and
      has an active contest, its contest-submission row holds the points the
      later scoring function returns, not the earlier one's. */
  lemma LateRedeliveryTakesLatePoints(db: Db, cb: Callback, mapping: map<string, CaseStatus>,
                                      getPoints: PointsFn, laterPoints: PointsFn, id: Id)
    requires Consistent(db)
    requires id in db.testCases && db.testCases[id].token == cb.token
    ensures var once := Deliver(db, true, cb, mapping, getPoints);
      var twice := Deliver(once.db, true, cb, mapping, laterPoints);
      var sid := db.testCases[id].submissionId;
      Complete(once.db.testCases, sid) && sid in once.db.submissions &&
      ContestActive(once.db.submissions[sid], db.contests) &&
      PointsOf(once.db.submissions[sid], db.contests, laterPoints).Some?
      ==>
      var s := once.db.submissions[sid];
      var key := ContestKey(s.userId, s.problemId, s.activeContestId.value);
      && twice.reply == Received
      && key in twice.db.contestSubmissions
      && twice.db.contestSubmissions[key].points == PointsOf(s, db.contests, laterPoints).value
  {
    var once := Deliver(db, true, cb, mapping, getPoints);
    LateRedeliveryKeepsVerdict(db, true, cb, mapping, getPoints, laterPoints);
    ActiveContestIsScored(once.db, cb, mapping, laterPoints, id);
  }

  /** What finalisation does, one case per outcome of the aggregation. */
  lemma FinaliseUnfolds(db: Db, sid: Id, getPoints: PointsFn)
    requires Siblings(db.testCases, sid) != {}
    ensures var o := Verdict(db.testCases, sid);
      Finalise(db, sid, getPoints) ==
        if o.StillPending? then Delivery(db, Received)
        else if sid !in db.submissions then Delivery(db, NotFound)
        else Score(WithVerdict(db, sid, o), sid, getPoints)
  {
  }

  /** Writing an outcome a submission already carries changes nothing. */
  lemma VerdictRewriteIsNoop(db: Db, sid: Id, o: Outcome)
    requires sid in db.submissions && o.Final?
    requires db.submissions[sid] == Finalised(db.submissions[sid], o)
    ensures WithVerdict(db, sid, o) == db
  {
    assert db.submissions[sid := db.submissions[sid]] == db.submissions;
  }

  /** Scoring the same written submission twice is scoring it once. */
  lemma ScoreIsIdempotent(db: Db, sid: Id, getPoints: PointsFn)
    requires sid in db.submissions
    ensures Score(Score(db, sid, getPoints).db, sid, getPoints) == Score(db, sid, getPoints)
  {
    var s := db.submissions[sid];
    if ContestActive(s, db.contests) {
      var cid := s.activeContestId.value;
      var c := db.contests[cid];
      var points := getPoints(cid, s.userId, s.problemId, s.difficulty, c.startTime, c.endTime);
      if points.Some? {
        var key := ContestKey(s.userId, s.problemId, cid);
        var row := ContestSubmission(s.id, s.userId, s.problemId, cid, points.value);
        UpsertIsIdempotent(db.contestSubmissions, key, row, points.value);
      }
    }
  }

  /** Scoring a submission whose table already holds an earlier scoring of
      it (same user, problem, contest and difficulty) ends where a single
      scoring ends. */
  lemma ScoreAbsorbs(earlier: Db, db: Db, sid: Id, getPoints: PointsFn)
    requires sid in earlier.submissions && sid in db.submissions
    requires earlier.contests == db.contests && earlier.contestSubmissions == db.contestSubmissions
    requires SameScoring(earlier.submissions[sid], db.submissions[sid])
    ensures var scored := Score(earlier, sid, getPoints).db.contestSubmissions;
      Score(db.(contestSubmissions := scored), sid, getPoints) == Score(db, sid, getPoints)
  {
    var s := db.submissions[sid];
    if ContestActive(s, db.contests) {
      var points := PointsOf(s, db.contests, getPoints);
      if points.Some? {
        var key := ContestKey(s.userId, s.problemId, s.activeContestId.value);
        var row := ContestSubmission(s.id, s.userId, s.problemId, s.activeContestId.value, points.value);
        UpsertIsIdempotent(db.contestSubmissions, key, row, points.value);
      }
    }
  }

  /** A finalisation from complete test cases `tcs` overrides whatever an
      earlier finalisation of the same submission wrote. */
  lemma FinaliseAbsorbs(db: Db, sid: Id, tcs: map<Id, TestCase>, getPoints: PointsFn)
    requires Siblings(db.testCases, sid) != {} && Siblings(tcs, sid) != {} && Complete(tcs, sid)
    ensures Finalise(Finalise(db, sid, getPoints).db.(testCases := tcs), sid, getPoints)
         == Finalise(db.(testCases := tcs), sid, getPoints)
  {
    FinaliseUnfolds(db, sid, getPoints);
    var early := Verdict(db.testCases, sid);
    if early.Final? && sid in db.submissions {
      ScoredFinaliseAbsorbs(db, sid, early, tcs, getPoints);
    }
  }

  /** The case of `FinaliseAbsorbs` where the earlier finalisation wrote the
      outcome `early` and scored the submission. */
  lemma ScoredFinaliseAbsorbs(db: Db, sid: Id, early: Outcome, tcs: map<Id, TestCase>, getPoints: PointsFn)
    requires sid in db.submissions && early.Final?
    requires Siblings(tcs, sid) != {} && Complete(tcs, sid)
    ensures var scored := Score(WithVerdict(db, sid, early), sid, getPoints).db;
      Finalise(scored.(testCases := tcs), sid, getPoints) == Finalise(db.(testCases := tcs), sid, getPoints)
  {
    CompleteIsFinal(tcs, sid);
    var o := Verdict(tcs, sid);
    var first := WithVerdict(db, sid, early);
    var scored := Score(first, sid, getPoints).db;
    assert scored.(testCases := tcs) == first.(testCases := tcs, contestSubmissions := scored.contestSubmissions);
    FinaliseUnfolds(scored.(testCases := tcs), sid, getPoints);
    FinaliseUnfolds(db.(testCases := tcs), sid, getPoints);
    RewriteAfterScore(db, sid, early, o, tcs, scored.contestSubmissions);
    ScoreAbsorbs(first, WithVerdict(db.(testCases := tcs), sid, o), sid, getPoints);
  }

  /** Writing `o` over an earlier outcome `early` gives the store that
      writing `o` alone gives. */
  lemma RewriteAfterScore(db: Db, sid: Id, early: Outcome, o: Outcome,
                          tcs: map<Id, TestCase>, cs: map<ContestKey, ContestSubmission>)
    requires sid in db.submissions && early.Final? && o.Final?
    ensures WithVerdict(WithVerdict(db, sid, early).(testCases := tcs, contestSubmissions := cs), sid, o)
         == WithVerdict(db.(testCases := tcs), sid, o).(contestSubmissions := cs)
  {
    FinalisedOverwrites(db.submissions[sid], early, o);
    var s := db.submissions;
    assert s[sid := Finalised(s[sid], early)][sid := Finalised(Finalised(s[sid], early), o)]
        == s[sid := Finalised(s[sid], o)];
  }

  /** Two deliveries to different test cases: the second finalises from the
      test cases both have written, over the store the first one left. */
  lemma SecondDelivery(db: Db, cb1: Callback, cb2: Callback, mapping: map<string, CaseStatus>,
                       getPoints: PointsFn, id1: Id, id2: Id)
    requires Consistent(db)
    requires id1 in db.testCases && db.testCases[id1].token == cb1.token
    requires id2 in db.testCases && db.testCases[id2].token == cb2.token
    requires id1 != id2
    ensures var tc1 := Graded(db.testCases[id1], Mapped(mapping, cb1.description), cb1.time, cb1.memory);
      var tc2 := Graded(db.testCases[id2], Mapped(mapping, cb2.description), cb2.time, cb2.memory);
      var first := db.(testCases := db.testCases[id1 := tc1]);
      var both := db.testCases[id1 := tc1][id2 := tc2];
      && Siblings(first.testCases, tc1.submissionId) != {}
      && Siblings(both, tc2.submissionId) != {}
      && Deliver(Deliver(db, true, cb1, mapping, getPoints).db, true, cb2, mapping, getPoints)
         == Finalise(Finalise(first, tc1.submissionId, getPoints).db.(testCases := both),
                     tc2.submissionId, getPoints)
  {
    DeliverResolved(db, cb1, mapping, getPoints, id1);
    var once := Deliver(db, true, cb1, mapping, getPoints).db;
    assert once.testCases[id2] == db.testCases[id2];
    DeliverResolved(once, cb2, mapping, getPoints, id2);
  }

  /** Writes to two different test cases commute. */
  lemma WritesToDistinctCasesCommute(tcs: map<Id, TestCase>, id1: Id, tc1: TestCase, id2: Id, tc2: TestCase)
    requires id1 != id2
    ensures tcs[id1 := tc1][id2 := tc2] == tcs[id2 := tc2][id1 := tc1]
  {
  }

  /** Two verdicts for different test cases of one submission leave the same
      test cases whichever arrives first, and once no test case of the
      submission is left pending, the same store. */
  lemma DeliveriesCommute(db: Db, cb1: Callback, cb2: Callback, mapping: map<string, CaseStatus>,
                          getPoints: PointsFn, id1: Id, id2: Id)
    requires Consistent(db)
    requires id1 in db.testCases && db.testCases[id1].token == cb1.token
    requires id2 in db.testCases && db.testCases[id2].token == cb2.token
    requires id1 != id2 && db.testCases[id1].submissionId == db.testCases[id2].submissionId
    ensures var oneTwo := Deliver(Deliver(db, true, cb1, mapping, getPoints).db, true, cb2, mapping, getPoints).db;
      var twoOne := Deliver(Deliver(db, true, cb2, mapping, getPoints).db, true, cb1, mapping, getPoints).db;
      && oneTwo.testCases == twoOne.testCases
      && (Complete(oneTwo.testCases, db.testCases[id1].submissionId) ==> oneTwo == twoOne)
  {
    SecondDelivery(db, cb1, cb2, mapping, getPoints, id1, id2);
    SecondDelivery(db, cb2, cb1, mapping, getPoints, id2, id1);
    var tc1 := Graded(db.testCases[id1], Mapped(mapping, cb1.description), cb1.time, cb1.memory);
    var tc2 := Graded(db.testCases[id2], Mapped(mapping, cb2.description), cb2.time, cb2.memory);
    var sid := tc1.submissionId;
    var both := db.testCases[id1 := tc1][id2 := tc2];
    WritesToDistinctCasesCommute(db.testCases, id1, tc1, id2, tc2);
    var first1 := db.(testCases := db.testCases[id1 := tc1]);
    var first2 := db.(testCases := db.testCases[id2 := tc2]);
    var oneTwo := Finalise(Finalise(first1, sid, getPoints).db.(testCases := both), sid, getPoints);
    var twoOne := Finalise(Finalise(first2, sid, getPoints).db.(testCases := both), sid, getPoints);
    assert Deliver(Deliver(db, true, cb1, mapping, getPoints).db, true, cb2, mapping, getPoints) == oneTwo;
    assert Deliver(Deliver(db, true, cb2, mapping, getPoints).db, true, cb1, mapping, getPoints) == twoOne;
    if Complete(both, sid) {
      FinaliseAbsorbs(first1, sid, both, getPoints);
      FinaliseAbsorbs(first2, sid, both, getPoints);
      assert first1.(testCases := both) == first2.(testCases := both);
    }
  }

}
