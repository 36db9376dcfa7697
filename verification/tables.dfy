/**
 * The four table operations the handler performs, as functions from the old
 * table to the new one: update a test case by its unique tracking id, list
 * the test cases of one submission, update a submission by id, and upsert a
 * contest submission by its composite key.
 */
module Tables {
  import opened Records
  import opened Aggregation

  /** No two test cases carry the same tracking id (a unique column). */
  ghost predicate TokensUnique(tcs: map<Id, TestCase>)
  {
    forall a, b :: a in tcs && b in tcs && tcs[a].token == tcs[b].token ==> a == b
  }

  /** The test case addressed by a tracking id, if any. */
  ghost function Resolve(tcs: map<Id, TestCase>, token: string): (r: Option<Id>)
    requires TokensUnique(tcs)
    ensures r.None? <==> forall id :: id in tcs ==> tcs[id].token != token
    ensures r.Some? ==> r.value in tcs && tcs[r.value].token == token
    ensures r.Some? ==> forall id :: id in tcs && tcs[id].token == token ==> id == r.value
  {
    if exists id :: id in tcs && tcs[id].token == token then
      var id :| id in tcs && tcs[id].token == token;
      Some(id)
    else
      None
  }

  /** The internal status for the judge's description, when the mapping
      table has one; otherwise the write leaves the status column alone. */
  function Mapped(mapping: map<string, CaseStatus>, description: string): (r: Option<CaseStatus>)
    ensures r.None? <==> description !in mapping
    ensures r.Some? ==> r.value in mapping.Values && mapping[description] == r.value
  {
    if description in mapping then Some(mapping[description]) else None
  }

  /** A test case after the judge's verdict is written to it. */
  function Graded(tc: TestCase, status: Option<CaseStatus>, time: nat, memory: nat): (r: TestCase)
    ensures r.submissionId == tc.submissionId && r.token == tc.token
    ensures r.status == (if status.None? then tc.status else status.value)
    ensures r.time == Some(time) && r.memory == Some(memory)
  {
    tc.(status := if status.Some? then status.value else tc.status,
        time := Some(time), memory := Some(memory))
  }

  /** The ids of the test cases owned by a submission. */
  ghost function SiblingIds(tcs: map<Id, TestCase>, sid: Id): set<Id>
  {
    set id | id in tcs && tcs[id].submissionId == sid
  }

  /** The test cases owned by a submission. */
  ghost function Siblings(tcs: map<Id, TestCase>, sid: Id): set<TestCase>
  {
    set id | id in tcs && tcs[id].submissionId == sid :: tcs[id]
  }

  /** Every finite set of test cases has a listing without repetition. */
  lemma {:induction false} ListingExists(s: set<TestCase>)
    ensures exists r: seq<TestCase> :: |r| == |s| && forall t :: t in r <==> t in s
    decreases s
  {
    if s == {} {
      var none: seq<TestCase> := [];
      assert |none| == |s| && forall u :: u in none <==> u in s;
    } else {
      var t :| t in s;
      ListingExists(s - {t});
      var r :| |r| == |s - {t}| && forall u :: u in r <==> u in s - {t};
      assert |[t] + r| == |s| && forall u :: u in [t] + r <==> u in s;
    }
  }

  /** Some listing of a finite set of test cases (the store's order is unspecified). */
  ghost function Enumerate(s: set<TestCase>): (r: seq<TestCase>)
    ensures |r| == |s|
    ensures forall t :: t in r <==> t in s
  {
    ListingExists(s);
    var r :| |r| == |s| && forall t :: t in r <==> t in s;
    r
  }

  /** `a` and `b` agree on every field the contest step reads. */
  predicate SameScoring(a: Submission, b: Submission)
  {
    && a.id == b.id && a.userId == b.userId && a.problemId == b.problemId
    && a.difficulty == b.difficulty && a.activeContestId == b.activeContestId
  }

  /** A submission after finalisation with a final outcome. */
  function Finalised(s: Submission, o: Outcome): (r: Submission)
    requires o.Final?
    ensures SameScoring(r, s)
    ensures r.status == o.status && r.time == Some(o.time) && r.memory == Some(o.memory)
  {
    s.(status := o.status, time := Some(o.time), memory := Some(o.memory))
  }

  /** A later finalisation overwrites everything an earlier one wrote. */
  lemma FinalisedOverwrites(s: Submission, first: Outcome, second: Outcome)
    requires first.Final? && second.Final?
    ensures Finalised(Finalised(s, first), second) == Finalised(s, second)
  {
  }

  /** The submission is linked to a contest that exists (both the id and the
      included contest are truthy). */
  predicate ContestActive(s: Submission, contests: map<Id, Contest>)
    ensures s.activeContestId.None? || s.activeContestId == Some("") ==> !ContestActive(s, contests)
    ensures ContestActive(s, contests) ==> s.activeContestId.value in contests
  {
    s.activeContestId.Some? && s.activeContestId.value != "" && s.activeContestId.value in contests
  }

  function KeyOf(row: ContestSubmission): (k: ContestKey)
  {
    ContestKey(row.userId, row.problemId, row.contestId)
  }

  /** Every contest submission is stored under its own (user, problem, contest). */
  ghost predicate RowsMatchKeys(cs: map<ContestKey, ContestSubmission>)
  {
    forall k :: k in cs ==> KeyOf(cs[k]) == k
  }

  /** Create the row when the key is absent; otherwise overwrite its points only. */
  function Upsert(cs: map<ContestKey, ContestSubmission>, key: ContestKey,
                  create: ContestSubmission, points: int): (r: map<ContestKey, ContestSubmission>)
    requires create.points == points
    ensures r.Keys == cs.Keys + {key}
    ensures |r| == if key in cs then |cs| else |cs| + 1
    ensures r[key].points == points
    ensures key !in cs ==> r[key] == create
    ensures key in cs ==> r[key].submissionId == cs[key].submissionId && KeyOf(r[key]) == KeyOf(cs[key])
    ensures forall k :: k in cs && k != key ==> r[k] == cs[k]
    ensures RowsMatchKeys(cs) && KeyOf(create) == key ==> RowsMatchKeys(r)
  {
    if key in cs then cs[key := cs[key].(points := points)] else cs[key := create]
  }

  /** Repeating an upsert with the same row and points changes nothing further. */
  lemma UpsertIsIdempotent(cs: map<ContestKey, ContestSubmission>, key: ContestKey,
                           create: ContestSubmission, points: int)
    requires create.points == points
    ensures Upsert(Upsert(cs, key, create, points), key, create, points) == Upsert(cs, key, create, points)
  {
    var once := Upsert(cs, key, create, points);
    assert once[key].(points := points) == once[key];
    assert once[key := once[key]] == once;
  }
}
