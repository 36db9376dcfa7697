/**
 * The pure part of the handler: given every test case of one submission,
 * decide whether grading is complete and, if so, the submission's status,
 * time and memory.
 */
module Aggregation {
  import opened Records

  datatype Outcome = StillPending | Final(status: SubmissionStatus, time: nat, memory: nat)

  /** The test cases whose status is still `PENDING`, in order. */
  function PendingCases(rows: seq<TestCase>): (r: seq<TestCase>)
    ensures |r| <= |rows|
    ensures forall t :: t in r <==> t in rows && t.status == CaseStatus.PENDING
  {
    if rows == [] then []
    else if rows[0].status == CaseStatus.PENDING then [rows[0]] + PendingCases(rows[1..])
    else PendingCases(rows[1..])
  }

  /** The test cases whose status is anything but `AC`, in order. */
  function FailedCases(rows: seq<TestCase>): (r: seq<TestCase>)
    ensures |r| <= |rows|
    ensures forall t :: t in r <==> t in rows && t.status != CaseStatus.AC
  {
    if rows == [] then []
    else if rows[0].status != CaseStatus.AC then [rows[0]] + FailedCases(rows[1..])
    else FailedCases(rows[1..])
  }

  /** The largest element of a non-empty sequence (`Math.max(...xs)`). */
  function Max(xs: seq<nat>): (m: nat)
    requires xs != []
    ensures m in xs
    ensures forall i :: 0 <= i < |xs| ==> xs[i] <= m
  {
    if |xs| == 1 then xs[0]
    else
      var rest := Max(xs[1..]);
      if xs[0] >= rest then xs[0] else rest
  }

  /** The time of every listed case, an unset time counting as 0. */
  function Times(rows: seq<TestCase>): (ts: seq<nat>)
    ensures |ts| == |rows|
    ensures forall i :: 0 <= i < |rows| ==> ts[i] == CostOf(rows[i].time)
  {
    seq(|rows|, i requires 0 <= i < |rows| => CostOf(rows[i].time))
  }

  /** The memory of every listed case, an unset memory counting as 0. */
  function Memories(rows: seq<TestCase>): (ms: seq<nat>)
    ensures |ms| == |rows|
    ensures forall i :: 0 <= i < |rows| ==> ms[i] == CostOf(rows[i].memory)
  {
    seq(|rows|, i requires 0 <= i < |rows| => CostOf(rows[i].memory))
  }

  /** Grading is complete when no case is pending; the submission is `AC`
      exactly when every case is `AC`, and costs the most any case cost. */
  function Derive(rows: seq<TestCase>): (o: Outcome)
    requires rows != []
    ensures o.StillPending? <==> exists i :: 0 <= i < |rows| && rows[i].status == CaseStatus.PENDING
    ensures o.Final? ==> o.status != SubmissionStatus.PENDING
    ensures o.Final? ==>
      (o.status == SubmissionStatus.AC <==> forall i :: 0 <= i < |rows| ==> rows[i].status == CaseStatus.AC)
    ensures o.Final? ==> forall i :: 0 <= i < |rows| ==>
      CostOf(rows[i].time) <= o.time && CostOf(rows[i].memory) <= o.memory
    ensures o.Final? ==> exists i :: 0 <= i < |rows| && o.time == CostOf(rows[i].time)
    ensures o.Final? ==> exists j :: 0 <= j < |rows| && o.memory == CostOf(rows[j].memory)
  {
    if |PendingCases(rows)| != 0 then
      assert PendingCases(rows)[0] in rows;
      StillPending
    else
      var accepted := |FailedCases(rows)| == 0;
      assert !accepted ==> FailedCases(rows)[0] in rows;
      assert forall i :: 0 <= i < |rows| ==>
        Times(rows)[i] == CostOf(rows[i].time) && Memories(rows)[i] == CostOf(rows[i].memory);
      Final(if accepted then SubmissionStatus.AC else SubmissionStatus.REJECTED,
            Max(Times(rows)), Max(Memories(rows)))
  }

  /** The outcome depends only on which test cases were read, not on the
      order (or repetition) in which the store returned them. */
  lemma {:induction false} DeriveIgnoresOrder(a: seq<TestCase>, b: seq<TestCase>)
    requires a != [] && b != []
    requires forall t :: t in a <==> t in b
    ensures Derive(a) == Derive(b)
  {
    var oa, ob := Derive(a), Derive(b);
    if oa.StillPending? {
      var i :| 0 <= i < |a| && a[i].status == CaseStatus.PENDING;
      assert a[i] in b;
    } else if ob.Final? {
      if oa.status == SubmissionStatus.AC {
        forall j | 0 <= j < |b| ensures b[j].status == CaseStatus.AC { assert b[j] in a; }
      } else if ob.status == SubmissionStatus.AC {
        forall j | 0 <= j < |a| ensures a[j].status == CaseStatus.AC { assert a[j] in b; }
      }
      var i :| 0 <= i < |a| && oa.time == CostOf(a[i].time);
      var j :| 0 <= j < |b| && ob.time == CostOf(b[j].time);
      assert a[i] in b && b[j] in a;
      var k :| 0 <= k < |a| && oa.memory == CostOf(a[k].memory);
      var l :| 0 <= l < |b| && ob.memory == CostOf(b[l].memory);
      assert a[k] in b && b[l] in a;
    }
  }
}
