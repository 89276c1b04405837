/** Reading an allocation back from a solution of the bed problem. Each
    patient's subject id goes to the first of its three options whose
    variable equals 1 (ICU, general inpatient unit, ICU waitlist), and to
    the allocation errors when none does. Incoming patients come first,
    then existing ones. */
module ResultExtraction {
  import opened AllocationProblem

  /** Where one patient ends up. */
  datatype Bucket = Icu | General | Waitlist | Error

  /** The offset of a bucket's variable among a patient's three columns. */
  function Slot(b: Bucket): nat
    requires b != Error
  {
    match b
    case Icu => 0
    case General => 1
    case Waitlist => 2
  }

  /** The four lists of subject ids the extraction returns. */
  datatype Allocation = Allocation(
    icu: seq<string>,
    generalInpatient: seq<string>,
    icuWaitlist: seq<string>,
    allocationError: seq<string>)

  /** The bucket of the patient whose variables start at column 3k: the
      first variable equal to 1 decides, and none equal to 1 is an error. */
  function Decide(arr: seq<real>, k: nat): Bucket
    requires 3 * k + 2 < |arr|
  {
    if arr[3 * k] == 1.0 then Icu
    else if arr[3 * k + 1] == 1.0 then General
    else if arr[3 * k + 2] == 1.0 then Waitlist
    else Error
  }

  /** The bucket is the first of the three columns holding 1: its column
      holds 1 and every earlier one does not, and an error has no 1 at all. */
  lemma DecideFirstOne(arr: seq<real>, k: nat)
    requires 3 * k + 2 < |arr|
    ensures Decide(arr, k) != Error ==> arr[3 * k + Slot(Decide(arr, k))] == 1.0
    ensures forall i :: 3 * k <= i < 3 * k + 3 && (Decide(arr, k) == Error || i < 3 * k + Slot(Decide(arr, k))) ==>
      arr[i] != 1.0
  {
  }

  /** In order, the ids among the first n of ids whose patient, read at
      columns 3 (offset + k) onwards, falls in bucket b. */
  function Routed(arr: seq<real>, ids: seq<string>, n: nat, offset: nat, b: Bucket): (r: seq<string>)
    requires n <= |ids| && 3 * (offset + |ids|) <= |arr|
    ensures |r| <= n
  {
    if n == 0 then []
    else Routed(arr, ids, n - 1, offset, b) + (if Decide(arr, offset + n - 1) == b then [ids[n - 1]] else [])
  }

  /** The allocation read from arr when the incoming patients' variables
      start at column 0 and the existing patients' at column 3 exOffset. */
  function Allocated(arr: seq<real>, inIds: seq<string>, exIds: seq<string>, exOffset: nat): Allocation
    requires 3 * |inIds| <= |arr| && 3 * (exOffset + |exIds|) <= |arr|
  {
    Allocation(
      Routed(arr, inIds, |inIds|, 0, Icu) + Routed(arr, exIds, |exIds|, exOffset, Icu),
      Routed(arr, inIds, |inIds|, 0, General) + Routed(arr, exIds, |exIds|, exOffset, General),
      Routed(arr, inIds, |inIds|, 0, Waitlist) + Routed(arr, exIds, |exIds|, exOffset, Waitlist),
      Routed(arr, inIds, |inIds|, 0, Error) + Routed(arr, exIds, |exIds|, exOffset, Error))
  }

  /** Appends each of ids to the list of its bucket, reading patient k's
      variables at columns 3 (offset + k) onwards. */
  method Route(arr: seq<real>, ids: seq<string>, offset: nat, res0: Allocation) returns (res: Allocation)
    requires 3 * (offset + |ids|) <= |arr|
    ensures res.icu == res0.icu + Routed(arr, ids, |ids|, offset, Icu)
    ensures res.generalInpatient == res0.generalInpatient + Routed(arr, ids, |ids|, offset, General)
    ensures res.icuWaitlist == res0.icuWaitlist + Routed(arr, ids, |ids|, offset, Waitlist)
    ensures res.allocationError == res0.allocationError + Routed(arr, ids, |ids|, offset, Error)
  {
    res := res0;
    var i := 0;
    while i < |ids|
      invariant 0 <= i <= |ids|
      invariant res.icu == res0.icu + Routed(arr, ids, i, offset, Icu)
      invariant res.generalInpatient == res0.generalInpatient + Routed(arr, ids, i, offset, General)
      invariant res.icuWaitlist == res0.icuWaitlist + Routed(arr, ids, i, offset, Waitlist)
      invariant res.allocationError == res0.allocationError + Routed(arr, ids, i, offset, Error)
    {
      var k := offset + i;
      if arr[k * 3] == 1.0 {
        res := res.(icu := res.icu + [ids[i]]);
      } else if arr[k * 3 + 1] == 1.0 {
        res := res.(generalInpatient := res.generalInpatient + [ids[i]]);
      } else if arr[k * 3 + 2] == 1.0 {
        res := res.(icuWaitlist := res.icuWaitlist + [ids[i]]);
      } else {
        res := res.(allocationError := res.allocationError + [ids[i]]);
      }
      i := i + 1;
    }
  }

  /** The extraction with the existing patients read at their own columns,
      3 (Pi + j) onwards. */
  method Extract(arr: seq<real>, inIds: seq<string>, exIds: seq<string>) returns (res: Allocation)
    requires |arr| == 3 * (|inIds| + |exIds|)
    ensures res == Allocated(arr, inIds, exIds, |inIds|)
  {
    res := Allocation([], [], [], []);
    res := Route(arr, inIds, 0, res);
    res := Route(arr, exIds, |inIds|, res);
  }

  /** The extraction as written: existing patient j is read at columns 3j
      onwards, the columns of incoming patient j. */
  method ExtractAsWritten(arr: seq<real>, inIds: seq<string>, exIds: seq<string>) returns (res: Allocation)
    requires |arr| == 3 * (|inIds| + |exIds|)
    ensures res == Allocated(arr, inIds, exIds, 0)
  {
    res := Allocation([], [], [], []);
    res := Route(arr, inIds, 0, res);
    res := Route(arr, exIds, 0, res);
  }

  // ---------------------------------------------------------------------
  // Properties of the extraction

  /** An id is routed to b exactly when one of its patients falls in b. */
  lemma {:induction false} RoutedMembers(arr: seq<real>, ids: seq<string>, n: nat, offset: nat, b: Bucket, id: string)
    requires n <= |ids| && 3 * (offset + |ids|) <= |arr|
    ensures id in Routed(arr, ids, n, offset, b) <==>
      exists k :: 0 <= k < n && ids[k] == id && Decide(arr, offset + k) == b
  {
    if n > 0 {
      RoutedMembers(arr, ids, n - 1, offset, b, id);
    }
  }

  /** One more patient lengthens the list of its own bucket by one. */
  lemma RoutedLength(arr: seq<real>, ids: seq<string>, n: nat, offset: nat, b: Bucket)
    requires 0 < n <= |ids| && 3 * (offset + |ids|) <= |arr|
    ensures |Routed(arr, ids, n, offset, b)| ==
      |Routed(arr, ids, n - 1, offset, b)| + (if Decide(arr, offset + n - 1) == b then 1 else 0)
  {
  }

  /** A bucket is exactly one of the four. */
  lemma OneBucket(d: Bucket)
    ensures (if d == Icu then 1 else 0) + (if d == General then 1 else 0)
          + (if d == Waitlist then 1 else 0) + (if d == Error then 1 else 0) == 1
  {
  }

  /** Every patient lands in exactly one of the four lists. */
  lemma {:induction false} RoutedPartition(arr: seq<real>, ids: seq<string>, n: nat, offset: nat)
    requires n <= |ids| && 3 * (offset + |ids|) <= |arr|
    ensures |Routed(arr, ids, n, offset, Icu)| + |Routed(arr, ids, n, offset, General)|
          + |Routed(arr, ids, n, offset, Waitlist)| + |Routed(arr, ids, n, offset, Error)| == n
  {
    if n > 0 {
      RoutedPartition(arr, ids, n - 1, offset);
      RoutedLength(arr, ids, n, offset, Icu);
      RoutedLength(arr, ids, n, offset, General);
      RoutedLength(arr, ids, n, offset, Waitlist);
      RoutedLength(arr, ids, n, offset, Error);
      OneBucket(Decide(arr, offset + n - 1));
    }
  }

  /** The four lists of an allocation together hold one id per patient. */
  lemma AllocationPartition(arr: seq<real>, inIds: seq<string>, exIds: seq<string>, exOffset: nat)
    requires 3 * |inIds| <= |arr| && 3 * (exOffset + |exIds|) <= |arr|
    ensures var a := Allocated(arr, inIds, exIds, exOffset);
      |a.icu| + |a.generalInpatient| + |a.icuWaitlist| + |a.allocationError| == |inIds| + |exIds|
  {
    RoutedPartition(arr, inIds, |inIds|, 0);
    RoutedPartition(arr, exIds, |exIds|, exOffset);
  }

  /** Every variable is 0 or 1. */
  predicate Binary(x: seq<real>)
  {
    forall j :: 0 <= j < |x| ==> x[j] == 0.0 || x[j] == 1.0
  }

  /** A patient of a binary point taking one option in total is never an
      error, and its bucket is where its single 1 is. */
  lemma DecideIntegral(x: seq<real>, k: nat)
    requires 3 * k + 2 < |x| && Binary(x) && PatientTotal(x, k) == 1.0
    ensures Decide(x, k) != Error
    ensures x[3 * k] == (if Decide(x, k) == Icu then 1.0 else 0.0)
    ensures x[3 * k + 1] + x[3 * k + 2] == (if Decide(x, k) == Icu then 0.0 else 1.0)
  {
    assert x[3 * k] == 0.0 || x[3 * k] == 1.0;
    assert x[3 * k + 1] == 0.0 || x[3 * k + 1] == 1.0;
    assert x[3 * k + 2] == 0.0 || x[3 * k + 2] == 1.0;
  }

  /** On a binary point where patients offset .. offset + n - 1 each take one
      option: none is an error, the ICU list counts their ICU load and the
      general and waitlist lists together count their general load. */
  lemma {:induction false} RoutedLoads(x: seq<real>, ids: seq<string>, n: nat, offset: nat)
    requires n <= |ids| && 3 * (offset + |ids|) <= |x| && Binary(x)
    requires forall k :: offset <= k < offset + n ==> PatientTotal(x, k) == 1.0
    ensures Routed(x, ids, n, offset, Error) == []
    ensures |Routed(x, ids, n, offset, Icu)| as real == IcuLoad(x, offset + n) - IcuLoad(x, offset)
    ensures (|Routed(x, ids, n, offset, General)| + |Routed(x, ids, n, offset, Waitlist)|) as real
         == GeneralLoad(x, offset + n) - GeneralLoad(x, offset)
  {
    if n > 0 {
      RoutedLoads(x, ids, n - 1, offset);
      DecideIntegral(x, offset + n - 1);
    }
  }

  /** An integral feasible point of the bed problem, read back with each
      patient at its own columns, has no allocation error, fills at most
      the ICU capacity and at most the general inpatient capacity. */
  lemma IntegralSolutionRespected(lp: LinearProgram, inIds: seq<string>, exIds: seq<string>,
                                  icuCap: int, rNoicu: int, x: seq<real>)
    requires IsBedProblem(lp, |inIds| + |exIds|, icuCap, rNoicu)
    requires Feasible(lp, x) && Binary(x)
    ensures |x| == 3 * (|inIds| + |exIds|)
    ensures var a := Allocated(x, inIds, exIds, |inIds|);
      && a.allocationError == []
      && |a.icu| <= icuCap
      && |a.generalInpatient| + |a.icuWaitlist| <= rNoicu
  {
    var n := |inIds| + |exIds|;
    BedProblemFeasibility(lp, n, icuCap, rNoicu, x);
    RoutedLoads(x, inIds, |inIds|, 0);
    RoutedLoads(x, exIds, |exIds|, |inIds|);
  }

  /** With one incoming patient "a" sent to the ICU and one existing patient
      "b" sent to the general inpatient unit, the point is feasible for an
      ICU capacity of 1, yet the extraction as written reads "b" at the
      columns of "a" and lists both in the ICU; the corrected extraction
      lists "a" in the ICU and "b" in the general inpatient unit. */
  lemma AsWrittenOverfillsIcu(lp: LinearProgram)
    requires IsBedProblem(lp, 2, 1, 1)
    ensures Feasible(lp, [1.0, 0.0, 0.0, 0.0, 1.0, 0.0])
    ensures Allocated([1.0, 0.0, 0.0, 0.0, 1.0, 0.0], ["a"], ["b"], 0).icu == ["a", "b"]
    ensures Allocated([1.0, 0.0, 0.0, 0.0, 1.0, 0.0], ["a"], ["b"], 1)
      == Allocation(["a"], ["b"], [], [])
  {
    TwoPatientPointFeasible(lp);
    var x := [1.0, 0.0, 0.0, 0.0, 1.0, 0.0];
    assert Decide(x, 0) == Icu && Decide(x, 1) == General;
  }

  /** The point sending one patient to the ICU and the other to the general
      unit is feasible for one ICU bed and one other place. */
  lemma TwoPatientPointFeasible(lp: LinearProgram)
    requires IsBedProblem(lp, 2, 1, 1)
    ensures Feasible(lp, [1.0, 0.0, 0.0, 0.0, 1.0, 0.0])
  {
    var x := [1.0, 0.0, 0.0, 0.0, 1.0, 0.0];
    assert PatientTotal(x, 0) == 1.0 && PatientTotal(x, 1) == 1.0;
    assert IcuLoad(x, 2) == 1.0 && GeneralLoad(x, 2) == 1.0;
    BedProblemFeasibility(lp, 2, 1, 1, x);
  }
}
