/** Regrouping of the incoming or existing patient rows (one per diagnosis)
    into one entry per subject. An entry's status starts as the patient type
    (0 incoming, 1 existing) and an existing patient with any row allocated
    to "INPATIENT" gets status 2; age and score come from the subject's first
    row, the allocation result from its last row, and each diagnosis code is
    kept once with the priority of its first row. */
module Regroup {
  import opened SubjectRows

  const INPATIENT := "INPATIENT"

  /** One subject of the regrouped input. */
  datatype PatientEntry = PatientEntry(
    status: int,
    icdCode: map<string, int>,
    age: int,
    sofa: int,
    result: string)

  /** Whether a row moves its subject to the inpatient status. */
  predicate Upgrades(patientType: int, row: Row)
  {
    patientType == 1 && row.allocationResult == INPATIENT
  }

  /** The status of subject sid after the first n rows, step by step. */
  function StatusOf(rows: seq<Row>, n: nat, sid: string, patientType: int): int
    requires n <= |rows| && Seen(rows, n, sid)
  {
    var before := if Seen(rows, n - 1, sid) then StatusOf(rows, n - 1, sid, patientType) else patientType;
    if rows[n - 1].subjectId == sid && Upgrades(patientType, rows[n - 1]) then 2 else before
  }

  /** The status is 2 exactly when the patients are existing ones and one of
      the subject's rows is an inpatient allocation; otherwise it is the type. */
  lemma {:induction false} StatusUpgradeIff(rows: seq<Row>, n: nat, sid: string, patientType: int)
    requires n <= |rows| && Seen(rows, n, sid)
    ensures StatusOf(rows, n, sid, patientType) ==
      if patientType == 1 && exists k :: 0 <= k < n && rows[k].subjectId == sid && rows[k].allocationResult == INPATIENT
      then 2 else patientType
  {
    if Seen(rows, n - 1, sid) {
      StatusUpgradeIff(rows, n - 1, sid, patientType);
    } else {
      NotSeen(rows, n - 1, sid);
    }
  }

  /** Once upgraded, a status stays 2 whatever rows follow. */
  lemma StatusSticky(rows: seq<Row>, n: nat, m: nat, sid: string, patientType: int)
    requires n <= m <= |rows| && Seen(rows, n, sid) && Seen(rows, m, sid)
    requires patientType == 1 && StatusOf(rows, n, sid, patientType) == 2
    ensures StatusOf(rows, m, sid, patientType) == 2
  {
    StatusUpgradeIff(rows, n, sid, patientType);
    StatusUpgradeIff(rows, m, sid, patientType);
  }

  /** The regrouped entry of subject sid after the first n rows. */
  predicate EntryUpTo(rows: seq<Row>, n: nat, sid: string, patientType: int, e: PatientEntry)
    requires n <= |rows| && Seen(rows, n, sid)
  {
    && e.status == StatusOf(rows, n, sid, patientType)
    && e.age == rows[FirstRowIndex(rows, n, sid)].age
    && e.sofa == rows[FirstRowIndex(rows, n, sid)].sofa
    && e.result == rows[LastRowIndex(rows, n, sid)].allocationResult
    && e.icdCode == CodesOf(rows, n, sid)
  }

  /** Every entry after the first i rows is that subject's entry. */
  ghost predicate EntriesUpTo(rows: seq<Row>, i: nat, patientType: int, newdata: map<string, PatientEntry>)
    requires i <= |rows| && KeysSeen(rows, i, newdata)
  {
    forall sid :: sid in newdata ==> EntryUpTo(rows, i, sid, patientType, newdata[sid])
  }

  /** The entry of a subject after one more of its rows. */
  function AddRow(existing: map<string, PatientEntry>, patientType: int, row: Row): PatientEntry
  {
    var entry :=
      if row.subjectId in existing then existing[row.subjectId]
      else PatientEntry(patientType, map[], row.age, row.sofa, "");
    var status := if Upgrades(patientType, row) then 2 else entry.status;
    var codes :=
      if row.icdDiagnose in entry.icdCode then entry.icdCode
      else entry.icdCode[row.icdDiagnose := row.diagnosePriority];
    entry.(status := status, result := row.allocationResult, icdCode := codes)
  }

  /** A row of another subject leaves an entry as it was. */
  lemma EntryKept(rows: seq<Row>, i: nat, sid: string, patientType: int, e: PatientEntry)
    requires i < |rows| && rows[i].subjectId != sid
    requires Seen(rows, i, sid) && EntryUpTo(rows, i, sid, patientType, e)
    ensures Seen(rows, i + 1, sid) && EntryUpTo(rows, i + 1, sid, patientType, e)
  {
  }

  /** One more row keeps every entry exact. */
  lemma EntriesStep(rows: seq<Row>, i: nat, patientType: int, newdata: map<string, PatientEntry>)
    requires i < |rows|
    requires KeysSeen(rows, i, newdata) && EntriesUpTo(rows, i, patientType, newdata)
    ensures KeysSeen(rows, i + 1, newdata[rows[i].subjectId := AddRow(newdata, patientType, rows[i])])
    ensures EntriesUpTo(rows, i + 1, patientType, newdata[rows[i].subjectId := AddRow(newdata, patientType, rows[i])])
  {
    var sid := rows[i].subjectId;
    var m := newdata[sid := AddRow(newdata, patientType, rows[i])];
    KeysStep(rows, i, newdata, AddRow(newdata, patientType, rows[i]));
    forall s | s in m
      ensures EntryUpTo(rows, i + 1, s, patientType, m[s])
    {
      if s != sid {
        EntryKept(rows, i, s, patientType, newdata[s]);
      } else if sid !in newdata {
        NotSeenNoCodes(rows, i, sid);
      }
    }
  }

  /** Regroups the rows of one patient type by subject. */
  method Process(patientType: int, data: seq<Row>) returns (newdata: map<string, PatientEntry>)
    ensures KeysSeen(data, |data|, newdata)
    ensures EntriesUpTo(data, |data|, patientType, newdata)
    ensures |data| == 0 ==> newdata == map[]
  {
    newdata := map[];
    var i := 0;
    while i < |data|
      invariant 0 <= i <= |data|
      invariant KeysSeen(data, i, newdata)
      invariant EntriesUpTo(data, i, patientType, newdata)
    {
      var patient := data[i];
      var sid := patient.subjectId;
      EntriesStep(data, i, patientType, newdata);
      var entry: PatientEntry;
      if sid !in newdata {
        entry := PatientEntry(patientType, map[], patient.age, patient.sofa, "");
      } else {
        entry := newdata[sid];
      }
      if patientType == 1 && patient.allocationResult == INPATIENT {
        entry := entry.(status := 2);
      }
      entry := entry.(result := patient.allocationResult);
      if patient.icdDiagnose !in entry.icdCode {
        entry := entry.(icdCode := entry.icdCode[patient.icdDiagnose := patient.diagnosePriority]);
      }
      assert entry == AddRow(newdata, patientType, patient);
      newdata := newdata[sid := entry];
      i := i + 1;
    }
    if |data| == 0 {
      assert forall sid :: sid !in newdata;
    }
  }
}
