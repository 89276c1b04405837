/** The first pass over the raw history: rows (one per diagnosis of a
    patient) are grouped into one record per subject. A record takes its age,
    severity score, predicted mortality and death flag from the subject's
    first row, its allocation result from the subject's last row, and keeps
    each diagnosis code once with the priority of its first row. The contract
    is stated with the per-subject views of SubjectRows. */
module HistoricalStats {
  import opened Mortality
  import opened SubjectRows

  /** One subject of the grouped history: diagnosis code to priority, the
      first row's age, score, predicted mortality and death flag, and the
      last row's allocation result. */
  datatype HistPatient = HistPatient(
    icdCode: map<string, int>,
    age: int,
    sofa: int,
    mortalityBySofa: real,
    death: int,
    result: string)

  // ---------------------------------------------------------------------
  // Grouping raw rows by subject

  /** Only the first row of a subject has its score mapped to mortality, so
      only those rows need a score in 0..24. */
  predicate FirstScoresInRange(rows: seq<Row>)
  {
    forall k :: 0 <= k < |rows| && !Seen(rows, k, rows[k].subjectId) ==> 0 <= rows[k].sofa <= 24
  }

  /** The fields a grouped subject takes from its first row. */
  predicate TakesFirstRow(p: HistPatient, first: Row)
  {
    && p.age == first.age
    && p.sofa == first.sofa
    && p.death == first.deadFlag
    && 0 <= first.sofa <= 24
    && p.mortalityBySofa == MortalityBySofa(first.sofa)
  }

  /** The grouped record of subject sid after the first n rows. */
  predicate EntryUpTo(rows: seq<Row>, n: nat, sid: string, p: HistPatient)
    requires n <= |rows| && Seen(rows, n, sid)
  {
    && TakesFirstRow(p, rows[FirstRowIndex(rows, n, sid)])
    && p.result == rows[LastRowIndex(rows, n, sid)].allocationResult
    && p.icdCode == CodesOf(rows, n, sid)
  }

  /** A row of another subject leaves a grouped record as it was. */
  lemma EntryKept(rows: seq<Row>, i: nat, sid: string, p: HistPatient)
    requires i < |rows| && rows[i].subjectId != sid
    requires Seen(rows, i, sid) && EntryUpTo(rows, i, sid, p)
    ensures Seen(rows, i + 1, sid) && EntryUpTo(rows, i + 1, sid, p)
  {
  }

  /** Every grouped record after the first i rows is that subject's record. */
  ghost predicate EntriesUpTo(rows: seq<Row>, i: nat, newdata: map<string, HistPatient>)
    requires i <= |rows| && KeysSeen(rows, i, newdata)
  {
    forall sid :: sid in newdata ==> EntryUpTo(rows, i, sid, newdata[sid])
  }

  /** What a grouping loop has established after its first i rows. */
  ghost predicate Grouped(rows: seq<Row>, i: nat, newdata: map<string, HistPatient>, order: seq<string>)
    requires i <= |rows|
  {
    && KeysSeen(rows, i, newdata)
    && EntriesUpTo(rows, i, newdata)
    && order == FirstAppearances(rows, i)
  }

  /** The record of a subject after one more of its rows. */
  function AddRow(existing: map<string, HistPatient>, row: Row): HistPatient
    requires row.subjectId !in existing ==> 0 <= row.sofa <= 24
  {
    var entry :=
      if row.subjectId in existing then existing[row.subjectId]
      else HistPatient(map[], row.age, row.sofa, MortalityBySofa(row.sofa), row.deadFlag, "");
    var codes :=
      if row.icdDiagnose in entry.icdCode then entry.icdCode
      else entry.icdCode[row.icdDiagnose := row.diagnosePriority];
    entry.(icdCode := codes, result := row.allocationResult)
  }

  lemma EntriesStep(rows: seq<Row>, i: nat, newdata: map<string, HistPatient>)
    requires i < |rows| && FirstScoresInRange(rows)
    requires KeysSeen(rows, i, newdata) && EntriesUpTo(rows, i, newdata)
    ensures rows[i].subjectId !in newdata ==> 0 <= rows[i].sofa <= 24
    ensures KeysSeen(rows, i + 1, newdata[rows[i].subjectId := AddRow(newdata, rows[i])])
    ensures EntriesUpTo(rows, i + 1, newdata[rows[i].subjectId := AddRow(newdata, rows[i])])
  {
    var sid := rows[i].subjectId;
    var m := newdata[sid := AddRow(newdata, rows[i])];
    KeysStep(rows, i, newdata, AddRow(newdata, rows[i]));
    forall s | s in m
      ensures EntryUpTo(rows, i + 1, s, m[s])
    {
      if s != sid {
        EntryKept(rows, i, s, newdata[s]);
      } else if sid !in newdata {
        NotSeenNoCodes(rows, i, sid);
      }
    }
  }

  /** The record of the row's subject after the row, built as the grouping
      loop builds it: created from the row when the subject is new, then
      given the row's code if new and the row's result. */
  method UpdateEntry(newdata: map<string, HistPatient>, row: Row) returns (entry: HistPatient)
    requires row.subjectId !in newdata ==> 0 <= row.sofa <= 24
    ensures entry == AddRow(newdata, row)
  {
    if row.subjectId !in newdata {
      entry := HistPatient(map[], row.age, row.sofa, MortalityBySofa(row.sofa), row.deadFlag, "");
    } else {
      entry := newdata[row.subjectId];
    }
    if row.icdDiagnose !in entry.icdCode {
      entry := entry.(icdCode := entry.icdCode[row.icdDiagnose := row.diagnosePriority]);
    }
    entry := entry.(result := row.allocationResult);
  }

  /** Before any row, nothing is grouped. */
  lemma GroupedEmpty(rows: seq<Row>)
    ensures Grouped(rows, 0, map[], [])
  {
  }

  /** A subject not yet grouped is at its first row, whose score is in range. */
  lemma NewSubjectScore(rows: seq<Row>, i: nat, newdata: map<string, HistPatient>, order: seq<string>)
    requires i < |rows| && FirstScoresInRange(rows) && Grouped(rows, i, newdata, order)
    ensures rows[i].subjectId !in newdata ==> 0 <= rows[i].sofa <= 24
  {
  }

  /** One more row, its subject's record replaced by entry and the subject
      appended to the order when it is new, keeps the grouping exact. */
  lemma GroupedStep(rows: seq<Row>, i: nat, newdata: map<string, HistPatient>, order: seq<string>,
                    entry: HistPatient, newdata': map<string, HistPatient>, order': seq<string>)
    requires i < |rows| && FirstScoresInRange(rows) && Grouped(rows, i, newdata, order)
    requires rows[i].subjectId !in newdata ==> 0 <= rows[i].sofa <= 24
    requires entry == AddRow(newdata, rows[i])
    requires newdata' == newdata[rows[i].subjectId := entry]
    requires order' == if rows[i].subjectId in newdata then order else order + [rows[i].subjectId]
    ensures Grouped(rows, i + 1, newdata', order')
  {
    EntriesStep(rows, i, newdata);
  }

  /** Groups the raw history by subject. Returns the grouped records and the
      subjects in order of first appearance (the order in which the grouped
      records are later read back). */
  method GroupHistory(rows: seq<Row>) returns (newdata: map<string, HistPatient>, order: seq<string>)
    requires FirstScoresInRange(rows)
    ensures Grouped(rows, |rows|, newdata, order)
  {
    newdata := map[];
    order := [];
    GroupedEmpty(rows);
    var i := 0;
    while i < |rows|
      invariant 0 <= i <= |rows|
      invariant Grouped(rows, i, newdata, order)
    {
      var row := rows[i];
      var sid := row.subjectId;
      NewSubjectScore(rows, i, newdata, order);
      var entry := UpdateEntry(newdata, row);
      var newdata0, order0 := newdata, order;
      order := if sid in newdata then order else order + [sid];
      newdata := newdata[sid := entry];
      GroupedStep(rows, i, newdata0, order0, entry, newdata, order);
      i := i + 1;
    }
  }
}
