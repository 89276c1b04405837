/** Per-subject views of a sequence of input rows, as used by both
    regrouping loops of the system (the historical file and the incoming and
    existing patient files). Every view is a function of the length n of the
    row prefix already read, defined by recursion on n; the lemmas state what
    each view means in terms of row positions. */
module SubjectRows {

  /** One line of the raw input: one diagnosis of one patient. Rows of the
      historical file carry a death flag; rows of the incoming and existing
      patient files do not, and there deadFlag is ignored. */
  datatype Row = Row(
    subjectId: string,
    age: int,
    sofa: int,
    icdDiagnose: string,
    diagnosePriority: int,
    allocationResult: string,
    deadFlag: int)

  /** Whether subject sid occurs among the first n rows. */
  predicate Seen(rows: seq<Row>, n: nat, sid: string)
    requires n <= |rows|
  {
    n > 0 && (rows[n - 1].subjectId == sid || Seen(rows, n - 1, sid))
  }

  /** A subject not seen among the first n rows is named by none of them. */
  lemma {:induction false} NotSeen(rows: seq<Row>, n: nat, sid: string)
    requires n <= |rows| && !Seen(rows, n, sid)
    ensures forall j :: 0 <= j < n ==> rows[j].subjectId != sid
  {
    if n > 0 {
      NotSeen(rows, n - 1, sid);
    }
  }

  /** The position of subject sid's first row among the first n rows. */
  function FirstRowIndex(rows: seq<Row>, n: nat, sid: string): (k: nat)
    requires n <= |rows| && Seen(rows, n, sid)
    ensures k < n && rows[k].subjectId == sid
    ensures forall j :: 0 <= j < k ==> rows[j].subjectId != sid
  {
    if Seen(rows, n - 1, sid) then FirstRowIndex(rows, n - 1, sid)
    else NotSeen(rows, n - 1, sid); n - 1
  }

  /** The position of subject sid's last row among the first n rows. */
  function LastRowIndex(rows: seq<Row>, n: nat, sid: string): (k: nat)
    requires n <= |rows| && Seen(rows, n, sid)
    ensures k < n && rows[k].subjectId == sid
    ensures forall j :: k < j < n ==> rows[j].subjectId != sid
  {
    if rows[n - 1].subjectId == sid then n - 1 else LastRowIndex(rows, n - 1, sid)
  }

  /** A subject occurs among the first n rows exactly when one of them names it. */
  lemma {:induction false} SeenIffSomeRow(rows: seq<Row>, n: nat, sid: string)
    requires n <= |rows|
    ensures Seen(rows, n, sid) <==> exists k :: 0 <= k < n && rows[k].subjectId == sid
  {
    if n > 0 {
      SeenIffSomeRow(rows, n - 1, sid);
    }
  }

  /** The diagnosis codes of subject sid among the first n rows, each mapped
      to the priority of its first occurrence. */
  function CodesOf(rows: seq<Row>, n: nat, sid: string): map<string, int>
    requires n <= |rows|
  {
    if n == 0 then map[]
    else
      var codes, row := CodesOf(rows, n - 1, sid), rows[n - 1];
      if row.subjectId == sid && row.icdDiagnose !in codes
      then codes[row.icdDiagnose := row.diagnosePriority]
      else codes
  }

  /** A code is recorded for a subject exactly when one of the subject's rows
      carries it, and its priority is that of the first such row. */
  lemma {:induction false} CodesOfFirstWins(rows: seq<Row>, n: nat, sid: string, code: string)
    requires n <= |rows|
    ensures code in CodesOf(rows, n, sid) <==>
      exists k :: 0 <= k < n && rows[k].subjectId == sid && rows[k].icdDiagnose == code
    ensures code in CodesOf(rows, n, sid) ==> exists k ::
      && 0 <= k < n && rows[k].subjectId == sid && rows[k].icdDiagnose == code
      && CodesOf(rows, n, sid)[code] == rows[k].diagnosePriority
      && forall j :: 0 <= j < k ==> !(rows[j].subjectId == sid && rows[j].icdDiagnose == code)
  {
    if n > 0 {
      CodesOfFirstWins(rows, n - 1, sid, code);
    }
  }

  /** A subject not yet seen has no codes. */
  lemma {:induction false} NotSeenNoCodes(rows: seq<Row>, n: nat, sid: string)
    requires n <= |rows| && !Seen(rows, n, sid)
    ensures CodesOf(rows, n, sid) == map[]
  {
    if n > 0 {
      NotSeenNoCodes(rows, n - 1, sid);
    }
  }

  /** The first rows of the subjects keep their relative order as rows are added. */
  lemma FirstRowIndexKept(rows: seq<Row>, i: nat, sid: string)
    requires i < |rows| && Seen(rows, i, sid)
    ensures Seen(rows, i + 1, sid) && FirstRowIndex(rows, i + 1, sid) == FirstRowIndex(rows, i, sid)
  {
  }

  /** The keys of a grouping after the first i rows are exactly the subjects seen. */
  ghost predicate KeysSeen<V>(rows: seq<Row>, i: nat, newdata: map<string, V>)
    requires i <= |rows|
  {
    forall sid :: sid in newdata <==> Seen(rows, i, sid)
  }

  /** Recording the subject of the next row keeps the keys exact. */
  lemma KeysStep<V>(rows: seq<Row>, i: nat, newdata: map<string, V>, p: V)
    requires i < |rows| && KeysSeen(rows, i, newdata)
    ensures KeysSeen(rows, i + 1, newdata[rows[i].subjectId := p])
  {
  }

  /** The subjects of the first n rows, each once, in order of first appearance. */
  function FirstAppearances(rows: seq<Row>, n: nat): (order: seq<string>)
    requires n <= |rows|
  {
    if n == 0 then []
    else if Seen(rows, n - 1, rows[n - 1].subjectId) then FirstAppearances(rows, n - 1)
    else FirstAppearances(rows, n - 1) + [rows[n - 1].subjectId]
  }

  /** The listed subjects are exactly those seen, each listed once, in
      increasing position of their first rows. */
  lemma {:induction false} FirstAppearancesOrdered(rows: seq<Row>, n: nat)
    requires n <= |rows|
    ensures forall sid :: sid in FirstAppearances(rows, n) <==> Seen(rows, n, sid)
    ensures forall a, b :: 0 <= a < b < |FirstAppearances(rows, n)| ==>
      FirstRowIndex(rows, n, FirstAppearances(rows, n)[a]) < FirstRowIndex(rows, n, FirstAppearances(rows, n)[b])
  {
    if n > 0 {
      FirstAppearancesOrdered(rows, n - 1);
      var prev := FirstAppearances(rows, n - 1);
      forall k | 0 <= k < |prev|
        ensures Seen(rows, n, prev[k]) && FirstRowIndex(rows, n, prev[k]) == FirstRowIndex(rows, n - 1, prev[k])
      {
        assert prev[k] in prev;
      }
    }
  }

  /** Distinct subjects have distinct first rows, so each is listed once. */
  lemma FirstAppearancesDistinct(rows: seq<Row>, n: nat)
    requires n <= |rows|
    ensures forall a, b :: 0 <= a < b < |FirstAppearances(rows, n)| ==>
      FirstAppearances(rows, n)[a] != FirstAppearances(rows, n)[b]
  {
    FirstAppearancesOrdered(rows, n);
  }
}
