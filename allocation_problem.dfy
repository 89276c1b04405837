/** The linear program of the bed allocation. Each of the N = Pi + Pe
    patients (incoming first, then existing) owns three variables, at
    columns 3k (ICU), 3k+1 (general inpatient unit) and 3k+2 (ICU waitlist).
    The objective is minus the value of the assignment; every patient takes
    exactly one option; the ICU column sum is bounded by the ICU capacity and
    the sum of the other two columns by the general inpatient capacity; every
    variable lies in [0, 1]. */
module AllocationProblem {
  import opened EffectStats
  import opened PatientValue

  /** A patient as the allocation sees one: diagnoses, severity score and age. */
  datatype Patient = Patient(records: seq<DiagRecord>, sofa: int, age: int)

  /** The program in the form the solver takes: minimise c.x subject to
      aUb x <= bUb, aEq x == bEq and bounds[j].0 <= x[j] <= bounds[j].1. */
  datatype LinearProgram = LinearProgram(
    c: seq<real>,
    aUb: seq<seq<real>>,
    bUb: seq<real>,
    aEq: seq<seq<real>>,
    bEq: seq<real>,
    bounds: seq<(real, real)>)

  // ---------------------------------------------------------------------
  // Patient values

  /** A patient whose values can be computed at all: a score in 0..24 and
      sequence numbers of at least 1. */
  predicate Admissible(p: Patient)
  {
    0 <= p.sofa <= 24 && PositiveSeqNums(p.records)
  }

  /** The value of a patient in the ICU (noIcu false) or outside it. */
  function ValueIn(p: Patient, stats: map<string, Effect>, w1: real, w2: real, noIcu: bool): real
    requires Admissible(p) && AllKnown(p.records, stats)
  {
    CalculateVp(w1, w2, p.age, LifeExpectancy(p.records, stats, p.sofa, noIcu))
  }

  /** Whether every patient's codes are known to the statistics. */
  predicate AllPatientsKnown(ps: seq<Patient>, stats: map<string, Effect>)
  {
    forall k :: 0 <= k < |ps| ==> AllKnown(ps[k].records, stats)
  }

  /** The first patient with a code the statistics do not know. */
  function FirstUnknownPatient(ps: seq<Patient>, stats: map<string, Effect>): (k: nat)
    requires !AllPatientsKnown(ps, stats)
    ensures k < |ps| && !AllKnown(ps[k].records, stats)
    ensures forall j :: 0 <= j < k ==> AllKnown(ps[j].records, stats)
  {
    if !AllKnown(ps[0].records, stats) then 0
    else
      assert forall j :: 0 <= j < |ps| - 1 ==> ps[1..][j] == ps[j + 1];
      1 + FirstUnknownPatient(ps[1..], stats)
  }

  /** The ICU and non-ICU values of one patient, as the objective loop
      computes them: life expectancy in each setting, then the value. */
  method PatientValuePair(p: Patient, stats: map<string, Effect>, w1: real, w2: real) returns (r: Result<(real, real)>)
    requires Admissible(p)
    ensures AllKnown(p.records, stats) ==>
      r == Ok((ValueIn(p, stats, w1, w2, false), ValueIn(p, stats, w1, w2, true)))
    ensures !AllKnown(p.records, stats) ==> r == KeyError(FirstMissingCode(p.records, stats))
  {
    var lpIcu := CalculateLp(p.records, stats, p.sofa, false);
    if lpIcu.KeyError? {
      return KeyError(lpIcu.missing);
    }
    var vIcu := CalculateVp(w1, w2, p.age, lpIcu.value);
    var lpNoIcu := CalculateLp(p.records, stats, p.sofa, true);
    assert lpNoIcu.Ok?;
    var vNoIcu := CalculateVp(w1, w2, p.age, lpNoIcu.value);
    return Ok((vIcu, vNoIcu));
  }

  // ---------------------------------------------------------------------
  // The objective

  /** The value pairs (ICU, non-ICU) of the first n patients. */
  function ValuePairs(ps: seq<Patient>, n: nat, stats: map<string, Effect>, w1: real, w2: real): (vs: seq<(real, real)>)
    requires n <= |ps|
    requires forall k :: 0 <= k < |ps| ==> Admissible(ps[k])
    requires forall k :: 0 <= k < n ==> AllKnown(ps[k].records, stats)
    ensures |vs| == n
  {
    seq(n, k requires 0 <= k < n => (ValueIn(ps[k], stats, w1, w2, false), ValueIn(ps[k], stats, w1, w2, true)))
  }

  /** The objective of patients with values vs: minus the ICU value at
      column 3k, minus the non-ICU value at 3k+1 and 0 at 3k+2. */
  ghost predicate IsObjective(obj: seq<real>, vs: seq<(real, real)>)
  {
    && |obj| == 3 * |vs|
    && forall k :: 0 <= k < |vs| ==>
         obj[3 * k] == -vs[k].0 && obj[3 * k + 1] == -vs[k].1 && obj[3 * k + 2] == 0.0
  }

  /** The objective of the first n patients, written with their values. */
  ghost predicate ObjectiveUpTo(obj: seq<real>, ps: seq<Patient>, n: nat, stats: map<string, Effect>, w1: real, w2: real)
    requires n <= |ps|
    requires forall k :: 0 <= k < |ps| ==> Admissible(ps[k])
    requires forall k :: 0 <= k < n ==> AllKnown(ps[k].records, stats)
  {
    && |obj| == 3 * n
    && forall k :: 0 <= k < n ==>
         && obj[3 * k] == -ValueIn(ps[k], stats, w1, w2, false)
         && obj[3 * k + 1] == -ValueIn(ps[k], stats, w1, w2, true)
         && obj[3 * k + 2] == 0.0
  }

  /** The objective of the first n patients is the objective of their value pairs. */
  lemma ObjectiveOfValues(obj: seq<real>, ps: seq<Patient>, n: nat, stats: map<string, Effect>, w1: real, w2: real)
    requires n <= |ps|
    requires forall k :: 0 <= k < |ps| ==> Admissible(ps[k])
    requires forall k :: 0 <= k < n ==> AllKnown(ps[k].records, stats)
    requires ObjectiveUpTo(obj, ps, n, stats, w1, w2)
    ensures IsObjective(obj, ValuePairs(ps, n, stats, w1, w2))
  {
  }

  /** Appending the three columns of patient n keeps the objective exact. */
  lemma ObjectiveStep(obj: seq<real>, ps: seq<Patient>, n: nat, stats: map<string, Effect>, w1: real, w2: real)
    requires n < |ps|
    requires forall k :: 0 <= k < |ps| ==> Admissible(ps[k])
    requires forall k :: 0 <= k <= n ==> AllKnown(ps[k].records, stats)
    requires ObjectiveUpTo(obj, ps, n, stats, w1, w2)
    ensures ObjectiveUpTo(obj + [-ValueIn(ps[n], stats, w1, w2, false), -ValueIn(ps[n], stats, w1, w2, true), 0.0],
                          ps, n + 1, stats, w1, w2)
  {
    var obj' := obj + [-ValueIn(ps[n], stats, w1, w2, false), -ValueIn(ps[n], stats, w1, w2, true), 0.0];
    forall k | 0 <= k < n
      ensures obj'[3 * k] == obj[3 * k] && obj'[3 * k + 1] == obj[3 * k + 1] && obj'[3 * k + 2] == obj[3 * k + 2]
    {
    }
  }

  /** One loop of the objective construction: appends the three entries of
      patients lo .. hi - 1 of ps to obj, or stops at the first of them with
      an unknown code. */
  method AppendObjective(ps: seq<Patient>, lo: nat, hi: nat, obj: seq<real>, stats: map<string, Effect>, w1: real, w2: real)
    returns (r: Result<seq<real>>)
    requires lo <= hi <= |ps|
    requires forall k :: 0 <= k < |ps| ==> Admissible(ps[k])
    requires forall k :: 0 <= k < lo ==> AllKnown(ps[k].records, stats)
    requires ObjectiveUpTo(obj, ps, lo, stats, w1, w2)
    ensures r.Ok? ==>
      && (forall k :: 0 <= k < hi ==> AllKnown(ps[k].records, stats))
      && ObjectiveUpTo(r.value, ps, hi, stats, w1, w2)
    ensures r.KeyError? ==>
      && !AllPatientsKnown(ps, stats) && FirstUnknownPatient(ps, stats) < hi
      && r == KeyError(FirstMissingCode(ps[FirstUnknownPatient(ps, stats)].records, stats))
    ensures (forall k :: lo <= k < hi ==> AllKnown(ps[k].records, stats)) ==> r.Ok?
  {
    var acc := obj;
    var i := lo;
    while i < hi
      invariant lo <= i <= hi
      invariant forall k :: 0 <= k < i ==> AllKnown(ps[k].records, stats)
      invariant ObjectiveUpTo(acc, ps, i, stats, w1, w2)
    {
      var v := PatientValuePair(ps[i], stats, w1, w2);
      if v.KeyError? {
        FirstUnknownIs(ps, stats, i);
        return KeyError(v.missing);
      }
      ObjectiveStep(acc, ps, i, stats, w1, w2);
      acc := acc + [-v.value.0, -v.value.1, 0.0];
      i := i + 1;
    }
    return Ok(acc);
  }

  /** Builds the objective over the incoming patients, then the existing
      ones. An unknown diagnosis code of the first patient having one stops
      the construction with that code. */
  method BuildObjective(incoming: seq<Patient>, existing: seq<Patient>, stats: map<string, Effect>, w1: real, w2: real)
    returns (r: Result<seq<real>>)
    requires forall k :: 0 <= k < |incoming + existing| ==> Admissible((incoming + existing)[k])
    ensures AllPatientsKnown(incoming + existing, stats) ==>
      r.Ok? && ObjectiveUpTo(r.value, incoming + existing, |incoming + existing|, stats, w1, w2)
    ensures !AllPatientsKnown(incoming + existing, stats) ==>
      var ps := incoming + existing;
      r == KeyError(FirstMissingCode(ps[FirstUnknownPatient(ps, stats)].records, stats))
  {
    var ps := incoming + existing;
    var first := AppendObjective(ps, 0, |incoming|, [], stats, w1, w2);
    if first.KeyError? {
      return first;
    }
    r := AppendObjective(ps, |incoming|, |ps|, first.value, stats, w1, w2);
  }

  /** The patient at the first unknown position is the first unknown patient. */
  lemma FirstUnknownIs(ps: seq<Patient>, stats: map<string, Effect>, i: nat)
    requires i < |ps| && !AllKnown(ps[i].records, stats)
    requires forall k :: 0 <= k < i ==> AllKnown(ps[k].records, stats)
    ensures !AllPatientsKnown(ps, stats) && FirstUnknownPatient(ps, stats) == i
  {
  }

  // ---------------------------------------------------------------------
  // The constraints

  /** A three-column pattern repeated once per patient, for n patients. */
  function Repeat3(a: real, b: real, c: real, n: nat): (r: seq<real>)
    ensures |r| == 3 * n
  {
    if n == 0 then [] else Repeat3(a, b, c, n - 1) + [a, b, c]
  }

  /** Patient k's three columns of a repeated pattern hold the pattern. */
  lemma {:induction false} Repeat3At(a: real, b: real, c: real, n: nat, k: nat)
    requires k < n
    ensures Repeat3(a, b, c, n)[3 * k] == a
    ensures Repeat3(a, b, c, n)[3 * k + 1] == b
    ensures Repeat3(a, b, c, n)[3 * k + 2] == c
  {
    if k < n - 1 {
      Repeat3At(a, b, c, n - 1, k);
    }
  }

  /** n ones. */
  function Ones(n: nat): (r: seq<real>)
    ensures |r| == n && forall j :: 0 <= j < n ==> r[j] == 1.0
  {
    seq(n, j => 1.0)
  }

  /** n zeros. */
  function Zeros(n: nat): (r: seq<real>)
    ensures |r| == n && forall j :: 0 <= j < n ==> r[j] == 0.0
  {
    seq(n, j => 0.0)
  }

  /** The equality row of patient k among n: ones at its three columns. */
  function EqRow(n: nat, k: nat): (row: seq<real>)
    ensures |row| == 3 * n
  {
    seq(3 * n, j => if j / 3 == k then 1.0 else 0.0)
  }

  /** The ICU load row and the general inpatient load row over n patients. */
  function IcuRow(n: nat): seq<real> { Repeat3(1.0, 0.0, 0.0, n) }

  function GeneralRow(n: nat): seq<real> { Repeat3(0.0, 1.0, 1.0, n) }

  /** The row the equality loop builds for patient k among n. */
  lemma EqRowBuilt(n: nat, k: nat)
    requires k < n
    ensures Zeros(3 * k) + [1.0, 1.0, 1.0] + Zeros(3 * (n - k) - 3) == EqRow(n, k)
  {
    var built := Zeros(3 * k) + [1.0, 1.0, 1.0] + Zeros(3 * (n - k) - 3);
    forall j | 0 <= j < 3 * n
      ensures built[j] == EqRow(n, k)[j]
    {
      if j < 3 * k {
        assert j / 3 < k;
      } else if j < 3 * k + 3 {
        assert j / 3 == k;
      } else {
        assert j / 3 > k;
      }
    }
  }

  /** Builds one equality row per patient, incoming first, each with
      right-hand side 1. */
  method BuildEqualities(pi: nat, pe: nat) returns (lhsEq: seq<seq<real>>, rhsEq: seq<real>)
    ensures |lhsEq| == pi + pe && forall k :: 0 <= k < pi + pe ==> lhsEq[k] == EqRow(pi + pe, k)
    ensures rhsEq == Ones(pi + pe)
  {
    lhsEq, rhsEq := [], [];
    var i := 0;
    while i < pi
      invariant 0 <= i <= pi
      invariant |lhsEq| == i && forall k :: 0 <= k < i ==> lhsEq[k] == EqRow(pi + pe, k)
      invariant |rhsEq| == i && forall k :: 0 <= k < i ==> rhsEq[k] == 1.0
    {
      EqRowBuilt(pi + pe, i);
      lhsEq := lhsEq + [Zeros(i * 3) + [1.0, 1.0, 1.0] + Zeros(3 * (pi + pe - i) - 3)];
      rhsEq := rhsEq + [1.0];
      i := i + 1;
    }
    i := 0;
    while i < pe
      invariant 0 <= i <= pe
      invariant |lhsEq| == pi + i && forall k :: 0 <= k < pi + i ==> lhsEq[k] == EqRow(pi + pe, k)
      invariant |rhsEq| == pi + i && forall k :: 0 <= k < pi + i ==> rhsEq[k] == 1.0
    {
      EqRowBuilt(pi + pe, pi + i);
      assert 3 * (pe - i) - 3 == 3 * (pi + pe - (pi + i)) - 3;
      lhsEq := lhsEq + [Zeros((pi + i) * 3) + [1.0, 1.0, 1.0] + Zeros(3 * (pe - i) - 3)];
      rhsEq := rhsEq + [1.0];
      i := i + 1;
    }
    assert rhsEq == Ones(pi + pe);
  }

  /** Builds the box bounds, (0, 1) for each of the 3n variables. */
  method BuildBounds(n: nat) returns (bnd: seq<(real, real)>)
    ensures |bnd| == 3 * n && forall j :: 0 <= j < 3 * n ==> bnd[j] == (0.0, 1.0)
  {
    bnd := [];
    var i := 0;
    while i < 3 * n
      invariant 0 <= i <= 3 * n
      invariant |bnd| == i && forall j :: 0 <= j < i ==> bnd[j] == (0.0, 1.0)
    {
      bnd := bnd + [(0.0, 1.0)];
      i := i + 1;
    }
  }

  /** The bed problem over values of n patients with the given capacities. */
  ghost predicate IsBedProblem(lp: LinearProgram, n: nat, icuCap: int, rNoicu: int)
  {
    && |lp.c| == 3 * n
    && lp.aUb == [IcuRow(n), GeneralRow(n)]
    && lp.bUb == [icuCap as real, rNoicu as real]
    && |lp.aEq| == n && (forall k :: 0 <= k < n ==> lp.aEq[k] == EqRow(n, k))
    && lp.bEq == Ones(n)
    && |lp.bounds| == 3 * n && (forall j :: 0 <= j < 3 * n ==> lp.bounds[j] == (0.0, 1.0))
  }

  /** Builds the whole program for the incoming and existing patients. */
  method BuildProblem(incoming: seq<Patient>, existing: seq<Patient>, stats: map<string, Effect>,
                      w1: real, w2: real, icuCap: int, rNoicu: int)
    returns (r: Result<LinearProgram>)
    requires forall k :: 0 <= k < |incoming + existing| ==> Admissible((incoming + existing)[k])
    ensures AllPatientsKnown(incoming + existing, stats) ==>
      && r.Ok?
      && IsBedProblem(r.value, |incoming + existing|, icuCap, rNoicu)
      && IsObjective(r.value.c, ValuePairs(incoming + existing, |incoming + existing|, stats, w1, w2))
    ensures !AllPatientsKnown(incoming + existing, stats) ==>
      var ps := incoming + existing;
      r == KeyError(FirstMissingCode(ps[FirstUnknownPatient(ps, stats)].records, stats))
  {
    var obj := BuildObjective(incoming, existing, stats, w1, w2);
    if obj.KeyError? {
      return KeyError(obj.missing);
    }
    var n := |incoming| + |existing|;
    ObjectiveOfValues(obj.value, incoming + existing, n, stats, w1, w2);
    var lhs := [Repeat3(1.0, 0.0, 0.0, n), Repeat3(0.0, 1.0, 1.0, n)];
    var rhs := [icuCap as real, rNoicu as real];
    var lhsEq, rhsEq := BuildEqualities(|incoming|, |existing|);
    var bnd := BuildBounds(n);
    return Ok(LinearProgram(obj.value, lhs, rhs, lhsEq, rhsEq, bnd));
  }

  // ---------------------------------------------------------------------
  // What a solution of the program means

  /** The sum of the ICU variables of the first m patients. */
  function IcuLoad(x: seq<real>, m: nat): real
    requires 3 * m <= |x|
  {
    if m == 0 then 0.0 else IcuLoad(x, m - 1) + x[3 * (m - 1)]
  }

  /** The sum of the general and waitlist variables of the first m patients. */
  function GeneralLoad(x: seq<real>, m: nat): real
    requires 3 * m <= |x|
  {
    if m == 0 then 0.0 else GeneralLoad(x, m - 1) + x[3 * (m - 1) + 1] + x[3 * (m - 1) + 2]
  }

  /** The total of the three variables of patient k. */
  function PatientTotal(x: seq<real>, k: nat): real
    requires 3 * k + 2 < |x|
  {
    x[3 * k] + x[3 * k + 1] + x[3 * k + 2]
  }

  /** The dot product of a row with x. */
  function Dot(row: seq<real>, x: seq<real>): real
    requires |row| == |x|
  {
    DotTo(row, x, |row|)
  }

  /** A point satisfying every constraint of a program. */
  ghost predicate Feasible(lp: LinearProgram, x: seq<real>)
  {
    && |x| == |lp.c| == |lp.bounds|
    && |lp.aUb| == |lp.bUb| && |lp.aEq| == |lp.bEq|
    && (forall i :: 0 <= i < |lp.aUb| ==> |lp.aUb[i]| == |x| && Dot(lp.aUb[i], x) <= lp.bUb[i])
    && (forall i :: 0 <= i < |lp.aEq| ==> |lp.aEq[i]| == |x| && Dot(lp.aEq[i], x) == lp.bEq[i])
    && (forall j :: 0 <= j < |x| ==> lp.bounds[j].0 <= x[j] <= lp.bounds[j].1)
  }

  /** The dot product over one more patient adds that patient's three terms. */
  lemma DotTo3(row: seq<real>, x: seq<real>, m: nat)
    requires 3 * m + 3 <= |row| && 3 * m + 3 <= |x|
    ensures DotTo(row, x, 3 * m + 3) ==
      DotTo(row, x, 3 * m) + row[3 * m] * x[3 * m] + row[3 * m + 1] * x[3 * m + 1] + row[3 * m + 2] * x[3 * m + 2]
  {
    assert DotTo(row, x, 3 * m + 3) == DotTo(row, x, 3 * m + 2) + row[3 * m + 2] * x[3 * m + 2];
    assert DotTo(row, x, 3 * m + 2) == DotTo(row, x, 3 * m + 1) + row[3 * m + 1] * x[3 * m + 1];
  }

  /** The ICU row measures the ICU load. */
  lemma {:induction false} IcuRowDot(x: seq<real>, n: nat, m: nat)
    requires |x| == 3 * n && m <= n
    ensures DotTo(IcuRow(n), x, 3 * m) == IcuLoad(x, m)
  {
    if m > 0 {
      IcuRowDot(x, n, m - 1);
      DotTo3(IcuRow(n), x, m - 1);
      Repeat3At(1.0, 0.0, 0.0, n, m - 1);
    }
  }

  /** The general row measures the general inpatient load. */
  lemma {:induction false} GeneralRowDot(x: seq<real>, n: nat, m: nat)
    requires |x| == 3 * n && m <= n
    ensures DotTo(GeneralRow(n), x, 3 * m) == GeneralLoad(x, m)
  {
    if m > 0 {
      GeneralRowDot(x, n, m - 1);
      DotTo3(GeneralRow(n), x, m - 1);
      Repeat3At(0.0, 1.0, 1.0, n, m - 1);
    }
  }

  /** The equality row of patient k measures that patient's total. */
  lemma {:induction false} EqRowDot(x: seq<real>, n: nat, k: nat, m: nat)
    requires |x| == 3 * n && k < n && m <= n
    ensures DotTo(EqRow(n, k), x, 3 * m) == if m <= k then 0.0 else PatientTotal(x, k)
  {
    if m > 0 {
      EqRowDot(x, n, k, m - 1);
      DotTo3(EqRow(n, k), x, m - 1);
      var j := 3 * (m - 1);
      assert j / 3 == m - 1 && (j + 1) / 3 == m - 1 && (j + 2) / 3 == m - 1;
    }
  }

  /** A point is feasible for the bed problem exactly when every variable is
      in [0, 1], every patient takes one option in total, and the ICU and
      general inpatient loads are within their capacities. */
  lemma BedProblemFeasibility(lp: LinearProgram, n: nat, icuCap: int, rNoicu: int, x: seq<real>)
    requires IsBedProblem(lp, n, icuCap, rNoicu)
    ensures Feasible(lp, x) <==>
      && |x| == 3 * n
      && (forall j :: 0 <= j < |x| ==> 0.0 <= x[j] <= 1.0)
      && (forall k :: 0 <= k < n ==> PatientTotal(x, k) == 1.0)
      && IcuLoad(x, n) <= icuCap as real
      && GeneralLoad(x, n) <= rNoicu as real
  {
    if |x| == 3 * n {
      IcuRowDot(x, n, n);
      GeneralRowDot(x, n, n);
      assert Dot(lp.aUb[0], x) == IcuLoad(x, n);
      assert Dot(lp.aUb[1], x) == GeneralLoad(x, n);
      forall k | 0 <= k < n
        ensures Dot(lp.aEq[k], x) == PatientTotal(x, k)
      {
        EqRowDot(x, n, k, n);
      }
      assert forall k :: 0 <= k < n ==> lp.bEq[k] == 1.0;
    }
  }

  /** The value an assignment x earns over the first m patients. */
  function AssignedValue(vs: seq<(real, real)>, x: seq<real>, m: nat): real
    requires m <= |vs| && 3 * m <= |x|
  {
    if m == 0 then 0.0
    else AssignedValue(vs, x, m - 1) + vs[m - 1].0 * x[3 * (m - 1)] + vs[m - 1].1 * x[3 * (m - 1) + 1]
  }

  /** Terms (-vi) * xi + (-vn) * xn + 0 * xw are minus the value terms. */
  lemma NegTerms(ci: real, cn: real, cw: real, vi: real, vn: real, xi: real, xn: real, xw: real)
    requires ci == -vi && cn == -vn && cw == 0.0
    ensures ci * xi + cn * xn + cw * xw == -(vi * xi + vn * xn)
  {
  }

  /** Minimising the objective maximises the assigned value: the objective
      at x is minus the value x assigns. */
  lemma {:induction false} ObjectiveIsMinusValue(obj: seq<real>, vs: seq<(real, real)>, x: seq<real>, m: nat)
    requires IsObjective(obj, vs) && |x| == |obj| && m <= |vs|
    ensures DotTo(obj, x, 3 * m) == -AssignedValue(vs, x, m)
  {
    if m > 0 {
      ObjectiveIsMinusValue(obj, vs, x, m - 1);
      var k := m - 1;
      DotTo3(obj, x, k);
      NegTerms(obj[3 * k], obj[3 * k + 1], obj[3 * k + 2], vs[k].0, vs[k].1, x[3 * k], x[3 * k + 1], x[3 * k + 2]);
    }
  }
}
