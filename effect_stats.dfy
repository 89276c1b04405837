/** The second pass over the grouped history: patients are split by care
    setting (a result of exactly "ICU" versus anything else), every diagnosis
    code of a setting accumulates a tally of patients, deaths and summed
    predicted mortality, and each code gets an expected treatment effect per
    setting, (summed mortality - deaths) / patients, or 0 where the code was
    never seen in that setting. */
module EffectStats {
  import opened SubjectRows
  import opened HistoricalStats

  /** The running totals of one diagnosis code in one care setting. */
  datatype Tally = Tally(count: nat, deaths: int, sumMortality: real)

  /** The expected treatment effect of one code: [icuEffect, nonIcuEffect]. */
  datatype Effect = Effect(icuEffect: real, nonIcuEffect: real)

  const ICU := "ICU"

  const Zero := Tally(0, 0, 0.0)

  /** Whether a patient belongs to the ICU setting (icu) or to the general
      inpatient setting (!icu). Only the exact result "ICU" counts as ICU. */
  predicate InSetting(p: HistPatient, icu: bool)
  {
    (p.result == ICU) == icu
  }

  /** One more patient added to a tally. */
  function Bump(t: Tally, p: HistPatient): Tally
  {
    Tally(t.count + 1, t.deaths + p.death, t.sumMortality + p.mortalityBySofa)
  }

  /** The tally of a code in a table, Zero when absent. */
  function Get(table: map<string, Tally>, c: string): (t: Tally)
    ensures c !in table ==> t == Zero
  {
    if c in table then table[c] else Zero
  }

  // ---------------------------------------------------------------------
  // Reference definitions

  /** Whether patient p contributes to code c in the given setting. */
  predicate Carries(p: HistPatient, icu: bool, c: string)
  {
    InSetting(p, icu) && c in p.icdCode
  }

  /** The tally of code c over the first n patients of setting icu. */
  function TallyOf(ps: seq<HistPatient>, n: nat, icu: bool, c: string): Tally
    requires n <= |ps|
  {
    if n == 0 then Zero
    else if Carries(ps[n - 1], icu, c) then Bump(TallyOf(ps, n - 1, icu, c), ps[n - 1])
    else TallyOf(ps, n - 1, icu, c)
  }

  /** The positions among the first n patients that contribute to code c. */
  function Contributors(ps: seq<HistPatient>, n: nat, icu: bool, c: string): set<nat>
    requires n <= |ps|
  {
    set k: nat | k < n && Carries(ps[k], icu, c)
  }

  /** The count of a tally is the number of contributing patients. */
  lemma {:induction false} TallyCountIsContributors(ps: seq<HistPatient>, n: nat, icu: bool, c: string)
    requires n <= |ps|
    ensures TallyOf(ps, n, icu, c).count == |Contributors(ps, n, icu, c)|
  {
    if n > 0 {
      TallyCountIsContributors(ps, n - 1, icu, c);
      var prev := Contributors(ps, n - 1, icu, c);
      if Carries(ps[n - 1], icu, c) {
        assert Contributors(ps, n, icu, c) == prev + {n - 1};
      } else {
        assert Contributors(ps, n, icu, c) == prev;
      }
    }
  }

  /** A code has a non-zero count exactly when some patient of the setting
      carries it, and a code nobody carries has the zero tally. */
  lemma {:induction false} TallySeenIffCarried(ps: seq<HistPatient>, n: nat, icu: bool, c: string)
    requires n <= |ps|
    ensures TallyOf(ps, n, icu, c).count > 0 <==> exists k :: 0 <= k < n && Carries(ps[k], icu, c)
    ensures TallyOf(ps, n, icu, c).count == 0 ==> TallyOf(ps, n, icu, c) == Zero
  {
    if n > 0 {
      TallySeenIffCarried(ps, n - 1, icu, c);
    }
  }

  /** Every patient in exactly one setting: the two counts of a code add up
      to the number of patients carrying it. */
  lemma {:induction false} SettingsPartition(ps: seq<HistPatient>, n: nat, c: string)
    requires n <= |ps|
    ensures TallyOf(ps, n, true, c).count + TallyOf(ps, n, false, c).count ==
      |set k: nat | k < n && c in ps[k].icdCode|
  {
    TallyCountIsContributors(ps, n, true, c);
    TallyCountIsContributors(ps, n, false, c);
    var both := set k: nat | k < n && c in ps[k].icdCode;
    assert both == Contributors(ps, n, true, c) + Contributors(ps, n, false, c);
    assert Contributors(ps, n, true, c) * Contributors(ps, n, false, c) == {};
  }

  /** A patient record whose death flag is 0 or 1 and whose predicted
      mortality is a probability. */
  predicate WellFormed(p: HistPatient)
  {
    0 <= p.death <= 1 && 0.0 <= p.mortalityBySofa <= 1.0
  }

  /** For well-formed patients, deaths and summed mortality never exceed the count. */
  lemma {:induction false} TallyBounds(ps: seq<HistPatient>, n: nat, icu: bool, c: string)
    requires n <= |ps|
    requires forall k :: 0 <= k < |ps| ==> WellFormed(ps[k])
    ensures var t := TallyOf(ps, n, icu, c);
      0 <= t.deaths <= t.count && 0.0 <= t.sumMortality <= t.count as real
  {
    if n > 0 {
      TallyBounds(ps, n - 1, icu, c);
    }
  }

  // ---------------------------------------------------------------------
  // Accumulation

  /** Adds one patient to every code it carries. */
  method AddPatient(table: map<string, Tally>, p: HistPatient) returns (table': map<string, Tally>)
    ensures forall c :: c in table' <==> c in table || c in p.icdCode
    ensures forall c :: c in table' ==> table'[c] == if c in p.icdCode then Bump(Get(table, c), p) else table[c]
  {
    table' := table;
    var remaining := p.icdCode.Keys;
    while remaining != {}
      invariant remaining <= p.icdCode.Keys
      invariant forall c :: c in table' <==> c in table || (c in p.icdCode && c !in remaining)
      invariant forall c :: c in table' ==>
        table'[c] == if c in p.icdCode && c !in remaining then Bump(Get(table, c), p) else table[c]
      decreases remaining
    {
      var diagnosis :| diagnosis in remaining;
      if diagnosis in table' {
        var t := table'[diagnosis];
        table' := table'[diagnosis := Tally(t.count + 1, t.deaths + p.death, t.sumMortality + p.mortalityBySofa)];
      } else {
        table' := table'[diagnosis := Tally(1, p.death, p.mortalityBySofa)];
      }
      remaining := remaining - {diagnosis};
    }
  }

  /** A table holds the tallies of the first n patients of a setting. */
  ghost predicate TableUpTo(ps: seq<HistPatient>, n: nat, icu: bool, table: map<string, Tally>)
    requires n <= |ps|
  {
    && (forall c :: c in table <==> TallyOf(ps, n, icu, c).count > 0)
    && (forall c :: c in table ==> table[c] == TallyOf(ps, n, icu, c))
  }

  /** Adding the next patient to the table of its own setting, and leaving the
      other table alone, keeps both tables exact. */
  lemma TableStep(ps: seq<HistPatient>, n: nat, icu: bool, table: map<string, Tally>, table': map<string, Tally>)
    requires n < |ps| && TableUpTo(ps, n, icu, table)
    requires InSetting(ps[n], icu) ==>
      && (forall c :: c in table' <==> c in table || c in ps[n].icdCode)
      && (forall c :: c in table' ==> table'[c] == if c in ps[n].icdCode then Bump(Get(table, c), ps[n]) else table[c])
    requires !InSetting(ps[n], icu) ==> table' == table
    ensures TableUpTo(ps, n + 1, icu, table')
  {
    forall c
      ensures c in table' <==> TallyOf(ps, n + 1, icu, c).count > 0
      ensures c in table' ==> table'[c] == TallyOf(ps, n + 1, icu, c)
    {
      if c !in table {
        TallySeenIffCarried(ps, n, icu, c);
      }
    }
  }

  /** Splits the patients by setting and tallies every code in each. */
  method Accumulate(ps: seq<HistPatient>) returns (icuTable: map<string, Tally>, inpatientTable: map<string, Tally>)
    ensures TableUpTo(ps, |ps|, true, icuTable)
    ensures TableUpTo(ps, |ps|, false, inpatientTable)
  {
    icuTable, inpatientTable := map[], map[];
    var i := 0;
    while i < |ps|
      invariant 0 <= i <= |ps|
      invariant TableUpTo(ps, i, true, icuTable)
      invariant TableUpTo(ps, i, false, inpatientTable)
    {
      var p := ps[i];
      var icu0, inp0 := icuTable, inpatientTable;
      if p.result == ICU {
        icuTable := AddPatient(icuTable, p);
      } else {
        inpatientTable := AddPatient(inpatientTable, p);
      }
      TableStep(ps, i, true, icu0, icuTable);
      TableStep(ps, i, false, inp0, inpatientTable);
      i := i + 1;
    }
  }

  // ---------------------------------------------------------------------
  // Effects

  /** The expected treatment effect of a tally with at least one patient. */
  function TreatmentEffect(t: Tally): (r: real)
    requires t.count > 0
    ensures r * t.count as real == t.sumMortality - t.deaths as real
  {
    QuotientTimes(t.sumMortality - t.deaths as real, t.count as real);
    (t.sumMortality - t.deaths as real) / t.count as real
  }

  /** A quotient by a positive divisor, multiplied back, is the dividend. */
  lemma QuotientTimes(d: real, n: real)
    requires n > 0.0
    ensures d / n * n == d
  {
  }

  /** The effect of code c in a setting over the whole history, 0 when unseen. */
  function SettingEffect(ps: seq<HistPatient>, icu: bool, c: string): real
  {
    var t := TallyOf(ps, |ps|, icu, c);
    if t.count > 0 then TreatmentEffect(t) else 0.0
  }

  /** A quotient by a positive divisor no larger in size than the dividend lies in [-1, 1]. */
  lemma QuotientBetween(d: real, n: real)
    requires n > 0.0 && -n <= d <= n
    ensures -1.0 <= d / n <= 1.0
  {
    DivideMonotone(d, n, n);
    DivideMonotone(-n, d, n);
    UnitQuotients(n);
  }

  /** n / n is 1 and -n / n is -1 for positive n. */
  lemma UnitQuotients(n: real)
    requires n > 0.0
    ensures n / n == 1.0 && (-n) / n == -1.0
  {
    assert n / n * n == n;
    assert (-n) / n * n == -n;
  }

  /** Dividing by a positive number preserves order. */
  lemma DivideMonotone(a: real, b: real, n: real)
    requires n > 0.0 && a <= b
    ensures a / n <= b / n
  {
  }

  /** With deaths and summed mortality between 0 and the count, an effect lies in [-1, 1]. */
  lemma TreatmentEffectBounds(t: Tally)
    requires t.count > 0 && 0 <= t.deaths <= t.count && 0.0 <= t.sumMortality <= t.count as real
    ensures -1.0 <= TreatmentEffect(t) <= 1.0
  {
    QuotientBetween(t.sumMortality - t.deaths as real, t.count as real);
  }

  /** For well-formed patients every effect lies in [-1, 1]. */
  lemma EffectBounds(ps: seq<HistPatient>, icu: bool, c: string)
    requires forall k :: 0 <= k < |ps| ==> WellFormed(ps[k])
    ensures -1.0 <= SettingEffect(ps, icu, c) <= 1.0
  {
    var t := TallyOf(ps, |ps|, icu, c);
    if t.count > 0 {
      TallyBounds(ps, |ps|, icu, c);
      TreatmentEffectBounds(t);
    }
  }

  /** Every death flag of the raw history is 0 or 1. */
  predicate FlagsBinary(rows: seq<Row>)
  {
    forall k :: 0 <= k < |rows| ==> 0 <= rows[k].deadFlag <= 1
  }

  /** A grouped record takes its death flag from its subject's first row and
      its predicted mortality from the mapping, so it is well formed. */
  lemma GroupedWellFormed(rows: seq<Row>, newdata: map<string, HistPatient>, order: seq<string>)
    requires Grouped(rows, |rows|, newdata, order) && FlagsBinary(rows)
    ensures forall sid :: sid in newdata ==> WellFormed(newdata[sid])
  {
    forall sid | sid in newdata
      ensures WellFormed(newdata[sid])
    {
      var first := rows[FirstRowIndex(rows, |rows|, sid)];
      assert TakesFirstRow(newdata[sid], first);
    }
  }

  /** The grouped records, read back in order of first appearance, give
      every code an effect in [-1, 1] in both settings. */
  lemma GroupedEffectsBounded(rows: seq<Row>, newdata: map<string, HistPatient>, order: seq<string>,
                              ps: seq<HistPatient>, icu: bool, c: string)
    requires Grouped(rows, |rows|, newdata, order) && FlagsBinary(rows)
    requires |ps| == |order| && forall k :: 0 <= k < |ps| ==> order[k] in newdata && ps[k] == newdata[order[k]]
    ensures -1.0 <= SettingEffect(ps, icu, c) <= 1.0
  {
    GroupedWellFormed(rows, newdata, order);
    EffectBounds(ps, icu, c);
  }

  /** Every tally of a table has at least one patient. */
  predicate NonEmptyTallies(table: map<string, Tally>)
  {
    forall c :: c in table ==> table[c].count > 0
  }

  /** Turns the two tables into one effect pair per code: the ICU effect
      first, then the inpatient effect filled in or a new pair with a zero
      ICU effect. */
  method DeriveEffects(icuTable: map<string, Tally>, inpatientTable: map<string, Tally>) returns (ep: map<string, Effect>)
    requires NonEmptyTallies(icuTable) && NonEmptyTallies(inpatientTable)
    ensures forall c :: c in ep <==> c in icuTable || c in inpatientTable
    ensures forall c :: c in ep ==>
      && ep[c].icuEffect == (if c in icuTable then TreatmentEffect(icuTable[c]) else 0.0)
      && ep[c].nonIcuEffect == (if c in inpatientTable then TreatmentEffect(inpatientTable[c]) else 0.0)
  {
    ep := map[];
    var icuLeft := icuTable.Keys;
    while icuLeft != {}
      invariant icuLeft <= icuTable.Keys
      invariant forall c :: c in ep <==> c in icuTable && c !in icuLeft
      invariant forall c :: c in ep ==> ep[c] == Effect(TreatmentEffect(icuTable[c]), 0.0)
      decreases icuLeft
    {
      var k1 :| k1 in icuLeft;
      var v1 := icuTable[k1];
      ep := ep[k1 := Effect((v1.sumMortality - v1.deaths as real) / v1.count as real, 0.0)];
      icuLeft := icuLeft - {k1};
    }
    var inpatientLeft := inpatientTable.Keys;
    while inpatientLeft != {}
      invariant inpatientLeft <= inpatientTable.Keys
      invariant forall c :: c in ep <==> c in icuTable || (c in inpatientTable && c !in inpatientLeft)
      invariant forall c :: c in ep ==>
        && ep[c].icuEffect == (if c in icuTable then TreatmentEffect(icuTable[c]) else 0.0)
        && ep[c].nonIcuEffect ==
             (if c in inpatientTable && c !in inpatientLeft then TreatmentEffect(inpatientTable[c]) else 0.0)
      decreases inpatientLeft
    {
      var k2 :| k2 in inpatientLeft;
      var v2 := inpatientTable[k2];
      var effect := (v2.sumMortality - v2.deaths as real) / v2.count as real;
      if k2 in ep {
        ep := ep[k2 := ep[k2].(nonIcuEffect := effect)];
      } else {
        ep := ep[k2 := Effect(0.0, effect)];
      }
      inpatientLeft := inpatientLeft - {k2};
    }
  }

  /** The whole second pass: the output keys are the codes carried by some
      patient, and each effect is that code's setting effect. */
  method HistoricalEffects(ps: seq<HistPatient>) returns (ep: map<string, Effect>)
    ensures forall c :: c in ep <==> exists k :: 0 <= k < |ps| && c in ps[k].icdCode
    ensures forall c :: c in ep ==>
      ep[c] == Effect(SettingEffect(ps, true, c), SettingEffect(ps, false, c))
    ensures |ps| == 0 ==> ep == map[]
  {
    var icuTable, inpatientTable := Accumulate(ps);
    ep := DeriveEffects(icuTable, inpatientTable);
    forall c
      ensures c in ep <==> exists k :: 0 <= k < |ps| && c in ps[k].icdCode
    {
      TallySeenIffCarried(ps, |ps|, true, c);
      TallySeenIffCarried(ps, |ps|, false, c);
      if exists k :: 0 <= k < |ps| && c in ps[k].icdCode {
        var k :| 0 <= k < |ps| && c in ps[k].icdCode;
        assert Carries(ps[k], true, c) || Carries(ps[k], false, c);
      }
    }
    if |ps| == 0 {
      assert forall c :: c !in ep;
    }
  }
}
