/** The value of a patient in one care setting. The life expectancy L is
    1 - M(s) plus a priority-weighted mean of the treatment effects of the
    patient's diagnoses in that setting, clamped to [0, 1]; a diagnosis with
    sequence number q has weight (1/W) * (1/q), W being the sum of 1/q over
    the patient's diagnoses. The value is w1 * L + w2 * age/100. */
module PatientValue {
  import opened Mortality
  import opened EffectStats

  /** One diagnosis of a patient: its sequence number (priority) and code. */
  datatype DiagRecord = DiagRecord(subjectId: string, seqNum: int, icdCode: string)

  /** The outcome of a lookup that fails on an unknown diagnosis code. */
  datatype Result<T> = Ok(value: T) | KeyError(missing: string)

  /** Age scaled to a fraction of a hundred years. */
  function NormalizeAge(age: int): (r: real)
    ensures r * 100.0 == age as real
    ensures 0 <= age <= 100 ==> 0.0 <= r <= 1.0
  {
    age as real / 100.0
  }

  /** The effect column a flag selects: the ICU effect, or the non-ICU one. */
  function Column(e: Effect, noIcu: bool): real
  {
    if noIcu then e.nonIcuEffect else e.icuEffect
  }

  /** Limits a value to [0, 1]. */
  function Clamp(x: real): (r: real)
    ensures 0.0 <= r <= 1.0
    ensures 0.0 <= x <= 1.0 ==> r == x
    ensures x > 1.0 ==> r == 1.0
    ensures x < 0.0 ==> r == 0.0
  {
    var upper := if x < 1.0 then x else 1.0;
    if 0.0 < upper then upper else 0.0
  }

  // ---------------------------------------------------------------------
  // Reference definitions

  /** Every sequence number is at least 1. */
  predicate PositiveSeqNums(rs: seq<DiagRecord>)
  {
    forall k :: 0 <= k < |rs| ==> rs[k].seqNum >= 1
  }

  /** Every diagnosis code is a key of the statistics. */
  predicate AllKnown(rs: seq<DiagRecord>, stats: map<string, Effect>)
  {
    forall k :: 0 <= k < |rs| ==> rs[k].icdCode in stats
  }

  /** The first diagnosis code that the statistics do not know. */
  function FirstMissingCode(rs: seq<DiagRecord>, stats: map<string, Effect>): (c: string)
    requires !AllKnown(rs, stats)
    ensures exists k ::
      && 0 <= k < |rs| && rs[k].icdCode == c && c !in stats
      && forall j :: 0 <= j < k ==> rs[j].icdCode in stats
  {
    if rs[0].icdCode !in stats then rs[0].icdCode
    else
      var c := FirstMissingCode(rs[1..], stats);
      assert forall j :: 0 <= j < |rs| - 1 ==> rs[1..][j] == rs[j + 1];
      c
  }

  /** The sum of 1/q over the first n diagnoses. */
  function WeightTotal(rs: seq<DiagRecord>, n: nat): (w: real)
    requires n <= |rs| && PositiveSeqNums(rs)
    ensures n > 0 ==> w > 0.0
    ensures w >= 0.0
  {
    if n == 0 then 0.0 else WeightTotal(rs, n - 1) + 1.0 / rs[n - 1].seqNum as real
  }

  /** The normalised weights (1/W) * (1/q) of the diagnoses, for W = w. */
  function Weights(rs: seq<DiagRecord>, w: real): (ws: seq<real>)
    requires PositiveSeqNums(rs) && w > 0.0
    ensures |ws| == |rs|
  {
    seq(|rs|, k requires 0 <= k < |rs| => (1.0 / w) * (1.0 / rs[k].seqNum as real))
  }

  /** The effect each diagnosis contributes in the selected column. */
  function Effects(rs: seq<DiagRecord>, stats: map<string, Effect>, noIcu: bool): (es: seq<real>)
    requires AllKnown(rs, stats)
    ensures |es| == |rs|
  {
    seq(|rs|, k requires 0 <= k < |rs| => Column(stats[rs[k].icdCode], noIcu))
  }

  /** The sum of the first n entries. */
  function SumTo(xs: seq<real>, n: nat): real
    requires n <= |xs|
  {
    if n == 0 then 0.0 else SumTo(xs, n - 1) + xs[n - 1]
  }

  /** The sum of the first n products ws[k] * es[k]. */
  function DotTo(ws: seq<real>, es: seq<real>, n: nat): real
    requires n <= |ws| && n <= |es|
  {
    if n == 0 then 0.0 else DotTo(ws, es, n - 1) + ws[n - 1] * es[n - 1]
  }

  /** The priority-weighted mean effect of all diagnoses, 0 when there are none. */
  function WeightedEffect(rs: seq<DiagRecord>, stats: map<string, Effect>, noIcu: bool): real
    requires PositiveSeqNums(rs) && AllKnown(rs, stats)
  {
    if |rs| == 0 then 0.0
    else DotTo(Weights(rs, WeightTotal(rs, |rs|)), Effects(rs, stats, noIcu), |rs|)
  }

  /** The clamped life expectancy of a patient in one setting. */
  function LifeExpectancy(rs: seq<DiagRecord>, stats: map<string, Effect>, sofa: int, noIcu: bool): real
    requires 0 <= sofa <= 24 && PositiveSeqNums(rs) && AllKnown(rs, stats)
  {
    Clamp(1.0 - MortalityBySofa(sofa) + WeightedEffect(rs, stats, noIcu))
  }

  // Arithmetic facts on plain reals, kept apart so that the lemmas about
  // the weights and values only do linear steps.

  /** (1/w)(1/q) is (1/q)/w, and positive for positive w and q. */
  lemma ReciprocalProduct(w: real, q: real)
    requires w > 0.0 && q > 0.0
    ensures (1.0 / w) * (1.0 / q) == (1.0 / q) / w > 0.0
  {
  }

  /** Quotients by the same positive divisor add up. */
  lemma QuotientSum(a: real, b: real, w: real)
    requires w > 0.0
    ensures a / w + b / w == (a + b) / w
  {
  }

  /** A positive number divided by itself is 1. */
  lemma QuotientSelf(w: real)
    requires w > 0.0
    ensures w / w == 1.0
  {
  }

  /** Scaling by a non-negative factor preserves order. */
  lemma ScaleMonotone(w: real, x: real, y: real)
    requires w >= 0.0 && x <= y
    ensures w * x <= w * y
  {
  }

  /** Sums of smaller terms are smaller. */
  lemma SumMonotone(x: real, y: real, x': real, y': real)
    requires x <= x' && y <= y'
    ensures x + y <= x' + y'
  {
  }

  /** The normalised weights of the first n diagnoses add up to their share
      of the raw weight total. */
  lemma {:induction false} WeightShareIsRatio(rs: seq<DiagRecord>, w: real, n: nat)
    requires n <= |rs| && PositiveSeqNums(rs) && w > 0.0
    ensures SumTo(Weights(rs, w), n) == WeightTotal(rs, n) / w
  {
    if n > 0 {
      WeightShareIsRatio(rs, w, n - 1);
      var q := rs[n - 1].seqNum as real;
      assert Weights(rs, w)[n - 1] == (1.0 / w) * (1.0 / q);
      ReciprocalProduct(w, q);
      QuotientSum(WeightTotal(rs, n - 1), 1.0 / q, w);
    }
  }

  /** Normalising by the raw total, the weights sum to 1. */
  lemma WeightsSumToOne(rs: seq<DiagRecord>)
    requires |rs| > 0 && PositiveSeqNums(rs)
    ensures SumTo(Weights(rs, WeightTotal(rs, |rs|)), |rs|) == 1.0
  {
    var w := WeightTotal(rs, |rs|);
    WeightShareIsRatio(rs, w, |rs|);
    QuotientSelf(w);
  }

  /** One normalised weight is positive. */
  lemma WeightPositive(rs: seq<DiagRecord>, w: real, k: nat)
    requires k < |rs| && PositiveSeqNums(rs) && w > 0.0
    ensures Weights(rs, w)[k] > 0.0
  {
    var q := rs[k].seqNum as real;
    ReciprocalProduct(w, q);
    assert Weights(rs, w)[k] == (1.0 / w) * (1.0 / q);
  }

  /** Every normalised weight is positive. */
  lemma WeightsPositive(rs: seq<DiagRecord>, w: real)
    requires PositiveSeqNums(rs) && w > 0.0
    ensures forall k :: 0 <= k < |rs| ==> Weights(rs, w)[k] > 0.0
  {
    forall k | 0 <= k < |rs|
      ensures Weights(rs, w)[k] > 0.0
    {
      WeightPositive(rs, w, k);
    }
  }

  /** Adding a term wk * e with wk >= 0 and e in [lo, hi] keeps a sum
      between lo and hi times its share. */
  lemma BetweenStep(lo: real, hi: real, share: real, sum: real, wk: real, e: real)
    requires lo * share <= sum <= hi * share && wk >= 0.0 && lo <= e <= hi
    ensures lo * (share + wk) <= sum + wk * e <= hi * (share + wk)
  {
    assert lo * wk <= e * wk <= hi * wk;
  }

  /** With non-negative weights and values in [lo, hi], a weighted sum lies
      between lo and hi times the sum of the weights. */
  lemma {:induction false} DotBetween(ws: seq<real>, es: seq<real>, n: nat, lo: real, hi: real)
    requires n <= |ws| == |es|
    requires forall k :: 0 <= k < |ws| ==> ws[k] >= 0.0 && lo <= es[k] <= hi
    ensures lo * SumTo(ws, n) <= DotTo(ws, es, n) <= hi * SumTo(ws, n)
  {
    if n > 0 {
      DotBetween(ws, es, n - 1, lo, hi);
      BetweenStep(lo, hi, SumTo(ws, n - 1), DotTo(ws, es, n - 1), ws[n - 1], es[n - 1]);
    }
  }

  /** The weighted effect is a convex combination: it lies between the least
      and the greatest selected effect. */
  lemma WeightedEffectBetween(rs: seq<DiagRecord>, stats: map<string, Effect>, noIcu: bool, lo: real, hi: real)
    requires |rs| > 0 && PositiveSeqNums(rs) && AllKnown(rs, stats)
    requires forall k :: 0 <= k < |rs| ==> lo <= Column(stats[rs[k].icdCode], noIcu) <= hi
    ensures lo <= WeightedEffect(rs, stats, noIcu) <= hi
  {
    var ws, es := Weights(rs, WeightTotal(rs, |rs|)), Effects(rs, stats, noIcu);
    WeightsSumToOne(rs);
    WeightsPositive(rs, WeightTotal(rs, |rs|));
    forall k | 0 <= k < |rs|
      ensures ws[k] >= 0.0 && lo <= es[k] <= hi
    {
    }
    DotBetween(ws, es, |rs|, lo, hi);
  }

  // ---------------------------------------------------------------------
  // The computation

  /** The (sequence number, selected effect) pair of each diagnosis, in order. */
  predicate PairsOf(pairs: seq<(int, real)>, rs: seq<DiagRecord>, stats: map<string, Effect>, noIcu: bool)
    requires AllKnown(rs, stats)
  {
    |pairs| == |rs| && forall k :: 0 <= k < |rs| ==> pairs[k] == (rs[k].seqNum, Column(stats[rs[k].icdCode], noIcu))
  }

  /** The lookup loop: with every code known, the pair of each diagnosis and
      the raw weight total; otherwise the KeyError of the first unknown code. */
  method CollectEffects(rs: seq<DiagRecord>, stats: map<string, Effect>, noIcu: bool)
    returns (r: Result<seq<(int, real)>>, weights: real)
    requires PositiveSeqNums(rs)
    ensures AllKnown(rs, stats) ==>
      r.Ok? && PairsOf(r.value, rs, stats, noIcu) && weights == WeightTotal(rs, |rs|)
    ensures !AllKnown(rs, stats) ==> r == KeyError(FirstMissingCode(rs, stats))
  {
    var priEffects: seq<(int, real)> := [];
    weights := 0.0;
    var i := 0;
    while i < |rs|
      invariant 0 <= i <= |rs|
      invariant forall k :: 0 <= k < i ==> rs[k].icdCode in stats
      invariant |priEffects| == i
      invariant forall k :: 0 <= k < i ==>
        priEffects[k] == (rs[k].seqNum, Column(stats[rs[k].icdCode], noIcu))
      invariant weights == WeightTotal(rs, i)
    {
      var record := rs[i];
      if record.icdCode !in stats {
        FirstMissingIsFirst(rs, stats, i);
        return KeyError(record.icdCode), weights;
      }
      priEffects := priEffects + [(record.seqNum, Column(stats[record.icdCode], noIcu))];
      weights := weights + 1.0 / record.seqNum as real;
      i := i + 1;
    }
    return Ok(priEffects), weights;
  }

  /** The summing loop: the pairs weighted by (1/W)(1/q) add up to the
      priority-weighted mean effect. */
  method WeightedSum(rs: seq<DiagRecord>, stats: map<string, Effect>, noIcu: bool,
                     priEffects: seq<(int, real)>, weights: real) returns (sum: real)
    requires PositiveSeqNums(rs) && AllKnown(rs, stats)
    requires PairsOf(priEffects, rs, stats, noIcu) && weights == WeightTotal(rs, |rs|)
    ensures sum == WeightedEffect(rs, stats, noIcu)
  {
    sum := 0.0;
    var j := 0;
    while j < |priEffects|
      invariant 0 <= j <= |priEffects|
      invariant j == 0 ==> sum == 0.0
      invariant |rs| > 0 ==> sum == DotTo(Weights(rs, weights), Effects(rs, stats, noIcu), j)
    {
      var pair := priEffects[j];
      sum := sum + (1.0 / weights) * (1.0 / pair.0 as real) * pair.1;
      j := j + 1;
    }
  }

  /** The life expectancy of a patient with diagnoses rs and score sofa in
      the ICU (noIcu false) or outside it (noIcu true). Looking up an unknown
      code fails with that code. */
  method CalculateLp(rs: seq<DiagRecord>, stats: map<string, Effect>, sofa: int, noIcu: bool) returns (r: Result<real>)
    requires 0 <= sofa <= 24 && PositiveSeqNums(rs)
    ensures AllKnown(rs, stats) ==> r == Ok(LifeExpectancy(rs, stats, sofa, noIcu))
    ensures !AllKnown(rs, stats) ==> r == KeyError(FirstMissingCode(rs, stats))
    ensures r.Ok? ==> 0.0 <= r.value <= 1.0
  {
    var pairs, weights := CollectEffects(rs, stats, noIcu);
    if pairs.KeyError? {
      return KeyError(pairs.missing);
    }
    var sum := WeightedSum(rs, stats, noIcu, pairs.value, weights);
    var lp := if 1.0 - MortalityBySofa(sofa) + sum < 1.0 then 1.0 - MortalityBySofa(sofa) + sum else 1.0;
    lp := if 0.0 < lp then lp else 0.0;
    ClampIsMinMax(1.0 - MortalityBySofa(sofa) + sum, lp);
    return Ok(lp);
  }

  /** Capping at 1 and then raising to 0 is the clamp. */
  lemma ClampIsMinMax(x: real, lp: real)
    requires lp == var u := if x < 1.0 then x else 1.0; if 0.0 < u then u else 0.0
    ensures lp == Clamp(x)
  {
  }

  /** The code at the first unknown position is the first missing code. */
  lemma FirstMissingIsFirst(rs: seq<DiagRecord>, stats: map<string, Effect>, i: nat)
    requires i < |rs| && rs[i].icdCode !in stats
    requires forall k :: 0 <= k < i ==> rs[k].icdCode in stats
    ensures !AllKnown(rs, stats) && FirstMissingCode(rs, stats) == rs[i].icdCode
  {
    var c := FirstMissingCode(rs, stats);
    var k :|
      && 0 <= k < |rs| && rs[k].icdCode == c && c !in stats
      && forall j :: 0 <= j < k ==> rs[j].icdCode in stats;
    assert k == i;
  }

  /** The value of a patient with life expectancy lp and the given age. With
      non-negative weights, a life expectancy in [0, 1] and an age of at
      most 100 years, the value lies between 0 and w1 + w2. */
  function CalculateVp(w1: real, w2: real, age: int, lp: real): (v: real)
    ensures w1 >= 0.0 && w2 >= 0.0 && 0.0 <= lp <= 1.0 && 0 <= age <= 100 ==> 0.0 <= v <= w1 + w2
  {
    var a := NormalizeAge(age);
    var v := w1 * lp + w2 * a;
    if w1 >= 0.0 && w2 >= 0.0 && 0.0 <= lp <= 1.0 && 0 <= age <= 100 then
      ProductInUnit(w1, lp);
      ProductInUnit(w2, a);
      SumInRange(w1 * lp, w2 * a, w1, w2);
      v
    else
      v
  }

  /** A non-negative weight times a fraction in [0, 1] lies between 0 and the weight. */
  lemma ProductInUnit(w: real, f: real)
    requires w >= 0.0 && 0.0 <= f <= 1.0
    ensures 0.0 <= w * f <= w
  {
    assert w * f <= w * 1.0;
  }

  /** Two terms each between 0 and a bound sum to between 0 and the sum of the bounds. */
  lemma SumInRange(x: real, y: real, xMax: real, yMax: real)
    requires 0.0 <= x <= xMax && 0.0 <= y <= yMax
    ensures 0.0 <= x + y <= xMax + yMax
  {
  }

  /** With non-negative weights, the value grows with life expectancy and age. */
  lemma ValueMonotone(w1: real, w2: real, age: int, lp: real, age': int, lp': real)
    requires w1 >= 0.0 && w2 >= 0.0 && lp <= lp' && age <= age'
    ensures CalculateVp(w1, w2, age, lp) <= CalculateVp(w1, w2, age', lp')
  {
    ScaleMonotone(w1, lp, lp');
    ScaleMonotone(w2, NormalizeAge(age), NormalizeAge(age'));
    SumMonotone(w1 * lp, w2 * NormalizeAge(age), w1 * lp', w2 * NormalizeAge(age'));
  }
}
