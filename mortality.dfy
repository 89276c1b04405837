/** The severity-to-mortality mapping: a SOFA score from 0 to 24 is mapped
    to a mortality probability by a piecewise-linear table whose bands follow
    the published mortality rates (0-6 below 10%, 7-9 15-35%, 10-12 40-50%,
    13-15 55-75%, 16-24 above 80%), rounded to three decimals. */
module Mortality {

  /** Rounding half-up to thousandths, the real-number stand-in for
      rounding to three decimals. */
  function RoundThousandths(x: real): (r: real)
    ensures (r * 1000.0).Floor as real == r * 1000.0
    ensures r - 0.0005 <= x < r + 0.0005
  {
    ((x * 1000.0 + 0.5).Floor as real) / 1000.0
  }

  /** Rounding never reverses the order of two values. */
  lemma RoundThousandthsMonotone(x: real, y: real)
    requires x <= y
    ensures RoundThousandths(x) <= RoundThousandths(y)
  {
    var fx, fy := (x * 1000.0 + 0.5).Floor, (y * 1000.0 + 0.5).Floor;
    assert fx as real <= x * 1000.0 + 0.5 <= y * 1000.0 + 0.5 < fy as real + 1.0;
    assert fx <= fy;
  }

  /** A value that already has at most three decimals is left unchanged. */
  lemma RoundThousandthsExact(n: int)
    ensures RoundThousandths(n as real / 1000.0) == n as real / 1000.0
  {
    var x := n as real / 1000.0;
    assert x * 1000.0 + 0.5 == n as real + 0.5;
    assert (x * 1000.0 + 0.5).Floor == n;
  }

  /** The unrounded piecewise-linear table. */
  function LinearMortality(score: int): (r: real)
    requires 0 <= score <= 24
    ensures 0.0 <= r <= 1.0
    ensures score <= 6 ==> r <= 0.1
    ensures 16 <= score ==> 0.8 <= r
  {
    if score == 0 then 0.0
    else if 0 < score <= 6 then 0.1 / 6.0 * score as real
    else if 7 <= score <= 9 then 0.1 * score as real - 0.55
    else if 10 <= score <= 12 then 0.05 * score as real - 0.1
    else if 13 <= score <= 15 then 0.1 * score as real - 0.75
    else 0.025 * score as real + 0.4
  }

  /** The unrounded table is non-decreasing. */
  lemma LinearMortalityMonotone(a: int, b: int)
    requires 0 <= a <= b <= 24
    ensures LinearMortality(a) <= LinearMortality(b)
  {
  }

  /** The mortality probability predicted by a severity score. */
  function MortalityBySofa(score: int): (m: real)
    requires 0 <= score <= 24
    ensures 0.0 <= m <= 1.0
  {
    RoundThousandthsMonotone(0.0, LinearMortality(score));
    RoundThousandthsMonotone(LinearMortality(score), 1.0);
    RoundThousandthsExact(0);
    RoundThousandthsExact(1000);
    RoundThousandths(LinearMortality(score))
  }

  /** The mapping is non-decreasing in the score. */
  lemma MortalityMonotone(a: int, b: int)
    requires 0 <= a <= b <= 24
    ensures MortalityBySofa(a) <= MortalityBySofa(b)
  {
    LinearMortalityMonotone(a, b);
    RoundThousandthsMonotone(LinearMortality(a), LinearMortality(b));
  }

  /** The values at the ends of the scale and at the band boundaries. */
  lemma MortalityAnchors()
    ensures MortalityBySofa(0) == 0.0 && MortalityBySofa(24) == 1.0
    ensures MortalityBySofa(6) == 0.1 && MortalityBySofa(7) == 0.15
    ensures MortalityBySofa(9) == 0.35 && MortalityBySofa(10) == 0.4
    ensures MortalityBySofa(12) == 0.5 && MortalityBySofa(13) == 0.55
    ensures MortalityBySofa(15) == 0.75 && MortalityBySofa(16) == 0.8
  {
    RoundThousandthsExact(0);
    RoundThousandthsExact(1000);
    RoundThousandthsExact(100);
    RoundThousandthsExact(150);
    RoundThousandthsExact(350);
    RoundThousandthsExact(400);
    RoundThousandthsExact(500);
    RoundThousandthsExact(550);
    RoundThousandthsExact(750);
    RoundThousandthsExact(800);
    assert LinearMortality(6) == 0.1;
  }

  /** Every score falls in its documented mortality band. */
  lemma MortalityBands(score: int)
    requires 0 <= score <= 24
    ensures score <= 6 ==> MortalityBySofa(score) <= 0.1
    ensures 7 <= score <= 9 ==> 0.15 <= MortalityBySofa(score) <= 0.35
    ensures 10 <= score <= 12 ==> 0.4 <= MortalityBySofa(score) <= 0.5
    ensures 13 <= score <= 15 ==> 0.55 <= MortalityBySofa(score) <= 0.75
    ensures 16 <= score ==> 0.8 <= MortalityBySofa(score)
  {
    MortalityAnchors();
    if score <= 6 {
      MortalityMonotone(score, 6);
    } else if score <= 9 {
      MortalityMonotone(7, score);
      MortalityMonotone(score, 9);
    } else if score <= 12 {
      MortalityMonotone(10, score);
      MortalityMonotone(score, 12);
    } else if score <= 15 {
      MortalityMonotone(13, score);
      MortalityMonotone(score, 15);
    } else {
      MortalityMonotone(16, score);
    }
  }
}
