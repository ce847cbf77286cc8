/** Final ranking score of a verified candidate (backend/services/scorer.py). */
module Scorer {
  import opened Common

  const YearLo: int := 2015
  const YearHi: int := 2025
  /** The `1e-9` added to the recency denominator. */
  const Epsilon: real := 0.000000001

  function Clamp01(x: real): (r: real)
    ensures 0.0 <= r <= 1.0
    ensures 0.0 <= x <= 1.0 ==> r == x
  {
    if x < 0.0 then 0.0 else if x > 1.0 then 1.0 else x
  }

  /** Recency of a publication year: 0.3 when the year is unknown (missing or 0),
      otherwise the year clamped to [2015, 2025] and scaled into [0, 1). */
  function NormYear(year: Option<int>): (r: real)
    ensures 0.0 <= r < 1.0
    ensures (year == None || year == Some(0)) ==> r == 0.3
    ensures year.Some? && year.value != 0 && year.value <= YearLo ==> r == 0.0
    ensures year.Some? && year.value != 0 && year.value >= YearHi ==> r == 10.0 / (10.0 + Epsilon)
  {
    if year == None || year == Some(0) then 0.3
    else
      var y := if year.value < YearLo then YearLo else if year.value > YearHi then YearHi else year.value;
      (y - YearLo) as real / ((YearHi - YearLo) as real + Epsilon)
  }

  /** Weighted mixture: 0.45 relevance + 0.35 verification strength + 0.10 recency + 0.10 open access. */
  function Mix(rel: real, strength: real, year: Option<int>, isOa: bool): (r: real)
    ensures 0.0 <= r < 1.0
  {
    var oa := if isOa then 1.0 else 0.0;
    0.45 * Clamp01(rel) + 0.35 * Clamp01(strength) + 0.10 * NormYear(year) + 0.10 * oa
  }

  /** Among known years, a later publication never has a lower recency. */
  lemma NormYearMonotone(y1: int, y2: int)
    requires y1 != 0 && y2 != 0 && y1 <= y2
    ensures NormYear(Some(y1)) <= NormYear(Some(y2))
  {
  }

  /** Raising the relevance (within [0, 1]) or the verification strength never lowers the score. */
  lemma MixMonotone(rel1: real, rel2: real, s1: real, s2: real, year: Option<int>, isOa: bool)
    requires rel1 <= rel2 && s1 <= s2
    ensures Mix(rel1, s1, year, isOa) <= Mix(rel2, s2, year, isOa)
  {
  }

  /** Open access adds exactly 0.10 to an otherwise identical candidate. */
  lemma OpenAccessBonus(rel: real, strength: real, year: Option<int>)
    ensures Mix(rel, strength, year, true) == Mix(rel, strength, year, false) + 0.10
  {
  }

  /** A verified candidate (strength 1.0) outranks an unverified one (strength 0.0) of the same
      relevance and access, whatever the two publication years: recency weighs less than 0.10. */
  lemma VerifiedOutranksUnverified(rel: real, y1: Option<int>, y2: Option<int>, isOa: bool)
    ensures Mix(rel, 1.0, y1, isOa) > Mix(rel, 0.0, y2, isOa)
  {
  }
}
