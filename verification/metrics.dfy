/** The metric engine: gross and net emissions, carbon intensity, the
    percent-reduction-versus-baseline delta and the renewable offset share. */
module Metrics {
  import opened Records

  /** The building's floor area in square metres, a fixed constant. */
  const FloorAreaM2: real := 18000.0

  /** Sum of an emission figure over a list of categories. */
  function CategorySum(r: YearlyRecord, cats: seq<Category>): real {
    if |cats| == 0 then 0.0 else Emissions(r, cats[0]) + CategorySum(r, cats[1..])
  }

  /** Gross emissions: the four category emissions added up, before any
      renewable offset. Nothing is validated; with non-negative inputs the
      total bounds every category from above. */
  function GrossEmissions(r: YearlyRecord): (g: real)
    ensures NonNegative(r) ==> 0.0 <= g
    ensures NonNegative(r) ==> forall c :: Emissions(r, c) <= g
  {
    r.energyEmissions + r.waterEmissions + r.wasteEmissions + r.transportEmissions
  }

  /** Gross emissions are the emission total over the whole category
      enumeration, each category counted once. */
  lemma GrossIsCategoryTotal(r: YearlyRecord)
    ensures GrossEmissions(r) == CategorySum(r, Categories)
  {
    var tail3: seq<Category> := [Transport];
    var tail2: seq<Category> := [Waste, Transport];
    var tail1: seq<Category> := [Water, Waste, Transport];
    assert tail3[1..] == [];
    assert tail2[1..] == tail3;
    assert tail1[1..] == tail2;
    assert Categories[1..] == tail1;
    assert CategorySum(r, tail3) == r.transportEmissions;
    assert CategorySum(r, tail2) == r.wasteEmissions + r.transportEmissions;
    assert CategorySum(r, tail1) == r.waterEmissions + r.wasteEmissions + r.transportEmissions;
  }

  /** Python's `max(0.0, x)`. */
  function Max0(x: real): (m: real)
    ensures 0.0 <= m && x <= m
    ensures m == x || m == 0.0
  {
    if x > 0.0 then x else 0.0
  }

  /** Net emissions: gross minus the renewable offset, never reported below
      zero. An offset larger than the gross figure counts as fully offset;
      the excess is not carried anywhere. */
  function NetEmissions(r: YearlyRecord): (n: real)
    ensures 0.0 <= n
    ensures r.renewableOffset <= GrossEmissions(r) ==> n == GrossEmissions(r) - r.renewableOffset
    ensures GrossEmissions(r) <= r.renewableOffset ==> n == 0.0
  {
    Max0(GrossEmissions(r) - r.renewableOffset)
  }

  /** Net emissions never exceed gross emissions when the offset is a
      credit (non-negative), and a larger offset never raises them. */
  lemma NetBoundedByGross(r: YearlyRecord, moreOffset: real)
    requires 0.0 <= r.renewableOffset <= moreOffset
    ensures NetEmissions(r) <= Max0(GrossEmissions(r))
    ensures NetEmissions(r.(renewableOffset := moreOffset)) <= NetEmissions(r)
  {
  }

  /** Carbon intensity in kgCO2e per m2 and year from net tCO2e: the
      result spread over the floor area gives back the emissions in kg. */
  function Intensity(netTco2: real): (i: real)
    ensures i * FloorAreaM2 == netTco2 * 1000.0
  {
    (netTco2 * 1000.0) / FloorAreaM2
  }

  /** Intensity is linear in net emissions: it is zero exactly at zero,
      keeps the sign, and scales and subtracts like its argument. */
  lemma IntensityIsLinear(a: real, b: real, k: real)
    ensures Intensity(a) == 0.0 <==> a == 0.0
    ensures 0.0 <= a ==> 0.0 <= Intensity(a)
    ensures Intensity(a) - Intensity(b) == Intensity(a - b)
    ensures Intensity(k * a) == k * Intensity(a)
  {
  }

  /** Percent reduction of `current` against `baseline`, a reduction being
      positive. A zero baseline yields the neutral 0.0 instead of dividing. */
  function PercentReduction(baseline: real, current: real): (p: real)
    ensures baseline == 0.0 ==> p == 0.0
    ensures baseline != 0.0 ==> p * baseline == (baseline - current) * 100.0
  {
    if baseline != 0.0 then ((baseline - current) / baseline) * 100.0 else 0.0
  }

  /** A year equal to its baseline shows no change; a zero baseline shows
      no change whatever the current value. */
  lemma PercentReductionNeutral(baseline: real, current: real)
    ensures PercentReduction(baseline, baseline) == 0.0
    ensures PercentReduction(0.0, current) == 0.0
  {
  }

  /** For non-negative figures the delta is positive exactly when the
      current value is below the baseline, and negative exactly when it is
      above a non-zero baseline. */
  lemma PercentReductionSign(baseline: real, current: real)
    requires 0.0 <= baseline && 0.0 <= current
    ensures PercentReduction(baseline, current) > 0.0 <==> current < baseline
    ensures PercentReduction(baseline, current) < 0.0 <==> 0.0 < baseline < current
  {
    var p := PercentReduction(baseline, current);
    if baseline != 0.0 {
      assert p * baseline == (baseline - current) * 100.0;
      if p > 0.0 {
        assert current < baseline;
      }
      if current < baseline {
        assert p > 0.0;
      }
    }
  }

  /** The delta loses nothing: from a non-zero baseline and the reported
      percentage the current value is recovered. */
  lemma PercentReductionRoundTrip(baseline: real, current: real)
    requires baseline != 0.0
    ensures current == baseline * (1.0 - PercentReduction(baseline, current) / 100.0)
  {
  }

  /** Converting both figures to intensities leaves the delta unchanged, so
      the intensity KPI's delta always equals the net-emissions delta. */
  lemma IntensityDeltaEqualsNetDelta(baseline: real, current: real)
    ensures PercentReduction(Intensity(baseline), Intensity(current))
         == PercentReduction(baseline, current)
  {
    IntensityIsLinear(baseline, current, 1.0);
    if baseline != 0.0 {
      var k := 1000.0 / FloorAreaM2;
      assert Intensity(baseline) == k * baseline;
      assert Intensity(current) == k * current;
      assert (k * baseline - k * current) / (k * baseline) == (baseline - current) / baseline;
    }
  }

  /** PV plus solar-thermal generation of the year. */
  function TotalRenewables(r: YearlyRecord): (t: real)
    ensures NonNegative(r) ==> r.solarPvKwh <= t && r.solarThermalKwh <= t
    ensures t - r.solarPvKwh == r.solarThermalKwh
  {
    r.solarPvKwh + r.solarThermalKwh
  }

  /** The renewable offset as a percentage of gross emissions, or 0.0 when
      gross emissions are zero whatever the offset. */
  function OffsetShare(r: YearlyRecord): (s: real)
    ensures GrossEmissions(r) == 0.0 ==> s == 0.0
    ensures GrossEmissions(r) != 0.0 ==> s * GrossEmissions(r) == r.renewableOffset * 100.0
  {
    var gross := GrossEmissions(r);
    if gross != 0.0 then r.renewableOffset / gross * 100.0 else 0.0
  }

  /** With positive gross emissions and a non-negative offset, the share
      lies in [0, 100] exactly when the offset does not exceed gross, in
      which case it is the percent reduction from gross to net emissions;
      it reaches 100 exactly when net emissions are clamped to zero. */
  lemma OffsetShareMatchesNet(r: YearlyRecord)
    requires GrossEmissions(r) > 0.0 && 0.0 <= r.renewableOffset
    ensures 0.0 <= OffsetShare(r)
    ensures OffsetShare(r) <= 100.0 <==> r.renewableOffset <= GrossEmissions(r)
    ensures r.renewableOffset <= GrossEmissions(r) ==>
              OffsetShare(r) == PercentReduction(GrossEmissions(r), NetEmissions(r))
    ensures OffsetShare(r) >= 100.0 <==> NetEmissions(r) == 0.0
  {
    var g := GrossEmissions(r);
    var s := OffsetShare(r);
    assert s * g == r.renewableOffset * 100.0;
    assert s <= 100.0 ==> s * g <= 100.0 * g;
    assert s > 100.0 ==> s * g > 100.0 * g;
    assert s >= 100.0 ==> s * g >= 100.0 * g;
    assert s < 100.0 ==> s * g < 100.0 * g;
    if r.renewableOffset <= g {
      assert NetEmissions(r) == g - r.renewableOffset;
      var p := PercentReduction(g, NetEmissions(r));
      assert p * g == (g - (g - r.renewableOffset)) * 100.0;
    } else {
      assert NetEmissions(r) == 0.0;
    }
  }
}
