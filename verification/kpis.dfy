/** The headline KPI figures for a reporting year, each with its change
    against the baseline (the earliest year on record). */
module Kpis {
  import opened Results
  import opened Records
  import opened Frames
  import opened Metrics
  import opened Ordering

  /** Why no KPIs can be shown: the yearly table is empty (the dashboard
      stops rendering), or the reporting year has no record. */
  datatype KpiError = NoYearlyData | YearNotFound(year: int)

  /** The four KPI cards' figures and the two records they come from. */
  datatype KpiCards = KpiCards(
    baselineYear: int,
    current: YearlyRecord,
    baseline: YearlyRecord,
    netEm: real, baselineNet: real, deltaNet: real,
    netIntensity: real, baselineIntensity: real, deltaIntensity: real,
    energyCons: real, baselineEnergyCons: real, deltaEnergy: real,
    grossEm: real, offset: real, offsetShare: real)

  /** `r` is the first record, in table order, of year `y`: the row that
      `frame[frame["year"] == y].iloc[0]` selects. */
  predicate FirstOfYear(records: seq<YearlyRecord>, r: YearlyRecord, y: int) {
    exists i :: 0 <= i < |records| && records[i] == r && r.year == y
      && forall j :: 0 <= j < i ==> records[j].year != y
  }

  /** The first record of a year, or None when the year has none. */
  function RecordOfYear(records: seq<YearlyRecord>, y: int): (o: Option<YearlyRecord>)
    ensures o.Some? ==> FirstOfYear(records, o.value, y)
    ensures o.None? <==> y !in Years(records)
  {
    match FirstMatch(records, (r: YearlyRecord) => r.year == y)
    case None =>
      assert forall e :: e in records ==> e.year != y;
      None
    case Some(i) =>
      assert records[i] in records;
      Some(records[i])
  }

  /** The KPI cards computed from the reporting year's record and the
      baseline record: net emissions, net intensity and energy consumption
      each compared with the baseline as a percent reduction (positive for
      an improvement), and the offset shown as a share of gross emissions.
      The intensity delta always equals the net-emissions delta, and a
      record compared with itself shows no change. */
  function CardsFor(current: YearlyRecord, baseline: YearlyRecord, baselineYear: int): (k: KpiCards)
    ensures k.current == current && k.baseline == baseline && k.baselineYear == baselineYear
    ensures k.netEm == NetEmissions(current) && k.baselineNet == NetEmissions(baseline)
    ensures k.deltaNet == PercentReduction(k.baselineNet, k.netEm)
    ensures k.deltaNet > 0.0 <==> k.netEm < k.baselineNet
    ensures k.netIntensity * FloorAreaM2 == k.netEm * 1000.0
    ensures k.baselineIntensity * FloorAreaM2 == k.baselineNet * 1000.0
    ensures k.deltaIntensity == k.deltaNet
    ensures k.energyCons == current.energyConsumption
    ensures k.baselineEnergyCons == baseline.energyConsumption
    ensures k.deltaEnergy == PercentReduction(k.baselineEnergyCons, k.energyCons)
    ensures NonNegative(current) && NonNegative(baseline) ==>
      (k.deltaEnergy > 0.0 <==> k.energyCons < k.baselineEnergyCons)
    ensures NonNegative(current) && NonNegative(baseline) ==>
      (k.deltaEnergy < 0.0 <==> 0.0 < k.baselineEnergyCons < k.energyCons)
    ensures k.grossEm == GrossEmissions(current) && k.offset == current.renewableOffset
    ensures k.offsetShare == OffsetShare(current)
    ensures current == baseline ==> k.deltaNet == 0.0 && k.deltaIntensity == 0.0 && k.deltaEnergy == 0.0
  {
    var netEm := NetEmissions(current);
    var baselineNet := NetEmissions(baseline);
    var netIntensity := Intensity(netEm);
    var baselineIntensity := Intensity(baselineNet);
    IntensityDeltaEqualsNetDelta(baselineNet, netEm);
    PercentReductionSign(baselineNet, netEm);
    PercentReductionNeutral(baselineNet, netEm);
    PercentReductionNeutral(baseline.energyConsumption, current.energyConsumption);
    var deltaEnergy := PercentReduction(baseline.energyConsumption, current.energyConsumption);
    assert NonNegative(current) && NonNegative(baseline) ==>
      && (deltaEnergy > 0.0 <==> current.energyConsumption < baseline.energyConsumption)
      && (deltaEnergy < 0.0 <==> 0.0 < baseline.energyConsumption < current.energyConsumption) by {
      if NonNegative(current) && NonNegative(baseline) {
        PercentReductionSign(baseline.energyConsumption, current.energyConsumption);
      }
    }
    KpiCards(
      baselineYear, current, baseline,
      netEm, baselineNet, PercentReduction(baselineNet, netEm),
      netIntensity, baselineIntensity, PercentReduction(baselineIntensity, netIntensity),
      current.energyConsumption, baseline.energyConsumption, deltaEnergy,
      GrossEmissions(current), current.renewableOffset, OffsetShare(current))
  }

  /** The KPI block of the dashboard. With no yearly records nothing is
      shown; otherwise the baseline is the earliest year, the cards compare
      the first record of the reporting year with the first record of the
      baseline year, and a reporting year without a record is an error. */
  function ComputeKpis(records: seq<YearlyRecord>, year: int): (res: Result<KpiCards, KpiError>)
    ensures |records| == 0 <==> res == Failure(NoYearlyData)
    ensures res.Success? <==> |records| > 0 && year in Years(records)
    ensures |records| > 0 && res.Failure? ==> res.error == YearNotFound(year)
    ensures res.Success? ==> var k := res.value;
      && k.baselineYear in Years(records)
      && (forall i :: 0 <= i < |records| ==> k.baselineYear <= records[i].year)
      && FirstOfYear(records, k.current, year)
      && FirstOfYear(records, k.baseline, k.baselineYear)
      && k == CardsFor(k.current, k.baseline, k.baselineYear)
    ensures res.Success? && year == res.value.baselineYear ==> res.value.current == res.value.baseline
  {
    if |records| == 0 then Failure(NoYearlyData)
    else
      var baselineYear := MinYear(records);
      match RecordOfYear(records, year)
      case None => Failure(YearNotFound(year))
      case Some(current) =>
        var baseline := RecordOfYear(records, baselineYear).value;
        Success(CardsFor(current, baseline, baselineYear))
  }

  /** Reporting on the baseline year itself shows the baseline record and
      no change on any card. */
  lemma BaselineYearShowsNoChange(records: seq<YearlyRecord>)
    requires |records| > 0
    ensures var res := ComputeKpis(records, MinYear(records));
      && res.Success?
      && res.value.current == res.value.baseline
      && res.value.deltaNet == 0.0 && res.value.deltaIntensity == 0.0 && res.value.deltaEnergy == 0.0
  {
  }
}
