/** Worked examples of the metric layer on concrete figures. */
module Scenarios {
  import opened Results
  import opened Records
  import opened Metrics
  import opened Costs

  /** A record with the given category emissions and offset, everything
      else zero. */
  function EmissionsOnly(energy: real, water: real, waste: real, transport: real, offset: real): YearlyRecord {
    YearlyRecord(2024, 0.0, energy, 0.0, water, 0.0, waste, 0.0, transport, 0.0, 0.0, offset)
  }

  /** 10 + 2 + 1 + 0.5 tCO2e gross with a 5 t offset leaves 8.5 t net; with
      a 20 t offset net emissions clamp to zero, not to -6.5. */
  lemma GrossAndNetExample()
    ensures GrossEmissions(EmissionsOnly(10.0, 2.0, 1.0, 0.5, 5.0)) == 13.5
    ensures NetEmissions(EmissionsOnly(10.0, 2.0, 1.0, 0.5, 5.0)) == 8.5
    ensures NetEmissions(EmissionsOnly(10.0, 2.0, 1.0, 0.5, 20.0)) == 0.0
  {
  }

  /** A baseline of 100 t against 80 t is a 20 % reduction; 90 t net over
      18 000 m2 is 5 kgCO2e per m2. */
  lemma ReductionAndIntensityExample()
    ensures PercentReduction(100.0, 80.0) == 20.0
    ensures Intensity(90.0) == 5.0
  {
  }

  /** The rates table of the example: 0.25 EUR/kWh, 3 EUR/m3, 0.10 EUR/kg,
      0.05 EUR/pkm. */
  const ExampleRates: seq<CostRate> := [
    CostRate("energy", 0.25, "EUR"),
    CostRate("water", 3.0, "EUR"),
    CostRate("waste", 0.1, "EUR"),
    CostRate("transport", 0.05, "EUR")]

  /** A year consuming 1000 kWh, 200 m3, 500 kg and 3000 pkm. */
  const ExampleYear: YearlyRecord :=
    YearlyRecord(2024, 1000.0, 0.0, 200.0, 0.0, 500.0, 0.0, 3000.0, 0.0, 0.0, 0.0, 0.0)

  /** The example rates list the categories in table order. */
  lemma ExampleRatesInOrder()
    ensures |ExampleRates| == 4
    ensures forall i :: 0 <= i < 4 ==> ExampleRates[i].category == Key(Categories[i])
  {
  }

  /** The example year costs 1050 EUR a year and 21 000 EUR over the
      twenty-year horizon. */
  lemma CostExample()
    ensures BuildCost(ExampleYear, ExampleRates).Success?
    ensures BuildCost(ExampleYear, ExampleRates).value.total == 1050.0
    ensures LifeCycleCost(BuildCost(ExampleYear, ExampleRates).value.total) == 21000.0
  {
    ExampleRatesInOrder();
    TotalOfRatesInOrder(ExampleYear, ExampleRates);
    assert Price(1000.0, 0.25) == 250.0;
    assert Price(200.0, 3.0) == 600.0;
    assert Price(500.0, 0.1) == 50.0;
    assert Price(3000.0, 0.05) == 150.0;
    assert LifeCycleCost(1050.0) == 21000.0;
  }

  /** Without a waste rate the cost table cannot be built, and the error
      names waste. */
  lemma MissingWasteRateExample()
    ensures BuildCost(ExampleYear, [ExampleRates[0], ExampleRates[1], ExampleRates[3]])
         == Failure(MissingRate(Waste))
  {
    var rates := [ExampleRates[0], ExampleRates[1], ExampleRates[3]];
    assert rates[0].category == Key(Energy);
    assert rates[1].category == Key(Water);
    assert rates[2].category == Key(Transport);
    assert !HasRate(rates, Waste);
  }
}
