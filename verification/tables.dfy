/** The two year-by-year trend tables: the historical overview and the
    on-site renewables table. Both list the records by ascending year. */
module Tables {
  import opened Records
  import opened Metrics
  import opened Ordering

  /** One row of the historical overview: consumption in whole units,
      emissions as stored, and the derived net emissions. */
  datatype HistoricalRow = HistoricalRow(
    year: int,
    energyKwh: int, energyTco2: real,
    waterM3: int, waterTco2: real,
    wasteKg: int, wasteTco2: real,
    transportPkm: int, transportTco2: real,
    offsetTco2: real,
    netTco2: real)

  /** What it means for a historical row to display a record: same year,
      each consumption figure truncated to a whole number, each emission
      figure and the offset unchanged. */
  predicate ShowsHistorical(row: HistoricalRow, r: YearlyRecord) {
    && row.year == r.year
    && Truncates(row.energyKwh, r.energyConsumption)
    && Truncates(row.waterM3, r.waterConsumption)
    && Truncates(row.wasteKg, r.wasteConsumption)
    && Truncates(row.transportPkm, r.transportConsumption)
    && row.energyTco2 == r.energyEmissions
    && row.waterTco2 == r.waterEmissions
    && row.wasteTco2 == r.wasteEmissions
    && row.transportTco2 == r.transportEmissions
    && row.offsetTco2 == r.renewableOffset
  }

  /** The historical row of one record. */
  function HistoricalRowOf(r: YearlyRecord): (row: HistoricalRow)
    ensures row.year == r.year
    ensures ShowsHistorical(row, r)
    ensures row.netTco2 == NetEmissions(r)
  {
    HistoricalRow(
      r.year,
      TruncToInt(r.energyConsumption), r.energyEmissions,
      TruncToInt(r.waterConsumption), r.waterEmissions,
      TruncToInt(r.wasteConsumption), r.wasteEmissions,
      TruncToInt(r.transportConsumption), r.transportEmissions,
      r.renewableOffset,
      NetEmissions(r))
  }

  /** Every historical row is internally consistent: its net column is its
      own emission columns minus its offset column, floored at zero, and
      never negative. */
  lemma HistoricalRowConsistent(r: YearlyRecord)
    ensures var row := HistoricalRowOf(r);
      && 0.0 <= row.netTco2
      && row.netTco2 == Max0(row.energyTco2 + row.waterTco2 + row.wasteTco2
                             + row.transportTco2 - row.offsetTco2)
  {
  }

  /** The historical overview: one row per record, by ascending year (and
      strictly ascending when years are unique), row i showing the i-th
      record in year order together with its net emissions. */
  function BuildHistorical(records: seq<YearlyRecord>): (rows: seq<HistoricalRow>)
    ensures |rows| == |records|
    ensures forall i, j :: 0 <= i < j < |rows| ==> rows[i].year <= rows[j].year
    ensures UniqueYears(records) ==> forall i, j :: 0 <= i < j < |rows| ==> rows[i].year < rows[j].year
    ensures forall i :: 0 <= i < |rows| ==> ShowsHistorical(rows[i], SortByYear(records)[i])
    ensures forall i :: 0 <= i < |rows| ==> rows[i].netTco2 == NetEmissions(SortByYear(records)[i])
  {
    SortedRows(records, HistoricalRowOf)
  }

  /** Each row of the table shows some input record. */
  lemma HistoricalRowsFromRecords(records: seq<YearlyRecord>)
    ensures var rows := BuildHistorical(records);
      forall i :: 0 <= i < |rows| ==> exists k :: 0 <= k < |records| && rows[i] == HistoricalRowOf(records[k])
  {
    assert BuildHistorical(records) == SortedRows(records, HistoricalRowOf);
    SortedRowsFromRecords(records, HistoricalRowOf);
  }

  /** Every input record is shown by some row of the table. */
  lemma HistoricalRowsCoverRecords(records: seq<YearlyRecord>)
    ensures var rows := BuildHistorical(records);
      forall k :: 0 <= k < |records| ==> exists i :: 0 <= i < |rows| && rows[i] == HistoricalRowOf(records[k])
  {
    assert BuildHistorical(records) == SortedRows(records, HistoricalRowOf);
    RecordsInSortedRows(records, HistoricalRowOf);
  }

  /** One row of the renewables table. */
  datatype RenewablesRow = RenewablesRow(
    year: int,
    pvKwh: int,
    thermalKwh: int,
    totalKwh: int,
    offsetTco2: real,
    sharePct: real)

  /** What it means for a renewables row to display a record: the
      generation figures truncated (the total truncated after adding), the
      offset unchanged, and the share the offset's percentage of gross
      emissions (0.0 when gross emissions are zero). */
  predicate ShowsRenewables(row: RenewablesRow, r: YearlyRecord) {
    && row.year == r.year
    && Truncates(row.pvKwh, r.solarPvKwh)
    && Truncates(row.thermalKwh, r.solarThermalKwh)
    && Truncates(row.totalKwh, r.solarPvKwh + r.solarThermalKwh)
    && row.offsetTco2 == r.renewableOffset
    && (GrossEmissions(r) == 0.0 ==> row.sharePct == 0.0)
    && (GrossEmissions(r) != 0.0 ==> row.sharePct * GrossEmissions(r) == r.renewableOffset * 100.0)
  }

  /** The renewables row of one record. */
  function RenewablesRowOf(r: YearlyRecord): (row: RenewablesRow)
    ensures row.year == r.year
    ensures ShowsRenewables(row, r)
  {
    RenewablesRow(
      r.year,
      TruncToInt(r.solarPvKwh),
      TruncToInt(r.solarThermalKwh),
      TruncToInt(TotalRenewables(r)),
      r.renewableOffset,
      OffsetShare(r))
  }

  /** The total column truncates the sum rather than adding the truncated
      columns, so for non-negative generation it is their sum or one more. */
  lemma RenewablesTotalWithinOne(r: YearlyRecord)
    requires 0.0 <= r.solarPvKwh && 0.0 <= r.solarThermalKwh
    ensures var row := RenewablesRowOf(r);
      row.totalKwh == row.pvKwh + row.thermalKwh || row.totalKwh == row.pvKwh + row.thermalKwh + 1
  {
  }

  /** The renewables table: one row per record, by ascending year (strictly
      when years are unique), row i showing the i-th record in year order. */
  function BuildRenewables(records: seq<YearlyRecord>): (rows: seq<RenewablesRow>)
    ensures |rows| == |records|
    ensures forall i, j :: 0 <= i < j < |rows| ==> rows[i].year <= rows[j].year
    ensures UniqueYears(records) ==> forall i, j :: 0 <= i < j < |rows| ==> rows[i].year < rows[j].year
    ensures forall i :: 0 <= i < |rows| ==> ShowsRenewables(rows[i], SortByYear(records)[i])
  {
    SortedRows(records, RenewablesRowOf)
  }

  /** Each row of the table shows some input record. */
  lemma RenewablesRowsFromRecords(records: seq<YearlyRecord>)
    ensures var rows := BuildRenewables(records);
      forall i :: 0 <= i < |rows| ==> exists k :: 0 <= k < |records| && rows[i] == RenewablesRowOf(records[k])
  {
    assert BuildRenewables(records) == SortedRows(records, RenewablesRowOf);
    SortedRowsFromRecords(records, RenewablesRowOf);
  }

  /** Every input record is shown by some row of the table. */
  lemma RenewablesRowsCoverRecords(records: seq<YearlyRecord>)
    ensures var rows := BuildRenewables(records);
      forall k :: 0 <= k < |records| ==> exists i :: 0 <= i < |rows| && rows[i] == RenewablesRowOf(records[k])
  {
    assert BuildRenewables(records) == SortedRows(records, RenewablesRowOf);
    RecordsInSortedRows(records, RenewablesRowOf);
  }

  /** Both tables list the same years in the same order, and the
      historical table's first row is the baseline year. */
  lemma TablesAgreeOnYears(records: seq<YearlyRecord>)
    ensures |BuildHistorical(records)| == |BuildRenewables(records)|
    ensures forall i :: 0 <= i < |records| ==>
      BuildHistorical(records)[i].year == BuildRenewables(records)[i].year
    ensures |records| > 0 ==> BuildHistorical(records)[0].year == MinYear(records)
  {
    if |records| > 0 {
      MinYearIsFirstSorted(records);
    }
  }
}
