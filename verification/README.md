# Use-stage carbon dashboard — metric and table model

This project models the computational core of the use-stage carbon dashboard
(`dbl_usestage_dashboard_v0.2.py`). The dashboard reads one record per year of
building operation. Each record holds consumption and emissions for energy,
water, waste and transport, plus solar production and a renewable offset.
From these records it derives:

- gross and net emissions per year, and carbon intensity per square metre of floor area;
- the KPI cards comparing the reporting year with the baseline year, which is the earliest year on record;
- the historical overview and renewables tables, sorted by year;
- the annual operating cost table, with each category's share of the total, and the 20-year life-cycle cost;
- the comfort labels that tell whether each comfort score meets its target.

All values are modelled as mathematical reals. Python's `int()` on a float is
modelled as truncation toward zero. A pandas "first row whose column equals
the key" (`df[mask].iloc[0]`) is modelled as a search that returns the first
matching index, or nothing when no row matches. Where the script would raise
or stop, the model returns an error value instead.

Modules:

| file | module | contents |
|---|---|---|
| results.dfy | Results | `Option` and `Result` |
| records.dfy | Records | yearly, comfort and cost-rate records; the four categories; truncation |
| frames.dfy | Frames | first-match lookup over a table |
| metrics.dfy | Metrics | gross, net, intensity, percent reduction, offset share |
| ordering.dfy | Ordering | sorting by year, baseline year |
| tables.dfy | Tables | historical and renewables tables |
| costs.dfy | Costs | cost table, shares, life-cycle cost |
| kpis.dfy | Kpis | KPI cards for a reporting year against the baseline |
| comfort.dfy | Comfort | comfort indicator labels |
| scenarios.dfy | Scenarios | worked examples on concrete numbers |

## Model

| member | source | states |
|---|---|---|
| Records.CategoriesAreAnEnumeration | dbl_usestage_dashboard_v0.2.py:160-165 | the cost table's category map lists exactly four categories (energy, water, waste, transport), each exactly once, with distinct keys |
| Records.TruncToInt | dbl_usestage_dashboard_v0.2.py:121 | the whole-number columns hold the value with its fractional part dropped: within one of the value and no farther from zero |
| Records.TruncTowardZero | dbl_usestage_dashboard_v0.2.py:120-127 | truncation keeps the sign of non-negative and non-positive values, and leaves values that are already whole unchanged |
| Records.LabelCapitalisesKey | dbl_usestage_dashboard_v0.2.py:175 | the category column shows the rate key with its first letter upper-cased and the rest unchanged |
| Frames.FirstMatch | dbl_usestage_dashboard_v0.2.py:224 | the lookup returns the first row that satisfies the filter: it satisfies the filter and no earlier row does; it returns nothing exactly when no row satisfies the filter |
| Metrics.GrossEmissions | dbl_usestage_dashboard_v0.2.py:93-99 | for a record with non-negative values, gross emissions are non-negative and at least the emissions of any single category |
| Metrics.GrossIsCategoryTotal | dbl_usestage_dashboard_v0.2.py:93-99 | gross emissions equal the sum of the emissions of the four categories in the category enumeration |
| Metrics.Max0 | dbl_usestage_dashboard_v0.2.py:105 | the clamp is non-negative and at least its argument, and it is either the argument or zero |
| Metrics.NetEmissions | dbl_usestage_dashboard_v0.2.py:102-105 | net emissions are never negative; they equal gross minus offset when the offset does not exceed gross, and zero when it does |
| Metrics.NetBoundedByGross | dbl_usestage_dashboard_v0.2.py:102-105 | with a non-negative offset, net emissions never exceed (clamped) gross, and a larger offset never increases net emissions |
| Metrics.Intensity | dbl_usestage_dashboard_v0.2.py:108-110 | intensity times the 18 000 m² floor area equals net emissions in kilograms (tonnes times 1000) |
| Metrics.IntensityIsLinear | dbl_usestage_dashboard_v0.2.py:108-110 | intensity is zero exactly for zero emissions, non-negative for non-negative emissions, and commutes with differences and scaling |
| Metrics.PercentReduction | dbl_usestage_dashboard_v0.2.py:235-239 | a zero baseline gives 0; otherwise the reduction times the baseline equals 100 times (baseline − current) |
| Metrics.PercentReductionNeutral | dbl_usestage_dashboard_v0.2.py:235-239 | comparing a value with itself, or with a zero baseline, shows no change |
| Metrics.PercentReductionSign | dbl_usestage_dashboard_v0.2.py:251-255 | for non-negative values the reduction is positive iff current is below baseline, and negative iff current exceeds a positive baseline |
| Metrics.PercentReductionRoundTrip | dbl_usestage_dashboard_v0.2.py:235-239 | for a non-zero baseline the current value can be recovered from the baseline and the percentage |
| Metrics.IntensityDeltaEqualsNetDelta | dbl_usestage_dashboard_v0.2.py:241-247 | the intensity change shown on the card is always the same percentage as the net-emissions change |
| Metrics.TotalRenewables | dbl_usestage_dashboard_v0.2.py:141 | total renewables minus PV equals thermal, and for non-negative values the total is at least each component |
| Metrics.OffsetShare | dbl_usestage_dashboard_v0.2.py:257-259 | zero when gross is zero; otherwise the share times gross equals 100 times the offset |
| Metrics.OffsetShareMatchesNet | dbl_usestage_dashboard_v0.2.py:142 | for positive gross and non-negative offset, the share is non-negative; it is at most 100 iff the offset does not exceed gross, in which case it equals the percent reduction from gross to net; and it is at least 100 iff net emissions are zero |
| Ordering.SortByYear | dbl_usestage_dashboard_v0.2.py:115 | the sort is a permutation of the records, in ascending year order, and strictly ascending when years are unique |
| Ordering.InsertKeepsStrict | dbl_usestage_dashboard_v0.2.py:115 | inserting a record whose year is new into a strictly ascending sequence keeps it strictly ascending |
| Ordering.StrictlyAscendingPermutationsEqual | dbl_usestage_dashboard_v0.2.py:115 | two strictly year-ascending arrangements of the same records are identical |
| Ordering.SortIsCanonical | dbl_usestage_dashboard_v0.2.py:115 | with unique years, every strictly ascending rearrangement of the records is exactly the modelled sort, so the choice of sorting algorithm does not matter |
| Ordering.SortedRows | dbl_usestage_dashboard_v0.2.py:113-133 | a table built row by row over the sorted records has one row per record, row i rendering the i-th record in year order |
| Ordering.SortedRowsFromRecords | dbl_usestage_dashboard_v0.2.py:113-133 | every row of such a table renders some input record |
| Ordering.RecordsInSortedRows | dbl_usestage_dashboard_v0.2.py:113-133 | every input record is rendered by some row of such a table |
| Ordering.MinYear | dbl_usestage_dashboard_v0.2.py:204 | the baseline year is a year on record and no record is earlier |
| Ordering.MinYearLeadsAscending | dbl_usestage_dashboard_v0.2.py:204 | any year-ascending arrangement of the records starts at the baseline year |
| Ordering.MinYearIsFirstSorted | dbl_usestage_dashboard_v0.2.py:204 | the baseline year is the year of the first row of the year-sorted tables |
| Tables.HistoricalRowOf | dbl_usestage_dashboard_v0.2.py:116-131 | a historical row shows its record's year, truncated consumptions, emissions and offset, and its net emissions |
| Tables.HistoricalRowConsistent | dbl_usestage_dashboard_v0.2.py:116-131 | within one historical row, net equals the category emissions minus the offset when the offset does not exceed them, and is never negative |
| Tables.BuildHistorical | dbl_usestage_dashboard_v0.2.py:113-133 | one row per record, in ascending year order (strictly when years are unique), row i showing the i-th record in year order with its net emissions |
| Tables.HistoricalRowsFromRecords | dbl_usestage_dashboard_v0.2.py:113-133 | every historical row shows some input record |
| Tables.HistoricalRowsCoverRecords | dbl_usestage_dashboard_v0.2.py:113-133 | every input record is shown by some historical row |
| Tables.RenewablesRowOf | dbl_usestage_dashboard_v0.2.py:139-152 | a renewables row shows its record's year, truncated PV, thermal and total production, offset, and offset share |
| Tables.RenewablesTotalWithinOne | dbl_usestage_dashboard_v0.2.py:141-148 | for non-negative production, the truncated total is the sum of the truncated components or exceeds it by one |
| Tables.BuildRenewables | dbl_usestage_dashboard_v0.2.py:136-153 | one row per record, in ascending year order (strictly when years are unique), row i showing the i-th record in year order |
| Tables.RenewablesRowsFromRecords | dbl_usestage_dashboard_v0.2.py:136-153 | every renewables row shows some input record |
| Tables.RenewablesRowsCoverRecords | dbl_usestage_dashboard_v0.2.py:136-153 | every input record is shown by some renewables row |
| Tables.TablesAgreeOnYears | dbl_usestage_dashboard_v0.2.py:113-153 | both tables have the same length and the same year in every row, and their first row is the baseline year |
| Costs.RateIndex | dbl_usestage_dashboard_v0.2.py:169 | the rate used for a category is the first rate row with that category's key; there is none exactly when no row has that key |
| Costs.FirstRateUnique | dbl_usestage_dashboard_v0.2.py:169 | the first matching rate row is unique |
| Costs.CostLines | dbl_usestage_dashboard_v0.2.py:167-181 | lines are built for the categories in order, each showing its category, capitalised name and unit and priced by its first rate; this succeeds iff every category has a rate; otherwise the error names the first category without one |
| Costs.Shares | dbl_usestage_dashboard_v0.2.py:185-188 | with a positive total, each share times the total is 100 times the cost; otherwise every share is zero |
| Costs.SumOfScaled | dbl_usestage_dashboard_v0.2.py:186 | multiplying every figure of a column by one factor multiplies the column's sum by that factor |
| Costs.SumOfShares | dbl_usestage_dashboard_v0.2.py:185-186 | with a positive total, the shares add up to the sum of the costs scaled by 100/total |
| Costs.SharesSumTo100 | dbl_usestage_dashboard_v0.2.py:183-188 | the share column adds up to exactly 100 when the total is positive, and to 0 otherwise |
| Costs.Tabulate | dbl_usestage_dashboard_v0.2.py:183-190 | the table keeps the lines in order, its total is the sum of the annual costs, and the shares follow the positive-total rule |
| Costs.BuildCost | dbl_usestage_dashboard_v0.2.py:156-190 | the cost table exists iff every category has a rate; it then has four rows in category order, each with its capitalised name and unit and priced by the first matching rate, and its total is the sum of the annual costs; a failure names the first category, in table order, that has no rate |
| Costs.BuildCostTabulates | dbl_usestage_dashboard_v0.2.py:183-190 | a built cost table's shares are those of its annual-cost column against its total |
| Costs.RowPricedByFirstRate | dbl_usestage_dashboard_v0.2.py:168-172 | when every category has a rate the table is built, and each row's annual cost is its consumption times the unit cost of the category's first matching rate |
| Costs.RatesInTableOrder | dbl_usestage_dashboard_v0.2.py:167-172 | when the rate table starts with one row per category in category order, the cost table is built and row i is priced by rate row i |
| Costs.TotalOfRatesInOrder | dbl_usestage_dashboard_v0.2.py:184 | in that case the total is the sum of the four consumptions times their unit costs |
| Costs.BuiltSharesSumTo100 | dbl_usestage_dashboard_v0.2.py:183-188 | the share column of a built cost table adds up to 100 when its total is positive, and to 0 otherwise |
| Costs.LifeCycleCost | dbl_usestage_dashboard_v0.2.py:455-456 | the life-cycle cost is the annual total accumulated over 20 years, with no discounting |
| Costs.RepeatedCostIsProduct | dbl_usestage_dashboard_v0.2.py:455-456 | accumulating an annual cost over n years equals the annual cost times n |
| Kpis.RecordOfYear | dbl_usestage_dashboard_v0.2.py:224-225 | the row used for a year is the first record of that year; there is none exactly when the year is not on record |
| Kpis.CardsFor | dbl_usestage_dashboard_v0.2.py:232-259 | the cards show net, intensity, energy, gross, offset and offset share for the reporting year and the baseline; the net-emissions change is positive iff net emissions fell; the intensity change equals the net change; for non-negative records the energy change is positive iff consumption fell, and negative iff it rose from a positive baseline (a zero baseline shows 0); the offset share is the share of gross emissions; comparing a record with itself shows no change |
| Kpis.ComputeKpis | dbl_usestage_dashboard_v0.2.py:199-225 | the dashboard stops iff there are no yearly records; otherwise it yields cards iff the reporting year is on record; the baseline year is the earliest year on record, and both compared rows are the first records of their years |
| Kpis.BaselineYearShowsNoChange | dbl_usestage_dashboard_v0.2.py:204-255 | reporting on the baseline year itself always shows 0 % change for net emissions, intensity and energy |
| Comfort.IaqLabel | dbl_usestage_dashboard_v0.2.py:403 | "Good IAQ" iff the score is at least 85, blank otherwise |
| Comfort.ThermalLabel | dbl_usestage_dashboard_v0.2.py:409-413 | "Within comfort targets" iff at most 150 hours outside comfort, "Above target" otherwise |
| Comfort.LightingLabel | dbl_usestage_dashboard_v0.2.py:419-423 | "Good daylight & glare control" iff the score is at least 80, blank otherwise |
| Comfort.AcousticLabel | dbl_usestage_dashboard_v0.2.py:429-433 | "Good" iff the score is at least 80, "Consider noise mitigation" otherwise |
| Comfort.LabelsAreMonotone | dbl_usestage_dashboard_v0.2.py:403-433 | a record that is at least as good on every indicator keeps every favourable label |
| Comfort.ComfortSection | dbl_usestage_dashboard_v0.2.py:396-433 | the comfort section shows the labels of the first comfort record of the reporting year, and nothing exactly when that year has no comfort record |
| Scenarios.GrossAndNetExample | dbl_usestage_dashboard_v0.2.py:93-105 | emissions of 10, 2, 1 and 0.5 t give 13.5 t gross; with a 5 t offset net is 8.5 t, and with a 20 t offset net is 0 |
| Scenarios.ReductionAndIntensityExample | dbl_usestage_dashboard_v0.2.py:235-247 | a fall from 100 to 80 is a 20 % reduction, and 90 t over 18 000 m² is 5 kg/m² |
| Scenarios.CostExample | dbl_usestage_dashboard_v0.2.py:156-190 | a concrete year and rate table give an annual total of 1050 and a life-cycle cost of 21000 |
| Scenarios.MissingWasteRateExample | dbl_usestage_dashboard_v0.2.py:169 | a rate table without a waste row makes the cost table fail for the waste category |

## Left out

- Streamlit page layout, sidebar widgets, metric cards' formatting, charts (Plotly) and the static data-sources table: presentation only, with no computation to model.
- Database access (`get_connection`, `load_data`, the SQL queries): I/O. The model takes the three loaded tables as parameters.
- The sidebar's list of selectable years (line 203): the reporting year is a parameter. `Kpis.ComputeKpis` also covers a year that is not on record, which the widget never offers.
- IEEE-754 floating point: values are exact reals, so rounding in sums, divisions and the share column's total of 100 is not modelled.
- Ordering.SortByYear: pandas' default sort is not stable. The model uses a stable insertion sort. `Ordering.SortIsCanonical` shows the order is the same for any sort when years are unique; with duplicate years, the order among equal years is not modelled.
- Costs.BuildCost: the "Unit cost" column is a formatted string with three decimals and the currency (line 178). The model keeps the raw unit cost and currency.
- Costs.BuildCost: when a category has no rate, the script raises an indexing error. The model returns `MissingRate` for the first such category.
- Comfort.ComfortSection: when the reporting year has no comfort record, the script raises an indexing error. The model returns nothing.
- Kpis.ComputeKpis: an empty yearly table stops the page with an error message (lines 199-201). The model returns `NoYearlyData`.
- Python truthiness of NaN values and missing columns: the model assumes every record has every field.
