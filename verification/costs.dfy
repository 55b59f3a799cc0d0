/** The cost breakdown table: each consumption category priced at its unit
    rate, the annual total, each category's share of it, and the
    undiscounted life-cycle projection of the total. */
module Costs {
  import opened Results
  import opened Records
  import opened Frames

  /** The configuration gap the builder cannot get past: no rate row for a
      category (in pandas, `.iloc[0]` on an empty selection). */
  datatype CostError = MissingRate(category: Category)

  /** A category priced for one year, before shares are known: the
      category with its displayed name and consumption unit, the
      consumption, the rate's unit cost and currency, and the annual cost. */
  datatype CostLine = CostLine(
    category: Category,
    caption: string,
    unit: string,
    consumption: real,
    unitCost: real,
    currency: string,
    annualCost: real)

  /** A row of the cost table: a priced category and its percentage of the
      annual total. */
  datatype CostRow = CostRow(line: CostLine, sharePct: real)

  /** The cost table and the annual total it was built with. */
  datatype CostTable = CostTable(rows: seq<CostRow>, total: real)

  /** Horizon of the life-cycle cost projection, in years. */
  const LifeCycleYears: nat := 20

  /** Some rate row carries the category's key. */
  predicate HasRate(rates: seq<CostRate>, c: Category) {
    exists k :: 0 <= k < |rates| && rates[k].category == Key(c)
  }

  /** `k` is the first rate row carrying the category's key, the one the
      builder reads. */
  predicate IsFirstRate(rates: seq<CostRate>, k: int, c: Category) {
    && 0 <= k < |rates|
    && rates[k].category == Key(c)
    && forall j :: 0 <= j < k ==> rates[j].category != Key(c)
  }

  /** The index of the category's first rate row, if any. */
  function RateIndex(rates: seq<CostRate>, c: Category): (o: Option<nat>)
    ensures o.Some? ==> IsFirstRate(rates, o.value, c)
    ensures o.None? <==> !HasRate(rates, c)
  {
    FirstMatch(rates, (rate: CostRate) => rate.category == Key(c))
  }

  /** The descriptive columns of a line for a category: the category, its
      capitalised name and its consumption unit. */
  predicate Describes(line: CostLine, c: Category) {
    line.category == c && line.caption == Label(c) && line.unit == Unit(c)
  }

  /** What a correctly priced line is: the record's consumption for its
      category, the unit cost and currency of the category's first rate
      row, and their product as the annual cost. */
  predicate PricedBy(line: CostLine, r: YearlyRecord, rates: seq<CostRate>) {
    && line.consumption == Consumption(r, line.category)
    && line.annualCost == Price(line.consumption, line.unitCost)
    && match RateIndex(rates, line.category)
       case None => false
       case Some(k) => line.unitCost == rates[k].unitCost && line.currency == rates[k].currency
  }

  /** A category has at most one first rate row. */
  lemma FirstRateUnique(rates: seq<CostRate>, c: Category, k: int, k': int)
    requires IsFirstRate(rates, k, c) && IsFirstRate(rates, k', c)
    ensures k == k'
  {
  }

  /** `cats[i]` is the first category of `cats` that has no rate row. */
  predicate FirstMissing(rates: seq<CostRate>, cats: seq<Category>, i: int) {
    && 0 <= i < |cats|
    && !HasRate(rates, cats[i])
    && forall j :: 0 <= j < i ==> HasRate(rates, cats[j])
  }

  /** Prices the categories in order. It fails on the first category
      without a rate, naming it; otherwise it yields one priced line per
      category, in the same order. */
  function CostLines(r: YearlyRecord, rates: seq<CostRate>, cats: seq<Category>)
    : (res: Result<seq<CostLine>, CostError>)
    ensures res.Success? <==> forall i :: 0 <= i < |cats| ==> HasRate(rates, cats[i])
    ensures res.Success? ==> |res.value| == |cats|
    ensures res.Success? ==> forall i :: 0 <= i < |cats| ==>
      Describes(res.value[i], cats[i]) && PricedBy(res.value[i], r, rates)
    ensures res.Failure? ==> res.error.category in cats && !HasRate(rates, res.error.category)
    ensures res.Failure? ==> forall i :: FirstMissing(rates, cats, i) ==> res.error.category == cats[i]
  {
    if |cats| == 0 then Success([])
    else
      match RateIndex(rates, cats[0])
      case None => Failure(MissingRate(cats[0]))
      case Some(k) =>
        var c := cats[0];
        var line := CostLine(c, Label(c), Unit(c), Consumption(r, c), rates[k].unitCost, rates[k].currency,
                             Price(Consumption(r, c), rates[k].unitCost));
        match CostLines(r, rates, cats[1..])
        case Failure(e) =>
          assert forall i :: FirstMissing(rates, cats, i) ==> e.category == cats[i] by {
            forall i | FirstMissing(rates, cats, i) ensures e.category == cats[i] {
              FirstMissingInTail(rates, cats, i);
            }
          }
          Failure(e)
        case Success(rest) =>
          RatesOfHeadAndTail(rates, cats);
          assert Describes(line, c) && PricedBy(line, r, rates);
          LinesOfHeadAndTail(r, rates, cats, line, rest);
          Success([line] + rest)
  }

  /** When the first category has a rate, the first one without a rate
      is found in the rest of the list. */
  lemma FirstMissingInTail(rates: seq<CostRate>, cats: seq<Category>, i: int)
    requires |cats| > 0 && HasRate(rates, cats[0]) && FirstMissing(rates, cats, i)
    ensures 0 < i && FirstMissing(rates, cats[1..], i - 1) && cats[1..][i - 1] == cats[i]
  {
    forall j | 0 <= j < i - 1 ensures HasRate(rates, cats[1..][j]) {
      assert cats[1..][j] == cats[j + 1];
    }
  }

  /** Every category has a rate when the first one does and every later
      one does. */
  lemma RatesOfHeadAndTail(rates: seq<CostRate>, cats: seq<Category>)
    requires |cats| > 0 && HasRate(rates, cats[0])
    requires forall i :: 0 <= i < |cats[1..]| ==> HasRate(rates, cats[1..][i])
    ensures forall i :: 0 <= i < |cats| ==> HasRate(rates, cats[i])
  {
    forall i | 0 < i < |cats| ensures HasRate(rates, cats[i]) {
      assert cats[1..][i - 1] == cats[i];
    }
  }

  /** A priced line for the first category in front of priced lines for
      the rest gives priced lines for every category. */
  lemma LinesOfHeadAndTail(r: YearlyRecord, rates: seq<CostRate>, cats: seq<Category>,
                           line: CostLine, rest: seq<CostLine>)
    requires |cats| > 0 && |rest| == |cats| - 1
    requires Describes(line, cats[0]) && PricedBy(line, r, rates)
    requires forall i :: 0 <= i < |rest| ==> Describes(rest[i], cats[1..][i]) && PricedBy(rest[i], r, rates)
    ensures forall i :: 0 <= i < |cats| ==>
      Describes(([line] + rest)[i], cats[i]) && PricedBy(([line] + rest)[i], r, rates)
  {
    var lines := [line] + rest;
    forall i | 0 < i < |cats| ensures lines[i] == rest[i - 1] && cats[i] == cats[1..][i - 1] {
    }
  }

  /** Annual cost of a consumption at a unit rate: consumption times rate. */
  function Price(consumption: real, unitCost: real): real {
    consumption * unitCost
  }

  /** Sum of a column of figures. */
  function Sum(xs: seq<real>): real {
    if |xs| == 0 then 0.0 else xs[0] + Sum(xs[1..])
  }

  /** The annual cost column. */
  function AnnualCosts(lines: seq<CostLine>): (costs: seq<real>)
    ensures |costs| == |lines|
    ensures forall i :: 0 <= i < |lines| ==> costs[i] == lines[i].annualCost
  {
    seq(|lines|, i requires 0 <= i < |lines| => lines[i].annualCost)
  }

  /** Each cost as a percentage of the total: only a positive total is
      divided by; otherwise every share is 0.0. */
  function Shares(costs: seq<real>, total: real): (shares: seq<real>)
    ensures |shares| == |costs|
    ensures total > 0.0 ==> forall i :: 0 <= i < |costs| ==> shares[i] * total == costs[i] * 100.0
    ensures total <= 0.0 ==> forall i :: 0 <= i < |costs| ==> shares[i] == 0.0
  {
    if total > 0.0 then seq(|costs|, i requires 0 <= i < |costs| => costs[i] / total * 100.0)
    else seq(|costs|, i requires 0 <= i < |costs| => 0.0)
  }

  /** A share is the cost scaled by the factor 100 / total. */
  lemma ShareIsScaledCost(cost: real, total: real)
    requires total > 0.0
    ensures cost / total * 100.0 == cost * (100.0 / total)
  {
  }

  /** A column with every figure multiplied by the same factor. */
  function Scale(xs: seq<real>, f: real): (ys: seq<real>)
    ensures |ys| == |xs|
  {
    seq(|xs|, i requires 0 <= i < |xs| => xs[i] * f)
  }

  /** Scaling a column scales its head and its tail. */
  lemma ScaleSplits(xs: seq<real>, f: real)
    requires |xs| > 0
    ensures Scale(xs, f)[0] == xs[0] * f
    ensures Scale(xs, f)[1..] == Scale(xs[1..], f)
  {
    var ys := Scale(xs, f);
    forall i | 0 <= i < |xs| - 1 ensures ys[1..][i] == Scale(xs[1..], f)[i] {
      assert ys[1..][i] == xs[i + 1] * f;
    }
  }

  /** Scaling every figure of a column scales its sum by the same factor. */
  lemma {:induction false} SumOfScaled(xs: seq<real>, f: real)
    ensures Sum(Scale(xs, f)) == Sum(xs) * f
  {
    if |xs| > 0 {
      var ys := Scale(xs, f);
      ScaleSplits(xs, f);
      SumOfScaled(xs[1..], f);
      ScaledStep(Sum(ys), ys[0], Sum(ys[1..]), Sum(xs), xs[0], Sum(xs[1..]), f);
    }
  }

  /** Shares taken of a positive total add up to the column's sum as a
      percentage of that total. */
  lemma SumOfShares(costs: seq<real>, total: real)
    requires total > 0.0
    ensures Sum(Shares(costs, total)) == Sum(costs) * (100.0 / total)
  {
    var f := 100.0 / total;
    forall i | 0 <= i < |costs| ensures Shares(costs, total)[i] == Scale(costs, f)[i] {
      ShareIsScaledCost(costs[i], total);
    }
    assert Shares(costs, total) == Scale(costs, f);
    SumOfScaled(costs, f);
  }

  /** The inductive step of SumOfScaled on plain numbers: a sum whose
      head and tail are scaled is the scaled sum. */
  lemma ScaledStep(sum: real, head: real, rest: real, sum': real, head': real, rest': real, f: real)
    requires sum == head + rest && sum' == head' + rest'
    requires head == head' * f && rest == rest' * f
    ensures sum == sum' * f
  {
  }

  /** Shares of a positive total taken over the whole column sum to 100;
      shares of any other total are all zero and sum to 0. */
  lemma SharesSumTo100(costs: seq<real>)
    ensures Sum(costs) > 0.0 ==> Sum(Shares(costs, Sum(costs))) == 100.0
    ensures Sum(costs) <= 0.0 ==> Sum(Shares(costs, Sum(costs))) == 0.0
  {
    var total := Sum(costs);
    if total > 0.0 {
      SumOfShares(costs, total);
      assert total * (100.0 / total) == 100.0;
    } else {
      ZeroColumnSum(Shares(costs, total));
    }
  }

  /** A column of zeros sums to zero. */
  lemma {:induction false} ZeroColumnSum(xs: seq<real>)
    requires forall i :: 0 <= i < |xs| ==> xs[i] == 0.0
    ensures Sum(xs) == 0.0
  {
    if |xs| > 0 {
      ZeroColumnSum(xs[1..]);
    }
  }

  /** Completes priced lines into a table: the total is the sum of the
      annual costs; when it is positive each share is the line's cost as a
      percentage of it, and otherwise every share is 0.0. The lines keep
      their order. */
  function Tabulate(lines: seq<CostLine>): (t: CostTable)
    ensures |t.rows| == |lines|
    ensures forall i :: 0 <= i < |lines| ==> t.rows[i].line == lines[i]
    ensures t.total == Sum(AnnualCosts(lines))
    ensures t.total > 0.0 ==> forall i :: 0 <= i < |lines| ==>
      t.rows[i].sharePct * t.total == lines[i].annualCost * 100.0
    ensures t.total <= 0.0 ==> forall i :: 0 <= i < |lines| ==> t.rows[i].sharePct == 0.0
  {
    var costs := AnnualCosts(lines);
    var total := Sum(costs);
    var shares := Shares(costs, total);
    CostTable(seq(|lines|, i requires 0 <= i < |lines| => CostRow(lines[i], shares[i])), total)
  }

  /** The cost table for one year: four rows in the order energy, water,
      waste, transport, each priced by its category's first rate row (the
      total and shares as Tabulate describes). Fails, naming the first
      category in that order that has no rate row, exactly when some
      category has none. */
  function BuildCost(r: YearlyRecord, rates: seq<CostRate>): (res: Result<CostTable, CostError>)
    ensures res.Success? <==> forall c :: HasRate(rates, c)
    ensures res.Failure? ==> !HasRate(rates, res.error.category)
    ensures res.Failure? ==> forall i :: FirstMissing(rates, Categories, i) ==> res.error.category == Categories[i]
    ensures res.Success? ==> |res.value.rows| == 4
    ensures res.Success? ==> forall i :: 0 <= i < 4 ==>
      Describes(res.value.rows[i].line, Categories[i]) && PricedBy(res.value.rows[i].line, r, rates)
    ensures res.Success? ==> res.value.total == Sum(AnnualCosts(LineColumn(res.value)))
  {
    Records.CategoriesAreAnEnumeration();
    match CostLines(r, rates, Categories)
    case Failure(e) => Failure(e)
    case Success(lines) =>
      var t := Tabulate(lines);
      assert LineColumn(t) == lines;
      assert forall c :: HasRate(rates, c) by {
        forall c ensures HasRate(rates, c) {
          assert c in Categories;
          var i :| 0 <= i < 4 && Categories[i] == c;
        }
      }
      Success(t)
  }

  /** A built cost table is its priced lines completed by Tabulate: its
      total is the sum of their annual costs and its shares are their
      percentages of that total. */
  lemma BuildCostTabulates(r: YearlyRecord, rates: seq<CostRate>)
    requires BuildCost(r, rates).Success?
    ensures var t := BuildCost(r, rates).value;
      t == Tabulate(LineColumn(t))
  {
    var lines := CostLines(r, rates, Categories).value;
    assert LineColumn(Tabulate(lines)) == lines;
  }

  /** When the first four rate rows carry the categories in table order,
      each category's first rate row is the one at its own position. */
  lemma FirstRatesInPlace(rates: seq<CostRate>)
    requires |rates| >= 4
    requires forall j :: 0 <= j < 4 ==> rates[j].category == Key(Categories[j])
    ensures forall i :: 0 <= i < 4 ==> IsFirstRate(rates, i, Categories[i])
  {
    CategoriesAreAnEnumeration();
  }

  /** When every category has a rate, each row of the cost table is priced
      by its category's first rate row. */
  lemma RowPricedByFirstRate(r: YearlyRecord, rates: seq<CostRate>, i: int, k: int)
    requires forall c :: HasRate(rates, c)
    requires 0 <= i < 4 && IsFirstRate(rates, k, Categories[i])
    ensures BuildCost(r, rates).Success?
    ensures BuildCost(r, rates).value.rows[i].line.annualCost == Price(Consumption(r, Categories[i]), rates[k].unitCost)
  {
    var line := BuildCost(r, rates).value.rows[i].line;
    assert line.category == Categories[i] && PricedBy(line, r, rates);
    FirstRateUnique(rates, Categories[i], k, RateIndex(rates, Categories[i]).value);
  }

  /** A rates table whose first four rows are the categories in table
      order prices every row of the cost table by the rate row in the same
      position. */
  lemma RatesInTableOrder(r: YearlyRecord, rates: seq<CostRate>)
    requires |rates| >= 4
    requires forall i :: 0 <= i < 4 ==> rates[i].category == Key(Categories[i])
    ensures BuildCost(r, rates).Success?
    ensures forall i :: 0 <= i < 4 ==>
      BuildCost(r, rates).value.rows[i].line.annualCost == Price(Consumption(r, Categories[i]), rates[i].unitCost)
  {
    FirstRatesInPlace(rates);
    forall c ensures HasRate(rates, c) {
      CategoriesAreAnEnumeration();
      assert c in Categories;
      var i :| 0 <= i < 4 && Categories[i] == c;
      assert IsFirstRate(rates, i, c);
    }
    var t := BuildCost(r, rates).value;
    forall i | 0 <= i < 4
      ensures t.rows[i].line.annualCost == Price(Consumption(r, Categories[i]), rates[i].unitCost)
    {
      RowPricedByFirstRate(r, rates, i, i);
    }
  }

  /** The total of a four-row table whose rows are priced at the rates in
      the same positions. */
  lemma TotalOfPricedRows(t: CostTable, r: YearlyRecord, rates: seq<CostRate>)
    requires |t.rows| == 4 && |rates| >= 4
    requires t.total == Sum(AnnualCosts(LineColumn(t)))
    requires forall i :: 0 <= i < 4 ==>
      t.rows[i].line.annualCost == Price(Consumption(r, Categories[i]), rates[i].unitCost)
    ensures t.total
         == Price(r.energyConsumption, rates[0].unitCost) + Price(r.waterConsumption, rates[1].unitCost)
          + Price(r.wasteConsumption, rates[2].unitCost) + Price(r.transportConsumption, rates[3].unitCost)
  {
    var costs := AnnualCosts(LineColumn(t));
    SumOfFour(costs);
  }

  /** With the rates in table order the annual total is the four
      categories' consumptions priced at the rates in the same positions. */
  lemma TotalOfRatesInOrder(r: YearlyRecord, rates: seq<CostRate>)
    requires |rates| >= 4
    requires forall i :: 0 <= i < 4 ==> rates[i].category == Key(Categories[i])
    ensures BuildCost(r, rates).Success?
    ensures BuildCost(r, rates).value.total
         == Price(r.energyConsumption, rates[0].unitCost) + Price(r.waterConsumption, rates[1].unitCost)
          + Price(r.wasteConsumption, rates[2].unitCost) + Price(r.transportConsumption, rates[3].unitCost)
  {
    RatesInTableOrder(r, rates);
    TotalOfPricedRows(BuildCost(r, rates).value, r, rates);
  }

  /** A column of four figures sums to their sum. */
  lemma SumOfFour(xs: seq<real>)
    requires |xs| == 4
    ensures Sum(xs) == xs[0] + xs[1] + xs[2] + xs[3]
  {
    assert xs[3..][1..] == [];
    assert Sum(xs[3..]) == xs[3];
    assert xs[2..][1..] == xs[3..];
    assert Sum(xs[2..]) == xs[2] + xs[3];
    assert xs[1..][1..] == xs[2..];
    assert Sum(xs[1..]) == xs[1] + xs[2] + xs[3];
  }

  /** The priced lines of a built table, in row order. */
  function LineColumn(t: CostTable): (lines: seq<CostLine>)
    ensures |lines| == |t.rows|
    ensures forall i :: 0 <= i < |t.rows| ==> lines[i] == t.rows[i].line
  {
    seq(|t.rows|, i requires 0 <= i < |t.rows| => t.rows[i].line)
  }

  /** The share column of a built table. */
  function ShareColumn(t: CostTable): (shares: seq<real>)
    ensures |shares| == |t.rows|
    ensures forall i :: 0 <= i < |t.rows| ==> shares[i] == t.rows[i].sharePct
  {
    seq(|t.rows|, i requires 0 <= i < |t.rows| => t.rows[i].sharePct)
  }

  /** In a built table the shares add up to 100 when the total is positive
      and to 0 otherwise. */
  lemma BuiltSharesSumTo100(r: YearlyRecord, rates: seq<CostRate>)
    requires BuildCost(r, rates).Success?
    ensures var t := BuildCost(r, rates).value;
      t.total > 0.0 ==> Sum(ShareColumn(t)) == 100.0
    ensures var t := BuildCost(r, rates).value;
      t.total <= 0.0 ==> Sum(ShareColumn(t)) == 0.0
  {
    var t := BuildCost(r, rates).value;
    BuildCostTabulates(r, rates);
    var costs := AnnualCosts(LineColumn(t));
    assert ShareColumn(t) == Shares(costs, Sum(costs));
    SharesSumTo100(costs);
  }

  /** The undiscounted life-cycle cost: the annual total over the horizon. */
  function LifeCycleCost(annualTotal: real): (lcc: real)
    ensures lcc == RepeatedCost(annualTotal, LifeCycleYears)
  {
    RepeatedCostIsProduct(annualTotal, LifeCycleYears);
    annualTotal * LifeCycleYears as real
  }

  /** The cost of paying the same annual total, without discounting, for a
      number of years, year by year. */
  function RepeatedCost(annual: real, years: nat): real {
    if years == 0 then 0.0 else annual + RepeatedCost(annual, years - 1)
  }

  /** Paying the same annual total for n years costs n times the total. */
  lemma {:induction false} RepeatedCostIsProduct(annual: real, years: nat)
    ensures RepeatedCost(annual, years) == annual * years as real
  {
    if years > 0 {
      RepeatedCostIsProduct(annual, years - 1);
    }
  }
}
