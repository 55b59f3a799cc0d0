/** The three record kinds the dashboard reads from its database, and the
    fixed set of consumption categories that join them. */
module Records {

  /** One row of the yearly readings table. */
  datatype YearlyRecord = YearlyRecord(
    year: int,
    energyConsumption: real,     // kWh
    energyEmissions: real,       // tCO2e
    waterConsumption: real,      // m3
    waterEmissions: real,        // tCO2e
    wasteConsumption: real,      // kg
    wasteEmissions: real,        // tCO2e
    transportConsumption: real,  // person-km
    transportEmissions: real,    // tCO2e
    solarPvKwh: real,
    solarThermalKwh: real,
    renewableOffset: real)       // tCO2e credited against gross emissions

  /** One row of the comfort readings table: scores on a 0-100 scale and
      the hours per year spent outside the thermal comfort band. */
  datatype ComfortRecord = ComfortRecord(
    year: int,
    iaqScore: real,
    thermalHours: real,
    lightingScore: real,
    acousticScore: real)

  /** One row of the cost rates table. The category is the raw text key
      stored in the database ("energy", "water", ...). */
  datatype CostRate = CostRate(category: string, unitCost: real, currency: string)

  /** The four consumption categories, a closed enumeration. */
  datatype Category = Energy | Water | Waste | Transport

  /** The categories in the order the cost table lists them. */
  const Categories: seq<Category> := [Energy, Water, Waste, Transport]

  /** The text key a cost rate row must carry to match the category. */
  function Key(c: Category): string {
    match c
    case Energy => "energy"
    case Water => "water"
    case Waste => "waste"
    case Transport => "transport"
  }

  /** The capitalised key shown in the cost table's category column. */
  function Label(c: Category): string {
    match c
    case Energy => "Energy"
    case Water => "Water"
    case Waste => "Waste"
    case Transport => "Transport"
  }

  /** The displayed label is the rate key with its first letter upper-cased
      (Python's `str.capitalize` on these lower-case keys). */
  lemma LabelCapitalisesKey(c: Category)
    ensures |Label(c)| == |Key(c)| > 0
    ensures 'a' <= Key(c)[0] <= 'z' && Label(c)[0] as int == Key(c)[0] as int - 32
    ensures Label(c)[1..] == Key(c)[1..]
  {
  }

  /** The unit of the category's consumption figure. */
  function Unit(c: Category): string {
    match c
    case Energy => "kWh"
    case Water => "m³"
    case Waste => "kg"
    case Transport => "pkm"
  }

  /** The yearly record's consumption column for a category. */
  function Consumption(r: YearlyRecord, c: Category): real {
    match c
    case Energy => r.energyConsumption
    case Water => r.waterConsumption
    case Waste => r.wasteConsumption
    case Transport => r.transportConsumption
  }

  /** The yearly record's emission column for a category. */
  function Emissions(r: YearlyRecord, c: Category): real {
    match c
    case Energy => r.energyEmissions
    case Water => r.waterEmissions
    case Waste => r.wasteEmissions
    case Transport => r.transportEmissions
  }

  /** The data-model invariant the database is expected to keep: no
      consumption, emission or generation figure is negative. The code
      never checks it; lemmas that need it say so. */
  predicate NonNegative(r: YearlyRecord) {
    && r.energyConsumption >= 0.0 && r.energyEmissions >= 0.0
    && r.waterConsumption >= 0.0 && r.waterEmissions >= 0.0
    && r.wasteConsumption >= 0.0 && r.wasteEmissions >= 0.0
    && r.transportConsumption >= 0.0 && r.transportEmissions >= 0.0
    && r.solarPvKwh >= 0.0 && r.solarThermalKwh >= 0.0
    && r.renewableOffset >= 0.0
  }

  /** Every category is listed once, and distinct categories have distinct
      keys, so looking a rate up by key is looking it up by category. */
  lemma CategoriesAreAnEnumeration()
    ensures forall c: Category :: c in Categories
    ensures |Categories| == 4
    ensures forall i, j :: 0 <= i < j < |Categories| ==> Key(Categories[i]) != Key(Categories[j])
  {
    forall c: Category ensures c in Categories {
      match c
      case Energy => assert Categories[0] == c;
      case Water => assert Categories[1] == c;
      case Waste => assert Categories[2] == c;
      case Transport => assert Categories[3] == c;
    }
  }

  /** `n` is `x` with its fractional part dropped (rounded toward zero). */
  predicate Truncates(n: int, x: real) {
    && (0.0 <= x ==> n as real <= x < n as real + 1.0)
    && (x < 0.0 ==> n as real - 1.0 < x <= n as real)
  }

  /** Python's `int(x)` on a float: truncation toward zero. */
  function TruncToInt(x: real): (n: int)
    ensures Truncates(n, x)
  {
    if x >= 0.0 then x.Floor else -((-x).Floor)
  }

  /** Truncation never moves a value away from zero, and leaves whole
      numbers alone (a column the database already stores as an integer
      passes through `int` unchanged). */
  lemma TruncTowardZero(x: real)
    ensures 0.0 <= x ==> 0 <= TruncToInt(x)
    ensures x <= 0.0 ==> TruncToInt(x) <= 0
    ensures x == x.Floor as real ==> TruncToInt(x) == x.Floor
  {
  }
}
