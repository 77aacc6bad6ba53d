/**
 * The partner revenue calculator: cumulative revenue from selling power to the
 * grid and from the Helios partnership, the ten-year chart series, the yearly
 * gain, and how the rate and capacity inputs are read.
 */
module Calculator {
  import opened Wrappers
  import opened Text

  /** Rate in $/kWh, capacity in kW, hours per year and the partnership multiplier. */
  datatype CalculationParams = CalculationParams(currentRate: real, capacity: real, hoursPerYear: real, heliosMultiplier: real)

  /** One point of the chart: its label and both cumulative revenues. */
  datatype YearlyData = YearlyData(year: string, grid: real, helios: real)

  /** The hours in a year the page uses (24 * 365). */
  const HoursPerYear: real := 8760.0

  /** The partnership multiplier the page uses. */
  const HeliosMultiplier: real := 7.5

  /** calculateGridRevenue: revenue from grid sales up to the end of `year`. */
  function GridRevenue(p: CalculationParams, year: int): (r: real)
    ensures year == 0 ==> r == 0.0
    ensures p.currentRate >= 0.0 && p.capacity >= 0.0 && p.hoursPerYear >= 0.0 && year >= 0 ==> r >= 0.0
  {
    p.currentRate * p.capacity * p.hoursPerYear * year as real
  }

  /** calculateHeliosRevenue: revenue through the partnership up to the end of `year`. */
  function HeliosRevenue(p: CalculationParams, year: int): (r: real)
    ensures year == 0 ==> r == 0.0
    ensures p.currentRate >= 0.0 && p.capacity >= 0.0 && p.hoursPerYear >= 0.0 && p.heliosMultiplier >= 0.0 && year >= 0 ==> r >= 0.0
  {
    p.currentRate * p.capacity * p.hoursPerYear * p.heliosMultiplier * year as real
  }

  /** Cumulative revenue grows linearly: year `n` earns `n` times the first year. */
  lemma RevenueLinearInYear(p: CalculationParams, year: int)
    ensures GridRevenue(p, year) == year as real * GridRevenue(p, 1)
    ensures HeliosRevenue(p, year) == year as real * HeliosRevenue(p, 1)
  {
  }

  /** The partnership earns the multiplier times the grid revenue, in every year. */
  lemma HeliosIsMultipleOfGrid(p: CalculationParams, year: int)
    ensures HeliosRevenue(p, year) == GridRevenue(p, year) * p.heliosMultiplier
  {
  }

  /** A zero rate or a zero capacity earns nothing either way. */
  lemma ZeroRateOrCapacity(p: CalculationParams, year: int)
    requires p.currentRate == 0.0 || p.capacity == 0.0
    ensures GridRevenue(p, year) == 0.0 && HeliosRevenue(p, year) == 0.0
  {
  }

  /** calculateAnnualIncrease: one year of partnership revenue less one year of grid revenue. */
  function AnnualIncrease(p: CalculationParams): (r: real)
    ensures r == GridRevenue(p, 1) * (p.heliosMultiplier - 1.0)
    ensures p.heliosMultiplier >= 1.0 && GridRevenue(p, 1) >= 0.0 ==> r >= 0.0
  {
    var gridAnnual := GridRevenue(p, 1);
    var heliosAnnual := HeliosRevenue(p, 1);
    HeliosIsMultipleOfGrid(p, 1);
    heliosAnnual - gridAnnual
  }

  /** The chart label of a year: `Year ${year}`. */
  function YearLabel(year: nat): (r: string)
    ensures |r| > 5 && r[..5] == "Year "
    ensures AllDigits(r[5..]) && DigitsValue(r[5..]) == year
  {
    "Year " + NatToString(year)
  }

  /** generateChartData: one point per year, years 1 to 10 in order. */
  method GenerateChartData(p: CalculationParams) returns (data: seq<YearlyData>)
    ensures |data| == 10
    ensures forall i :: 0 <= i < 10 ==>
      data[i] == YearlyData(YearLabel(i + 1), GridRevenue(p, i + 1), HeliosRevenue(p, i + 1))
  {
    data := [];
    var year := 1;
    while year <= 10
      invariant 1 <= year <= 11
      invariant |data| == year - 1
      invariant forall i :: 0 <= i < year - 1 ==>
        data[i] == YearlyData(YearLabel(i + 1), GridRevenue(p, i + 1), HeliosRevenue(p, i + 1))
    {
      data := data + [YearlyData(YearLabel(year), GridRevenue(p, year), HeliosRevenue(p, year))];
      year := year + 1;
    }
  }

  /** Distinct years get distinct labels, so the chart's points are told apart. */
  lemma YearLabelsDistinct(a: nat, b: nat)
    requires a != b
    ensures YearLabel(a) != YearLabel(b)
  {
    assert YearLabel(a)[5..] == NatToString(a) && YearLabel(b)[5..] == NatToString(b);
  }

  /** `parseFloat(currentRate) || 0.10`: the typed rate, or 0.10 when it is zero or not a number. */
  function RateValue(text: string): (r: real)
    ensures r != 0.0
    ensures !ParseFloat(text).Truthy() ==> r == 0.10
    ensures ParseFloat(text).Truthy() ==> r == ParseFloat(text).value
  {
    var rate := ParseFloat(text);
    if rate.Truthy() then rate.value else 0.10
  }

  predicate IsDigitOrDot(c: char) { IsDigit(c) || c == '.' }

  /**
   * The capacity in kW read from the selected text: the first run of digits
   * and dots read as a number, times 1000 when the text mentions "MW", and 500
   * when the text has no digit or dot at all.
   */
  function CapacityValue(capacity: string): (r: JsNum)
    ensures (forall i :: 0 <= i < |capacity| ==> !IsDigitOrDot(capacity[i])) <==> FirstWhere(capacity, IsDigitOrDot).None?
    ensures FirstWhere(capacity, IsDigitOrDot).None? ==> r == Num(500.0)
  {
    var start := FirstWhere(capacity, IsDigitOrDot);
    if start.None? then Num(500.0)
    else
      var rest := capacity[start.value..];
      var value := ParseFloat(rest[..RunLength(rest, IsDigitOrDot)]);
      Megawatts(value, Contains(capacity, "MW"))
  }

  /** `value * 1000` when the text is in MW, the value itself otherwise. */
  function Megawatts(value: JsNum, mw: bool): JsNum
  {
    if !mw then value else if value.NaN? then NaN else Num(value.value * 1000.0)
  }

  lemma CapacityFromLeadingRun(s: string, k: nat)
    requires FirstWhere(s, IsDigitOrDot) == Some(0) && RunLength(s, IsDigitOrDot) == k
    ensures CapacityValue(s) == Megawatts(ParseFloat(s[..k]), Contains(s, "MW"))
  {
    assert s[0..] == s;
  }

  /** A whole number followed by a unit reads as that number, in kW or scaled from MW. */
  lemma {:induction false} CapacityOfWholeNumber(ds: string, unit: string)
    requires ds != [] && AllDigits(ds)
    requires unit == [] || !IsDigitOrDot(unit[0])
    ensures CapacityValue(ds + unit) == Megawatts(Num(DigitsValue(ds) as real), Contains(ds + unit, "MW"))
  {
    var s := ds + unit;
    assert FirstWhere(s, IsDigitOrDot) == Some(0) by {
      assert IsDigitOrDot(s[0]);
    }
    RunLengthDigitsThenOther(ds, unit);
    CapacityFromLeadingRun(s, |ds|);
    assert ParseFloat(s[..|ds|]) == Num(DigitsValue(ds) as real) by {
      assert s[..|ds|] == ds;
      ParseFloatOfDigits(ds);
    }
  }

  lemma {:induction false} RunLengthDigitsThenOther(ds: string, unit: string)
    requires AllDigits(ds)
    requires unit == [] || !IsDigitOrDot(unit[0])
    ensures RunLength(ds + unit, IsDigitOrDot) == |ds|
  {
    if ds == [] {
      assert ds + unit == unit;
    } else {
      assert (ds + unit)[1..] == ds[1..] + unit;
      RunLengthDigitsThenOther(ds[1..], unit);
    }
  }

  /** "<n> kW" reads as n kW. */
  lemma {:induction false} CapacityInKilowatts(ds: string)
    requires ds != [] && AllDigits(ds)
    ensures CapacityValue(ds + " kW") == Num(DigitsValue(ds) as real)
  {
    var s := ds + " kW";
    assert !Contains(s, "MW") by {
      assert forall i :: 0 <= i < |s| ==> s[i] != 'M' by {
        assert forall i :: 0 <= i < |ds| ==> s[i] == ds[i] && IsDigit(ds[i]);
        assert s[|ds|..] == " kW";
      }
      AbsentHead(s, "MW");
    }
    CapacityOfWholeNumber(ds, " kW");
  }

  /** "<n> MW" reads as 1000 n kW. */
  lemma {:induction false} CapacityInMegawatts(ds: string)
    requires ds != [] && AllDigits(ds)
    ensures CapacityValue(ds + " MW") == Num(DigitsValue(ds) as real * 1000.0)
  {
    var s := ds + " MW";
    assert OccursAt(s, "MW", |ds| + 1) by {
      assert s[|ds| + 1..] == "MW";
    }
    CapacityOfWholeNumber(ds, " MW");
  }
}
