/**
 * GPU pricing arithmetic: the discount breakdown of an hourly rate, the total
 * of a reservation period, and the reading of a provider's price text.
 * Amounts are exact reals.
 */
module Pricing {
  import opened Wrappers
  import opened Text

  /** The breakdown `calculatePricing` returns. */
  datatype PricingCalculation = PricingCalculation(baseCost: real, discountAmount: real, totalCost: real, effectiveRate: real)

  /**
   * calculatePricing: the undiscounted cost of `quantity` units for `hours`
   * hours, the discount taken off it, what remains, and the discounted rate.
   */
  function CalculatePricing(baseRate: real, quantity: real, hours: real, discountPercent: real): (r: PricingCalculation)
    ensures r.baseCost == baseRate * quantity * hours
    ensures r.totalCost + r.discountAmount == r.baseCost
    ensures r.totalCost == r.effectiveRate * quantity * hours
    ensures 0.0 <= baseRate && 0.0 <= quantity && 0.0 <= hours && 0.0 <= discountPercent <= 100.0 ==>
      0.0 <= r.totalCost <= r.baseCost
  {
    var baseCost := baseRate * quantity * hours;
    var discountAmount := baseCost * (discountPercent / 100.0);
    var totalCost := baseCost - discountAmount;
    var effectiveRate := baseRate * (1.0 - discountPercent / 100.0);
    assert totalCost == baseCost * (1.0 - discountPercent / 100.0);
    assert effectiveRate * quantity * hours == baseRate * quantity * hours * (1.0 - discountPercent / 100.0);
    DiscountedWithin(baseRate, quantity, hours, discountPercent);
    PricingCalculation(baseCost, discountAmount, totalCost, effectiveRate)
  }

  /** With non-negative inputs and a discount of at most 100%, what remains lies between 0 and the base. */
  lemma DiscountedWithin(baseRate: real, quantity: real, hours: real, discountPercent: real)
    ensures 0.0 <= baseRate && 0.0 <= quantity && 0.0 <= hours && 0.0 <= discountPercent <= 100.0 ==>
      var baseCost := baseRate * quantity * hours;
      0.0 <= baseCost * (1.0 - discountPercent / 100.0) <= baseCost
  {
    if 0.0 <= baseRate && 0.0 <= quantity && 0.0 <= hours && 0.0 <= discountPercent <= 100.0 {
      assert 0.0 <= baseRate * quantity;
      assert 0.0 <= baseRate * quantity * hours;
    }
  }

  /** A full discount leaves nothing to pay; no discount leaves the base cost. */
  lemma PricingDiscountEnds(baseRate: real, quantity: real, hours: real)
    ensures CalculatePricing(baseRate, quantity, hours, 100.0).totalCost == 0.0
    ensures CalculatePricing(baseRate, quantity, hours, 0.0).totalCost == baseRate * quantity * hours
    ensures CalculatePricing(baseRate, quantity, hours, 0.0).effectiveRate == baseRate
  {
  }

  /** The months billed for each reservation period id. */
  const PeriodMonths: map<string, nat> := map[
    "on-demand" := 1, "quarterly" := 1, "1-month" := 1,
    "semi-annually" := 3, "3-months" := 3,
    "annually" := 6, "6-months" := 6,
    "two-years" := 12, "12-months" := 12]

  /** `periodMonths[periodId] || 1`: the table entry, or one month for an unknown id. */
  function MonthsOf(periodId: string): (m: nat)
    ensures m in {1, 3, 6, 12}
    ensures periodId !in PeriodMonths ==> m == 1
    ensures periodId in PeriodMonths ==> m == PeriodMonths[periodId]
  {
    if periodId in PeriodMonths && PeriodMonths[periodId] != 0 then PeriodMonths[periodId] else 1
  }

  /** calculateTotalReservationCost: the monthly cost times the months of the period. */
  function CalculateTotalReservationCost(monthlyCost: real, periodId: string): (r: real)
    ensures r == monthlyCost * MonthsOf(periodId) as real
    ensures periodId !in PeriodMonths ==> r == monthlyCost
    ensures r == monthlyCost || r == 3.0 * monthlyCost || r == 6.0 * monthlyCost || r == 12.0 * monthlyCost
  {
    monthlyCost * MonthsOf(periodId) as real
  }

  /** The periods of each length, as the table lists them. */
  lemma ReservationPeriods(monthlyCost: real)
    ensures CalculateTotalReservationCost(monthlyCost, "on-demand") == monthlyCost
    ensures CalculateTotalReservationCost(monthlyCost, "quarterly") == monthlyCost
    ensures CalculateTotalReservationCost(monthlyCost, "semi-annually") == 3.0 * monthlyCost
    ensures CalculateTotalReservationCost(monthlyCost, "annually") == 6.0 * monthlyCost
    ensures CalculateTotalReservationCost(monthlyCost, "two-years") == 12.0 * monthlyCost
    ensures CalculateTotalReservationCost(monthlyCost, "12-months") == 12.0 * monthlyCost
  {
  }

  /**
   * parseProviderPrice: null for an empty text or one mentioning "not" in any
   * case; for a range "a-b", the parse of the trimmed text before the first
   * dash (NaN is returned as it is); otherwise the parse of the whole text,
   * null when that is NaN.
   */
  function ParseProviderPrice(priceStr: string): (r: Option<JsNum>)
    ensures r.None? <==> priceStr == [] || Contains(ToLower(priceStr), "not") || ('-' !in priceStr && ParseFloat(priceStr).NaN?)
    ensures r.Some? && '-' in priceStr ==> r.value == ParseFloat(Trim(Split(priceStr, '-')[0]))
    ensures r.Some? && '-' !in priceStr ==> r.value == ParseFloat(priceStr) && r.value.Num?
  {
    if priceStr == [] || Contains(ToLower(priceStr), "not") then None
    else if '-' in priceStr then Some(ParseFloat(Trim(Split(priceStr, '-')[0])))
    else
      var price := ParseFloat(priceStr);
      if price.NaN? then None else Some(price)
  }

  /** A digit string never mentions "not", whatever its case. */
  lemma DigitsMentionNoNot(ds: string)
    requires AllDigits(ds)
    ensures !Contains(ToLower(ds), "not")
  {
    assert 'n' !in ToLower(ds) by {
      forall i | 0 <= i < |ds| ensures ToLower(ds)[i] != 'n' {
        assert IsDigit(ds[i]);
      }
    }
    AbsentHead(ToLower(ds), "not");
  }

  /** A plain whole price reads as its value. */
  lemma {:induction false} ProviderPriceOfDigits(ds: string)
    requires ds != [] && AllDigits(ds)
    ensures ParseProviderPrice(ds) == Some(Num(DigitsValue(ds) as real))
  {
    DigitsMentionNoNot(ds);
    ParseFloatOfDigits(ds);
    assert forall i :: 0 <= i < |ds| ==> ds[i] != '-';
  }

  /** A range of whole prices reads as its lower end. */
  lemma {:induction false} ProviderPriceOfRange(lo: string, hi: string)
    requires lo != [] && AllDigits(lo) && AllDigits(hi)
    ensures ParseProviderPrice(lo + "-" + hi) == Some(Num(DigitsValue(lo) as real))
  {
    var s := lo + "-" + hi;
    assert s[|lo|] == '-';
    assert AllDigits(lo + hi);
    DigitsMentionNoNot(lo);
    DigitsMentionNoNot(hi);
    NoNotAcrossDash(lo, hi);
    assert forall i :: 0 <= i < |lo| ==> lo[i] != '-';
    SplitHead(lo, hi, '-');
    assert Trim(lo) == lo by {
      assert forall i :: 0 <= i < |lo| ==> !IsJsSpace(lo[i]);
    }
    ParseFloatOfDigits(lo);
  }

  /** "not" cannot straddle a dash between two digit strings. */
  lemma NoNotAcrossDash(lo: string, hi: string)
    requires AllDigits(lo) && AllDigits(hi)
    ensures !Contains(ToLower(lo + "-" + hi), "not")
  {
    var s := lo + "-" + hi;
    assert 'n' !in ToLower(s) by {
      forall i | 0 <= i < |s| ensures ToLower(s)[i] != 'n' {
        assert IsDigit(s[i]) || s[i] == '-' by {
          if i < |lo| {
            assert s[i] == lo[i];
          } else if i > |lo| {
            assert s[i] == hi[i - |lo| - 1];
          }
        }
      }
    }
    AbsentHead(ToLower(s), "not");
  }
}
