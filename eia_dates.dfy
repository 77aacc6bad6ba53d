/**
 * The EIA bulk-file period parser: a period string is a quarter (`2001Q1`),
 * a month (`202101`) or a year (`2001`), and becomes the first day of that
 * period as a UTC date; anything else has no date.
 */
module EiaDates {
  import opened Wrappers
  import opened Text

  /** A UTC calendar day; months count from 0 as in JavaScript's `Date`. */
  datatype UtcDate = UtcDate(year: int, month: int, day: int)

  /** `Date.UTC` reads the years 0 to 99 as 1900 to 1999. */
  function FullYear(y: int): (r: int)
    ensures 0 <= y <= 99 ==> r == 1900 + y
    ensures !(0 <= y <= 99) ==> r == y
  {
    if 0 <= y <= 99 then 1900 + y else y
  }

  /**
   * `new Date(Date.UTC(year, month, 1))`: a month outside 0..11 rolls over
   * into an earlier or later year, keeping the count of months.
   */
  function DateUtc(year: int, month: int): (d: UtcDate)
    ensures 0 <= d.month < 12 && d.day == 1
    ensures d.year * 12 + d.month == FullYear(year) * 12 + month
  {
    UtcDate(FullYear(year) + month / 12, month % 12, 1)
  }

  /** `^(\d{4})Q(\d)$` */
  predicate QuarterForm(s: string) {
    |s| == 6 && AllDigits(s[..4]) && s[4] == 'Q' && IsDigit(s[5])
  }

  /** `^(\d{4})(\d{2})$` */
  predicate YearMonthForm(s: string) {
    |s| == 6 && AllDigits(s)
  }

  /** `^(\d{4})$` */
  predicate YearForm(s: string) {
    |s| == 4 && AllDigits(s)
  }

  /**
   * parseQuarterDate: null for the empty string; else the first of the three
   * patterns that matches, tried in the order quarter, year-month, year.
   * Each captured group is read with `parseInt` (ParseIntOfDigits shows
   * that this is the value of its digits). There is a date exactly when
   * one of the patterns matches, and it is the first of a month.
   */
  function ParseQuarterDate(s: string): (r: Option<UtcDate>)
    ensures r.Some? <==> QuarterForm(s) || YearMonthForm(s) || YearForm(s)
    ensures r.Some? ==> 0 <= r.value.month < 12 && r.value.day == 1
  {
    if s == "" then None
    else if QuarterForm(s) then
      var year := DigitsValue(s[..4]);
      var quarter := DigitsValue(s[5..]);
      Some(DateUtc(year, (quarter - 1) * 3))
    else if YearMonthForm(s) then
      var year := DigitsValue(s[..4]);
      var month := DigitsValue(s[4..]) - 1;
      Some(DateUtc(year, month))
    else if YearForm(s) then
      Some(DateUtc(DigitsValue(s), 0))
    else None
  }

  /** No string matches two patterns, so the order they are tried in does not matter. */
  lemma PatternsExclusive(s: string)
    ensures !(QuarterForm(s) && YearMonthForm(s))
    ensures !(QuarterForm(s) && YearForm(s)) && !(YearMonthForm(s) && YearForm(s))
  {
  }

  /** `YYYYQn` for quarters 1 to 4 of a year from 100 on is the first day of that quarter. */
  lemma QuarterRoundTrip(yyyy: string, q: nat)
    requires |yyyy| == 4 && AllDigits(yyyy) && DigitsValue(yyyy) >= 100 && 1 <= q <= 4
    ensures ParseQuarterDate(yyyy + ['Q', DigitChar(q)]) == Some(UtcDate(DigitsValue(yyyy), (q - 1) * 3, 1))
  {
    var s := yyyy + ['Q', DigitChar(q)];
    assert s[..4] == yyyy;
    assert s[5..] == [DigitChar(q)];
    assert [DigitChar(q)][..0] == [];
    assert DigitsValue(s[5..]) == q;
    assert QuarterForm(s);
  }

  /** `YYYYMM` for months 01 to 12 of a year from 100 on is the first day of that month. */
  lemma YearMonthRoundTrip(yyyy: string, mm: string)
    requires |yyyy| == 4 && AllDigits(yyyy) && DigitsValue(yyyy) >= 100
    requires |mm| == 2 && AllDigits(mm) && 1 <= DigitsValue(mm) <= 12
    ensures ParseQuarterDate(yyyy + mm) == Some(UtcDate(DigitsValue(yyyy), DigitsValue(mm) - 1, 1))
  {
    var s := yyyy + mm;
    assert s[..4] == yyyy;
    assert s[4..] == mm;
    assert s[4] == mm[0];
  }

  /** `YYYY` for a year from 100 on is its first of January. */
  lemma YearRoundTrip(yyyy: string)
    requires |yyyy| == 4 && AllDigits(yyyy) && DigitsValue(yyyy) >= 100
    ensures ParseQuarterDate(yyyy) == Some(UtcDate(DigitsValue(yyyy), 0, 1))
  {
  }

  /** A year written `00YY` is read as 19YY, as `Date.UTC` does. */
  lemma TwoDigitYear(yyyy: string)
    requires |yyyy| == 4 && AllDigits(yyyy) && DigitsValue(yyyy) < 100
    ensures ParseQuarterDate(yyyy) == Some(UtcDate(1900 + DigitsValue(yyyy), 0, 1))
  {
  }

  /** Quarter 0 and month 00 fall back into the last quarter and month of the year before. */
  lemma ZeroPeriodRollsBack(yyyy: string)
    requires |yyyy| == 4 && AllDigits(yyyy) && DigitsValue(yyyy) >= 100
    ensures ParseQuarterDate(yyyy + "Q0") == Some(UtcDate(DigitsValue(yyyy) - 1, 9, 1))
    ensures ParseQuarterDate(yyyy + "00") == Some(UtcDate(DigitsValue(yyyy) - 1, 11, 1))
  {
    var s := yyyy + "Q0";
    assert s[..4] == yyyy;
    assert s[5..] == "0";
    assert "0"[..0] == [];
    var t := yyyy + "00";
    assert t[..4] == yyyy;
    assert t[4..] == "00";
    assert "00"[..1] == "0";
    assert "0"[..0] == [];
  }
}
