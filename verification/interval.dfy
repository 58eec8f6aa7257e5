/** The caption under the day-of-year slider: the selected day range shown
    as calendar dates of the reference year 2022. */
module Interval {
  import opened Wrappers
  import opened Text
  import opened Calendar

  /** Day 1 of the slider is January 1st of this year. */
  const BaseYear: int := 2022

  /** `date.strftime("%d.%m/%y")`: two-digit day, month and year of the
      century. */
  function Strftime(y: int, m: int, d: int): (s: string)
    requires ValidDate(y, m, d)
    ensures |s| == 8 && s[2] == '.' && s[5] == '/'
    ensures AllDigits(s[..2]) && AllDigits(s[3..5]) && AllDigits(s[6..])
    ensures NumberValue(s[..2]) == d && NumberValue(s[3..5]) == m && NumberValue(s[6..]) == y % 100
  {
    var s := PadNumber(d, 2) + "." + PadNumber(m, 2) + "/" + PadNumber(y % 100, 2);
    assert s[..2] == PadNumber(d, 2) && s[3..5] == PadNumber(m, 2) && s[6..] == PadNumber(y % 100, 2);
    s
  }

  /** `s` is "dd.mm" naming the day and month of `date`. */
  predicate Names(s: string, date: (int, int, int)) {
    && |s| == 5 && s[2] == '.'
    && AllDigits(s[..2]) && AllDigits(s[3..])
    && NumberValue(s[..2]) == date.2 && NumberValue(s[3..]) == date.1
  }

  /** Whether `datetime(2022, 1, 1) + timedelta(days=n-1)` stays inside the
      years Python's `datetime` can hold; outside it raises OverflowError. */
  predicate Representable(n: int) {
    1 <= DaysBeforeYear(BaseYear) + n <= MaxOrdinal
  }

  /** The day numbers that stay inside Python's years run from -738154 to
      2913904 (`FirstOrdinal`, `LastOrdinal` name their dates). */
  lemma RepresentableBounds(n: int)
    ensures Representable(n) <==> -738154 <= n <= 2913904
  {
    if Representable(n) {
      RepresentableInside(n);
    }
    if -738154 <= n <= 2913904 {
      InsideRepresentable(n);
    }
  }

  lemma RepresentableInside(n: int)
    requires Representable(n)
    ensures -738154 <= n <= 2913904
  {
    assert DaysBeforeYear(BaseYear) == 738155;
  }

  lemma InsideRepresentable(n: int)
    requires -738154 <= n <= 2913904
    ensures Representable(n)
  {
    assert DaysBeforeYear(BaseYear) == 738155;
  }

  /** Day -738154 of the slider's count has the ordinal of January 1st of
      year 1. */
  lemma FirstOrdinal()
    ensures Ordinal(1, 1, 1) == DaysBeforeYear(BaseYear) - 738154
  {
    assert DaysBeforeYear(1) == 0;
    assert DaysBeforeYear(BaseYear) == 738155;
  }

  /** Day 2913904 has the ordinal of December 31st of year 9999. */
  lemma LastOrdinal()
    ensures Ordinal(9999, 12, 31) == DaysBeforeYear(BaseYear) + 2913904
  {
    assert DaysBeforeYear(9999) == 3651694;
    assert !IsLeapYear(9999);
    assert DaysBeforeYear(BaseYear) == 738155;
  }

  /** "dd.mm" of day `n` counted from January 1st of the base year. */
  function DayLabel(n: int): (r: Option<string>)
    ensures r.Some? <==> Representable(n)
    ensures r.Some? ==> Names(r.value, DateOfDay(BaseYear, n))
  {
    var date := DateOfDay(BaseYear, n);
    OrdinalInRange(date.0, date.1, date.2);
    if 1 <= date.0 <= 9999 then
      var s := Strftime(date.0, date.1, date.2)[..5];
      assert s[..2] == Strftime(date.0, date.1, date.2)[..2];
      assert s[3..] == Strftime(date.0, date.1, date.2)[3..5];
      Some(s)
    else
      None
  }

  /** `get_interval_dates`: "dd.mm - dd.mm" for the first and last selected
      day, or None where the source raises. */
  function GetIntervalDates(sel: (int, int)): (r: Option<string>)
    ensures r.Some? <==> Representable(sel.0) && Representable(sel.1)
    ensures r.Some? ==>
      && |r.value| == 13 && r.value[5..8] == " - "
      && Names(r.value[..5], DateOfDay(BaseYear, sel.0))
      && Names(r.value[8..], DateOfDay(BaseYear, sel.1))
  {
    match (DayLabel(sel.0), DayLabel(sel.1))
    case (Some(a), Some(b)) =>
      var s := a + " - " + b;
      assert s[..5] == a && s[8..] == b && s[5..8] == " - ";
      Some(s)
    case _ => None
  }

  /** "dd.mm" read back through the calendar is day `n` of the base year. */
  predicate ReadsBack(caption: string, n: int)
    requires |caption| == 5 && AllDigits(caption[..2]) && AllDigits(caption[3..])
  {
    && ValidDate(BaseYear, NumberValue(caption[3..]), NumberValue(caption[..2]))
    && DayOfYear(BaseYear, NumberValue(caption[3..]), NumberValue(caption[..2])) == n
  }

  /** Every slider position gives a caption, and reading the caption back
      through the calendar recovers the selected days. */
  lemma IntervalLabelRoundTrip(sel: (int, int))
    requires 1 <= sel.0 <= 365 && 1 <= sel.1 <= 365
    ensures GetIntervalDates(sel).Some?
    ensures var s := GetIntervalDates(sel).value;
      ReadsBack(s[..5], sel.0) && ReadsBack(s[8..], sel.1)
  {
    SliderDayRepresentable(sel.0);
    SliderDayRepresentable(sel.1);
    var s := GetIntervalDates(sel).value;
    NamesDayOfYear(s[..5], sel.0);
    NamesDayOfYear(s[8..], sel.1);
  }

  /** Every day the slider offers has a date. */
  lemma SliderDayRepresentable(n: int)
    requires 1 <= n <= 365
    ensures Representable(n)
  {
    assert DaysBeforeYear(BaseYear) == 738155;
  }

  /** A "dd.mm" naming day `n` of the base year reads back as day `n`. */
  lemma NamesDayOfYear(s: string, n: int)
    requires 1 <= n <= 365 && Names(s, DateOfDay(BaseYear, n))
    ensures ReadsBack(s, n)
  {
    DateInBaseYear(n);
  }

  /** A day of the base year lands in the base year. */
  lemma DateInBaseYear(n: int)
    requires 1 <= n <= 365
    ensures var date := DateOfDay(BaseYear, n);
      date.0 == BaseYear && DayOfYear(date.0, date.1, date.2) == n
  {
    var date := DateOfDay(BaseYear, n);
    var md := MonthDay(BaseYear, n);
    OrdinalInjective(date.0, date.1, date.2, BaseYear, md.0, md.1);
  }

  /** "dd.mm" of a date, zero-padded. */
  function DayMonth(date: (int, int, int)): string
    requires 0 <= date.2 < 100 && 0 <= date.1 < 100
  {
    PadNumber(date.2, 2) + "." + PadNumber(date.1, 2)
  }

  /** A caption naming `date` is its zero-padded day and month. */
  lemma NamesIsPadded(s: string, date: (int, int, int))
    requires Names(s, date)
    ensures 0 <= date.2 < 100 && 0 <= date.1 < 100
    ensures s == DayMonth(date)
  {
    PadNumberOfValue(s[..2]);
    PadNumberOfValue(s[3..]);
    assert s == s[..2] + "." + s[3..];
  }

  /** The date with the expected ordinal is the one `DateOfDay` finds. */
  lemma DateOfDayIs(n: int, y: int, m: int, d: int)
    requires ValidDate(y, m, d) && Ordinal(y, m, d) == DaysBeforeYear(BaseYear) + n
    ensures DateOfDay(BaseYear, n) == (y, m, d)
  {
    var date := DateOfDay(BaseYear, n);
    OrdinalInjective(date.0, date.1, date.2, y, m, d);
  }

  lemma SmallFields()
    ensures PadNumber(1, 2) == "01" && PadNumber(2, 2) == "02"
  {
    assert Pow10(1) == 10 && Pow10(2) == 100;
    assert PadNumber(1, 1) == "1" && PadNumber(2, 1) == "2";
  }

  lemma LargeFields()
    ensures PadNumber(12, 2) == "12" && PadNumber(28, 2) == "28" && PadNumber(31, 2) == "31"
  {
    assert Pow10(1) == 10 && Pow10(2) == 100;
    assert PadNumber(1, 1) == "1" && PadNumber(2, 1) == "2" && PadNumber(8, 1) == "8";
  }

  lemma FullYearFields()
    ensures DayMonth((2022, 1, 1)) + " - " + DayMonth((2022, 12, 31)) == "01.01 - 31.12"
  {
    SmallFields();
    LargeFields();
  }

  lemma FebruaryFields()
    ensures DayMonth((2022, 2, 1)) + " - " + DayMonth((2022, 2, 28)) == "01.02 - 28.02"
  {
    SmallFields();
    LargeFields();
  }

  lemma FirstOfJanuary()
    ensures DateOfDay(BaseYear, 1) == (2022, 1, 1)
  {
    DateOfDayIs(1, 2022, 1, 1);
  }

  lemma NewYearsEve()
    ensures DateOfDay(BaseYear, 365) == (2022, 12, 31)
  {
    DateOfDayIs(365, 2022, 12, 31);
  }

  lemma FirstOfFebruary()
    ensures DateOfDay(BaseYear, 32) == (2022, 2, 1)
  {
    DateOfDayIs(32, 2022, 2, 1);
  }

  lemma LastOfFebruary()
    ensures DateOfDay(BaseYear, 59) == (2022, 2, 28)
  {
    DateOfDayIs(59, 2022, 2, 28);
  }

  /** The caption once both dates are known. */
  lemma CaptionOf(sel: (int, int), first: (int, int, int), last: (int, int, int))
    requires Representable(sel.0) && Representable(sel.1)
    requires DateOfDay(BaseYear, sel.0) == first && DateOfDay(BaseYear, sel.1) == last
    ensures 0 <= first.2 < 100 && 0 <= first.1 < 100 && 0 <= last.2 < 100 && 0 <= last.1 < 100
    ensures GetIntervalDates(sel) == Some(DayMonth(first) + " - " + DayMonth(last))
  {
    var s := GetIntervalDates(sel).value;
    NamesIsPadded(s[..5], first);
    NamesIsPadded(s[8..], last);
    JoinCaption(s);
  }

  lemma JoinCaption(s: string)
    requires |s| == 13 && s[5..8] == " - "
    ensures s == s[..5] + " - " + s[8..]
  {
  }

  lemma FullYearDates()
    ensures GetIntervalDates((1, 365)) == Some(DayMonth((2022, 1, 1)) + " - " + DayMonth((2022, 12, 31)))
  {
    SliderDayRepresentable(1);
    SliderDayRepresentable(365);
    FirstOfJanuary();
    NewYearsEve();
    CaptionOf((1, 365), (2022, 1, 1), (2022, 12, 31));
  }

  lemma FebruaryDates()
    ensures GetIntervalDates((32, 59)) == Some(DayMonth((2022, 2, 1)) + " - " + DayMonth((2022, 2, 28)))
  {
    SliderDayRepresentable(32);
    SliderDayRepresentable(59);
    FirstOfFebruary();
    LastOfFebruary();
    CaptionOf((32, 59), (2022, 2, 1), (2022, 2, 28));
  }

  /** The default selection, the whole year, is captioned "01.01 - 31.12". */
  lemma FullYearCaption()
    ensures GetIntervalDates((1, 365)) == Some("01.01 - 31.12")
  {
    FullYearFields();
    FullYearDates();
  }

  /** Days 32 to 59 are February: "01.02 - 28.02". */
  lemma FebruaryCaption()
    ensures GetIntervalDates((32, 59)) == Some("01.02 - 28.02")
  {
    FebruaryFields();
    FebruaryDates();
  }
}
