/** `get_filtered_data` (identical in the three reports): the day-of-year
    range from the slider and the years from the multiselect. */
module Filters {

  import opened Seqs
  import opened Calendar
  import opened Timestamp
  import opened Loader

  /** The sidebar selection: slider range (first day, last day) and the
      selected years, where no selection means all years. */
  datatype Selection = Selection(days: (int, int), years: seq<int>)

  /** The slider's initial value; with it the range filter is skipped. */
  const DefaultDays: (int, int) := (1, 365)

  /** The day-range condition, which holds of every row at the default. */
  predicate DayOk(days: (int, int), r: Row) {
    days == DefaultDays || days.0 <= r.day <= days.1
  }

  /** The year condition, which holds of every row when no year is selected. */
  predicate YearOk(years: seq<int>, r: Row) {
    |years| == 0 || r.year in years
  }

  /** The condition a row must meet to survive the filters that apply. */
  predicate Selected(sel: Selection, r: Row) {
    DayOk(sel.days, r) && YearOk(sel.years, r)
  }

  /** Rows kept in order with every occurrence of those meeting `ok`. */
  ghost predicate ExactSelection(r: seq<Row>, rows: seq<Row>, ok: Row -> bool) {
    && IsSubsequence(r, rows)
    && multiset(r) <= multiset(rows)
    && forall x :: x in rows ==> multiset(r)[x] == if ok(x) then multiset(rows)[x] else 0
  }

  function FilterDays(rows: seq<Row>, days: (int, int)): (r: seq<Row>)
    ensures ExactSelection(r, rows, x => DayOk(days, x))
    ensures days == DefaultDays ==> r == rows
  {
    SubsequenceReflexive(rows);
    if days == DefaultDays then rows
    else Filter((x: Row) => days.0 <= x.day <= days.1, rows)
  }

  function FilterYears(rows: seq<Row>, years: seq<int>): (r: seq<Row>)
    ensures ExactSelection(r, rows, x => YearOk(years, x))
    ensures |years| == 0 ==> r == rows
  {
    SubsequenceReflexive(rows);
    if |years| == 0 then rows
    else Filter((x: Row) => x.year in years, rows)
  }

  /** The rows of `rows` that meet the selection, in their order: nothing
      else, every occurrence of those, and everything when the range is the
      default and no year is selected. */
  function GetFilteredData(rows: seq<Row>, sel: Selection): (r: seq<Row>)
    ensures IsSubsequence(r, rows)
    ensures forall x :: x in rows ==> multiset(r)[x] == if Selected(sel, x) then multiset(rows)[x] else 0
    ensures forall x :: x in r <==> x in rows && Selected(sel, x)
    ensures sel.days == DefaultDays && |sel.years| == 0 ==> r == rows
    ensures sel.days != DefaultDays ==> forall i :: 0 <= i < |r| ==> sel.days.0 <= r[i].day <= sel.days.1
    ensures |sel.years| > 0 ==> forall i :: 0 <= i < |r| ==> r[i].year in sel.years
  {
    var byDay := FilterDays(rows, sel.days);
    var r := FilterYears(byDay, sel.years);
    ComposeSelections(r, byDay, rows, sel);
    SelectedBounds(r, sel);
    r
  }

  /** Rows that meet the selection lie in the moved range and in the chosen
      years. */
  lemma SelectedBounds(r: seq<Row>, sel: Selection)
    requires forall i :: 0 <= i < |r| ==> Selected(sel, r[i])
    ensures sel.days != DefaultDays ==> forall i :: 0 <= i < |r| ==> sel.days.0 <= r[i].day <= sel.days.1
    ensures |sel.years| > 0 ==> forall i :: 0 <= i < |r| ==> r[i].year in sel.years
  {
  }

  lemma ComposeSelections(r: seq<Row>, byDay: seq<Row>, rows: seq<Row>, sel: Selection)
    requires ExactSelection(byDay, rows, x => DayOk(sel.days, x))
    requires ExactSelection(r, byDay, x => YearOk(sel.years, x))
    ensures IsSubsequence(r, rows)
    ensures forall x :: x in rows ==> multiset(r)[x] == if Selected(sel, x) then multiset(rows)[x] else 0
    ensures forall x :: x in r <==> x in rows && Selected(sel, x)
    ensures forall i :: 0 <= i < |r| ==> Selected(sel, r[i])
  {
    SubsequenceTransitive(r, byDay, rows);
    forall x | x in rows
      ensures multiset(r)[x] == if Selected(sel, x) then multiset(rows)[x] else 0
    {
      if x !in byDay {
        assert multiset(byDay)[x] == 0;
        assert multiset(r)[x] <= multiset(byDay)[x];
      }
    }
    forall x
      ensures x in r <==> x in rows && Selected(sel, x)
    {
      if x in r {
        assert multiset(r)[x] > 0;
        assert multiset(r)[x] <= multiset(byDay)[x] <= multiset(rows)[x];
      }
    }
    forall i | 0 <= i < |r|
      ensures Selected(sel, r[i])
    {
      assert r[i] in r;
    }
  }

  /** December 31st of a leap year is day 366, which no slider position
      reaches (the slider ends at 365): such rows are shown only while the
      range is left at its default, because then the range filter is
      skipped rather than applied. */
  lemma LeapDayOnlyAtDefault(rows: seq<Row>, x: Row, sel: Selection)
    requires x in rows && Derived(x)
    requires IsLeapYear(x.year) && x.zeitpunkt.month == 12 && x.zeitpunkt.day == 31
    requires sel.days.1 <= 365
    ensures x.day == 366
    ensures x in GetFilteredData(rows, sel) <==> sel.days == DefaultDays && (|sel.years| == 0 || x.year in sel.years)
  {
  }
}
