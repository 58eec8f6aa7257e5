/** The three reports of app.py: `consumption_year` (daily sums with a
    running per-year total), `consumption_day` (mean quarter-hour load per
    time of day) and `consumption_week`, which is a copy of the day report. */
module Reports {

  import opened Seqs
  import opened Text
  import opened Grouping
  import opened Loader
  import opened Filters

  // Reference sums over the rows of a table

  /** Some row is dated day `d` of year `y`. */
  predicate HasDay(rows: seq<Row>, y: int, d: int) {
    exists r :: r in rows && r.year == y && r.day == d
  }

  /** Consumption on day `d` of year `y`. */
  function DaySum(rows: seq<Row>, y: int, d: int): real {
    if |rows| == 0 then 0.0
    else (if rows[0].year == y && rows[0].day == d then rows[0].bruttolastgang else 0.0) + DaySum(rows[1..], y, d)
  }

  /** Consumption of year `y` up to and including day `d`. */
  function DaysUpTo(rows: seq<Row>, y: int, d: int): real {
    if |rows| == 0 then 0.0
    else (if rows[0].year == y && rows[0].day <= d then rows[0].bruttolastgang else 0.0) + DaysUpTo(rows[1..], y, d)
  }

  /** Consumption of year `y`. */
  function YearTotal(rows: seq<Row>, y: int): real {
    if |rows| == 0 then 0.0
    else (if rows[0].year == y then rows[0].bruttolastgang else 0.0) + YearTotal(rows[1..], y)
  }

  /** Consumption at time of day `z` over all days of year `y`. */
  function ZeitSum(rows: seq<Row>, y: int, z: string): real {
    if |rows| == 0 then 0.0
    else (if rows[0].year == y && rows[0].zeit == z then rows[0].bruttolastgang else 0.0) + ZeitSum(rows[1..], y, z)
  }

  /** Number of rows at time of day `z` in year `y`. */
  function ZeitCount(rows: seq<Row>, y: int, z: string): nat {
    if |rows| == 0 then 0
    else (if rows[0].year == y && rows[0].zeit == z then 1 else 0) + ZeitCount(rows[1..], y, z)
  }

  // Year report

  /** `df[['year', 'day', 'bruttolastgang']]` as (key, value) pairs. */
  function DayEntries(rows: seq<Row>): (es: seq<Entry>)
    ensures |es| == |rows|
    ensures forall i :: 0 <= i < |rows| ==>
      es[i] == Entry(GroupKey(rows[i].year, DaySlot(rows[i].day)), rows[i].bruttolastgang)
  {
    seq(|rows|, i requires 0 <= i < |rows| => Entry(GroupKey(rows[i].year, DaySlot(rows[i].day)), rows[i].bruttolastgang))
  }

  lemma {:induction false} DayEntriesKeySum(rows: seq<Row>, y: int, d: int)
    ensures KeySum(DayEntries(rows), GroupKey(y, DaySlot(d))) == DaySum(rows, y, d)
    decreases |rows|
  {
    if |rows| > 0 {
      assert DayEntries(rows)[1..] == DayEntries(rows[1..]);
      DayEntriesKeySum(rows[1..], y, d);
    }
  }

  lemma {:induction false} DayEntriesUpTo(rows: seq<Row>, y: int, d: int, p: GroupKey -> bool)
    requires forall r :: r in rows ==> p(GroupKey(r.year, DaySlot(r.day))) == (r.year == y && r.day <= d)
    ensures SumWhere(DayEntries(rows), p) == DaysUpTo(rows, y, d)
    decreases |rows|
  {
    if |rows| > 0 {
      assert DayEntries(rows)[1..] == DayEntries(rows[1..]);
      assert rows[0] in rows;
      assert forall r :: r in rows[1..] ==> r in rows;
      DayEntriesUpTo(rows[1..], y, d, p);
    }
  }

  lemma DayEntriesKeys(rows: seq<Row>, k: GroupKey)
    ensures HasKey(DayEntries(rows), k) <==> k.slot.DaySlot? && HasDay(rows, k.year, k.slot.day)
  {
    var es := DayEntries(rows);
    if HasKey(es, k) {
      var e :| e in es && e.key == k;
      var i :| 0 <= i < |es| && es[i] == e;
      assert rows[i] in rows;
    }
    if k.slot.DaySlot? && HasDay(rows, k.year, k.slot.day) {
      var r :| r in rows && r.year == k.year && r.day == k.slot.day;
      var i :| 0 <= i < |rows| && rows[i] == r;
      assert es[i] in es;
    }
  }

  /** One row of the year report: `year`, `day`, the day's consumption and
      the year's running total `cum_bruttolastgang`. */
  datatype DailyTotal = DailyTotal(year: int, day: int, bruttolastgang: real, cumBruttolastgang: real)

  /** (year, day) tuple order. */
  predicate DailyTotalBefore(a: DailyTotal, b: DailyTotal) {
    a.year < b.year || (a.year == b.year && a.day < b.day)
  }

  /** Sum of the values of the year-`y` rows of a grouped table. */
  function YearSum(bs: seq<Entry>, y: int): real {
    SumWhere(bs, (k: GroupKey) => k.year == y)
  }

  /** `groupby(['year','day']).sum()` followed by
      `groupby(['year'])['bruttolastgang'].cumsum()`: one row per day that
      has readings, ascending by (year, day), holding the day's consumption
      and the consumption of its year up to and including that day. */
  function DailyTotals(f: seq<Row>): (ts: seq<DailyTotal>)
    ensures Sorted(ts, DailyTotalBefore)
    ensures forall i :: 0 <= i < |ts| ==> HasDay(f, ts[i].year, ts[i].day)
    ensures forall y, d :: HasDay(f, y, d) ==> exists i :: 0 <= i < |ts| && ts[i].year == y && ts[i].day == d
    ensures forall i :: 0 <= i < |ts| ==> ts[i].bruttolastgang == DaySum(f, ts[i].year, ts[i].day)
    ensures forall i :: 0 <= i < |ts| ==> ts[i].cumBruttolastgang == DaysUpTo(f, ts[i].year, ts[i].day)
  {
    var bs := GroupSum(DayEntries(f));
    DayBuckets(f, bs);
    var ts := seq(|bs|, i requires 0 <= i < |bs| && bs[i].key.slot.DaySlot? =>
      DailyTotal(bs[i].key.year, bs[i].key.slot.day, bs[i].value, YearSum(bs[..i + 1], bs[i].key.year)));
    DailyTotalsFacts(f, bs, ts);
    ts
  }

  /** Every bucket of the (year, day) group-by is a day of some row. */
  lemma DayBuckets(f: seq<Row>, bs: seq<Entry>)
    requires bs == GroupSum(DayEntries(f))
    ensures forall i :: 0 <= i < |bs| ==> bs[i].key.slot.DaySlot? && HasDay(f, bs[i].key.year, bs[i].key.slot.day)
  {
    forall i | 0 <= i < |bs|
      ensures bs[i].key.slot.DaySlot? && HasDay(f, bs[i].key.year, bs[i].key.slot.day)
    {
      assert HasKey(bs, bs[i].key) by { assert bs[i] in bs; }
      DayEntriesKeys(f, bs[i].key);
    }
  }

  lemma DailyTotalsFacts(f: seq<Row>, bs: seq<Entry>, ts: seq<DailyTotal>)
    requires bs == GroupSum(DayEntries(f))
    requires |ts| == |bs|
    requires forall i :: 0 <= i < |bs| ==> bs[i].key.slot.DaySlot?
    requires forall i :: 0 <= i < |bs| ==>
      ts[i] == DailyTotal(bs[i].key.year, bs[i].key.slot.day, bs[i].value, YearSum(bs[..i + 1], bs[i].key.year))
    ensures Sorted(ts, DailyTotalBefore)
    ensures forall i :: 0 <= i < |ts| ==> HasDay(f, ts[i].year, ts[i].day)
    ensures forall y, d :: HasDay(f, y, d) ==> exists i :: 0 <= i < |ts| && ts[i].year == y && ts[i].day == d
    ensures forall i :: 0 <= i < |ts| ==> ts[i].bruttolastgang == DaySum(f, ts[i].year, ts[i].day)
    ensures forall i :: 0 <= i < |ts| ==> ts[i].cumBruttolastgang == DaysUpTo(f, ts[i].year, ts[i].day)
  {
    var es := DayEntries(f);
    // every bucket key is a (year, DaySlot(d)) key of some row
    forall i | 0 <= i < |bs|
      ensures bs[i].key == GroupKey(ts[i].year, DaySlot(ts[i].day)) && HasDay(f, ts[i].year, ts[i].day)
    {
      assert HasKey(bs, bs[i].key) by { assert bs[i] in bs; }
      DayEntriesKeys(f, bs[i].key);
    }
    forall i, j | 0 <= i < j < |ts|
      ensures DailyTotalBefore(ts[i], ts[j])
    {
      assert KeyLess(bs[i].key, bs[j].key);
    }
    forall y, d | HasDay(f, y, d)
      ensures exists i :: 0 <= i < |ts| && ts[i].year == y && ts[i].day == d
    {
      var k := GroupKey(y, DaySlot(d));
      DayEntriesKeys(f, k);
      var e :| e in bs && e.key == k;
      var i :| 0 <= i < |bs| && bs[i] == e;
      assert ts[i].year == y && ts[i].day == d;
    }
    forall i | 0 <= i < |ts|
      ensures ts[i].bruttolastgang == DaySum(f, ts[i].year, ts[i].day)
    {
      DayEntriesKeySum(f, ts[i].year, ts[i].day);
    }
    forall i | 0 <= i < |ts|
      ensures ts[i].cumBruttolastgang == DaysUpTo(f, ts[i].year, ts[i].day)
    {
      CumulativeIsDaysUpTo(f, bs, i);
    }
  }

  /** The running total at bucket `i` (a sum over the buckets before it in
      table order) is the year's consumption up to that bucket's day. */
  lemma CumulativeIsDaysUpTo(f: seq<Row>, bs: seq<Entry>, i: int)
    requires bs == GroupSum(DayEntries(f)) && 0 <= i < |bs|
    requires bs[i].key.slot.DaySlot?
    ensures YearSum(bs[..i + 1], bs[i].key.year) == DaysUpTo(f, bs[i].key.year, bs[i].key.slot.day)
  {
    var y, d := bs[i].key.year, bs[i].key.slot.day;
    var p := (k: GroupKey) => k.year == y;
    var q := (k: GroupKey) => k.year == y && !KeyLess(bs[i].key, k);
    PrefixIsKeysUpTo(bs, i, p, q);
    GroupSumPreservesSubtotals(DayEntries(f), q);
    DayEntriesUpTo(f, y, d, q);
  }

  /** Bucket consumption above which a day is shown (`bruttolastgang > 2`). */
  const MinDailyConsumption: real := 2.0

  /** The year report's table for already filtered rows: the days whose
      consumption exceeds 2, with the running total taken before this step,
      so that dropped days still count in the totals of later days. */
  function YearTable(f: seq<Row>): (table: seq<DailyTotal>)
    ensures IsSubsequence(table, DailyTotals(f))
    ensures Sorted(table, DailyTotalBefore)
    ensures forall i :: 0 <= i < |table| ==> table[i].bruttolastgang > MinDailyConsumption
    ensures forall i :: 0 <= i < |table| ==>
      && HasDay(f, table[i].year, table[i].day)
      && table[i].bruttolastgang == DaySum(f, table[i].year, table[i].day)
      && table[i].cumBruttolastgang == DaysUpTo(f, table[i].year, table[i].day)
    ensures forall y, d :: HasDay(f, y, d) && DaySum(f, y, d) > MinDailyConsumption ==>
      exists i :: 0 <= i < |table| && table[i].year == y && table[i].day == d
  {
    var ts := DailyTotals(f);
    var table := Filter((t: DailyTotal) => t.bruttolastgang > MinDailyConsumption, ts);
    YearReportFacts(f, ts, table);
    table
  }

  /** `consumption_year` without the plotting: the filters, then the year
      table of the rows that pass them. */
  function YearReport(rows: seq<Row>, sel: Selection): (table: seq<DailyTotal>)
    ensures var f := GetFilteredData(rows, sel);
      && Sorted(table, DailyTotalBefore)
      && (forall i :: 0 <= i < |table| ==> table[i].bruttolastgang > MinDailyConsumption)
      && (forall i :: 0 <= i < |table| ==>
            && HasDay(f, table[i].year, table[i].day)
            && table[i].bruttolastgang == DaySum(f, table[i].year, table[i].day)
            && table[i].cumBruttolastgang == DaysUpTo(f, table[i].year, table[i].day))
      && (forall y, d :: HasDay(f, y, d) && DaySum(f, y, d) > MinDailyConsumption ==>
            exists i :: 0 <= i < |table| && table[i].year == y && table[i].day == d)
  {
    YearTable(GetFilteredData(rows, sel))
  }

  lemma YearReportFacts(f: seq<Row>, ts: seq<DailyTotal>, table: seq<DailyTotal>)
    requires ts == DailyTotals(f)
    requires table == Filter((t: DailyTotal) => t.bruttolastgang > MinDailyConsumption, ts)
    ensures Sorted(table, DailyTotalBefore)
    ensures forall i :: 0 <= i < |table| ==>
      && HasDay(f, table[i].year, table[i].day)
      && table[i].bruttolastgang == DaySum(f, table[i].year, table[i].day)
      && table[i].cumBruttolastgang == DaysUpTo(f, table[i].year, table[i].day)
    ensures forall y, d :: HasDay(f, y, d) && DaySum(f, y, d) > MinDailyConsumption ==>
      exists i :: 0 <= i < |table| && table[i].year == y && table[i].day == d
  {
    SubsequenceSorted(table, ts, DailyTotalBefore);
    KeptRowsKeepValues(f, ts, table);
    forall y, d | HasDay(f, y, d) && DaySum(f, y, d) > MinDailyConsumption
      ensures exists i :: 0 <= i < |table| && table[i].year == y && table[i].day == d
    {
      HeavyDayKept(f, ts, table, y, d);
    }
  }

  lemma KeptRowsKeepValues(f: seq<Row>, ts: seq<DailyTotal>, table: seq<DailyTotal>)
    requires forall i :: 0 <= i < |ts| ==>
      && HasDay(f, ts[i].year, ts[i].day)
      && ts[i].bruttolastgang == DaySum(f, ts[i].year, ts[i].day)
      && ts[i].cumBruttolastgang == DaysUpTo(f, ts[i].year, ts[i].day)
    requires IsSubsequence(table, ts)
    ensures forall i :: 0 <= i < |table| ==>
      && HasDay(f, table[i].year, table[i].day)
      && table[i].bruttolastgang == DaySum(f, table[i].year, table[i].day)
      && table[i].cumBruttolastgang == DaysUpTo(f, table[i].year, table[i].day)
  {
    SubsequenceMembers(table, ts);
    forall i | 0 <= i < |table|
      ensures && HasDay(f, table[i].year, table[i].day)
              && table[i].bruttolastgang == DaySum(f, table[i].year, table[i].day)
              && table[i].cumBruttolastgang == DaysUpTo(f, table[i].year, table[i].day)
    {
      assert table[i] in ts;
      var j :| 0 <= j < |ts| && ts[j] == table[i];
    }
  }

  lemma HeavyDayKept(f: seq<Row>, ts: seq<DailyTotal>, table: seq<DailyTotal>, y: int, d: int)
    requires ts == DailyTotals(f)
    requires table == Filter((t: DailyTotal) => t.bruttolastgang > MinDailyConsumption, ts)
    requires HasDay(f, y, d) && DaySum(f, y, d) > MinDailyConsumption
    ensures exists i :: 0 <= i < |table| && table[i].year == y && table[i].day == d
  {
    var j :| 0 <= j < |ts| && ts[j].year == y && ts[j].day == d;
    FilterKeepsSatisfying((t: DailyTotal) => t.bruttolastgang > MinDailyConsumption, ts, ts[j]);
    var i :| 0 <= i < |table| && table[i] == ts[j];
  }

  lemma YearSumSnoc(s: seq<Entry>, e: Entry, y: int)
    ensures YearSum(s + [e], y) == YearSum(s, y) + (if e.key.year == y then e.value else 0.0)
  {
    SumWhereAppend(s, [e], (k: GroupKey) => k.year == y);
  }

  /** `groupby(['year'])['bruttolastgang'].cumsum()` as pandas computes it:
      one pass over the table with a running total per year. Each output is
      the sum of the values of its year up to and including its row. */
  method CumulativeByYear(bs: seq<Entry>) returns (cums: seq<real>)
    ensures |cums| == |bs|
    ensures forall i :: 0 <= i < |bs| ==> cums[i] == YearSum(bs[..i + 1], bs[i].key.year)
  {
    var running: map<int, real> := map[];
    cums := [];
    for i := 0 to |bs|
      invariant |cums| == i
      invariant forall j :: 0 <= j < i ==> cums[j] == YearSum(bs[..j + 1], bs[j].key.year)
      invariant forall y :: y in running ==> running[y] == YearSum(bs[..i], y)
      invariant forall y :: y !in running ==> YearSum(bs[..i], y) == 0.0
    {
      var y := bs[i].key.year;
      var before := if y in running then running[y] else 0.0;
      assert bs[..i + 1] == bs[..i] + [bs[i]];
      forall y' ensures YearSum(bs[..i + 1], y') == YearSum(bs[..i], y') + (if bs[i].key.year == y' then bs[i].value else 0.0) {
        YearSumSnoc(bs[..i], bs[i], y');
      }
      running := running[y := before + bs[i].value];
      cums := cums + [before + bs[i].value];
    }
  }

  lemma {:induction false} DaysUpToWholeYear(rows: seq<Row>, y: int, d: int)
    requires forall r :: r in rows && r.year == y ==> r.day <= d
    ensures DaysUpTo(rows, y, d) == YearTotal(rows, y)
    decreases |rows|
  {
    if |rows| > 0 {
      assert rows[0] in rows;
      assert forall r :: r in rows[1..] ==> r in rows;
      DaysUpToWholeYear(rows[1..], y, d);
    }
  }

  /** The last day of a year in the daily table carries the year's total
      consumption. */
  lemma LastDayCarriesYearTotal(f: seq<Row>, i: int)
    requires 0 <= i < |DailyTotals(f)|
    requires forall j :: i < j < |DailyTotals(f)| ==> DailyTotals(f)[j].year != DailyTotals(f)[i].year
    ensures DailyTotals(f)[i].cumBruttolastgang == YearTotal(f, DailyTotals(f)[i].year)
  {
    var ts := DailyTotals(f);
    var y, d := ts[i].year, ts[i].day;
    forall r | r in f && r.year == y
      ensures r.day <= d
    {
      assert HasDay(f, y, r.day);
      var j :| 0 <= j < |ts| && ts[j].year == y && ts[j].day == r.day;
      if j < i {
        assert DailyTotalBefore(ts[j], ts[i]);
      } else if j > i {
        assert false;
      }
    }
    DaysUpToWholeYear(f, y, d);
  }

  /** A table ordered by day, whose rows are days of `f` carrying their sums,
      and which lists the one day of `f` above the threshold, is exactly
      that day. */
  lemma SingleHeavyDay(f: seq<Row>, table: seq<DailyTotal>, y: int, d: int)
    requires Sorted(table, DailyTotalBefore)
    requires forall i :: 0 <= i < |table| ==>
      && table[i].bruttolastgang > MinDailyConsumption
      && HasDay(f, table[i].year, table[i].day)
      && table[i].bruttolastgang == DaySum(f, table[i].year, table[i].day)
      && table[i].cumBruttolastgang == DaysUpTo(f, table[i].year, table[i].day)
    requires exists k :: 0 <= k < |table| && table[k].year == y && table[k].day == d
    requires forall r :: r in f && (r.year != y || r.day != d) ==> DaySum(f, r.year, r.day) <= MinDailyConsumption
    ensures table == [DailyTotal(y, d, DaySum(f, y, d), DaysUpTo(f, y, d))]
  {
    forall i | 0 <= i < |table|
      ensures table[i].year == y && table[i].day == d
    {
      var r :| r in f && r.year == table[i].year && r.day == table[i].day;
    }
    if |table| > 1 {
      var ordered := DailyTotalBefore(table[0], table[1]);
      assert false;
    }
  }

  /** Two years, one reading each: 1.5 on 1 March 2021 and 3.0 on 1 March
      2022. */
  const ThresholdRows: seq<Row> := [
    Row(Timestamp.DateTime(2021, 3, 1, 0, 0, 0), 1.5, 2021, 60, "00:00:00"),
    Row(Timestamp.DateTime(2022, 3, 1, 0, 0, 0), 3.0, 2022, 60, "00:00:00")]

  /** One year, two readings: 1.0 on 1 January 2021 and 3.0 on 2 January. */
  const DroppedDayRows: seq<Row> := [
    Row(Timestamp.DateTime(2021, 1, 1, 0, 0, 0), 1.0, 2021, 1, "00:00:00"),
    Row(Timestamp.DateTime(2021, 1, 2, 0, 0, 0), 3.0, 2021, 2, "00:00:00")]

  lemma ThresholdSums()
    ensures HasDay(ThresholdRows, 2022, 60)
    ensures DaySum(ThresholdRows, 2022, 60) == 3.0 && DaysUpTo(ThresholdRows, 2022, 60) == 3.0
    ensures forall r :: r in ThresholdRows && (r.year != 2022 || r.day != 60) ==>
      DaySum(ThresholdRows, r.year, r.day) <= MinDailyConsumption
  {
    var f := ThresholdRows;
    var b := f[1];
    assert f[1..] == [b] && [b][1..] == [];
    assert DaySum([], 2022, 60) == 0.0 && DaysUpTo([], 2022, 60) == 0.0 && DaySum([], 2021, 60) == 0.0;
    assert DaySum([b], 2022, 60) == 3.0 && DaysUpTo([b], 2022, 60) == 3.0 && DaySum([b], 2021, 60) == 0.0;
    assert b in f;
  }

  lemma DroppedDaySums()
    ensures HasDay(DroppedDayRows, 2021, 2)
    ensures DaySum(DroppedDayRows, 2021, 2) == 3.0 && DaysUpTo(DroppedDayRows, 2021, 2) == 4.0
    ensures forall r :: r in DroppedDayRows && (r.year != 2021 || r.day != 2) ==>
      DaySum(DroppedDayRows, r.year, r.day) <= MinDailyConsumption
  {
    var f := DroppedDayRows;
    var b := f[1];
    assert f[1..] == [b] && [b][1..] == [];
    assert DaySum([], 2021, 2) == 0.0 && DaysUpTo([], 2021, 2) == 0.0 && DaySum([], 2021, 1) == 0.0;
    assert DaySum([b], 2021, 2) == 3.0 && DaysUpTo([b], 2021, 2) == 3.0 && DaySum([b], 2021, 1) == 0.0;
    assert b in f;
  }

  /** With the full day range and no year chosen, the year report is the
      year table of all rows. */
  lemma DefaultYearReport(rows: seq<Row>)
    ensures YearReport(rows, Selection(DefaultDays, [])) == YearTable(rows)
  {
    assert GetFilteredData(rows, Selection(DefaultDays, [])) == rows;
  }

  /** With the full day range and no year chosen, 2021's single day (1.5, not
      above 2) is dropped and 2022's is the one row, with running total 3.0. */
  lemma ThresholdExample()
    ensures YearReport(ThresholdRows, Selection(DefaultDays, [])) == [DailyTotal(2022, 60, 3.0, 3.0)]
  {
    DefaultYearReport(ThresholdRows);
    ThresholdSums();
    assert DaySum(ThresholdRows, 2022, 60) > MinDailyConsumption;
    SingleHeavyDay(ThresholdRows, YearTable(ThresholdRows), 2022, 60);
  }

  /** A day at or below the threshold is not shown but still counts: the
      report has only 2 January, and its running total is 4.0. */
  lemma DroppedDayStillCounts()
    ensures YearReport(DroppedDayRows, Selection(DefaultDays, [])) == [DailyTotal(2021, 2, 3.0, 4.0)]
  {
    DefaultYearReport(DroppedDayRows);
    DroppedDaySums();
    assert DaySum(DroppedDayRows, 2021, 2) > MinDailyConsumption;
    SingleHeavyDay(DroppedDayRows, YearTable(DroppedDayRows), 2021, 2);
  }

  // Day report (and the week report, which is the same computation)

  /** Some row of year `y` has time of day `z`. */
  predicate HasZeit(rows: seq<Row>, y: int, z: string) {
    exists r :: r in rows && r.year == y && r.zeit == z
  }

  /** Factor from the stored unit to the one the day report shows. */
  const DayReportScale: real := 1000.0

  /** `df_time[['year', 'zeit', 'bruttolastgang']]` after the column was
      multiplied by 1000, as (key, value) pairs. */
  function ZeitEntries(rows: seq<Row>): (es: seq<Entry>)
    ensures |es| == |rows|
    ensures forall i :: 0 <= i < |rows| ==>
      es[i] == Entry(GroupKey(rows[i].year, ZeitSlot(rows[i].zeit)), rows[i].bruttolastgang * DayReportScale)
  {
    seq(|rows|, i requires 0 <= i < |rows| =>
      Entry(GroupKey(rows[i].year, ZeitSlot(rows[i].zeit)), rows[i].bruttolastgang * DayReportScale))
  }

  lemma {:induction false} ZeitEntriesKeySum(rows: seq<Row>, y: int, z: string)
    ensures KeySum(ZeitEntries(rows), GroupKey(y, ZeitSlot(z))) == DayReportScale * ZeitSum(rows, y, z)
    decreases |rows|
  {
    if |rows| > 0 {
      assert ZeitEntries(rows)[1..] == ZeitEntries(rows[1..]);
      ZeitEntriesKeySum(rows[1..], y, z);
    }
  }

  lemma {:induction false} ZeitEntriesKeyCount(rows: seq<Row>, y: int, z: string)
    ensures KeyCount(ZeitEntries(rows), GroupKey(y, ZeitSlot(z))) == ZeitCount(rows, y, z)
    decreases |rows|
  {
    if |rows| > 0 {
      assert ZeitEntries(rows)[1..] == ZeitEntries(rows[1..]);
      ZeitEntriesKeyCount(rows[1..], y, z);
    }
  }

  lemma ZeitEntriesKeys(rows: seq<Row>, k: GroupKey)
    ensures HasKey(ZeitEntries(rows), k) <==> k.slot.ZeitSlot? && HasZeit(rows, k.year, k.slot.zeit)
  {
    var es := ZeitEntries(rows);
    if HasKey(es, k) {
      var e :| e in es && e.key == k;
      var i :| 0 <= i < |es| && es[i] == e;
      assert rows[i] in rows;
    }
    if k.slot.ZeitSlot? && HasZeit(rows, k.year, k.slot.zeit) {
      var r :| r in rows && r.year == k.year && r.zeit == k.slot.zeit;
      var i :| 0 <= i < |rows| && rows[i] == r;
      assert es[i] in es;
    }
  }

  /** `v` is the mean of `count` values summing to `sum`. */
  predicate IsMean(v: real, sum: real, count: nat) {
    count > 0 && v * (count as real) == sum
  }

  /** One row of the day report: `year`, `zeit` and the mean consumption
      (times 1000) at that time of day over the selected days of the year. */
  datatype ZeitMean = ZeitMean(year: int, zeit: string, bruttolastgang: real)

  /** (year, zeit) tuple order, with zeit compared as a string. */
  predicate ZeitBefore(a: ZeitMean, b: ZeitMean) {
    a.year < b.year || (a.year == b.year && LexLess(a.zeit, b.zeit))
  }

  /** `table` is the (year, zeit) mean table of `f`: strictly ordered by
      year then time, one row for each (year, zeit) with readings and no
      other, each holding 1000 times the mean of that time's readings. */
  ghost predicate ZeitMeans(f: seq<Row>, table: seq<ZeitMean>) {
    && Sorted(table, ZeitBefore)
    && (forall i :: 0 <= i < |table| ==> HasZeit(f, table[i].year, table[i].zeit))
    && (forall y, z :: HasZeit(f, y, z) ==> exists i :: 0 <= i < |table| && table[i].year == y && table[i].zeit == z)
    && (forall i :: 0 <= i < |table| ==>
          IsMean(table[i].bruttolastgang, DayReportScale * ZeitSum(f, table[i].year, table[i].zeit), ZeitCount(f, table[i].year, table[i].zeit)))
  }

  /** `groupby(['year','zeit']).mean()` of the scaled rows: one row per
      (year, zeit) that has readings, ascending, holding the mean. */
  function ZeitTable(f: seq<Row>): (table: seq<ZeitMean>)
    ensures ZeitMeans(f, table)
  {
    var bs := GroupMean(ZeitEntries(f));
    ZeitBuckets(f, bs);
    var table := seq(|bs|, i requires 0 <= i < |bs| && bs[i].key.slot.ZeitSlot? =>
      ZeitMean(bs[i].key.year, bs[i].key.slot.zeit, bs[i].value));
    ZeitTableFacts(f, bs, table);
    table
  }

  /** Every bucket of the (year, zeit) group-by is a time of day of some row. */
  lemma ZeitBuckets(f: seq<Row>, bs: seq<Entry>)
    requires bs == GroupMean(ZeitEntries(f))
    ensures forall i :: 0 <= i < |bs| ==> bs[i].key.slot.ZeitSlot? && HasZeit(f, bs[i].key.year, bs[i].key.slot.zeit)
  {
    forall i | 0 <= i < |bs|
      ensures bs[i].key.slot.ZeitSlot? && HasZeit(f, bs[i].key.year, bs[i].key.slot.zeit)
    {
      assert HasKey(bs, bs[i].key) by { assert bs[i] in bs; }
      ZeitEntriesKeys(f, bs[i].key);
    }
  }

  lemma ZeitTableFacts(f: seq<Row>, bs: seq<Entry>, table: seq<ZeitMean>)
    requires bs == GroupMean(ZeitEntries(f))
    requires |table| == |bs|
    requires forall i :: 0 <= i < |bs| ==> bs[i].key.slot.ZeitSlot?
    requires forall i :: 0 <= i < |bs| ==> table[i] == ZeitMean(bs[i].key.year, bs[i].key.slot.zeit, bs[i].value)
    ensures Sorted(table, ZeitBefore)
    ensures forall i :: 0 <= i < |table| ==> HasZeit(f, table[i].year, table[i].zeit)
    ensures forall y, z :: HasZeit(f, y, z) ==> exists i :: 0 <= i < |table| && table[i].year == y && table[i].zeit == z
    ensures forall i :: 0 <= i < |table| ==>
      IsMean(table[i].bruttolastgang, DayReportScale * ZeitSum(f, table[i].year, table[i].zeit), ZeitCount(f, table[i].year, table[i].zeit))
  {
    var es := ZeitEntries(f);
    forall i | 0 <= i < |bs|
      ensures bs[i].key == GroupKey(table[i].year, ZeitSlot(table[i].zeit)) && HasZeit(f, table[i].year, table[i].zeit)
    {
      assert HasKey(bs, bs[i].key) by { assert bs[i] in bs; }
      ZeitEntriesKeys(f, bs[i].key);
    }
    forall i, j | 0 <= i < j < |table|
      ensures ZeitBefore(table[i], table[j])
    {
      assert KeyLess(bs[i].key, bs[j].key);
    }
    forall y, z | HasZeit(f, y, z)
      ensures exists i :: 0 <= i < |table| && table[i].year == y && table[i].zeit == z
    {
      ZeitListed(f, bs, table, y, z);
    }
    forall i | 0 <= i < |table|
      ensures IsMean(table[i].bruttolastgang, DayReportScale * ZeitSum(f, table[i].year, table[i].zeit), ZeitCount(f, table[i].year, table[i].zeit))
    {
      ZeitMeanValue(f, bs, i, table[i]);
    }
  }

  lemma ZeitListed(f: seq<Row>, bs: seq<Entry>, table: seq<ZeitMean>, y: int, z: string)
    requires bs == GroupMean(ZeitEntries(f))
    requires |table| == |bs|
    requires forall i :: 0 <= i < |bs| ==> bs[i].key.slot.ZeitSlot?
    requires forall i :: 0 <= i < |bs| ==> table[i] == ZeitMean(bs[i].key.year, bs[i].key.slot.zeit, bs[i].value)
    requires HasZeit(f, y, z)
    ensures exists i :: 0 <= i < |table| && table[i].year == y && table[i].zeit == z
  {
    var k := GroupKey(y, ZeitSlot(z));
    ZeitEntriesKeys(f, k);
    assert HasKey(bs, k);
    var e :| e in bs && e.key == k;
    var i :| 0 <= i < |bs| && bs[i] == e;
    assert bs[i].key.slot.zeit == z;
  }

  lemma ZeitMeanValue(f: seq<Row>, bs: seq<Entry>, i: int, t: ZeitMean)
    requires bs == GroupMean(ZeitEntries(f)) && 0 <= i < |bs|
    requires bs[i].key == GroupKey(t.year, ZeitSlot(t.zeit)) && t.bruttolastgang == bs[i].value
    ensures IsMean(t.bruttolastgang, DayReportScale * ZeitSum(f, t.year, t.zeit), ZeitCount(f, t.year, t.zeit))
  {
    var es := ZeitEntries(f);
    assert KeyCount(es, bs[i].key) > 0 && bs[i].value * (KeyCount(es, bs[i].key) as real) == KeySum(es, bs[i].key);
    ZeitEntriesKeySum(f, t.year, t.zeit);
    ZeitEntriesKeyCount(f, t.year, t.zeit);
  }

  /** The day report ("Tagesverlauf"): the filtered rows' mean consumption
      per (year, time of day), scaled by 1000. */
  function DayReport(rows: seq<Row>, sel: Selection): (table: seq<ZeitMean>)
    ensures ZeitMeans(GetFilteredData(rows, sel), table)
  {
    ZeitTable(GetFilteredData(rows, sel))
  }

  /** The week report ("Wochenverbrauch") repeats the day report's steps
      unchanged: same filter, same scaling, same (year, zeit) mean. */
  function WeekReport(rows: seq<Row>, sel: Selection): (table: seq<ZeitMean>)
    ensures table == DayReport(rows, sel)
  {
    ZeitTable(GetFilteredData(rows, sel))
  }

  /** No rows, or a selection that matches none, gives empty reports. */
  lemma EmptySelectionEmptyReports(rows: seq<Row>, sel: Selection)
    requires GetFilteredData(rows, sel) == []
    ensures YearReport(rows, sel) == []
    ensures DayReport(rows, sel) == []
  {
  }
}
