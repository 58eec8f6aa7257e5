/** `get_data` in app.py: the concatenated yearly rows are cleaned (a row
    mask on status and date, two columns kept, units converted) and enriched
    with the calendar columns the reports group by. */
module Loader {

  import opened Wrappers
  import opened Text
  import opened Seqs
  import opened Calendar
  import opened Timestamp

  /** One row of a yearly CSV file: timestamp string, gross load in the
      file's unit, and the status flag the row mask compares with "E". */
  datatype RawRow = RawRow(zeitpunkt: string, bruttolastgang: real, status: string)

  /** A cleaned row: timestamp string and consumption in the displayed unit. */
  datatype Reading = Reading(zeitpunkt: string, bruttolastgang: real)

  /** A cleaned row with the calendar columns `year`, `day` (day of year) and
      `zeit` (time of day as "HH:MM:SS"). */
  datatype Row = Row(zeitpunkt: DateTime, bruttolastgang: real, year: int, day: int, zeit: string)

  /** Rows dated before this day are kept whatever their status; from it on
      only rows with status "E" are kept. */
  const Cutoff: string := "2020-06-15"

  /** The raw unit is divided by this to reach the displayed one. */
  const Scale: real := 1000000.0

  /** The row mask `(status == 'E') | (zeitpunkt < '2020-06-15')`, where the
      comparison is between strings. */
  predicate Kept(r: RawRow) {
    r.status == "E" || LexLess(r.zeitpunkt, Cutoff)
  }

  /** The rows the mask keeps, in their original order. */
  function KeepRows(raw: seq<RawRow>): (kept: seq<RawRow>)
    ensures IsSubsequence(kept, raw)
    ensures forall i :: 0 <= i < |kept| ==> kept[i].status == "E" || LexLess(kept[i].zeitpunkt, Cutoff)
    ensures forall r :: r in raw && (r.status == "E" || LexLess(r.zeitpunkt, Cutoff)) ==> r in kept
    ensures forall r :: r in raw ==>
      multiset(kept)[r] == if Kept(r) then multiset(raw)[r] else 0
  {
    var kept := Filter(Kept, raw);
    forall r | r in raw && Kept(r)
      ensures r in kept
    {
      FilterKeepsSatisfying(Kept, raw, r);
    }
    kept
  }

  /** Keeps the timestamp and the consumption column and converts the
      consumption to the displayed unit. */
  function Project(kept: seq<RawRow>): (cs: seq<Reading>)
    ensures |cs| == |kept|
    ensures forall i :: 0 <= i < |cs| ==>
      cs[i].zeitpunkt == kept[i].zeitpunkt && cs[i].bruttolastgang * Scale == kept[i].bruttolastgang
  {
    seq(|kept|, i requires 0 <= i < |kept| => Reading(kept[i].zeitpunkt, kept[i].bruttolastgang / Scale))
  }

  /** Cleaning: the kept rows, projected and converted, one reading per kept
      row in the same order. */
  function Clean(raw: seq<RawRow>): (cs: seq<Reading>)
    ensures |cs| == |KeepRows(raw)|
    ensures forall i :: 0 <= i < |cs| ==>
      var r := KeepRows(raw)[i];
      cs[i].zeitpunkt == r.zeitpunkt && cs[i].bruttolastgang * Scale == r.bruttolastgang && Kept(r)
  {
    Project(KeepRows(raw))
  }

  lemma CutoffYear()
    ensures PadNumber(2020, 4) == "2020"
  {
    assert Pow10(1) == 10 && Pow10(2) == 100 && Pow10(3) == 1000;
    assert PadNumber(0, 1) == "0" && PadNumber(2, 1) == "2";
    assert PadNumber(20, 2) == "20";
    assert PadNumber(20, 3) == "020";
  }

  lemma CutoffMonthDay()
    ensures PadNumber(6, 2) == "06" && PadNumber(15, 2) == "15"
  {
    assert Pow10(1) == 10 && Pow10(2) == 100;
    assert PadNumber(5, 1) == "5" && PadNumber(6, 1) == "6";
  }

  /** The cutoff literal is the rendering of the date 2020-06-15. */
  lemma CutoffIsDate()
    ensures Cutoff == FormatDate(2020, 6, 15)
  {
    CutoffYear();
    CutoffMonthDay();
  }

  /** For a well-formed timestamp the string mask means what it is meant to:
      a row is kept exactly when its status is "E" or it is dated before
      2020-06-15. */
  lemma KeptIffStatusEOrEarly(r: RawRow)
    requires Parse(r.zeitpunkt).Some?
    ensures Kept(r) <==> r.status == "E" || DayBefore(Parse(r.zeitpunkt).value, 2020, 6, 15)
  {
    CutoffIsDate();
    LexLessDate(r.zeitpunkt, 2020, 6, 15);
  }

  /** The calendar columns of a row agree with its timestamp. */
  predicate Derived(row: Row) {
    && Valid(row.zeitpunkt)
    && row.year == row.zeitpunkt.year
    && row.day == DayOfYear(row.zeitpunkt.year, row.zeitpunkt.month, row.zeitpunkt.day)
    && row.zeit == Zeit(row.zeitpunkt)
  }

  /** `add_aggregation_codes` for one reading, restricted to the columns the
      reports use. Fails exactly when the timestamp does not parse. The day
      column is the day of the year that names the row's month and day, and
      the time column reads back as the row's hour, minute and second. */
  function Enrich(c: Reading): (r: Option<Row>)
    ensures r.Some? <==> Parse(c.zeitpunkt).Some?
    ensures r.Some? ==>
      var row, t := r.value, Parse(c.zeitpunkt).value;
      && Derived(row)
      && row.zeitpunkt == t && row.bruttolastgang == c.bruttolastgang && row.year == t.year
      && 1 <= row.day <= YearLength(row.year)
      && MonthDay(row.year, row.day) == (t.month, t.day)
      && ParseZeit(row.zeit) == Some((t.hour, t.minute, t.second))
  {
    match Parse(c.zeitpunkt)
    case None => None
    case Some(t) =>
      DayOfYearRoundTrip(t.year, t.month, t.day);
      Some(Row(t, c.bruttolastgang, t.year, DayOfYear(t.year, t.month, t.day), Zeit(t)))
  }

  /** `add_aggregation_codes` over the whole table: one row per reading, or a
      failure as soon as one timestamp does not parse. */
  function EnrichAll(cs: seq<Reading>): (r: Option<seq<Row>>)
    ensures r.Some? <==> forall i :: 0 <= i < |cs| ==> Parse(cs[i].zeitpunkt).Some?
    ensures r.Some? ==> |r.value| == |cs| && forall i :: 0 <= i < |cs| ==> Enrich(cs[i]) == Some(r.value[i])
  {
    var r := MapAll(Enrich, cs);
    assert forall i :: 0 <= i < |cs| ==> (Enrich(cs[i]).Some? <==> Parse(cs[i].zeitpunkt).Some?);
    r
  }

  /** `get_data`: cleaning followed by enrichment. Each output row comes from
      the kept raw row at the same position: same timestamp, consumption in
      the displayed unit, calendar columns derived from the timestamp, and
      the row has status "E" unless it is dated before 2020-06-15. */
  function GetData(raw: seq<RawRow>): (r: Option<seq<Row>>)
    ensures r.Some? <==> forall i :: 0 <= i < |KeepRows(raw)| ==> Parse(KeepRows(raw)[i].zeitpunkt).Some?
    ensures r.Some? ==>
      var rows, kept := r.value, KeepRows(raw);
      && |rows| == |kept|
      && forall i :: 0 <= i < |rows| ==>
        && Derived(rows[i])
        && Parse(kept[i].zeitpunkt) == Some(rows[i].zeitpunkt)
        && rows[i].bruttolastgang * Scale == kept[i].bruttolastgang
        && (kept[i].status == "E" || DayBefore(rows[i].zeitpunkt, 2020, 6, 15))
  {
    var cs := Clean(raw);
    var r := EnrichAll(cs);
    if r.Some? then
      var kept := KeepRows(raw);
      forall i | 0 <= i < |kept|
        ensures kept[i].status == "E" || DayBefore(r.value[i].zeitpunkt, 2020, 6, 15)
      {
        KeptIffStatusEOrEarly(kept[i]);
      }
      r
    else r
  }
}
