/** The `zeitpunkt` column: ISO date-time strings, how `pd.to_datetime` reads
    them, and the `%H:%M:%S` rendering used as the time-of-day key `zeit`. */
module Timestamp {

  import opened Wrappers
  import opened Text
  import opened Calendar

  datatype DateTime = DateTime(year: int, month: int, day: int, hour: int, minute: int, second: int)

  /** A date-time Python's `datetime` can hold. */
  predicate Valid(t: DateTime) {
    && 1 <= t.year <= 9999
    && ValidDate(t.year, t.month, t.day)
    && 0 <= t.hour < 24 && 0 <= t.minute < 60 && 0 <= t.second < 60
  }

  /** "YYYY-MM-DD" at the start of the string. */
  predicate DateShape(s: string) {
    && |s| >= 10
    && AllDigits(s[..4]) && s[4] == '-'
    && AllDigits(s[5..7]) && s[7] == '-'
    && AllDigits(s[8..10])
  }

  /** "T" or " " followed by "HH:MM:SS" after the date, and nothing more. */
  predicate TimeShape(s: string) {
    && |s| == 19
    && (s[10] == 'T' || s[10] == ' ')
    && AllDigits(s[11..13]) && s[13] == ':'
    && AllDigits(s[14..16]) && s[16] == ':'
    && AllDigits(s[17..19])
  }

  /** `pd.to_datetime` on one `zeitpunkt` string: a date alone means
      midnight; any other shape, or a date or time that does not exist,
      fails. */
  function Parse(s: string): (r: Option<DateTime>)
    ensures r.Some? ==> Valid(r.value) && DateShape(s) && (|s| == 10 || TimeShape(s))
    ensures r.Some? ==> r.value.year == NumberValue(s[..4])
    ensures r.Some? ==> r.value.month == NumberValue(s[5..7]) && r.value.day == NumberValue(s[8..10])
    ensures r.Some? && |s| == 10 ==> r.value.hour == 0 && r.value.minute == 0 && r.value.second == 0
    ensures r.Some? && |s| != 10 ==>
      && r.value.hour == NumberValue(s[11..13])
      && r.value.minute == NumberValue(s[14..16])
      && r.value.second == NumberValue(s[17..19])
  {
    if !DateShape(s) || !(|s| == 10 || TimeShape(s)) then None
    else
      var t := DateTime(
        NumberValue(s[..4]), NumberValue(s[5..7]), NumberValue(s[8..10]),
        if |s| == 10 then 0 else NumberValue(s[11..13]),
        if |s| == 10 then 0 else NumberValue(s[14..16]),
        if |s| == 10 then 0 else NumberValue(s[17..19]));
      if Valid(t) then Some(t) else None
  }

  /** The converse of `Parse`'s contract: a string of either shape whose
      fields name an existing date-time parses to exactly that date-time,
      with midnight for a bare date. */
  lemma ParseComplete(s: string, t: DateTime)
    requires DateShape(s) && (|s| == 10 || TimeShape(s))
    requires t.year == NumberValue(s[..4]) && t.month == NumberValue(s[5..7]) && t.day == NumberValue(s[8..10])
    requires |s| == 10 ==> t.hour == 0 && t.minute == 0 && t.second == 0
    requires |s| != 10 ==>
      && t.hour == NumberValue(s[11..13])
      && t.minute == NumberValue(s[14..16])
      && t.second == NumberValue(s[17..19])
    requires Valid(t)
    ensures Parse(s) == Some(t)
  {
  }

  lemma QuarterHourFields()
    ensures NumberValue("2019") == 2019 && NumberValue("01") == 1
    ensures NumberValue("00") == 0 && NumberValue("15") == 15
  {
    assert "2019"[1..] == "019" && "019"[1..] == "19" && "19"[1..] == "9" && "9"[1..] == "";
    assert "01"[1..] == "1" && "1"[1..] == "" && "00"[1..] == "0" && "0"[1..] == "";
    assert "15"[1..] == "5" && "5"[1..] == "";
    assert Pow10(1) == 10 && Pow10(2) == 100 && Pow10(3) == 1000;
  }

  /** A date-time with a space separator parses. */
  lemma ParseSpaceSeparated()
    ensures Parse("2019-01-01 00:15:00") == Some(DateTime(2019, 1, 1, 0, 15, 0))
  {
    var s := "2019-01-01 00:15:00";
    QuarterHourFields();
    assert s[..4] == "2019" && s[5..7] == "01" && s[8..10] == "01";
    assert s[11..13] == "00" && s[14..16] == "15" && s[17..19] == "00";
    ParseComplete(s, DateTime(2019, 1, 1, 0, 15, 0));
  }

  /** The calendar date of a timestamp as "YYYY-MM-DD". */
  function FormatDate(y: nat, m: nat, d: nat): (s: string)
    requires y < 10000 && m < 100 && d < 100
    ensures |s| == 10 && DateShape(s)
  {
    var ys, ms, ds := PadNumber(y, 4), PadNumber(m, 2), PadNumber(d, 2);
    var s := ys + "-" + ms + "-" + ds;
    assert s[..4] == ys;
    assert s[5..7] == ms;
    assert s[8..10] == ds;
    s
  }

  /** The canonical ISO rendering "YYYY-MM-DDTHH:MM:SS". */
  function Format(t: DateTime): (s: string)
    requires Valid(t)
  {
    FormatDate(t.year, t.month, t.day) + "T" + Zeit(t)
  }

  /** `strftime('%H:%M:%S')`: the time of day with two-digit fields. Reading
      the three fields back gives the hour, minute and second. */
  function Zeit(t: DateTime): (z: string)
    requires Valid(t)
    ensures ParseZeit(z) == Some((t.hour, t.minute, t.second))
  {
    var z := PadNumber(t.hour, 2) + ":" + PadNumber(t.minute, 2) + ":" + PadNumber(t.second, 2);
    assert z[..2] == PadNumber(t.hour, 2) && z[3..5] == PadNumber(t.minute, 2) && z[6..] == PadNumber(t.second, 2);
    z
  }

  /** Reads an "HH:MM:SS" string back into (hour, minute, second). */
  function ParseZeit(z: string): Option<(int, int, int)> {
    if |z| == 8 && AllDigits(z[..2]) && z[2] == ':' && AllDigits(z[3..5]) && z[5] == ':' && AllDigits(z[6..])
    then Some((NumberValue(z[..2]), NumberValue(z[3..5]), NumberValue(z[6..])))
    else None
  }

  lemma ParseFormat(t: DateTime)
    requires Valid(t)
    ensures Parse(Format(t)) == Some(t)
  {
    var s := Format(t);
    FormatDateFields(t.year, t.month, t.day);
    FormatSlices(t);
    assert DateShape(s) && TimeShape(s);
  }

  /** The fields of a rendered date read back as the date. */
  lemma FormatDateFields(y: nat, m: nat, d: nat)
    requires y < 10000 && m < 100 && d < 100
    ensures var s := FormatDate(y, m, d);
      NumberValue(s[..4]) == y && NumberValue(s[5..7]) == m && NumberValue(s[8..10]) == d
  {
    var s := FormatDate(y, m, d);
    assert s[..4] == PadNumber(y, 4);
    assert s[5..7] == PadNumber(m, 2);
    assert s[8..10] == PadNumber(d, 2);
  }

  /** Where the date and time fields sit in a rendered timestamp. */
  lemma FormatSlices(t: DateTime)
    requires Valid(t)
    ensures var s, date, z := Format(t), FormatDate(t.year, t.month, t.day), Zeit(t);
      && |s| == 19 && s[10] == 'T'
      && s[..4] == date[..4] && s[4] == '-' && s[5..7] == date[5..7] && s[7] == '-' && s[8..10] == date[8..10]
      && s[11..13] == z[..2] && s[13] == ':' && s[14..16] == z[3..5] && s[16] == ':' && s[17..19] == z[6..]
  {
    var s, date, z := Format(t), FormatDate(t.year, t.month, t.day), Zeit(t);
    assert s == date + "T" + z;
    assert s[..10] == date && s[11..] == z;
  }

  /** A timestamp already in canonical form is reproduced by parsing and
      formatting it. */
  lemma FormatParse(s: string)
    requires Parse(s).Some? && |s| == 19 && s[10] == 'T'
    ensures Format(Parse(s).value) == s
  {
    var t := Parse(s).value;
    DateFieldsRoundTrip(s);
    TimeFieldsRoundTrip(s, t);
    assert s == s[..10] + "T" + s[11..];
  }

  /** The date fields of a well-formed string, read and written back. */
  lemma DateFieldsRoundTrip(s: string)
    requires DateShape(s)
    ensures NumberValue(s[..4]) < 10000 && NumberValue(s[5..7]) < 100 && NumberValue(s[8..10]) < 100
    ensures FormatDate(NumberValue(s[..4]), NumberValue(s[5..7]), NumberValue(s[8..10])) == s[..10]
  {
    PadNumberOfValue(s[..4]);
    PadNumberOfValue(s[5..7]);
    PadNumberOfValue(s[8..10]);
    assert s[..10] == s[..4] + "-" + s[5..7] + "-" + s[8..10];
  }

  /** The time fields of a well-formed string, read and written back. */
  lemma TimeFieldsRoundTrip(s: string, t: DateTime)
    requires TimeShape(s) && Valid(t)
    requires t.hour == NumberValue(s[11..13]) && t.minute == NumberValue(s[14..16]) && t.second == NumberValue(s[17..19])
    ensures Zeit(t) == s[11..]
  {
    PadNumberOfValue(s[11..13]);
    PadNumberOfValue(s[14..16]);
    PadNumberOfValue(s[17..19]);
    assert s[11..] == s[11..13] + ":" + s[14..16] + ":" + s[17..19];
  }

  /** Time-of-day strings sort chronologically, so the `zeit` column orders
      the day report's rows by the clock. */
  lemma ZeitOrder(t1: DateTime, t2: DateTime)
    requires Valid(t1) && Valid(t2)
    ensures LexLess(Zeit(t1), Zeit(t2)) <==>
      t1.hour < t2.hour || (t1.hour == t2.hour &&
        (t1.minute < t2.minute || (t1.minute == t2.minute && t1.second < t2.second)))
  {
    var z1, z2 := Zeit(t1), Zeit(t2);
    FieldOrder(z1, z2, 2);
    var a, b := z1[2..], z2[2..];
    assert a[0] == b[0] && a[1..] == z1[3..] && b[1..] == z2[3..];
    FieldOrder(z1[3..], z2[3..], 2);
    assert z1[3..][..2] == z1[3..5] && z2[3..][..2] == z2[3..5];
    var c, d := z1[3..][2..], z2[3..][2..];
    assert c[0] == d[0] && c[1..] == z1[6..] && d[1..] == z2[6..];
    LexLessDigits(z1[6..], z2[6..]);
  }

  /** `t` falls on a calendar day before (y, m, d). */
  predicate DayBefore(t: DateTime, y: int, m: int, d: int) {
    t.year < y || (t.year == y && (t.month < m || (t.month == m && t.day < d)))
  }

  /** Comparing a parsed timestamp string with a bare "YYYY-MM-DD" string
      compares calendar days: a time on that very day does not sort before
      it, because the date string is a prefix of the timestamp. */
  lemma LexLessDate(s: string, y: nat, m: nat, d: nat)
    requires Parse(s).Some? && y < 10000 && m < 100 && d < 100
    ensures LexLess(s, FormatDate(y, m, d)) <==> DayBefore(Parse(s).value, y, m, d)
  {
    var t := Parse(s).value;
    var c := FormatDate(y, m, d);
    var ty, tm, td := NumberValue(s[..4]), NumberValue(s[5..7]), NumberValue(s[8..10]);
    assert LexLess(s, c) <==> ty < y || (ty == y && LexLess(s[5..], c[5..])) by {
      assert c[..4] == PadNumber(y, 4);
      FieldOrder(s, c, 4);
      assert s[4..][0] == c[4..][0];
      assert s[4..][1..] == s[5..] && c[4..][1..] == c[5..];
    }
    assert LexLess(s[5..], c[5..]) <==> tm < m || (tm == m && LexLess(s[8..], c[8..])) by {
      assert c[5..7] == PadNumber(m, 2);
      assert s[5..][..2] == s[5..7] && c[5..][..2] == c[5..7];
      FieldOrder(s[5..], c[5..], 2);
      assert s[5..][2..] == s[7..] && c[5..][2..] == c[7..];
      assert s[7..][0] == c[7..][0];
      assert s[7..][1..] == s[8..] && c[7..][1..] == c[8..];
    }
    assert LexLess(s[8..], c[8..]) <==> td < d by {
      assert c[8..10] == PadNumber(d, 2);
      assert s[8..][..2] == s[8..10] && c[8..][..2] == c[8..10];
      FieldOrder(s[8..], c[8..], 2);
      assert c[8..][2..] == [];
    }
  }

  /** A leading digit field of width `w` decides a comparison unless both
      fields hold the same number; then the rest decides. */
  lemma FieldOrder(a: string, b: string, w: nat)
    requires w <= |a| && w <= |b| && AllDigits(a[..w]) && AllDigits(b[..w])
    ensures LexLess(a, b) <==>
      NumberValue(a[..w]) < NumberValue(b[..w]) ||
      (NumberValue(a[..w]) == NumberValue(b[..w]) && LexLess(a[w..], b[w..]))
  {
    assert a == a[..w] + a[w..] && b == b[..w] + b[w..];
    LexLessConcat(a[..w], b[..w], a[w..], b[w..]);
    LexLessDigits(a[..w], b[..w]);
    PadNumberOfValue(a[..w]);
    PadNumberOfValue(b[..w]);
  }
}
