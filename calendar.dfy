/**
 * Civil (proleptic Gregorian) dates and times as Python's `datetime` has them:
 * years 1 to 9999, leap years, the successor and predecessor of a day, the
 * chronological order, and the `%Y-%m-%d` and `%Y-%m-%d %H:%M` renderings.
 */
module Calendar {
  import opened Strings

  /** Python's `datetime.MINYEAR` and `datetime.MAXYEAR`. */
  const MinYear := 1
  const MaxYear := 9999

  datatype Date = Date(year: int, month: int, day: int)

  /** A wall-clock time; sub-second digits are not modelled. */
  datatype DateTime = DateTime(date: Date, hour: int, minute: int, second: int)

  predicate IsLeap(y: int) { y % 4 == 0 && (y % 100 != 0 || y % 400 == 0) }

  function DaysInMonth(y: int, m: int): (n: int)
    requires 1 <= m <= 12
    ensures 28 <= n <= 31
  {
    if m == 2 then (if IsLeap(y) then 29 else 28)
    else if m == 4 || m == 6 || m == 9 || m == 11 then 30
    else 31
  }

  /** A day that exists in its month, in any year. */
  predicate WellFormed(d: Date) { 1 <= d.month <= 12 && 1 <= d.day <= DaysInMonth(d.year, d.month) }

  /** A day that `datetime.date` can represent. */
  predicate ValidDate(d: Date) { WellFormed(d) && MinYear <= d.year <= MaxYear }

  predicate ValidTime(t: DateTime)
  {
    ValidDate(t.date) && 0 <= t.hour < 24 && 0 <= t.minute < 60 && 0 <= t.second < 60
  }

  // ---------------------------------------------------------------------------
  // Chronological order
  // ---------------------------------------------------------------------------

  predicate Before(a: Date, b: Date)
  {
    a.year < b.year || (a.year == b.year && (a.month < b.month || (a.month == b.month && a.day < b.day)))
  }

  predicate NotAfter(a: Date, b: Date) { a == b || Before(a, b) }

  predicate TimeBefore(a: DateTime, b: DateTime)
  {
    Before(a.date, b.date)
    || (a.date == b.date
        && (a.hour < b.hour
            || (a.hour == b.hour && (a.minute < b.minute || (a.minute == b.minute && a.second < b.second)))))
  }

  predicate TimeNotAfter(a: DateTime, b: DateTime) { a == b || TimeBefore(a, b) }

  // ---------------------------------------------------------------------------
  // date + timedelta(days=1) and date - timedelta(days=1)
  // ---------------------------------------------------------------------------

  /** The next calendar day; outside 1..9999 only when `d` is 9999-12-31. */
  function Succ(d: Date): (r: Date)
    requires WellFormed(d)
    ensures WellFormed(r) && Before(d, r)
  {
    if d.day < DaysInMonth(d.year, d.month) then Date(d.year, d.month, d.day + 1)
    else if d.month < 12 then Date(d.year, d.month + 1, 1)
    else Date(d.year + 1, 1, 1)
  }

  /** The previous calendar day; outside 1..9999 only when `d` is 0001-01-01. */
  function Pred(d: Date): (r: Date)
    requires WellFormed(d)
    ensures WellFormed(r) && Before(r, d)
  {
    if d.day > 1 then Date(d.year, d.month, d.day - 1)
    else if d.month > 1 then Date(d.year, d.month - 1, DaysInMonth(d.year, d.month - 1))
    else Date(d.year - 1, 12, 31)
  }

  /** No day lies strictly between a day and its successor. */
  lemma SuccIsImmediate(d: Date, e: Date)
    requires WellFormed(d) && WellFormed(e) && Before(d, e)
    ensures NotAfter(Succ(d), e)
  {
  }

  lemma SuccPredInverse(d: Date)
    requires WellFormed(d)
    ensures Succ(Pred(d)) == d && Pred(Succ(d)) == d
  {
  }

  lemma BeforeTransitive(a: Date, b: Date, c: Date)
    requires Before(a, b) && Before(b, c)
    ensures Before(a, c)
  {
  }

  /** Adding a day keeps the order of days. */
  lemma SuccMonotone(a: Date, b: Date)
    requires WellFormed(a) && WellFormed(b) && NotAfter(a, b)
    ensures NotAfter(Succ(a), Succ(b))
  {
    if a != b {
      SuccIsImmediate(a, b);
      if Succ(a) != b { BeforeTransitive(Succ(a), b, Succ(b)); }
    }
  }

  /** The only valid day whose successor leaves the year range. */
  lemma SuccInRange(d: Date)
    requires ValidDate(d)
    ensures ValidDate(Succ(d)) <==> d != Date(MaxYear, 12, 31)
  {
  }

  /** The only valid day whose predecessor leaves the year range. */
  lemma PredInRange(d: Date)
    requires ValidDate(d)
    ensures ValidDate(Pred(d)) <==> d != Date(MinYear, 1, 1)
  {
  }

  // ---------------------------------------------------------------------------
  // strftime
  // ---------------------------------------------------------------------------

  /** `d.strftime('%Y-%m-%d')`, with the year written as four digits. */
  function FormatDate(d: Date): (r: string)
    requires ValidDate(d)
    ensures |r| == 10 && r[4] == '-' && r[7] == '-'
  {
    Pad(d.year, 4) + "-" + Pad(d.month, 2) + "-" + Pad(d.day, 2)
  }

  /** `t.strftime('%Y-%m-%d %H:%M')`. */
  function FormatMinute(t: DateTime): string
    requires ValidTime(t)
  {
    FormatDate(t.date) + " " + Pad(t.hour, 2) + ":" + Pad(t.minute, 2)
  }

  /** Formatted dates consist of ASCII digits and dashes only. */
  lemma FormatDateChars(d: Date)
    requires ValidDate(d)
    ensures forall k :: 0 <= k < |FormatDate(d)| ==> IsDigit(FormatDate(d)[k]) || FormatDate(d)[k] == '-'
  {
    var y, m, dd := Pad(d.year, 4), Pad(d.month, 2), Pad(d.day, 2);
    var s := FormatDate(d);
    assert s == y + "-" + m + "-" + dd;
    forall k | 0 <= k < |s| ensures IsDigit(s[k]) || s[k] == '-' {
      if k < 4 { assert s[k] == y[k]; }
      else if 4 < k < 7 { assert s[k] == m[k - 5]; }
      else if 7 < k { assert s[k] == dd[k - 8]; }
    }
  }

  /** Formatted minutes consist of ASCII digits, dashes, one space and one colon. */
  lemma FormatMinuteChars(t: DateTime)
    requires ValidTime(t)
    ensures forall k :: 0 <= k < |FormatMinute(t)| ==>
      IsDigit(FormatMinute(t)[k]) || FormatMinute(t)[k] in "- :"
  {
    FormatDateChars(t.date);
    var f, h, m := FormatDate(t.date), Pad(t.hour, 2), Pad(t.minute, 2);
    assert FormatMinute(t) == f + " " + h + ":" + m;
  }

  /** Two renderings of concrete days. */
  lemma FormatExamples()
    ensures FormatDate(Date(2024, 3, 1)) == "2024-03-01"
    ensures FormatDate(Date(2024, 3, 2)) == "2024-03-02"
  {
    PadYear();
    PadSmall();
  }

  lemma PadYear()
    ensures Pad(2024, 4) == "2024"
  {
    assert Pad(2, 1) == "2";
    assert Pad(20, 2) == "20";
    assert Pad(202, 3) == "202";
  }

  lemma PadSmall()
    ensures Pad(3, 2) == "03" && Pad(1, 2) == "01" && Pad(2, 2) == "02"
  {
    assert Pad(0, 1) == "0";
  }

}
