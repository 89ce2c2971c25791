/**
 * The shift clock of the monitoring GUI (app_gui.py): the working day runs
 * from 20:00 to 20:00, a moment at or after 20:00 belongs to the next
 * calendar day's log partition, and a partition's file name carries that
 * day as `YYYY-MM-DD`.
 */
module Shift {
  import opened Wrappers
  import opened Strings
  import opened Calendar

  /** The hour at which the working day rolls over. */
  const BoundaryHour := 20
  /** The first hour of the day shift. */
  const DayShiftStartHour := 8

  const LogDir := "logs"
  const LogPrefix := "coverage_log_"
  const LogSuffix := ".csv"

  const BadDateText := "Неверный формат даты"
  const DayShift := "Дневная"
  const NightShift := "Ночная"

  /** A value, or the OverflowError Python's `date` arithmetic raises at year 1 or 9999. */
  datatype Outcome<T> = Returns(value: T) | OverflowError

  /** The triple `(shift_info, start_time, end_time)`. */
  datatype ShiftPeriod = ShiftPeriod(info: string, start: Option<DateTime>, end: Option<DateTime>)

  // ---------------------------------------------------------------------------
  // get_log_file_path
  // ---------------------------------------------------------------------------

  /** The working day a moment belongs to (possibly year 10000, which overflows). */
  function ShiftDate(now: DateTime): (d: Date)
    requires ValidTime(now)
    ensures WellFormed(d)
  {
    if now.hour >= BoundaryHour then Succ(now.date) else now.date
  }

  function LogFileName(d: Date): string
    requires ValidDate(d)
  {
    LogPrefix + FormatDate(d) + LogSuffix
  }

  /** `get_log_file_path(now)`, with `/` as the path separator. */
  function LogFilePath(now: DateTime): Outcome<string>
    requires ValidTime(now)
  {
    var d := ShiftDate(now);
    if ValidDate(d) then Returns(LogDir + "/" + LogFileName(d)) else OverflowError
  }

  // ---------------------------------------------------------------------------
  // datetime.strptime(s, '%Y-%m-%d')
  // ---------------------------------------------------------------------------

  /**
   * The lengths of the alternatives of the month pattern `1[0-2]|0[1-9]|[1-9]`
   * that match at `i`, in the order the regular expression tries them.
   */
  function MonthAlternatives(s: string, i: nat): (r: seq<nat>)
    ensures forall k :: 0 <= k < |r| ==> 1 <= r[k] <= 2 && i + r[k] <= |s| && AllDigits(s[i..i + r[k]])
  {
    (if i + 1 < |s| && s[i] == '1' && '0' <= s[i + 1] <= '2' then [2] else [])
    + (if i + 1 < |s| && s[i] == '0' && '1' <= s[i + 1] <= '9' then [2] else [])
    + (if i < |s| && '1' <= s[i] <= '9' then [1] else [])
  }

  /**
   * The length of the first alternative of the day pattern
   * `3[01]|[12]\d|0[1-9]|[1-9]| [1-9]` that matches at `i`.
   */
  function DayAlternative(s: string, i: nat): (r: Option<nat>)
    ensures r.Some? ==> 1 <= r.value <= 2 && i + r.value <= |s|
  {
    if i + 1 < |s| && s[i] == '3' && '0' <= s[i + 1] <= '1' then Some(2)
    else if i + 1 < |s| && '1' <= s[i] <= '2' && IsDigit(s[i + 1]) then Some(2)
    else if i + 1 < |s| && s[i] == '0' && '1' <= s[i + 1] <= '9' then Some(2)
    else if i < |s| && '1' <= s[i] <= '9' then Some(1)
    else if i + 1 < |s| && s[i] == ' ' && '1' <= s[i + 1] <= '9' then Some(2)
    else None
  }

  /** `int()` of the matched day text (`int(" 5") == 5`). */
  function DayValue(s: string, i: nat, len: nat): nat
    requires DayAlternative(s, i) == Some(len)
  {
    if s[i] == ' ' then DigitValue(s[i + 1])
    else
      assert AllDigits(s[i..i + len]);
      NatOf(s[i..i + len])
  }

  /**
   * The month alternative the regular expression settles on (the first one
   * followed by `-` and a day), with the length of the day it then matches.
   */
  function MonthAndDay(s: string, alts: seq<nat>): (r: Option<(nat, nat)>)
    ensures r.Some? ==> r.value.0 in alts && 6 + r.value.0 < |s| && DayAlternative(s, 6 + r.value.0) == Some(r.value.1)
    decreases |alts|
  {
    if |alts| == 0 then None
    else if 5 + alts[0] < |s| && s[5 + alts[0]] == '-' && DayAlternative(s, 6 + alts[0]).Some? then
      Some((alts[0], DayAlternative(s, 6 + alts[0]).value))
    else MonthAndDay(s, alts[1..])
  }

  /**
   * `datetime.strptime(s, '%Y-%m-%d').date()`, or None where it raises
   * ValueError: four digits for the year, the month and day patterns above,
   * nothing left over, and a day that exists (year 0 does not).
   */
  function ParseDate(s: string): (r: Option<Date>)
    ensures r.Some? ==> ValidDate(r.value)
  {
    if |s| < 5 || !AllDigits(s[..4]) || s[4] != '-' then None
    else match MonthAndDay(s, MonthAlternatives(s, 5))
      case None => None
      case Some((ml, dl)) =>
        if 6 + ml + dl != |s| then None
        else
          var d := Date(NatOf(s[..4]), NatOf(s[5..5 + ml]), DayValue(s, 6 + ml, dl));
          if ValidDate(d) then Some(d) else None
  }

  // ---------------------------------------------------------------------------
  // get_shift_period_by_date and get_current_shift_period
  // ---------------------------------------------------------------------------

  function PeriodText(start: DateTime, end: DateTime): string
    requires ValidTime(start) && ValidTime(end)
  {
    "С " + FormatMinute(start) + " по " + FormatMinute(end)
  }

  /** `get_shift_period_by_date(s)`: 20:00 of the day before to 20:00 of the given day. */
  function ShiftPeriodByDate(s: string): Outcome<ShiftPeriod>
  {
    match ParseDate(s)
    case None => Returns(ShiftPeriod(BadDateText, None, None))
    case Some(endDay) =>
      var startDay := Pred(endDay);
      if !ValidDate(startDay) then OverflowError
      else
        var start := DateTime(startDay, BoundaryHour, 0, 0);
        var end := DateTime(endDay, BoundaryHour, 0, 0);
        Returns(ShiftPeriod(PeriodText(start, end), Some(start), Some(end)))
  }

  /**
   * A readable date gives the window from 20:00 of the day before to 20:00
   * of that day, exactly one day long; only 0001-01-01 has no day before.
   */
  lemma ShiftPeriodByDateSpec(s: string)
    requires ParseDate(s).Some?
    ensures var d := ParseDate(s).value;
      ShiftPeriodByDate(s).OverflowError? <==> d == Date(MinYear, 1, 1)
    ensures var d := ParseDate(s).value;
      ShiftPeriodByDate(s).Returns? ==>
        var p := ShiftPeriodByDate(s).value;
        && p.start.Some? && p.end.Some?
        && p.end.value == DateTime(d, BoundaryHour, 0, 0)
        && p.start.value.hour == BoundaryHour && p.start.value.minute == 0 && p.start.value.second == 0
        && Succ(p.start.value.date) == d
        && TimeBefore(p.start.value, p.end.value)
  {
    var d := ParseDate(s).value;
    PredInRange(d);
    SuccPredInverse(d);
  }

  /** The shift label: day shift from 08:00 up to 20:00, night shift otherwise. */
  function ShiftLabel(hour: int): string
  {
    if hour >= DayShiftStartHour && hour < BoundaryHour then DayShift else NightShift
  }

  /** The label is the day shift exactly from 08:00 up to 20:00, and the night shift otherwise. */
  lemma ShiftLabelSpec(hour: int)
    ensures ShiftLabel(hour) == "Дневная" <==> 8 <= hour < 20
    ensures ShiftLabel(hour) == "Ночная" <==> !(8 <= hour < 20)
  {
    assert "Дневная"[0] != "Ночная"[0];
  }

  /** `get_current_shift_period()` for the moment `now`. */
  function CurrentShiftPeriod(now: DateTime): Outcome<ShiftPeriod>
    requires ValidTime(now)
  {
    match LogFilePath(now)
    case OverflowError => OverflowError
    case Returns(path) =>
      var dateText := RemoveAll(LastPiece(path, "_"), ".csv");
      match ShiftPeriodByDate(dateText)
      case OverflowError => OverflowError
      case Returns(p) =>
        Returns(ShiftPeriod(ShiftLabel(now.hour) + " Смена (" + LastPiece(p.info, "С ") + ")", p.start, p.end))
  }

  // ---------------------------------------------------------------------------
  // Properties
  // ---------------------------------------------------------------------------

  /**
   * The working day of `now` is the one day D whose shift window, from 20:00
   * of the day before D to 20:00 of D, contains `now` (start inclusive).
   */
  lemma ShiftDateWindow(now: DateTime, d: Date)
    requires ValidTime(now) && WellFormed(d)
    ensures d == ShiftDate(now) <==>
      TimeNotAfter(DateTime(Pred(d), BoundaryHour, 0, 0), now) && TimeBefore(now, DateTime(d, BoundaryHour, 0, 0))
  {
    SuccPredInverse(d);
    SuccPredInverse(now.date);
    var start, end := DateTime(Pred(d), BoundaryHour, 0, 0), DateTime(d, BoundaryHour, 0, 0);
    if TimeNotAfter(start, now) && TimeBefore(now, end) {
      if now.date != d && now.date != Pred(d) {
        SuccIsImmediate(Pred(d), now.date);
      }
    }
  }

  /** The working day never goes back as time goes forward. */
  lemma ShiftDateMonotone(t1: DateTime, t2: DateTime)
    requires ValidTime(t1) && ValidTime(t2) && TimeNotAfter(t1, t2)
    ensures NotAfter(ShiftDate(t1), ShiftDate(t2))
  {
    if t1.date != t2.date {
      SuccMonotone(t1.date, t2.date);
      if t1.hour >= BoundaryHour && t2.hour < BoundaryHour {
        SuccIsImmediate(t1.date, t2.date);
      }
      if t1.hour < BoundaryHour && t2.hour >= BoundaryHour {
        BeforeTransitive(t1.date, t2.date, Succ(t2.date));
      }
    }
  }

  /** `date_part = path.split('_')[-1].replace('.csv', '')` gives back the formatted date. */
  lemma DatePartOfLogName(prefix: string, d: Date)
    requires ValidDate(d)
    ensures RemoveAll(LastPiece(prefix + LogFileName(d), "_"), ".csv") == FormatDate(d)
  {
    var f := FormatDate(d);
    DateTextChars(d);
    LogNameSplit(prefix, f);
    LastPieceAfterSeparator(prefix + "coverage_log", "_", f + ".csv", "");
    RemoveTrailing(f, ".csv");
  }

  /** A date text holds no `.`, and neither it nor it followed by ".csv" holds a `_`. */
  lemma DateTextChars(d: Date)
    requires ValidDate(d)
    ensures NoChar(FormatDate(d), '.') && NoChar(FormatDate(d) + ".csv", '_')
  {
    var f := FormatDate(d);
    FormatDateChars(d);
    forall k | 0 <= k < |f + ".csv"| ensures (f + ".csv")[k] != '_' {
      if k < |f| { assert (f + ".csv")[k] == f[k]; }
    }
  }

  /** A log name split at its last `_`. */
  lemma LogNameSplit(prefix: string, f: string)
    ensures prefix + (LogPrefix + f + LogSuffix) == (prefix + "coverage_log") + "_" + (f + ".csv")
  {
    assert LogPrefix == "coverage_log" + "_";
  }

  /** Round trip of the log path: the last `_` piece without `.csv` is the shift date. */
  lemma LogPathRoundTrip(now: DateTime)
    requires ValidTime(now) && LogFilePath(now).Returns?
    ensures ValidDate(ShiftDate(now))
    ensures RemoveAll(LastPiece(LogFilePath(now).value, "_"), ".csv") == FormatDate(ShiftDate(now))
  {
    DatePartOfLogName(LogDir + "/", ShiftDate(now));
  }

  /** What strptime reads back from a `%Y-%m-%d` rendering is the date itself. */
  lemma ParseFormatRoundTrip(d: Date)
    requires ValidDate(d)
    ensures ParseDate(FormatDate(d)) == Some(d)
  {
    var s := FormatDate(d);
    FormattedShape(d);
    ParseTenChars(s);
  }

  /**
   * A ten-character `YYYY-MM-DD` text whose month is 01-12 and whose day is
   * 01-31 is read as the date of its digits, if that date exists.
   */
  lemma ParseTenChars(s: string)
    requires |s| == 10 && AllDigits(s[..4]) && s[4] == '-' && s[7] == '-'
    requires AllDigits(s[5..7]) && AllDigits(s[8..10])
    requires (s[5] == '0' && '1' <= s[6] <= '9') || (s[5] == '1' && '0' <= s[6] <= '2')
    requires (s[8] == '0' && '1' <= s[9] <= '9') || ('1' <= s[8] <= '2' && IsDigit(s[9])) || (s[8] == '3' && '0' <= s[9] <= '1')
    ensures var d := Date(NatOf(s[..4]), NatOf(s[5..7]), NatOf(s[8..10]));
      ParseDate(s) == if ValidDate(d) then Some(d) else None
  {
    TwoDigitMonthDay(s);
  }

  /** On such a text the month pattern takes two characters, and so does the day pattern. */
  lemma TwoDigitMonthDay(s: string)
    requires |s| == 10 && s[7] == '-' && AllDigits(s[8..10])
    requires (s[5] == '0' && '1' <= s[6] <= '9') || (s[5] == '1' && '0' <= s[6] <= '2')
    requires (s[8] == '0' && '1' <= s[9] <= '9') || ('1' <= s[8] <= '2' && IsDigit(s[9])) || (s[8] == '3' && '0' <= s[9] <= '1')
    ensures MonthAndDay(s, MonthAlternatives(s, 5)) == Some((2, 2))
    ensures DayAlternative(s, 8) == Some(2) && DayValue(s, 8, 2) == NatOf(s[8..10])
  {
    assert DayAlternative(s, 8) == Some(2);
    assert MonthAlternatives(s, 5)[0] == 2;
  }

  /** A rendering has the shape `ParseTenChars` reads, with the date's own digits. */
  lemma FormattedShape(d: Date)
    requires ValidDate(d)
    ensures var s := FormatDate(d);
      && |s| == 10 && AllDigits(s[..4]) && s[4] == '-' && s[7] == '-'
      && AllDigits(s[5..7]) && AllDigits(s[8..10])
      && ((s[5] == '0' && '1' <= s[6] <= '9') || (s[5] == '1' && '0' <= s[6] <= '2'))
      && ((s[8] == '0' && '1' <= s[9] <= '9') || ('1' <= s[8] <= '2' && IsDigit(s[9])) || (s[8] == '3' && '0' <= s[9] <= '1'))
      && NatOf(s[..4]) == d.year && NatOf(s[5..7]) == d.month && NatOf(s[8..10]) == d.day
  {
    var s := FormatDate(d);
    var y, m, dd := Pad(d.year, 4), Pad(d.month, 2), Pad(d.day, 2);
    assert s == y + "-" + m + "-" + dd;
    DashedShape(s, y, m, dd);
    MonthChars(d.month);
    DayChars(d.day);
  }

  /** The positions of the parts of `y-m-dd`. */
  lemma DashedShape(s: string, y: string, m: string, dd: string)
    requires |y| == 4 && |m| == 2 && |dd| == 2 && s == y + "-" + m + "-" + dd
    ensures |s| == 10 && s[..4] == y && s[4] == '-' && s[5..7] == m && s[7] == '-' && s[8..10] == dd
    ensures s[5] == m[0] && s[6] == m[1] && s[8] == dd[0] && s[9] == dd[1]
  {
  }

  /** A zero-padded month takes the first or second alternative of the month pattern. */
  lemma MonthChars(n: nat)
    requires 1 <= n <= 12
    ensures var m := Pad(n, 2); (m[0] == '0' && '1' <= m[1] <= '9') || (m[0] == '1' && '0' <= m[1] <= '2')
  {
    TwoDigits(n);
  }

  /** A zero-padded day takes one of the two-character alternatives of the day pattern. */
  lemma DayChars(n: nat)
    requires 1 <= n <= 31
    ensures var t := Pad(n, 2);
      (t[0] == '0' && '1' <= t[1] <= '9') || ('1' <= t[0] <= '2' && IsDigit(t[1])) || (t[0] == '3' && '0' <= t[1] <= '1')
  {
    TwoDigits(n);
  }

  /** The two characters of a zero-padded number below 100. */
  lemma TwoDigits(n: nat)
    requires n < 100
    ensures Pad(n, 2)[0] == DigitChar(n / 10) && Pad(n, 2)[1] == DigitChar(n % 10)
  {
    assert Pad(n, 2) == Pad(n / 10, 1) + [DigitChar(n % 10)];
    assert Pad(n / 10, 1) == Pad(n / 100, 0) + [DigitChar((n / 10) % 10)];
  }

  /** A refused date text yields the fixed message and no period. */
  lemma MalformedDatePeriod(s: string)
    requires ParseDate(s).None?
    ensures ShiftPeriodByDate(s) == Returns(ShiftPeriod("Неверный формат даты", None, None))
  {
  }

  /** A canonical rendering is read back. */
  lemma ParseDateCanonical()
    ensures ParseDate("2024-03-01") == Some(Date(2024, 3, 1))
  {
    FormatExamples();
    ParseFormatRoundTrip(Date(2024, 3, 1));
  }

  /** strptime also takes single-digit months and days. */
  lemma ParseDateSingleDigits()
    ensures ParseDate("2024-3-1") == Some(Date(2024, 3, 1))
  {
    var t := "2024-3-1";
    assert MonthAlternatives(t, 5) == [1];
    assert MonthAndDay(t, [1]) == Some((1, 1));
    NatOfDigits(t[..4]);
    assert NatOf(t[5..6]) == 3 by { assert t[5..6][..0] == []; }
    assert DayValue(t, 7, 1) == 1 by { assert t[7..8][..0] == []; }
  }

  /** A day that does not exist is refused. */
  lemma ParseDateNoSuchDay()
    ensures ParseDate("2023-02-29") == None
  {
    var u := "2023-02-29";
    NoSuchDayDigits(u);
    ParseTenChars(u);
  }

  /** The digits of "2023-02-29". */
  lemma NoSuchDayDigits(u: string)
    requires u == "2023-02-29"
    ensures AllDigits(u[..4]) && AllDigits(u[5..7]) && AllDigits(u[8..10])
    ensures NatOf(u[..4]) == 2023 && NatOf(u[5..7]) == 2 && NatOf(u[8..10]) == 29
  {
    NatOfDigits(u[..4]);
    NatOfDigits(u[5..7]);
    NatOfDigits(u[8..10]);
  }

  /** Month 13, trailing text, year 0 and a non-date label are refused. */
  lemma ParseDateRejects()
    ensures ParseDate("2024-13-01") == None
    ensures ParseDate("2024-01-011") == None
    ensures ParseDate("0000-01-01") == None
    ensures ParseDate("Текущий день") == None
  {
    assert MonthAlternatives("2024-13-01", 5) == [1];
    assert MonthAlternatives("2024-01-011", 5) == [2];
    assert MonthAndDay("2024-01-011", [2]) == Some((2, 2));
    var z := "0000-01-01";
    assert MonthAlternatives(z, 5) == [2];
    assert MonthAndDay(z, [2]) == Some((2, 2));
    NatOfDigits(z[..4]);
    assert !IsDigit("Текущий день"[..4][0]);
  }

  /**
   * `get_current_shift_period()` overflows only on the first and last days
   * Python can represent: past 20:00 on 9999-12-31 (the next day does not
   * exist) and before 20:00 on 0001-01-01 (the day before does not exist).
   */
  lemma CurrentShiftPeriodOverflow(now: DateTime)
    requires ValidTime(now)
    ensures CurrentShiftPeriod(now).OverflowError? <==>
      (now.date == Date(MaxYear, 12, 31) && now.hour >= BoundaryHour)
      || (now.date == Date(MinYear, 1, 1) && now.hour < BoundaryHour)
  {
    var d := ShiftDate(now);
    SuccInRange(now.date);
    if ValidDate(d) {
      PredInRange(d);
      CurrentShiftPeriodUnfold(now);
      if d == Date(MinYear, 1, 1) {
        assert now.hour < BoundaryHour;
      }
    }
  }

  /**
   * The current period contains `now`, starts and ends at 20:00:00 one day
   * apart, ends on the working day of `now`, and its text carries the shift
   * label and both ends to the minute.
   */
  lemma CurrentShiftPeriodSpec(now: DateTime)
    requires ValidTime(now) && CurrentShiftPeriod(now).Returns?
    ensures var p := CurrentShiftPeriod(now).value;
      && p.start.Some? && p.end.Some?
      && ValidTime(p.start.value) && ValidTime(p.end.value)
      && TimeNotAfter(p.start.value, now) && TimeBefore(now, p.end.value)
      && p.start.value.hour == BoundaryHour && p.end.value.hour == BoundaryHour
      && p.start.value.minute == 0 && p.end.value.minute == 0
      && p.start.value.second == 0 && p.end.value.second == 0
      && p.end.value.date == Succ(p.start.value.date)
      && p.end.value.date == ShiftDate(now)
      && p.info == ShiftLabel(now.hour) + " Смена (" + FormatMinute(p.start.value) + " по " + FormatMinute(p.end.value) + ")"
  {
    var d := ShiftDate(now);
    CurrentShiftPeriodUnfold(now);
    var start := DateTime(Pred(d), BoundaryHour, 0, 0);
    var end := DateTime(d, BoundaryHour, 0, 0);
    ShiftDateWindow(now, d);
    SuccPredInverse(d);
    PeriodTextTail(start, end);
    InfoRegrouped(ShiftLabel(now.hour), FormatMinute(start), FormatMinute(end));
  }

  lemma InfoRegrouped(name: string, a: string, b: string)
    ensures name + " Смена (" + (a + " по " + b) + ")" == name + " Смена (" + a + " по " + b + ")"
  {
  }

  /** With a representable working day the current period is the one of that day's text. */
  lemma CurrentShiftPeriodUnfold(now: DateTime)
    requires ValidTime(now) && ValidDate(ShiftDate(now))
    ensures var d := ShiftDate(now);
      var start := DateTime(Pred(d), BoundaryHour, 0, 0);
      var end := DateTime(d, BoundaryHour, 0, 0);
      CurrentShiftPeriod(now) ==
        if !ValidDate(Pred(d)) then OverflowError
        else Returns(ShiftPeriod(ShiftLabel(now.hour) + " Смена (" + LastPiece(PeriodText(start, end), "С ") + ")",
                                 Some(start), Some(end)))
  {
    LogPathRoundTrip(now);
    ParseFormatRoundTrip(ShiftDate(now));
  }

  /** `shift_info.split('С ')[-1]` is the text after the leading `С `. */
  lemma PeriodTextTail(start: DateTime, end: DateTime)
    requires ValidTime(start) && ValidTime(end)
    ensures LastPiece(PeriodText(start, end), "С ") == FormatMinute(start) + " по " + FormatMinute(end)
  {
    MinuteTextWithoutEs(start);
    MinuteTextWithoutEs(end);
    TailAfterEs(FormatMinute(start), FormatMinute(end));
  }

  lemma MinuteTextWithoutEs(t: DateTime)
    requires ValidTime(t)
    ensures NoChar(FormatMinute(t), 'С')
  {
    FormatMinuteChars(t);
  }

  lemma TailAfterEs(a: string, b: string)
    requires NoChar(a, 'С') && NoChar(b, 'С')
    ensures LastPiece("С " + a + " по " + b, "С ") == a + " по " + b
  {
    var tail := a + " по " + b;
    assert NoChar(tail, 'С') by {
      forall k | 0 <= k < |tail| ensures tail[k] != 'С' {
        if k < |a| { assert tail[k] == a[k]; }
        else if k < |a| + 4 { assert tail[k] == " по "[k - |a|]; }
        else { assert tail[k] == b[k - |a| - 4]; }
      }
    }
    assert "С " + a + " по " + b == "" + "С " + tail;
    LastPieceAfterSeparator("", "С ", tail, "");
  }

  /** The path written out, for a day whose rendering is `f`. */
  lemma LogPathText(now: DateTime, f: string)
    requires ValidTime(now) && ValidDate(ShiftDate(now)) && FormatDate(ShiftDate(now)) == f
    ensures LogFilePath(now) == Returns("logs/coverage_log_" + f + ".csv")
  {
    LogPathConcat(f);
  }

  lemma LogPathConcat(f: string)
    ensures LogDir + "/" + (LogPrefix + f + LogSuffix) == "logs/coverage_log_" + f + ".csv"
  {
  }

  lemma ExamplePaths()
    ensures "logs/coverage_log_" + "2024-03-01" + ".csv" == "logs/coverage_log_2024-03-01.csv"
    ensures "logs/coverage_log_" + "2024-03-02" + ".csv" == "logs/coverage_log_2024-03-02.csv"
  {
  }

  /** One minute before the boundary the moment still belongs to its own day. */
  lemma BeforeBoundaryScenario()
    ensures LogFilePath(DateTime(Date(2024, 3, 1), 19, 59, 0)) == Returns("logs/coverage_log_2024-03-01.csv")
  {
    FormatExamples();
    assert ShiftDate(DateTime(Date(2024, 3, 1), 19, 59, 0)) == Date(2024, 3, 1);
    LogPathText(DateTime(Date(2024, 3, 1), 19, 59, 0), "2024-03-01");
    ExamplePaths();
  }

  /** 20:00 sharp already belongs to the next day. */
  lemma AtBoundaryScenario()
    ensures LogFilePath(DateTime(Date(2024, 3, 1), 20, 0, 0)) == Returns("logs/coverage_log_2024-03-02.csv")
  {
    FormatExamples();
    assert ShiftDate(DateTime(Date(2024, 3, 1), 20, 0, 0)) == Date(2024, 3, 2);
    LogPathText(DateTime(Date(2024, 3, 1), 20, 0, 0), "2024-03-02");
    ExamplePaths();
  }
}
