/**
 * The state the monitoring window (app_gui.py, class MikrotikMonitorApp)
 * keeps and updates: the archive date list built from the log directory,
 * the registry of collector processes per rig, and the Wi-Fi summary for
 * the selected rig and period.
 */
module MonitorApp {
  import opened Wrappers
  import opened Strings
  import opened Calendar
  import opened Shift
  import Heatmap

  const CurrentDay := "Текущий день"

  // ---------------------------------------------------------------------------
  // _get_available_log_dates
  // ---------------------------------------------------------------------------

  /** A file name the archive list takes: `coverage_log_*.csv`. */
  predicate IsLogName(name: string)
  {
    StartsWith(name, LogPrefix) && EndsWith(name, LogSuffix)
  }

  /** `filename.split('_')[-1].replace('.csv', '')`. */
  function DatePart(name: string): string
  {
    RemoveAll(LastPiece(name, "_"), LogSuffix)
  }

  /** The date parts of the log names in `listing`, in listing order. */
  function DateParts(listing: seq<string>): (r: seq<string>)
    ensures forall y :: y in r <==> exists k :: 0 <= k < |listing| && IsLogName(listing[k]) && DatePart(listing[k]) == y
    decreases |listing|
  {
    if |listing| == 0 then []
    else
      var init := listing[..|listing| - 1];
      var last := listing[|listing| - 1];
      var r := DateParts(init) + if IsLogName(last) then [DatePart(last)] else [];
      assert forall k :: 0 <= k < |init| ==> init[k] == listing[k];
      r
  }

  /** The date of every file the window's naming produces is listed by its own text. */
  lemma LoggedDateListed(d: Date, listing: seq<string>)
    requires ValidDate(d) && LogFileName(d) in listing
    ensures FormatDate(d) in SortedDistinctDescending(DateParts(listing))
  {
    var k :| 0 <= k < |listing| && listing[k] == LogFileName(d);
    assert LogFileName(d) == LogPrefix + FormatDate(d) + LogSuffix;
    assert StartsWith(LogFileName(d), LogPrefix) by {
      assert LogFileName(d)[..|LogPrefix|] == LogPrefix;
    }
    assert EndsWith(LogFileName(d), LogSuffix) by {
      assert LogFileName(d)[|LogFileName(d)| - |LogSuffix|..] == LogSuffix;
    }
    DatePartOfLogName("", d);
    assert "" + LogFileName(d) == LogFileName(d);
  }

  // ---------------------------------------------------------------------------
  // Collector processes
  // ---------------------------------------------------------------------------

  /** A started collector; `poll() is None` exactly while its PID is in the live set. */
  datatype Process = Process(pid: int)

  /** The status text and the enabled state of the start and stop buttons. */
  datatype ControlView = ControlView(status: string, startEnabled: bool, stopEnabled: bool)

  /** The collector of `rigId`, when it has one that has not exited. */
  function Running(registry: map<string, Option<Process>>, rigId: string, alive: set<int>): Option<Process>
  {
    if rigId in registry && registry[rigId].Some? && registry[rigId].value.pid in alive then registry[rigId]
    else None
  }

  /** The overview text of one rig. */
  function OverviewText(registry: map<string, Option<Process>>, rigId: string, alive: set<int>): string
  {
    if Running(registry, rigId, alive).Some? then "МОНИТОРИНГ" else "Остановлен"
  }

  /** The registry after the overview has cleared the exited collectors of the rigs in `ids`. */
  function Reaped(registry: map<string, Option<Process>>, ids: seq<string>, alive: set<int>): (r: map<string, Option<Process>>)
    ensures r.Keys == registry.Keys
    ensures forall k :: k in r ==> r[k] == if k in ids && registry[k].Some? && Running(registry, k, alive).None? then None else registry[k]
  {
    map k | k in registry :: if k in ids && registry[k].Some? && Running(registry, k, alive).None? then None else registry[k]
  }

  /**
   * After an overview refresh a rig in view is listed as monitoring exactly
   * when its collector is alive; an alive collector stays registered, an
   * exited one is replaced by None, and rigs never started are not added.
   */
  lemma ReapedSpec(registry: map<string, Option<Process>>, ids: seq<string>, alive: set<int>, rigId: string)
    requires rigId in ids
    ensures rigId in Reaped(registry, ids, alive) <==> rigId in registry
    ensures Running(registry, rigId, alive).Some? ==> Reaped(registry, ids, alive)[rigId] == registry[rigId]
    ensures rigId in registry && Running(registry, rigId, alive).None? ==> Reaped(registry, ids, alive)[rigId].None?
    ensures Running(Reaped(registry, ids, alive), rigId, alive) == Running(registry, rigId, alive)
    ensures OverviewText(registry, rigId, alive) == "МОНИТОРИНГ" <==> Running(registry, rigId, alive).Some?
  {
  }

  /** Clearing twice with the same live set changes nothing more. */
  lemma ReapedIdempotent(registry: map<string, Option<Process>>, ids: seq<string>, alive: set<int>)
    ensures Reaped(Reaped(registry, ids, alive), ids, alive) == Reaped(registry, ids, alive)
  {
    var r := Reaped(registry, ids, alive);
    forall k | k in r ensures Reaped(r, ids, alive)[k] == r[k] {
      if k in ids && r[k].Some? {
        assert Running(r, k, alive) == Running(registry, k, alive);
      }
    }
  }

  // ---------------------------------------------------------------------------
  // _update_wifi_status_tab
  // ---------------------------------------------------------------------------

  /** A log row after `to_datetime` and `to_numeric`; None stands for NaN. */
  datatype WifiRow = WifiRow(rigId: string, timestamp: DateTime, rssi: Option<real>, txRate: Option<real>)

  /** What the Wi-Fi tab shows. */
  datatype WifiView =
    | LogNotFound
    | ProcessingError
    | NoDataForPeriod
    | Summary(avgRssi: real, avgTxRate: real, quality: string, colour: string)

  /** The mask of the Wi-Fi tab: the rig's row, inside the window, with both numbers present. */
  predicate Kept(x: WifiRow, rigId: string, start: DateTime, end: DateTime)
  {
    x.rigId == rigId && TimeNotAfter(start, x.timestamp) && TimeBefore(x.timestamp, end)
    && x.rssi.Some? && x.txRate.Some?
  }

  /** The rows of `rigId` with `start <= Timestamp < end` and both numbers present. */
  function InWindow(rows: seq<WifiRow>, rigId: string, start: DateTime, end: DateTime): (r: seq<WifiRow>)
    ensures |r| <= |rows|
    ensures forall k :: 0 <= k < |r| ==>
      && r[k] in rows && r[k].rigId == rigId
      && TimeNotAfter(start, r[k].timestamp) && TimeBefore(r[k].timestamp, end)
      && r[k].rssi.Some? && r[k].txRate.Some?
    ensures forall k :: 0 <= k < |rows| ==>
      (rows[k].rigId == rigId && TimeNotAfter(start, rows[k].timestamp) && TimeBefore(rows[k].timestamp, end)
       && rows[k].rssi.Some? && rows[k].txRate.Some?) ==> rows[k] in r
    decreases |rows|
  {
    if |rows| == 0 then []
    else
      var x := rows[0];
      var rest := InWindow(rows[1..], rigId, start, end);
      assert forall k :: 0 <= k < |rows[1..]| ==> rows[1..][k] == rows[k + 1];
      if Kept(x, rigId, start, end) then [x] + rest else rest
  }

  /** A single row is kept by itself or dropped. */
  lemma InWindowSingle(x: WifiRow, rigId: string, start: DateTime, end: DateTime)
    ensures InWindow([x], rigId, start, end) == if Kept(x, rigId, start, end) then [x] else []
  {
    assert [x][1..] == [];
  }

  /**
   * The mask works row by row: filtering a concatenation is filtering each
   * part, so every kept row appears as often as in the file and in file order.
   */
  lemma {:induction false} InWindowAppend(a: seq<WifiRow>, b: seq<WifiRow>, rigId: string, start: DateTime, end: DateTime)
    ensures InWindow(a + b, rigId, start, end) == InWindow(a, rigId, start, end) + InWindow(b, rigId, start, end)
    decreases |a|
  {
    if |a| == 0 {
      assert a + b == b;
    } else {
      assert (a + b)[0] == a[0] && (a + b)[1..] == a[1..] + b;
      InWindowAppend(a[1..], b, rigId, start, end);
    }
  }

  function Sum(xs: seq<real>): real
    decreases |xs|
  {
    if |xs| == 0 then 0.0 else xs[0] + Sum(xs[1..])
  }

  /** `Series.mean()` over exact reals. */
  function Mean(xs: seq<real>): real
    requires |xs| > 0
  {
    Sum(xs) / |xs| as real
  }

  lemma {:induction false} SumAbove(xs: seq<real>, t: real)
    requires forall k :: 0 <= k < |xs| ==> xs[k] > t
    ensures |xs| > 0 ==> Sum(xs) > |xs| as real * t
    ensures |xs| == 0 ==> Sum(xs) == 0.0
    decreases |xs|
  {
    if |xs| > 0 {
      SumAbove(xs[1..], t);
    }
  }

  lemma {:induction false} SumAtMost(xs: seq<real>, t: real)
    requires forall k :: 0 <= k < |xs| ==> xs[k] <= t
    ensures Sum(xs) <= |xs| as real * t
    decreases |xs|
  {
    if |xs| > 0 {
      SumAtMost(xs[1..], t);
    }
  }

  /** A mean lies above every common strict lower bound and below every common upper bound. */
  lemma MeanBounds(xs: seq<real>, t: real)
    requires |xs| > 0
    ensures (forall k :: 0 <= k < |xs| ==> xs[k] > t) ==> Mean(xs) > t
    ensures (forall k :: 0 <= k < |xs| ==> xs[k] <= t) ==> Mean(xs) <= t
  {
    var n := |xs| as real;
    if forall k :: 0 <= k < |xs| ==> xs[k] > t {
      SumAbove(xs, t);
      assert Mean(xs) * n == Sum(xs);
    }
    if forall k :: 0 <= k < |xs| ==> xs[k] <= t {
      SumAtMost(xs, t);
      assert Mean(xs) * n == Sum(xs);
    }
  }

  function RssiValues(rows: seq<WifiRow>): (r: seq<real>)
    requires forall k :: 0 <= k < |rows| ==> rows[k].rssi.Some?
    ensures |r| == |rows| && forall k :: 0 <= k < |rows| ==> r[k] == rows[k].rssi.value
    decreases |rows|
  {
    if |rows| == 0 then [] else [rows[0].rssi.value] + RssiValues(rows[1..])
  }

  function TxValues(rows: seq<WifiRow>): (r: seq<real>)
    requires forall k :: 0 <= k < |rows| ==> rows[k].txRate.Some?
    ensures |r| == |rows| && forall k :: 0 <= k < |rows| ==> r[k] == rows[k].txRate.value
    decreases |rows|
  {
    if |rows| == 0 then [] else [rows[0].txRate.value] + TxValues(rows[1..])
  }

  /** The rating and label colour of an average RSSI. */
  function RateRssi(avg: real): (string, string)
  {
    if avg > -65.0 then ("Отлично", "green")
    else if avg > -75.0 then ("Хорошо", "orange")
    else ("Плохо", "red")
  }

  /**
   * The tab's rating uses the map's top two thresholds: excellent is the
   * green band, good the gold band, and poor the red and maroon bands.
   */
  lemma RatingMatchesBands(avg: real)
    ensures RateRssi(avg).0 == "Отлично" <==> Heatmap.QualityColour(avg) == Heatmap.Green
    ensures RateRssi(avg).0 == "Хорошо" <==> Heatmap.QualityColour(avg) == Heatmap.Gold
    ensures RateRssi(avg).0 == "Плохо" <==>
      Heatmap.QualityColour(avg) == Heatmap.Red || Heatmap.QualityColour(avg) == Heatmap.Maroon
  {
  }

  /**
   * The Wi-Fi tab for `rigId` over `[start, end)`: `file` is None when the
   * log does not exist; a period without ends (an unreadable archive date)
   * makes the timestamp comparison fail.
   */
  function WifiStatus(file: Option<seq<WifiRow>>, rigId: string, start: Option<DateTime>, end: Option<DateTime>): WifiView
  {
    match file
    case None => LogNotFound
    case Some(rows) =>
      if start.None? || end.None? then ProcessingError
      else
        var kept := InWindow(rows, rigId, start.value, end.value);
        if |kept| == 0 then NoDataForPeriod
        else
          var avg := Mean(RssiValues(kept));
          var (quality, colour) := RateRssi(avg);
          Summary(avg, Mean(TxValues(kept)), quality, colour)
  }

  /**
   * When every row of the rig in the window is above -65 dBm the rating is
   * excellent; when every one is at or below -75 dBm it is poor.
   */
  lemma WifiRatingFromRows(rows: seq<WifiRow>, rigId: string, start: DateTime, end: DateTime)
    requires |InWindow(rows, rigId, start, end)| > 0
    ensures var kept := InWindow(rows, rigId, start, end);
      (forall k :: 0 <= k < |kept| ==> kept[k].rssi.value > -65.0) ==>
        WifiStatus(Some(rows), rigId, Some(start), Some(end)).quality == "Отлично"
    ensures var kept := InWindow(rows, rigId, start, end);
      (forall k :: 0 <= k < |kept| ==> kept[k].rssi.value <= -75.0) ==>
        WifiStatus(Some(rows), rigId, Some(start), Some(end)).quality == "Плохо"
  {
    var kept := InWindow(rows, rigId, start, end);
    var xs := RssiValues(kept);
    if forall k :: 0 <= k < |kept| ==> kept[k].rssi.value > -65.0 {
      assert forall k :: 0 <= k < |xs| ==> xs[k] > -65.0;
      MeanBounds(xs, -65.0);
    }
    if forall k :: 0 <= k < |kept| ==> kept[k].rssi.value <= -75.0 {
      assert forall k :: 0 <= k < |xs| ==> xs[k] <= -75.0;
      MeanBounds(xs, -75.0);
    }
  }

  /**
   * The tab's four outcomes: a missing log, a period without ends, no row of
   * the rig in the window with both numbers, and otherwise the summary of
   * those rows with the rating of their mean RSSI.
   */
  lemma WifiStatusCases(file: Option<seq<WifiRow>>, rigId: string, start: Option<DateTime>, end: Option<DateTime>)
    ensures file.None? ==> WifiStatus(file, rigId, start, end) == LogNotFound
    ensures file.Some? && (start.None? || end.None?) ==> WifiStatus(file, rigId, start, end) == ProcessingError
    ensures WifiStatus(file, rigId, start, end).Summary? <==>
      && file.Some? && start.Some? && end.Some?
      && exists k :: 0 <= k < |file.value| && file.value[k].rigId == rigId
           && TimeNotAfter(start.value, file.value[k].timestamp) && TimeBefore(file.value[k].timestamp, end.value)
           && file.value[k].rssi.Some? && file.value[k].txRate.Some?
    ensures WifiStatus(file, rigId, start, end).Summary? ==>
      var v := WifiStatus(file, rigId, start, end);
      (v.quality, v.colour) == RateRssi(v.avgRssi)
  {
    if file.Some? && start.Some? && end.Some? {
      var kept := InWindow(file.value, rigId, start.value, end.value);
      if |kept| > 0 {
        assert kept[0] in file.value;
      }
    }
  }

  /** No rows of the rig in the window: the tab says so. */
  lemma WifiNoData(rows: seq<WifiRow>, rigId: string, start: DateTime, end: DateTime)
    requires forall k :: 0 <= k < |rows| ==> rows[k].rigId != rigId
    ensures WifiStatus(Some(rows), rigId, Some(start), Some(end)) == NoDataForPeriod
  {
  }

  // ---------------------------------------------------------------------------
  // The window's state
  // ---------------------------------------------------------------------------

  class App {
    var rigIds: seq<string>
    var rigProcesses: map<string, Option<Process>>
    var archiveDates: seq<string>
    var archiveDatesList: seq<string>

    /**
     * `__init__`: the configured rigs, no collectors, and the date list
     * loaded once from the log directory before the widgets are built.
     */
    constructor(ids: seq<string>, logDirExists: bool, listing: seq<string>)
      ensures rigIds == ids && rigProcesses == map[]
      ensures logDirExists ==> archiveDates == SortedDistinctDescending(DateParts(listing))
      ensures !logDirExists ==> archiveDates == []
      ensures archiveDatesList == [CurrentDay] + archiveDates
    {
      rigIds := ids;
      rigProcesses := map[];
      archiveDates := [];
      archiveDatesList := [];
      new;
      GetAvailableLogDates(logDirExists, listing);
    }

    /**
     * `_get_available_log_dates`: the list always starts with the current
     * day; when the log directory exists the archive dates are the distinct
     * date parts of its log files, newest first. A missing directory leaves
     * the previous archive dates in place.
     */
    method GetAvailableLogDates(logDirExists: bool, listing: seq<string>)
      modifies this
      ensures rigIds == old(rigIds) && rigProcesses == old(rigProcesses)
      ensures !logDirExists ==> archiveDates == old(archiveDates) && archiveDatesList == [CurrentDay]
      ensures logDirExists ==> archiveDates == SortedDistinctDescending(DateParts(listing))
      ensures logDirExists ==> archiveDatesList == [CurrentDay] + archiveDates
      ensures logDirExists ==> StrictlyDescending(archiveDates)
      ensures logDirExists ==> forall y :: y in archiveDates <==>
        exists k :: 0 <= k < |listing| && IsLogName(listing[k]) && DatePart(listing[k]) == y
    {
      archiveDatesList := [CurrentDay];
      if !logDirExists {
        return;
      }
      var tempDates: seq<string> := [];
      var i := 0;
      while i < |listing|
        invariant 0 <= i <= |listing|
        invariant tempDates == DateParts(listing[..i])
      {
        var filename := listing[i];
        assert listing[..i + 1][..i] == listing[..i];
        if StartsWith(filename, LogPrefix) && EndsWith(filename, LogSuffix) {
          var datePart := RemoveAll(LastPiece(filename, "_"), LogSuffix);
          tempDates := tempDates + [datePart];
        }
        i := i + 1;
      }
      assert listing[..i] == listing;
      archiveDates := SortedDistinctDescending(tempDates);
      archiveDatesList := archiveDatesList + archiveDates;
    }

    /**
     * `_update_control_tab(rig_id, is_archive_mode)`: in archive mode both
     * buttons are off and nothing changes; with a live collector only stop
     * is on; otherwise only start is on and the rig's entry becomes None,
     * added if it was absent.
     */
    method UpdateControlTab(rigId: string, isArchiveMode: bool, alive: set<int>) returns (view: ControlView)
      modifies this`rigProcesses
      ensures isArchiveMode ==> view == ControlView("Управление недоступно (Архив)", false, false)
      ensures isArchiveMode ==> rigProcesses == old(rigProcesses)
      ensures !isArchiveMode && Running(old(rigProcesses), rigId, alive).Some? ==>
        && view == ControlView("Статус: СБОР ДАННЫХ (PID: " + IntToString(old(rigProcesses)[rigId].value.pid) + ")", false, true)
        && rigProcesses == old(rigProcesses)
      ensures !isArchiveMode && Running(old(rigProcesses), rigId, alive).None? ==>
        && view == ControlView("Статус: Остановлен", true, false)
        && rigProcesses == old(rigProcesses)[rigId := None]
      ensures !isArchiveMode ==> (view.startEnabled <==> !view.stopEnabled)
    {
      if isArchiveMode {
        return ControlView("Управление недоступно (Архив)", false, false);
      }
      var process := if rigId in rigProcesses then rigProcesses[rigId] else None;
      if process.Some? && process.value.pid in alive {
        view := ControlView("Статус: СБОР ДАННЫХ (PID: " + IntToString(process.value.pid) + ")", false, true);
      } else {
        view := ControlView("Статус: Остановлен", true, false);
        rigProcesses := rigProcesses[rigId := None];
      }
    }

    /**
     * `_update_status_overview`: one status text per configured rig, and
     * every exited collector of a configured rig replaced by None.
     */
    method UpdateStatusOverview(alive: set<int>) returns (texts: seq<string>)
      modifies this`rigProcesses
      ensures rigProcesses == Reaped(old(rigProcesses), rigIds, alive)
      ensures |texts| == |rigIds|
      ensures forall k :: 0 <= k < |rigIds| ==> texts[k] == OverviewText(old(rigProcesses), rigIds[k], alive)
    {
      texts := [];
      var i := 0;
      while i < |rigIds|
        invariant 0 <= i <= |rigIds|
        invariant rigProcesses == Reaped(old(rigProcesses), rigIds[..i], alive)
        invariant |texts| == i
        invariant forall k :: 0 <= k < i ==> texts[k] == OverviewText(old(rigProcesses), rigIds[k], alive)
      {
        var rigId := rigIds[i];
        assert rigIds[..i + 1] == rigIds[..i] + [rigId];
        ReapedRunning(old(rigProcesses), rigIds[..i], alive, rigId);
        var process := if rigId in rigProcesses then rigProcesses[rigId] else None;
        var statusText := if process.Some? && process.value.pid in alive then "МОНИТОРИНГ" else "Остановлен";
        if process.Some? && process.value.pid !in alive {
          rigProcesses := rigProcesses[rigId := None];
        }
        texts := texts + [statusText];
        i := i + 1;
      }
      assert rigIds[..i] == rigIds;
    }

    /**
     * `_start_monitoring`: `spawned` is the new collector, None when Popen
     * raised. With no rig selected nothing happens.
     */
    method StartMonitoring(rigId: string, spawned: Option<Process>, alive: set<int>) returns (view: Option<ControlView>)
      modifies this`rigProcesses
      ensures rigId == "" ==> view.None? && rigProcesses == old(rigProcesses)
      ensures rigId != "" && spawned.Some? && spawned.value.pid in alive ==>
        rigProcesses == old(rigProcesses)[rigId := spawned] && view.Some? && view.value.stopEnabled
      ensures rigId != "" && spawned.None? && Running(old(rigProcesses), rigId, alive).None? ==>
        rigProcesses == old(rigProcesses)[rigId := None] && view.Some? && view.value.startEnabled
      ensures rigId != "" ==>
        var reg := if spawned.Some? then old(rigProcesses)[rigId := spawned] else old(rigProcesses);
        && (Running(reg, rigId, alive).Some? ==>
              && rigProcesses == reg
              && view == Some(ControlView("Статус: СБОР ДАННЫХ (PID: " + IntToString(reg[rigId].value.pid) + ")", false, true)))
        && (Running(reg, rigId, alive).None? ==>
              && rigProcesses == reg[rigId := None]
              && view == Some(ControlView("Статус: Остановлен", true, false)))
    {
      if rigId == "" {
        return None;
      }
      if spawned.Some? {
        rigProcesses := rigProcesses[rigId := spawned];
      }
      var v := UpdateControlTab(rigId, false, alive);
      view := Some(v);
    }

    /**
     * `_stop_monitoring`: a live collector is terminated and forgotten when
     * `terminate()` succeeds; in every case the entry ends up None unless
     * the collector is still alive.
     */
    method StopMonitoring(rigId: string, alive: set<int>, terminateOk: bool) returns (view: ControlView)
      modifies this`rigProcesses
      ensures Running(old(rigProcesses), rigId, alive).Some? && !terminateOk ==>
        && rigProcesses == old(rigProcesses)
        && view == ControlView("Статус: СБОР ДАННЫХ (PID: " + IntToString(old(rigProcesses)[rigId].value.pid) + ")", false, true)
      ensures Running(old(rigProcesses), rigId, alive).None? || terminateOk ==>
        && rigProcesses == old(rigProcesses)[rigId := None]
        && view == ControlView("Статус: Остановлен", true, false)
    {
      var process := if rigId in rigProcesses then rigProcesses[rigId] else None;
      if process.Some? && process.value.pid in alive {
        if terminateOk {
          rigProcesses := rigProcesses[rigId := None];
        }
      }
      view := UpdateControlTab(rigId, false, alive);
    }
  }

  /** One more rig cleared: the loop's step. */
  lemma ReapedRunning(registry: map<string, Option<Process>>, ids: seq<string>, alive: set<int>, rigId: string)
    ensures Running(Reaped(registry, ids, alive), rigId, alive) == Running(registry, rigId, alive)
    ensures var r := Reaped(registry, ids, alive);
      var p := if rigId in r then r[rigId] else None;
      Reaped(registry, ids + [rigId], alive) == if p.Some? && p.value.pid !in alive then r[rigId := None] else r
  {
    var r := Reaped(registry, ids, alive);
    var p := if rigId in r then r[rigId] else None;
    var r2 := Reaped(registry, ids + [rigId], alive);
    var expected := if p.Some? && p.value.pid !in alive then r[rigId := None] else r;
    assert forall k :: k in ids + [rigId] <==> k in ids || k == rigId;
    assert r2.Keys == expected.Keys;
    forall k | k in r2 ensures r2[k] == expected[k] {
    }
  }

  /**
   * The collector writes one fixed file, while the window reads the
   * shift-dated files: the two never name the same file.
   */
  lemma CollectorFileIsNotAShiftLog(now: DateTime)
    requires ValidTime(now)
    ensures LogFilePath(now) != Returns("coverage_log.csv")
  {
    if LogFilePath(now).Returns? {
      var p := LogFilePath(now).value;
      assert p[0] == 'l';
    }
  }
}
