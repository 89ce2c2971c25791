# A verified model of the Mikrotik / RTK coverage monitor

The system watches Wi-Fi coverage for drilling rigs in an open-pit mine. It is made of four programs:

- a collector, which polls a Mikrotik router over SSH once a minute and appends one CSV row per rig;
- an RTK analyser, which reads the RTCMv3 stream of a GNSS base station and stores one statistics row per interval in SQLite;
- a command-line tool, which edits the rig registry;
- a Tk window, which shows the current 20:00-to-20:00 shift, the archive of shift logs, the collector processes and a Wi-Fi summary, next to a plotting script that colours a coverage map.

This Dafny project models the sequential logic of those programs and proves what the code promises about it.

| file | module | what it models |
|---|---|---|
| `wrappers.dfy` | `Wrappers` | `Option`, for Python's `None` |
| `strings.dfy` | `Strings` | the `str` operations the code uses: `split(...)[-1]`, `replace`, `strip`, `upper`, `startswith`/`endswith`, `", ".join`, string order, `sorted(set(...), reverse=True)` |
| `calendar.dfy` | `Calendar` | `datetime` dates for years 1 to 9999: leap years, `± timedelta(days=1)`, order, `strftime('%Y-%m-%d')` and `'%Y-%m-%d %H:%M'` |
| `shift.dfy` | `Shift` | `get_log_file_path`, `datetime.strptime(s, '%Y-%m-%d')`, `get_shift_period_by_date`, `get_current_shift_period` |
| `monitor_app.dfy` | `MonitorApp` | the window's state (class `App`): the archive date list, the collector-process registry, the Wi-Fi window filter and rating |
| `rtcm.dfy` | `Rtcm` | `get_constellation_from_type`; the counters of `rtk_analyzer_loop` as the class `Analyzer`, with the database as a ghost row sequence |
| `collector.dfy` | `Collector` | the field extraction of `get_mikrotik_data` (the three regular expressions, leftmost and greedy), row assembly, CSV quoting, `initialize_csv` and the append of one `collect_data` cycle (class `CsvLog`) |
| `rig_registry.dfy` | `RigRegistry` | `add_rig`: the duplicate checks and the append (class `Config`) |
| `heatmap.dfy` | `Heatmap` | `define_quality_color` and the row filter and outcomes of `generate_heatmap` |

Where the code works by changing state, the model is a class:
- the analyser's connection-local counters;
- the window's `archive_dates` and `rig_processes`;
- the CSV file as a list of lines;
- the configuration's rig list.

Each method is specified against a pure function (`Step`/`Run`, `Scan`, `Initialized`, `Reaped`, `DateParts`), and the properties the code promises are lemmas about those functions.

Things the code does that a reader might not expect, all modelled as written:
- The collector appends to the fixed file `coverage_log.csv` (data_collector.py:29). The window reads `logs/coverage_log_<date>.csv` (app_gui.py:30, 270). `MonitorApp.CollectorFileIsNotAShiftLog` proves the two names never coincide.
- The analyser checks whether a row is due only when a frame with bytes arrives (rtcm_analyzer.py:130-150). A silent stream therefore emits nothing.
- `station_id` is not cleared at an emission (rtcm_analyzer.py:165-169). It carries over into the next interval.
- `initialize_csv` rewrites the whole file when its first line is blank, even if later lines hold rows (data_collector.py:54-62).
- `get_current_shift_period` re-parses the date it took out of the path (app_gui.py:51). At the two ends of Python's date range it raises `OverflowError`; `Shift.CurrentShiftPeriodOverflow` names exactly when.

## Model

| member | source | states |
|---|---|---|
| `Rtcm.ConstellationFromType` | rtcm_analyzer.py:80-91 | the label is one of GPS, GLONASS, GALILEO, BeiDou or OTHER |
| `Rtcm.ConstellationRanges` | rtcm_analyzer.py:80-91 | GPS exactly for 1074-1077 and 4070-4077, GLONASS exactly for 1084-1087, GALILEO exactly for 1094-1097, BeiDou exactly for 1124-1127 |
| `Rtcm.ConstellationTable` | rtcm_analyzer.py:80-91 | the table equals the RTCM 10403.3 MSM4-MSM7 assignment (type 10*g+k, k in 4..7), plus 4070-4077 as GPS; every other integer, negative ones included, is OTHER |
| `Rtcm.MsmSystem` | rtcm_analyzer.py:82-86 | the MSM4-MSM7 reference assignment of section 3.5 of RTCM Standard 10403.3; it gives only known labels |
| `Rtcm.Quality` | rtcm_analyzer.py:153 | with at most as many valid frames as frames the quality lies in [0, 100]; all valid gives exactly 100 |
| `Rtcm.QualityExample` | rtcm_analyzer.py:153 | 80 valid frames of 100 give 80.0; no frames give 0.0 |
| `Rtcm.Filter` | rtcm_analyzer.py:159 | the members of a set in a given strictly ascending order: strictly ascending, and containing exactly the set's members that the order lists |
| `Rtcm.SortedSystems` | rtcm_analyzer.py:159 | `sorted(active_constellations)`: strictly ascending in Python's string order (so free of duplicates) and holding exactly the active labels |
| `Rtcm.SortedSystemsExample` | rtcm_analyzer.py:159 | {GPS, GLONASS} sorts as GLONASS, GPS |
| `Rtcm.SystemsTextExample` | rtcm_analyzer.py:159 | the stored text for {GPS, GLONASS} is "GLONASS, GPS"; for no systems it is empty |
| `Rtcm.Fresh` | rtcm_analyzer.py:117-122 | a connection starts with zero frames, no station and the invariant valid ≤ total, active ⊆ known |
| `Rtcm.RawOnlyFrame` | rtcm_analyzer.py:130-147 | a frame with bytes but no decoded message increments the total only; valid count, systems and station are unchanged |
| `Rtcm.EmptyRead` | rtcm_analyzer.py:128-130 | a read without bytes changes nothing and emits nothing |
| `Rtcm.StepPreservesInv` | rtcm_analyzer.py:131-147 | each frame keeps valid ≤ total and keeps OTHER out of the active set |
| `Rtcm.EmissionSpec` | rtcm_analyzer.py:150-169 | a row is emitted exactly when a frame with bytes arrives at least 60 s after the last emission. It is an OK row over at least one frame, with quality in [0, 100], latency equal to the elapsed time, the sorted ", "-joined systems and the current station. Afterwards the counters are zero, the set empty, the clock at now and the station kept |
| `Rtcm.ErrorRow` | rtcm_analyzer.py:171-184 | an exception row is ERROR with quality 0.0, no station, total 0 and latency 0.0 |
| `Rtcm.RunPreservesInv` | rtcm_analyzer.py:126-169 | the invariant holds after any sequence of frames |
| `Rtcm.RunSnoc` | rtcm_analyzer.py:126-169 | a run extended by one frame is the run followed by one more step |
| `Rtcm.RunRows` | rtcm_analyzer.py:150-163 | every row a connection stores is OK, over at least one frame, with quality in [0, 100] and latency at least 60 s |
| `Rtcm.RunStation` | rtcm_analyzer.py:146-147 | after any run the station is the last station ID a valid frame carried, or the previous one if no frame carried one; emissions do not clear it |
| `Rtcm.Analyzer.constructor` | rtcm_analyzer.py:106 | no connection and no rows yet |
| `Rtcm.Analyzer.Connect` | rtcm_analyzer.py:110-122 | a new connection starts from fresh counters at the connect time; stored rows are kept |
| `Rtcm.Analyzer.Write` | rtcm_analyzer.py:58-78 | a successful insert appends exactly the row; a failed one is swallowed and stores nothing |
| `Rtcm.Analyzer.Receive` | rtcm_analyzer.py:128-169 | one frame moves the counters as `Step` does and stores its row, if any, when the insert succeeds |
| `Rtcm.Analyzer.Tally` | rtcm_analyzer.py:131-147 | a frame with raw bytes moves the counters as `Count` does, keeps the invariant and writes no row |
| `Rtcm.Analyzer.Emit` | rtcm_analyzer.py:152-169 | an emission stores the `Report` row when the insert succeeds and leaves the counters as `Reset` gives them, station ID kept |
| `Rtcm.Analyzer.ReceiveAll` | rtcm_analyzer.py:126-169 | a sequence of frames moves the counters as `Run` does and appends exactly `Run`'s rows |
| `Rtcm.Analyzer.Fail` | rtcm_analyzer.py:171-184 | an exception ends the connection, discards its counters and stores exactly one ERROR row when the insert succeeds |
| `Calendar.Succ` | app_gui.py:27 | `date + timedelta(days=1)` is a well-formed day strictly after the given one |
| `Calendar.Pred` | app_gui.py:40 | `date - timedelta(days=1)` is a well-formed day strictly before the given one |
| `Calendar.SuccIsImmediate` | app_gui.py:27 | no day lies strictly between a day and its successor |
| `Calendar.SuccPredInverse` | app_gui.py:27-40 | adding and subtracting one day are inverse |
| `Calendar.SuccMonotone` | app_gui.py:26-29 | adding a day keeps the order of days |
| `Calendar.SuccInRange` | app_gui.py:27 | the successor is representable exactly unless the day is 9999-12-31 |
| `Calendar.PredInRange` | app_gui.py:40 | the predecessor is representable exactly unless the day is 0001-01-01 |
| `Calendar.FormatDate` | app_gui.py:30 | `strftime('%Y-%m-%d')` is ten characters with dashes at positions 4 and 7 |
| `Calendar.FormatDateChars` | app_gui.py:30 | the date text holds only ASCII digits and dashes |
| `Calendar.FormatMinuteChars` | app_gui.py:43 | the minute text holds only digits, dashes, a space and a colon |
| `Calendar.FormatExamples` | app_gui.py:30 | 2024-03-01 and 2024-03-02 are written zero-padded |
| `Shift.ShiftDate` | app_gui.py:26-29 | the working day of a moment is a well-formed day |
| `Shift.ShiftDateWindow` | app_gui.py:26-41 | a day is the working day of `now` exactly when `now` lies in the window from 20:00 of the day before it (inclusive) to 20:00 of that day (exclusive) |
| `Shift.ShiftDateMonotone` | app_gui.py:26-29 | the working day never goes back as time goes forward |
| `Shift.BeforeBoundaryScenario` | app_gui.py:26-30 | at 19:59 on 2024-03-01 the path is `logs/coverage_log_2024-03-01.csv` |
| `Shift.AtBoundaryScenario` | app_gui.py:26-30 | at exactly 20:00 on 2024-03-01 the path already names 2024-03-02 |
| `Shift.DatePartOfLogName` | app_gui.py:51 | the last `_`-piece of a log name, without ".csv", is the date text |
| `Shift.LogPathRoundTrip` | app_gui.py:30-51 | taking the last `_`-piece of the path and removing ".csv" gives back the working day's date text |
| `Shift.ParseDate` | app_gui.py:37 | `strptime(s, '%Y-%m-%d')` succeeds only with a date Python can represent |
| `Shift.ParseFormatRoundTrip` | app_gui.py:37 | parsing a formatted date gives back the date |
| `Shift.ParseDateCanonical` | app_gui.py:37 | "2024-03-01" parses to 2024-03-01 |
| `Shift.ParseDateSingleDigits` | app_gui.py:37 | "2024-3-1" parses too, as strptime allows |
| `Shift.ParseDateNoSuchDay` | app_gui.py:37-46 | "2023-02-29" is rejected |
| `Shift.ParseDateRejects` | app_gui.py:37-46 | month 13, a three-digit day, year 0 and the "Текущий день" entry are rejected |
| `Shift.MalformedDatePeriod` | app_gui.py:45-46 | an unparsable date gives ("Неверный формат даты", None, None) |
| `Shift.ShiftPeriodByDateSpec` | app_gui.py:37-44 | a parsed date gives a window ending at 20:00 of that day and starting at 20:00 of the day before; only 0001-01-01 overflows |
| `Shift.ShiftLabelSpec` | app_gui.py:57-60 | "Дневная" exactly for hours 8 to 19, "Ночная" otherwise |
| `Shift.CurrentShiftPeriodSpec` | app_gui.py:48-63 | the current window contains `now`, starts and ends at 20:00:00 one day apart and ends on the working day; its text is the label, " Смена (", both ends to the minute and ")" |
| `Shift.CurrentShiftPeriodOverflow` | app_gui.py:48-63 | it raises OverflowError exactly after 20:00 on 9999-12-31 and before 20:00 on 0001-01-01 |
| `MonitorApp.DateParts` | app_gui.py:123-127 | the collected date parts are exactly those of the listed `coverage_log_*.csv` names |
| `MonitorApp.LoggedDateListed` | app_gui.py:123-132 | the date of any log file the window names is in the archive list under its own date text |
| `MonitorApp.App.constructor` | app_gui.py:70-94 | the configured rigs and no processes; the date list is loaded as `GetAvailableLogDates` gives it, so it starts with "Текущий день" followed by the archive dates, which are empty when the log directory is missing |
| `MonitorApp.App.GetAvailableLogDates` | app_gui.py:116-136 | the list starts with "Текущий день"; with the directory present the rest are the distinct date parts of the log names, strictly descending, and nothing else; without it only the first entry remains and the old archive dates stay |
| `MonitorApp.Reaped` | app_gui.py:314-326 | the overview's registry: same keys, and only the exited collectors of configured rigs become None |
| `MonitorApp.ReapedSpec` | app_gui.py:297-328 | after a refresh an alive collector keeps its entry, an exited one becomes None, no rig is added, and "МОНИТОРИНГ" is shown exactly when the collector is alive |
| `MonitorApp.ReapedIdempotent` | app_gui.py:314-326 | refreshing twice with the same live set changes nothing more |
| `MonitorApp.ReapedRunning` | app_gui.py:314-326 | clearing one more rig keeps every rig's liveness; this is the loop's step |
| `MonitorApp.App.UpdateControlTab` | app_gui.py:290-306 | in archive mode both buttons are off and nothing changes; with a live collector only stop is on and the PID is shown; otherwise only start is on and the rig's entry becomes None |
| `MonitorApp.App.UpdateStatusOverview` | app_gui.py:308-328 | one text per configured rig, as `OverviewText` says, and the registry becomes `Reaped` of the old one |
| `MonitorApp.App.StartMonitoring` | app_gui.py:408-419 | no rig selected: nothing happens. Otherwise a spawned collector is registered, or the old entry stays when Popen fails. The control tab is then refreshed on that registry: a live entry shows its PID with only stop on, and any other entry becomes None with only start on |
| `MonitorApp.App.StopMonitoring` | app_gui.py:421-434 | a live collector whose `terminate()` fails stays registered, and its PID is shown with only stop on; otherwise the entry is None, the status is "Остановлен" and only start is on |
| `MonitorApp.InWindowSingle` | app_gui.py:337-338 | a single row is kept exactly when the mask holds for it |
| `MonitorApp.InWindowAppend` | app_gui.py:337-338 | masking a concatenation masks each part, so kept rows keep their file order and their multiplicity |
| `MonitorApp.InWindow` | app_gui.py:337-338 | the kept rows are those, and exactly those, of the rig with start ≤ timestamp < end and both RSSI and TxRate numeric; `InWindowAppend` fixes their order and count |
| `MonitorApp.MeanBounds` | app_gui.py:345 | a mean lies above a common strict lower bound and not above a common upper bound |
| `MonitorApp.RatingMatchesBands` | app_gui.py:348-356 | "Отлично" exactly for the map's green band, "Хорошо" exactly for its gold band, "Плохо" for red and maroon |
| `MonitorApp.WifiStatusCases` | app_gui.py:330-366 | a missing log shows "not found", a period without ends a processing error; a summary appears exactly when some row of the rig lies in the window with both numbers, rated by the mean RSSI |
| `MonitorApp.WifiRatingFromRows` | app_gui.py:337-356 | if every kept row is above -65 dBm the rating is "Отлично"; if every one is at or below -75 dBm it is "Плохо" |
| `MonitorApp.WifiNoData` | app_gui.py:340-343 | with no row of the rig the tab shows "no data for the period" |
| `MonitorApp.CollectorFileIsNotAShiftLog` | app_gui.py:265-270 | the window's shift log is never the file the collector writes (data_collector.py:29) |
| `Collector.DigitRun` | data_collector.py:133 | the maximal run of ASCII digits at a position, as `\d+` matches greedily |
| `Collector.SignalCaptureIffMatch` | data_collector.py:133 | the capture at a position exists exactly when `signal-strength=(-?\d+)` matches there |
| `Collector.SignalSound` | data_collector.py:133 | the captured group is an optional minus sign followed by digits |
| `Collector.SignalMaximal` | data_collector.py:133 | the captured group is the longest matching one (greedy) |
| `Collector.RateCaptureIffMatch` | data_collector.py:138-145 | the capture at a position exists exactly when `tx-rate=(\d+\.?\d*Mbps)`, or its `rx-rate=` form, matches there |
| `Collector.RateSound` | data_collector.py:138-145 | the captured group is digits, an optional point and digits, then "Mbps" |
| `Collector.CaptureIffMatch` | data_collector.py:133-145 | for each of the three fields, a capture exists exactly where the pattern matches |
| `Collector.Search` | data_collector.py:133-145 | `re.search` finds the first matching position from the start, and nothing matches before it |
| `Collector.SearchIsLeftmost` | data_collector.py:133-145 | the search succeeds exactly when the pattern matches somewhere, at the leftmost such position |
| `Collector.RssiIsLeftmost` | data_collector.py:133-135 | RSSI is present exactly when the pattern matches; then it is the signed value of the greedy group at the leftmost match |
| `Collector.RateIsLeftmost` | data_collector.py:138-145 | TxRate/RxRate is present exactly when its pattern matches, and comes from the leftmost match |
| `Collector.RateValue` | data_collector.py:140-145 | the stored rate is the matched group minus its trailing "Mbps": digits with an optional point, never containing "Mbps" |
| `Collector.RateValueShape` | data_collector.py:140-145 | removing "Mbps" from a `\d+\.?\d*Mbps` text leaves exactly its number part |
| `Collector.RegistrationExample` | data_collector.py:132-135 | "signal-strength=-68@60Mbps" gives RSSI -68 |
| `Collector.TxCaptureExample` | data_collector.py:138 | "tx-rate=54.5Mbps" matches at 0 with group "54.5Mbps" |
| `Collector.TxRateExample` | data_collector.py:138-140 | "tx-rate=54.5Mbps" gives TxRate "54.5" |
| `Collector.GetMikrotikData` | data_collector.py:98-156 | an SSH, authentication or other error, or a blank output, gives all three fields None; otherwise each field is the leftmost match's value or None |
| `Collector.BuildRow` | data_collector.py:183-192 | a row has as many fields as there are headers |
| `Collector.RowMatchesHeaders` | data_collector.py:183-192 | the row's fields are, in header order, the timestamp, rig ID, MAC, longitude, latitude, RSSI, TxRate and RxRate; a missing metric is an empty field |
| `Collector.Fields` | data_collector.py:200 | one CSV field per cell |
| `Collector.EncodeRows` | data_collector.py:200 | `writerows` writes one line per row, in order |
| `Collector.HeaderCells` | data_collector.py:62 | the header row is the eight header names in order |
| `Collector.HeaderLineNotBlank` | data_collector.py:54-62 | the header line starts with "T", so a file starting with it is never treated as empty again |
| `Collector.QuoteRoundTrip` | data_collector.py:198-200 | under minimal quoting, unquoting a written field gives back its text; a field without a comma, quote or line break is written as it is |
| `Collector.UndoubleDouble` | data_collector.py:200 | doubled quotes undo to the original text |
| `Collector.InitializedSpec` | data_collector.py:49-62 | a missing file becomes exactly the header line; a file with a non-blank first line is untouched; a blank first line is replaced by the header; initialising twice is initialising once |
| `Collector.CsvLog.constructor` | data_collector.py:49-52 | the file's presence and lines are as given |
| `Collector.CsvLog.InitializeCsv` | data_collector.py:49-62 | the file then exists and its lines are `Initialized` of the old state |
| `Collector.CsvLog.AppendRows` | data_collector.py:196-203 | a successful append adds the encoded rows after the existing lines, creating the file if absent; a failed one changes nothing |
| `Collector.CollectCycle` | data_collector.py:166-203 | one row per configured rig, in order, each built from the cycle timestamp, the rig's data and its metrics; then the rows are appended as `AppendRows` says |
| `Collector.CycleRowsShareTimestamp` | data_collector.py:167-192 | every row of a cycle has eight fields, the cycle's timestamp and its rig's ID |
| `Collector.UnreachableRow` | data_collector.py:126-156 | a rig whose router fails or has no entry still gets a row, with RSSI, TxRate and RxRate empty |
| `RigRegistry.ScanSpec` | app_cli.py:66-73 | the rig is admitted exactly when no stored rig has its ID or its MAC; otherwise the first clashing rig decides, reporting the ID when it has the ID and the MAC otherwise |
| `RigRegistry.AddPreservesUnique` | app_cli.py:66-75 | if IDs and MACs were pairwise distinct before an admitted insert, they still are after it |
| `RigRegistry.Config.constructor` | app_cli.py:59 | the loaded rigs, nothing saved yet |
| `RigRegistry.Config.AddRig` | app_cli.py:57-77 | the outcome is the duplicate scan with the upper-cased MAC. On success the rig `{id, upper(mac), ip}` is appended at the end, the earlier entries are unchanged and in order, and the configuration is saved once. On a duplicate nothing changes and nothing is saved |
| `RigRegistry.IdsAreCaseSensitive` | app_cli.py:68 | "rig_01" is admitted next to "Rig_01" |
| `RigRegistry.UpperIdempotent` | app_cli.py:62-71 | upper-casing an upper-cased MAC changes nothing |
| `RigRegistry.MacComparison` | app_cli.py:62-71 | a MAC equal to a stored one after upper-casing is refused whatever its case; a stored MAC with a lower-case letter never matches |
| `Heatmap.Bands` | visualization.py:20-29 | green above -65, gold in (-75, -65], red in (-85, -75], maroon at or below -85 |
| `Heatmap.BandIsThresholdsExceeded` | visualization.py:12-29 | the band's rank is the number of thresholds the RSSI lies above, so every RSSI gets exactly one band |
| `Heatmap.QualityMonotone` | visualization.py:20-29 | a stronger signal never gets a worse band |
| `Heatmap.NumericRows` | visualization.py:45-46 | the rows kept have a numeric RSSI, and every row with one is kept; `NumericRowsAppend` fixes their order and count |
| `Heatmap.NumericRowsSingle` | visualization.py:45-46 | a single row is kept exactly when its RSSI is numeric |
| `Heatmap.NumericRowsAppend` | visualization.py:45-46 | filtering a concatenation filters each part, so kept rows keep their file order and their multiplicity |
| `Heatmap.Colourise` | visualization.py:53 | one point per row, with its coordinates and its band colour |
| `Heatmap.HeatmapSpec` | visualization.py:31-88 | a missing or empty file returns early; a map is saved exactly when some row has a numeric RSSI; it has one point per such row, coloured by its band |
| `Heatmap.AsWrittenNeverSaves` | visualization.py:59-87 | as written, no input produces a saved map; any file with a numeric RSSI raises NameError |
| `Heatmap.AsWrittenCounterexample` | visualization.py:62 | one row at -70 dBm raises NameError as written, and the corrected code saves one gold point |

## Left out

- Tk widgets, label colours, timers, message boxes and the map image (app_gui.py:70-469) are user interface. Only the texts and button states the control tab computes are modelled.
- Subprocess start, `poll()` and `terminate()` are not modelled. Liveness is a given set of live PIDs, Popen's result is a given optional process, and `terminate()`'s success is a given boolean.
- `_update_all_dynamic_data` (app_gui.py:258-288) is not modelled as an operation. Its choice of file is stated by `CollectorFileIsNotAShiftLog`, and its period comes from `Shift`.
- The overview skips rigs without a status label (app_gui.py:311-312). The model assumes every configured rig has one.
- `_update_gps_status_tab` and the map reload are display only.
- `pandas.read_csv`, `to_datetime` and `to_numeric` are not modelled. The Wi-Fi tab and the map take already-converted rows, with None standing for NaN.
- Means are over exact reals, not floating point.
- Rtcm.Quality: `quality_pct` (rtcm_analyzer.py:153) is a Python float. The model computes it over exact reals, so rounding is not modelled.
- Rtcm.Report: the row's `latency` (rtcm_analyzer.py:162) is a Python float. The model uses an exact real difference of the given times.
- Collector.CsvLog.InitializeCsv: only a missing file is handled (data_collector.py:51-57). The model has no failure path: any other error from `open` or `readline` would end `collect_data` before its first cycle (data_collector.py:164, 214-215).
- Collector.CsvLog.AppendRows: a failed append is modelled as writing nothing. `writerows` in append mode (data_collector.py:198-200) can fail after part of the rows reached the file, and the model does not capture that partial write.
- `WifiStatus`: any other exception inside the tab is not modelled. The one error path kept is a period without ends: comparing timestamps with `None` raises.
- The SSH session of `get_mikrotik_data` (data_collector.py:107-124) is replaced by its outcome: the output text or an error.
- The random GPS mock (data_collector.py:67-93) and the clock are replaced by given longitude, latitude and timestamp texts.
- `\d` is modelled as ASCII digits; Python's pattern also takes Unicode digits.
- `Strings.Upper` upper-cases ASCII letters only. Its contract states only that the length is kept.
- Python's csv writes a lone empty field as `""`; the model does not. Every row here has eight fields.
- Socket connection and the `RTCMReader` decoding with its CRC-24Q check are left out. A frame is an abstract value: raw bytes present, and the decoded type and station or none.
- The decoded message's `identity` is modelled as the integer message type.
- The time of each frame is a given real.
- The infinite loops (`rtk_analyzer_loop`, `collect_data`) are not modelled as loops. The analyser is modelled over a finite sequence of frames and connections, the collector as one cycle. The 10 s and 60 s sleeps are left out.
- `DbRow` leaves out the SQLite row's own timestamp column (rtcm_analyzer.py:61).
- The database connection itself is not modelled. A failed insert is a given boolean and stores nothing.
- `load_config` and `save_config` (app_cli.py:13-25) are modelled by the `Config` class. Its `saves` counter stands for the writes; JSON itself is not modelled.
- argparse dispatch, the other CLI commands and rtk_collector_service.py are outside the modelled core.
- matplotlib plotting is left out. A saved map is modelled by its coloured points.
- Path joining uses `/` as the separator.

## Findings

| source | as written | input that shows it | evidently intended | confidence | as-written member | corrected member |
|---|---|---|---|---|---|---|
| visualization.py:62 | the legend label refers to `CONFIGИГ_VIS`, which is not defined, so building the legend raises NameError whenever a usable row exists, and `savefig` is never reached | a data file with one row at -70 dBm | use `CONFIG_VIS` and save a map with one gold point | high, not executed | `Heatmap.GenerateHeatmapAsWritten` / `Heatmap.AsWrittenCounterexample` | `Heatmap.GenerateHeatmap` / `Heatmap.HeatmapSpec` |
