/**
 * The Wi-Fi data collector (data_collector.py): the fields it extracts from
 * a router's registration-table output, the row it assembles per rig and
 * cycle, and the CSV file it initialises and appends to.
 */
module Collector {
  import opened Wrappers
  import opened Strings

  // ---------------------------------------------------------------------------
  // Digit runs
  // ---------------------------------------------------------------------------

  /** The length of the run of decimal digits starting at `j` (what greedy `\d*` takes). */
  function DigitRun(s: string, j: nat): (n: nat)
    requires j <= |s|
    ensures j + n <= |s| && AllDigits(s[j..j + n]) && (j + n == |s| || !IsDigit(s[j + n]))
    decreases |s| - j
  {
    if j < |s| && IsDigit(s[j]) then
      var m := DigitRun(s, j + 1);
      assert s[j..j + 1 + m] == [s[j]] + s[j + 1..j + 1 + m];
      1 + m
    else 0
  }

  /** A run of `n` digits followed by a non-digit (or the end) is the whole run. */
  lemma {:induction false} DigitRunExact(s: string, j: nat, n: nat)
    requires j + n <= |s| && AllDigits(s[j..j + n]) && (j + n == |s| || !IsDigit(s[j + n]))
    ensures DigitRun(s, j) == n
    decreases n
  {
    if n > 0 {
      assert s[j] == s[j..j + n][0];
      assert s[j + 1..j + n] == s[j..j + n][1..];
      DigitRunExact(s, j + 1, n - 1);
    }
  }

  // ---------------------------------------------------------------------------
  // The three patterns
  // ---------------------------------------------------------------------------

  /** The three fields searched for in the router's output. */
  datatype Field = Signal | Tx | Rx

  const SignalPrefix := "signal-strength="
  const TxPrefix := "tx-rate="
  const RxPrefix := "rx-rate="
  const Mbps := "Mbps"

  function Prefix(f: Field): string
  {
    match f
    case Signal => SignalPrefix
    case Tx => TxPrefix
    case Rx => RxPrefix
  }

  /** Text in the language of `-?\d+`. */
  predicate SignedDigits(t: string)
  {
    |t| >= 1 && (AllDigits(t) || (t[0] == '-' && |t| >= 2 && AllDigits(t[1..])))
  }

  /** Text in the language of `\d+\.?\d*`. */
  predicate RateBody(u: string)
  {
    |u| >= 1 && (AllDigits(u) || exists d: nat | 0 < d < |u| :: u[d] == '.' && AllDigits(u[..d]) && AllDigits(u[d + 1..]))
  }

  /** Text in the language of `\d+\.?\d*Mbps`. */
  predicate RateText(t: string)
  {
    |t| >= 4 && t[|t| - 4..] == Mbps && RateBody(t[..|t| - 4])
  }

  /** The group of field `f` can be some text starting at `j`. */
  predicate GroupAt(f: Field, s: string, j: nat)
  {
    exists e: nat | j <= e <= |s| :: if f == Signal then SignedDigits(s[j..e]) else RateText(s[j..e])
  }

  /** The pattern of field `f` (its prefix, then its group) can match at `i`. */
  predicate MatchesAt(f: Field, s: string, i: nat)
  {
    OccursAt(s, Prefix(f), i) && GroupAt(f, s, i + |Prefix(f)|)
  }

  /**
   * The group the regular expression engine captures when it matches
   * `signal-strength=(-?\d+)` at `i`: `-?` takes the sign when a digit
   * follows it, then `\d+` takes every digit.
   */
  function SignalCapture(s: string, i: nat): Option<string>
  {
    if !OccursAt(s, SignalPrefix, i) then None
    else
      var j := i + |SignalPrefix|;
      if j < |s| && s[j] == '-' && DigitRun(s, j + 1) > 0 then Some(s[j..j + 1 + DigitRun(s, j + 1)])
      else if DigitRun(s, j) > 0 then Some(s[j..j + DigitRun(s, j)])
      else None
  }

  /** Where `\d+\.?\d*` ends when it starts at `j`: the digits, then a `.` and the digits after it. */
  function RateBodyEnd(s: string, j: nat): (m: nat)
    requires j <= |s|
    ensures j + DigitRun(s, j) <= m <= |s|
  {
    var e := j + DigitRun(s, j);
    if e < |s| && s[e] == '.' then e + 1 + DigitRun(s, e + 1) else e
  }

  /**
   * The group captured when `<p>(\d+\.?\d*Mbps)` matches at `i`. Greedy
   * matching needs no backtracking here: giving back a digit or the point
   * leaves a digit or a point where `Mbps` must start.
   */
  function RateCapture(s: string, p: string, i: nat): Option<string>
  {
    if !OccursAt(s, p, i) then None
    else
      var j := i + |p|;
      if DigitRun(s, j) == 0 then None
      else if OccursAt(s, Mbps, RateBodyEnd(s, j)) then Some(s[j..RateBodyEnd(s, j) + 4])
      else None
  }

  function CaptureAt(f: Field, s: string, i: nat): Option<string>
  {
    if f == Signal then SignalCapture(s, i) else RateCapture(s, Prefix(f), i)
  }

  /** A signal capture is the text right after the prefix and is in `-?\d+`. */
  lemma SignalSound(s: string, i: nat)
    requires SignalCapture(s, i).Some?
    ensures var j := i + |SignalPrefix|;
      var c := SignalCapture(s, i).value;
      SignedDigits(c) && j + |c| <= |s| && s[j..j + |c|] == c
  {
    var j := i + |SignalPrefix|;
    var c := SignalCapture(s, i).value;
    if j < |s| && s[j] == '-' && DigitRun(s, j + 1) > 0 {
      assert c[1..] == s[j + 1..j + 1 + DigitRun(s, j + 1)];
    }
  }

  /** No text the group could match after the prefix is longer than the capture. */
  lemma SignalMaximal(s: string, i: nat, e: nat)
    requires SignalCapture(s, i).Some?
    requires i + |SignalPrefix| <= e <= |s| && SignedDigits(s[i + |SignalPrefix|..e])
    ensures e <= i + |SignalPrefix| + |SignalCapture(s, i).value|
  {
  }

  /** Whenever some text after the prefix is in `-?\d+`, there is a capture. */
  lemma SignalComplete(s: string, i: nat, e: nat)
    requires OccursAt(s, SignalPrefix, i)
    requires i + |SignalPrefix| <= e <= |s| && SignedDigits(s[i + |SignalPrefix|..e])
    ensures SignalCapture(s, i).Some?
  {
    var j := i + |SignalPrefix|;
    var t := s[j..e];
    if t[0] == '-' {
      assert !AllDigits(t);
      assert s[j] == '-';
      assert s[j + 1] == t[1..][0];
    } else {
      assert s[j] == t[0];
    }
  }

  /** The text up to `RateBodyEnd` is in `\d+\.?\d*` once it starts with a digit. */
  lemma RateBodySound(s: string, j: nat)
    requires j <= |s| && DigitRun(s, j) > 0
    ensures RateBody(s[j..RateBodyEnd(s, j)])
  {
    var a := DigitRun(s, j);
    var e := j + a;
    var u := s[j..RateBodyEnd(s, j)];
    if e < |s| && s[e] == '.' {
      var b := DigitRun(s, e + 1);
      assert u[..a] == s[j..e] && u[a] == '.' && u[a + 1..] == s[e + 1..e + 1 + b];
    }
  }

  /** A body `\d+` followed by `M` is exactly what `RateBodyEnd` spans. */
  lemma RateBodyExactWhole(s: string, j: nat, m: nat)
    requires j < m < |s| && AllDigits(s[j..m]) && s[m] == 'M'
    ensures DigitRun(s, j) > 0 && RateBodyEnd(s, j) == m
  {
    DigitRunExact(s, j, m - j);
  }

  /** A body `\d+\.\d*` followed by `M` is exactly what `RateBodyEnd` spans. */
  lemma RateBodyExactDecimal(s: string, j: nat, d: nat, m: nat)
    requires j < j + d < m < |s| && AllDigits(s[j..j + d]) && s[j + d] == '.'
    requires AllDigits(s[j + d + 1..m]) && s[m] == 'M'
    ensures DigitRun(s, j) > 0 && RateBodyEnd(s, j) == m
  {
    DigitRunExact(s, j, d);
    DigitRunExact(s, j + d + 1, m - j - d - 1);
  }

  lemma RateBodyExact(s: string, j: nat, m: nat)
    requires j <= m < |s| && RateBody(s[j..m]) && s[m] == 'M'
    ensures DigitRun(s, j) > 0 && RateBodyEnd(s, j) == m
  {
    var u := s[j..m];
    if AllDigits(u) {
      RateBodyExactWhole(s, j, m);
    } else {
      var d: nat :| 0 < d < |u| && u[d] == '.' && AllDigits(u[..d]) && AllDigits(u[d + 1..]);
      assert s[j..j + d] == u[..d];
      assert s[j + d + 1..m] == u[d + 1..];
      RateBodyExactDecimal(s, j, d, m);
    }
  }

  /** A rate capture is the text right after the prefix and is in `\d+\.?\d*Mbps`. */
  lemma RateSound(s: string, p: string, i: nat)
    requires RateCapture(s, p, i).Some?
    ensures var j := i + |p|;
      var c := RateCapture(s, p, i).value;
      RateText(c) && j + |c| <= |s| && s[j..j + |c|] == c
  {
    var j := i + |p|;
    var m := RateBodyEnd(s, j);
    var c := RateCapture(s, p, i).value;
    assert OccursAt(s, Mbps, m) && c == s[j..m + 4];
    RateBodySound(s, j);
    RateTextAt(s, j, m);
  }

  /** A body followed by `Mbps` is a rate text. */
  lemma RateTextAt(s: string, j: nat, m: nat)
    requires j <= m && OccursAt(s, Mbps, m) && RateBody(s[j..m])
    ensures RateText(s[j..m + 4])
  {
    var t := s[j..m + 4];
    assert t[..|t| - 4] == s[j..m];
    assert t[|t| - 4..] == s[m..m + 4];
  }

  /** Whenever some text after the prefix is in `\d+\.?\d*Mbps`, there is a capture. */
  lemma RateComplete(s: string, p: string, i: nat, e: nat)
    requires OccursAt(s, p, i) && i + |p| <= e <= |s| && RateText(s[i + |p|..e])
    ensures RateCapture(s, p, i).Some?
  {
    var j := i + |p|;
    var t := s[j..e];
    var m := e - 4;
    assert t[..|t| - 4] == s[j..m];
    assert s[m..m + 4] == t[|t| - 4..];
    assert s[m] == Mbps[0];
    RateBodyExact(s, j, m);
  }

  lemma SignalCaptureIffMatch(s: string, i: nat)
    ensures SignalCapture(s, i).Some? <==> MatchesAt(Signal, s, i)
  {
    var j := i + |SignalPrefix|;
    if SignalCapture(s, i).Some? {
      SignalSound(s, i);
      assert SignedDigits(s[j..j + |SignalCapture(s, i).value|]);
    } else if MatchesAt(Signal, s, i) {
      var e: nat :| j <= e <= |s| && SignedDigits(s[j..e]);
      SignalComplete(s, i, e);
    }
  }

  lemma RateCaptureIffMatch(f: Field, s: string, i: nat)
    requires f != Signal
    ensures RateCapture(s, Prefix(f), i).Some? <==> MatchesAt(f, s, i)
  {
    var p := Prefix(f);
    var j := i + |p|;
    if RateCapture(s, p, i).Some? {
      RateSound(s, p, i);
      assert RateText(s[j..j + |RateCapture(s, p, i).value|]);
    } else if MatchesAt(f, s, i) {
      var e: nat :| j <= e <= |s| && RateText(s[j..e]);
      RateComplete(s, p, i, e);
    }
  }

  /** The engine captures exactly where the pattern can match. */
  lemma CaptureIffMatch(f: Field, s: string, i: nat)
    ensures CaptureAt(f, s, i).Some? <==> MatchesAt(f, s, i)
  {
    if f == Signal { SignalCaptureIffMatch(s, i); } else { RateCaptureIffMatch(f, s, i); }
  }

  // ---------------------------------------------------------------------------
  // re.search
  // ---------------------------------------------------------------------------

  /** `re.search` from position `i`: the leftmost position with a capture, and the capture. */
  function Search(f: Field, s: string, i: nat): (r: Option<(nat, string)>)
    ensures r.Some? ==>
      && i <= r.value.0 <= |s| && CaptureAt(f, s, r.value.0) == Some(r.value.1)
      && forall k :: i <= k < r.value.0 ==> CaptureAt(f, s, k).None?
    ensures r.None? ==> forall k :: i <= k <= |s| ==> CaptureAt(f, s, k).None?
    decreases |s| + 1 - i
  {
    if i > |s| then None
    else if CaptureAt(f, s, i).Some? then Some((i, CaptureAt(f, s, i).value))
    else Search(f, s, i + 1)
  }

  /** The search finds a match exactly when the pattern occurs, and it finds the leftmost one. */
  lemma SearchIsLeftmost(f: Field, s: string)
    ensures Search(f, s, 0).Some? <==> exists i: nat | i <= |s| :: MatchesAt(f, s, i)
    ensures Search(f, s, 0).Some? ==>
      MatchesAt(f, s, Search(f, s, 0).value.0) && forall k: nat :: k < Search(f, s, 0).value.0 ==> !MatchesAt(f, s, k)
  {
    var r := Search(f, s, 0);
    if r.Some? {
      CaptureIffMatch(f, s, r.value.0);
      forall k: nat | k < r.value.0 ensures !MatchesAt(f, s, k) {
        CaptureIffMatch(f, s, k);
      }
    } else {
      forall i: nat | i <= |s| ensures !MatchesAt(f, s, i) {
        CaptureIffMatch(f, s, i);
      }
    }
  }

  // ---------------------------------------------------------------------------
  // get_mikrotik_data
  // ---------------------------------------------------------------------------

  /** The `mikrotik_data` dict: None where a field was not found. */
  datatype Metrics = Metrics(rssi: Option<int>, txRate: Option<string>, rxRate: Option<string>)

  const NoMetrics := Metrics(None, None, None)

  /** What the SSH session gives: the command's standard output, or an exception. */
  datatype Reply = Output(stdout: string) | SshError

  /** `int(rssi_match.group(1))`. */
  function RssiOf(s: string): Option<int>
  {
    match Search(Signal, s, 0)
    case None => None
    case Some((i, c)) =>
      SignalSound(s, i);
      Some(SignedValue(c))
  }

  /** `match.group(1).replace("Mbps", "")` for the rate after `p`. */
  function RateOf(f: Field, s: string): Option<string>
    requires f != Signal
  {
    match Search(f, s, 0)
    case None => None
    case Some((_, c)) => Some(RemoveAll(c, Mbps))
  }

  /**
   * `get_mikrotik_data(client_mac)` for the reply the router gave: all three
   * fields are None on an exception or an empty output.
   */
  method GetMikrotikData(reply: Reply) returns (data: Metrics)
    ensures reply.SshError? ==> data == NoMetrics
    ensures reply.Output? && Strip(reply.stdout) == "" ==> data == NoMetrics
    ensures reply.Output? && Strip(reply.stdout) != "" ==>
      var out := Strip(reply.stdout);
      data == Metrics(RssiOf(out), RateOf(Tx, out), RateOf(Rx, out))
  {
    data := NoMetrics;
    if reply.SshError? {
      return;
    }
    var output := Strip(reply.stdout);
    if output == "" {
      return;
    }
    var rssiMatch := Search(Signal, output, 0);
    if rssiMatch.Some? {
      data := data.(rssi := RssiOf(output));
    }
    var txMatch := Search(Tx, output, 0);
    if txMatch.Some? {
      data := data.(txRate := Some(RemoveAll(txMatch.value.1, Mbps)));
    }
    var rxMatch := Search(Rx, output, 0);
    if rxMatch.Some? {
      data := data.(rxRate := Some(RemoveAll(rxMatch.value.1, Mbps)));
    }
  }

  /**
   * The RSSI is the signed value of the group at the leftmost place where
   * `signal-strength=` is followed by an optional `-` and a digit, and the
   * group takes the sign and every digit there; with no such place it is
   * None.
   */
  lemma RssiIsLeftmost(s: string)
    ensures RssiOf(s).Some? <==> exists i: nat | i <= |s| :: MatchesAt(Signal, s, i)
    ensures RssiOf(s).Some? ==>
      var i := Search(Signal, s, 0).value.0;
      var c := Search(Signal, s, 0).value.1;
      var j := i + |SignalPrefix|;
      && MatchesAt(Signal, s, i) && (forall k: nat :: k < i ==> !MatchesAt(Signal, s, k))
      && SignedDigits(c) && j + |c| <= |s| && s[j..j + |c|] == c
      && (forall e: nat :: j <= e <= |s| && SignedDigits(s[j..e]) ==> e <= j + |c|)
      && RssiOf(s) == Some(SignedValue(c))
  {
    SearchIsLeftmost(Signal, s);
    if Search(Signal, s, 0).Some? {
      var i := Search(Signal, s, 0).value.0;
      var j := i + |SignalPrefix|;
      SignalSound(s, i);
      forall e: nat | j <= e <= |s| && SignedDigits(s[j..e])
        ensures e <= j + |Search(Signal, s, 0).value.1|
      {
        SignalMaximal(s, i, e);
      }
    }
  }

  /** A rate is found exactly when its pattern occurs, at its leftmost match. */
  lemma RateIsLeftmost(f: Field, s: string)
    requires f != Signal
    ensures RateOf(f, s).Some? <==> exists i: nat | i <= |s| :: MatchesAt(f, s, i)
    ensures RateOf(f, s).Some? ==>
      var i := Search(f, s, 0).value.0;
      MatchesAt(f, s, i) && forall k: nat :: k < i ==> !MatchesAt(f, s, k)
  {
    SearchIsLeftmost(f, s);
  }

  /**
   * A rate is the leftmost match's group with `Mbps` removed: digits with at
   * most one `.`, in which `Mbps` no longer occurs.
   */
  lemma RateValue(f: Field, s: string)
    requires f != Signal && RateOf(f, s).Some?
    ensures Search(f, s, 0).value.1 == RateOf(f, s).value + Mbps
    ensures RateBody(RateOf(f, s).value) && !Occurs(Mbps, RateOf(f, s).value)
  {
    var c := Search(f, s, 0).value.1;
    assert RateOf(f, s) == Some(RemoveAll(c, Mbps));
    CaptureIsRateText(s, Prefix(f), Search(f, s, 0).value.0, c);
    RateValueShape(c);
  }

  /** A rate capture is in `\d+\.?\d*Mbps`. */
  lemma CaptureIsRateText(s: string, p: string, i: nat, c: string)
    requires RateCapture(s, p, i) == Some(c)
    ensures RateText(c)
  {
    RateSound(s, p, i);
  }

  /** A body in `\d+\.?\d*` holds no `M`. */
  lemma RateBodyNoM(u: string)
    requires RateBody(u)
    ensures NoChar(u, 'M')
  {
    if !AllDigits(u) {
      var d: nat :| 0 < d < |u| && u[d] == '.' && AllDigits(u[..d]) && AllDigits(u[d + 1..]);
      forall k | 0 <= k < |u| ensures u[k] != 'M' {
        if k < d { assert u[k] == u[..d][k]; }
        else if k > d { assert u[k] == u[d + 1..][k - d - 1]; }
      }
    }
  }

  /** Removing `Mbps` from a rate text leaves its digits and point. */
  lemma RateValueShape(c: string)
    requires RateText(c)
    ensures var u := c[..|c| - 4];
      RemoveAll(c, Mbps) == u && c == u + Mbps && RateBody(u) && !Occurs(Mbps, u)
  {
    var u := c[..|c| - 4];
    RateBodyNoM(u);
    MbpsSplit(c);
    MbpsTail(u);
  }

  /** A text ending in `Mbps` is its head followed by `Mbps`. */
  lemma MbpsSplit(c: string)
    requires |c| >= 4 && c[|c| - 4..] == Mbps
    ensures c == c[..|c| - 4] + Mbps
  {
  }

  /** A text without `M`, followed by `Mbps`: removing `Mbps` gives the text back. */
  lemma MbpsTail(u: string)
    requires NoChar(u, 'M')
    ensures RemoveAll(u + Mbps, Mbps) == u && !Occurs(Mbps, u)
  {
    assert Mbps[0] == 'M';
    RemoveTrailing(u, Mbps);
    NoFirstCharNoOccurrence(u, Mbps);
  }

  /** The sample in the source's comment, `signal-strength=-68@60Mbps`, gives -68 dBm. */
  lemma RegistrationExample()
    ensures RssiOf("signal-strength=-68@60Mbps") == Some(-68)
  {
    var s := "signal-strength=-68@60Mbps";
    assert OccursAt(s, SignalPrefix, 0);
    assert DigitRun(s, 17) == 2 by {
      assert s[17..19] == "68" && !IsDigit(s[19]);
      DigitRunExact(s, 17, 2);
    }
    assert s[16..19] == "-68";
    assert SignalCapture(s, 0) == Some("-68");
    assert Search(Signal, s, 0) == Some((0, "-68"));
    assert SignedValue("-68") == -68 by {
      assert "-68"[1..] == "68";
      assert "68"[..1] == "6";
      assert "6"[..0] == "";
    }
  }

  /** In `tx-rate=54.5Mbps` the group is `54.5Mbps`. */
  lemma TxCaptureExample()
    ensures Search(Tx, "tx-rate=54.5Mbps", 0) == Some((0, "54.5Mbps"))
  {
    var s := "tx-rate=54.5Mbps";
    assert OccursAt(s, TxPrefix, 0);
    assert DigitRun(s, 8) == 2 by {
      assert s[8..10] == "54" && !IsDigit(s[10]);
      DigitRunExact(s, 8, 2);
    }
    assert DigitRun(s, 11) == 1 by {
      assert s[11..12] == "5" && !IsDigit(s[12]);
      DigitRunExact(s, 11, 1);
    }
    assert RateBodyEnd(s, 8) == 12;
    assert OccursAt(s, Mbps, 12);
    assert s[8..16] == "54.5Mbps";
  }

  /** `tx-rate=54.5Mbps` gives the rate text `54.5`. */
  lemma TxRateExample()
    ensures RateOf(Tx, "tx-rate=54.5Mbps") == Some("54.5")
  {
    TxCaptureExample();
    var c := "54.5Mbps";
    assert RateText(c) by {
      var u := c[..4];
      assert u == "54.5";
      assert u[2] == '.' && u[..2] == "54" && u[3..] == "5";
    }
    RateValueShape(c);
    assert c[..4] == "54.5";
  }

  // ---------------------------------------------------------------------------
  // Rows and the CSV file
  // ---------------------------------------------------------------------------

  const CsvHeaders: seq<string> :=
    ["Timestamp", "Rig_ID", "Client_MAC", "Longitude_X", "Latitude_Y", "RSSI", "TxRate", "RxRate"]

  /** A CSV field: text, an integer, or None (written as an empty field). */
  datatype Cell = Text(text: string) | Integer(value: int) | Empty

  function TextCell(v: Option<string>): Cell
  {
    if v.Some? then Text(v.value) else Empty
  }

  function IntegerCell(v: Option<int>): Cell
  {
    if v.Some? then Integer(v.value) else Empty
  }

  /** The row of one rig in one cycle; coordinates are kept as their text. */
  function BuildRow(timestamp: string, rigId: string, mac: string, lon: string, lat: string, m: Metrics): (row: seq<Cell>)
    ensures |row| == |CsvHeaders|
  {
    [Text(timestamp), Text(rigId), Text(mac), Text(lon), Text(lat), IntegerCell(m.rssi), TextCell(m.txRate), TextCell(m.rxRate)]
  }

  /** Each value of a row sits under the header that names it. */
  lemma RowMatchesHeaders(timestamp: string, rigId: string, mac: string, lon: string, lat: string, m: Metrics)
    ensures var row := BuildRow(timestamp, rigId, mac, lon, lat, m);
      && CsvHeaders[0] == "Timestamp" && row[0] == Text(timestamp)
      && CsvHeaders[1] == "Rig_ID" && row[1] == Text(rigId)
      && CsvHeaders[2] == "Client_MAC" && row[2] == Text(mac)
      && CsvHeaders[3] == "Longitude_X" && row[3] == Text(lon)
      && CsvHeaders[4] == "Latitude_Y" && row[4] == Text(lat)
      && CsvHeaders[5] == "RSSI" && row[5] == IntegerCell(m.rssi)
      && CsvHeaders[6] == "TxRate" && row[6] == TextCell(m.txRate)
      && CsvHeaders[7] == "RxRate" && row[7] == TextCell(m.rxRate)
  {
  }

  /** The text of one field before quoting. */
  function CellText(c: Cell): string
  {
    match c
    case Text(t) => t
    case Integer(v) => IntToString(v)
    case Empty => ""
  }

  /** `csv.QUOTE_MINIMAL`: a field with a comma, a quote or a line break is quoted. */
  predicate NeedsQuotes(t: string)
  {
    !NoChar(t, ',') || !NoChar(t, '"') || !NoChar(t, '\n') || !NoChar(t, '\r')
  }

  function DoubleQuotes(t: string): string
    decreases |t|
  {
    if |t| == 0 then "" else (if t[0] == '"' then "\"\"" else [t[0]]) + DoubleQuotes(t[1..])
  }

  function QuoteField(t: string): string
  {
    if NeedsQuotes(t) then "\"" + DoubleQuotes(t) + "\"" else t
  }

  function Fields(cells: seq<Cell>): (r: seq<string>)
    ensures |r| == |cells|
    decreases |cells|
  {
    if |cells| == 0 then [] else [QuoteField(CellText(cells[0]))] + Fields(cells[1..])
  }

  /** The line `csv.writer` writes for a row (without its line terminator). */
  function EncodeRow(cells: seq<Cell>): string
  {
    Join(Fields(cells), ",")
  }

  function EncodeRows(rows: seq<seq<Cell>>): (r: seq<string>)
    ensures |r| == |rows| && forall k :: 0 <= k < |rows| ==> r[k] == EncodeRow(rows[k])
    decreases |rows|
  {
    if |rows| == 0 then [] else [EncodeRow(rows[0])] + EncodeRows(rows[1..])
  }

  function HeaderCells(): (r: seq<Cell>)
    ensures |r| == |CsvHeaders| && forall k :: 0 <= k < |r| ==> r[k] == Text(CsvHeaders[k])
  {
    [Text(CsvHeaders[0]), Text(CsvHeaders[1]), Text(CsvHeaders[2]), Text(CsvHeaders[3]),
     Text(CsvHeaders[4]), Text(CsvHeaders[5]), Text(CsvHeaders[6]), Text(CsvHeaders[7])]
  }

  /** `writer.writerow(CSV_HEADERS)`. */
  function HeaderLine(): string
  {
    EncodeRow(HeaderCells())
  }

  lemma TimestampUnquoted()
    ensures QuoteField("Timestamp") == "Timestamp"
  {
    assert !NeedsQuotes("Timestamp");
  }

  /** The header line starts with `Timestamp`'s `T`, so it is never blank. */
  lemma HeaderLineNotBlank()
    ensures |HeaderLine()| > 0 && HeaderLine()[0] == 'T'
    ensures !Blank(HeaderLine())
  {
    var h := HeaderCells();
    FieldsAt(h, 0);
    TimestampUnquoted();
    JoinFirst(Fields(h), ",");
  }

  lemma {:induction false} FieldsAt(cells: seq<Cell>, k: nat)
    requires k < |cells|
    ensures Fields(cells)[k] == QuoteField(CellText(cells[k]))
    decreases k
  {
    var rest := Fields(cells[1..]);
    assert Fields(cells) == [QuoteField(CellText(cells[0]))] + rest;
    if k > 0 {
      FieldsAt(cells[1..], k - 1);
      assert cells[1..][k - 1] == cells[k];
    }
  }

  /** How a reader of the file recovers a field. */
  function Unquote(q: string): string
  {
    if |q| >= 2 && q[0] == '"' && q[|q| - 1] == '"' then UndoubleQuotes(q[1..|q| - 1]) else q
  }

  function UndoubleQuotes(q: string): string
    decreases |q|
  {
    if |q| == 0 then ""
    else if |q| >= 2 && q[0] == '"' && q[1] == '"' then "\"" + UndoubleQuotes(q[2..])
    else [q[0]] + UndoubleQuotes(q[1..])
  }

  lemma {:induction false} UndoubleDouble(t: string)
    ensures UndoubleQuotes(DoubleQuotes(t)) == t
    decreases |t|
  {
    if |t| > 0 {
      var rest := DoubleQuotes(t[1..]);
      UndoubleDouble(t[1..]);
      if t[0] == '"' {
        assert DoubleQuotes(t) == "\"\"" + rest;
        assert (("\"\"" + rest)[2..]) == rest;
      } else {
        assert DoubleQuotes(t) == [t[0]] + rest;
        assert ([t[0]] + rest)[1..] == rest;
      }
      assert t == [t[0]] + t[1..];
    }
  }

  /** Quoting a field loses nothing: a reader gets the field's text back. */
  lemma QuoteRoundTrip(t: string)
    ensures Unquote(QuoteField(t)) == t
    ensures !NeedsQuotes(t) ==> QuoteField(t) == t
  {
    if NeedsQuotes(t) {
      var q := "\"" + DoubleQuotes(t) + "\"";
      assert q[1..|q| - 1] == DoubleQuotes(t);
      UndoubleDouble(t);
    } else if |t| >= 2 {
      assert t[0] != '"';
    }
  }

  /** The file on disk: whether it exists and its lines. */
  class CsvLog {
    var present: bool
    var lines: seq<string>

    constructor(onDisk: bool, content: seq<string>)
      ensures present == onDisk && lines == content
    {
      present := onDisk;
      lines := content;
    }

    /** What `open(path, 'a')` appends to: no lines when the file is absent. */
    function Contents(): seq<string>
      reads this
    {
      if present then lines else []
    }

    /**
     * `initialize_csv`: a file whose first line is not blank is left alone;
     * otherwise (missing, empty, or a blank first line) it is rewritten to
     * hold only the header line.
     */
    method InitializeCsv()
      modifies this
      ensures present && lines == Initialized(old(present), old(lines))
    {
      if present && |lines| > 0 && Strip(lines[0]) != "" {
        return;
      }
      present := true;
      lines := [HeaderLine()];
    }

    /**
     * `writer.writerows(collected_rows)` in append mode; `ok` is false when
     * opening or writing raised, which is reported and leaves the file as it
     * was.
     */
    method AppendRows(rows: seq<seq<Cell>>, ok: bool)
      modifies this
      ensures ok ==> present && lines == old(Contents()) + EncodeRows(rows)
      ensures !ok ==> present == old(present) && lines == old(lines)
    {
      if ok {
        lines := Contents() + EncodeRows(rows);
        present := true;
      }
    }
  }

  /** The content `initialize_csv` leaves. */
  function Initialized(present: bool, lines: seq<string>): seq<string>
  {
    if present && |lines| > 0 && !Blank(lines[0]) then lines else [HeaderLine()]
  }

  /**
   * A missing file becomes the header alone, a file with a non-blank first
   * line is kept as it is, a file with a blank first line loses all its
   * lines, and a second initialisation changes nothing.
   */
  lemma InitializedSpec(present: bool, lines: seq<string>)
    ensures !present ==> Initialized(present, lines) == [HeaderLine()]
    ensures present && |lines| > 0 && !Blank(lines[0]) ==> Initialized(present, lines) == lines
    ensures present && |lines| > 0 && Blank(lines[0]) ==> Initialized(present, lines) == [HeaderLine()]
    ensures Initialized(true, Initialized(present, lines)) == Initialized(present, lines)
  {
    HeaderLineNotBlank();
  }

  // ---------------------------------------------------------------------------
  // collect_data, one cycle
  // ---------------------------------------------------------------------------

  /** A configured rig: its ID, its client MAC, and the coordinates read for it this cycle. */
  datatype RigInput = RigInput(rigId: string, mac: string, lon: string, lat: string, reply: Reply)

  /** The metrics a rig's reply yields, as `get_mikrotik_data` computes them. */
  function MetricsOf(reply: Reply): Metrics
  {
    if reply.SshError? || Strip(reply.stdout) == "" then NoMetrics
    else
      var out := Strip(reply.stdout);
      Metrics(RssiOf(out), RateOf(Tx, out), RateOf(Rx, out))
  }

  /**
   * One pass of the `while True` loop: one row per configured rig, in
   * configuration order, all with the cycle's timestamp, rigs without
   * metrics included; the rows are appended after the file's content.
   */
  method CollectCycle(log: CsvLog, timestamp: string, rigs: seq<RigInput>, writeOk: bool) returns (rows: seq<seq<Cell>>)
    modifies log
    ensures |rows| == |rigs|
    ensures forall k :: 0 <= k < |rigs| ==>
      rows[k] == BuildRow(timestamp, rigs[k].rigId, rigs[k].mac, rigs[k].lon, rigs[k].lat, MetricsOf(rigs[k].reply))
    ensures writeOk ==> log.present && log.lines == old(log.Contents()) + EncodeRows(rows)
    ensures !writeOk ==> log.present == old(log.present) && log.lines == old(log.lines)
  {
    rows := [];
    var i := 0;
    while i < |rigs|
      invariant 0 <= i <= |rigs|
      invariant |rows| == i
      invariant unchanged(log)
      invariant forall k :: 0 <= k < i ==>
        rows[k] == BuildRow(timestamp, rigs[k].rigId, rigs[k].mac, rigs[k].lon, rigs[k].lat, MetricsOf(rigs[k].reply))
    {
      var rig := rigs[i];
      var metrics := GetMikrotikData(rig.reply);
      var row := BuildRow(timestamp, rig.rigId, rig.mac, rig.lon, rig.lat, metrics);
      rows := rows + [row];
      i := i + 1;
    }
    log.AppendRows(rows, writeOk);
  }

  /** Every row of a cycle carries the cycle's timestamp and has the eight columns. */
  lemma CycleRowsShareTimestamp(timestamp: string, rigs: seq<RigInput>, rows: seq<seq<Cell>>)
    requires |rows| == |rigs|
    requires forall k :: 0 <= k < |rigs| ==>
      rows[k] == BuildRow(timestamp, rigs[k].rigId, rigs[k].mac, rigs[k].lon, rigs[k].lat, MetricsOf(rigs[k].reply))
    ensures forall k :: 0 <= k < |rows| ==> |rows[k]| == 8 && rows[k][0] == Text(timestamp) && rows[k][1] == Text(rigs[k].rigId)
  {
  }

  /** An unreachable router or an empty answer leaves every metric empty in the row. */
  lemma UnreachableRow(timestamp: string, rig: RigInput)
    requires rig.reply.SshError? || Strip(rig.reply.stdout) == ""
    ensures var row := BuildRow(timestamp, rig.rigId, rig.mac, rig.lon, rig.lat, MetricsOf(rig.reply));
      row[5] == Empty && row[6] == Empty && row[7] == Empty
  {
    assert MetricsOf(rig.reply) == NoMetrics;
  }
}
