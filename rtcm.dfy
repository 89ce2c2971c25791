/**
 * The RTCM base-station analyser (rtcm_analyzer.py): a table from message
 * type to satellite system, and the per-connection counters that turn a
 * stream of frames into one statistics row per interval of at least 60
 * seconds, plus one error row per failed connection.
 */
module Rtcm {
  import opened Wrappers
  import opened Strings

  // ---------------------------------------------------------------------------
  // get_constellation_from_type
  // ---------------------------------------------------------------------------

  const Gps := "GPS"
  const Glonass := "GLONASS"
  const Galileo := "GALILEO"
  const BeiDou := "BeiDou"
  const Other := "OTHER"

  /** The labels the table can give other than "OTHER". */
  const Known: set<string> := {BeiDou, Galileo, Glonass, Gps}
  /** The known labels in Python's string order, as `sorted` lists them. */
  const KnownOrder: seq<string> := [BeiDou, Galileo, Glonass, Gps]

  /** `get_constellation_from_type(msg_type)`. */
  function ConstellationFromType(msgType: int): (r: string)
    ensures r in Known || r == Other
  {
    if 1074 <= msgType <= 1077 then Gps
    else if 1084 <= msgType <= 1087 then Glonass
    else if 1094 <= msgType <= 1097 then Galileo
    else if 1124 <= msgType <= 1127 then BeiDou
    else if 4070 <= msgType <= 4077 then Gps
    else Other
  }

  /**
   * The MSM4 to MSM7 observation messages of RTCM Standard 10403.3
   * (section 3.5): type 10*g + k for k in 4..7, with g = 107 for GPS, 108
   * for GLONASS, 109 for Galileo and 112 for BeiDou.
   */
  function MsmSystem(msgType: int): (r: Option<string>)
    ensures r.Some? ==> r.value in Known
  {
    if msgType % 10 < 4 || 7 < msgType % 10 then None
    else if msgType / 10 == 107 then Some(Gps)
    else if msgType / 10 == 108 then Some(Glonass)
    else if msgType / 10 == 109 then Some(Galileo)
    else if msgType / 10 == 112 then Some(BeiDou)
    else None
  }

  /**
   * The table is the MSM4-MSM7 assignment, plus the block 4070-4077 that the
   * code also reads as GPS; every other code, negative ones included, is
   * "OTHER".
   */
  lemma ConstellationTable(msgType: int)
    ensures ConstellationFromType(msgType) ==
      if MsmSystem(msgType).Some? then MsmSystem(msgType).value
      else if 4070 <= msgType <= 4077 then Gps
      else Other
  {
  }

  /** Each label, the ranges it comes from. */
  lemma ConstellationRanges(msgType: int)
    ensures ConstellationFromType(msgType) == Gps <==> 1074 <= msgType <= 1077 || 4070 <= msgType <= 4077
    ensures ConstellationFromType(msgType) == Glonass <==> 1084 <= msgType <= 1087
    ensures ConstellationFromType(msgType) == Galileo <==> 1094 <= msgType <= 1097
    ensures ConstellationFromType(msgType) == BeiDou <==> 1124 <= msgType <= 1127
  {
  }

  // ---------------------------------------------------------------------------
  // Frames, rows and counters
  // ---------------------------------------------------------------------------

  /** The decoded message: its type and, when it has one, its station ID. */
  datatype Message = Message(identity: int, staid: Option<int>)

  /**
   * One `readmessage()` result: whether raw bytes came back, and the decoded
   * message when the frame passed the CRC check.
   */
  datatype Frame = Frame(hasRaw: bool, parsed: Option<Message>)

  /** A row of the `rtk_status` table (the timestamp column is left out). */
  datatype DbRow = DbRow(status: string, quality: real, systems: string,
                         stationId: Option<int>, totalCount: int, latency: real)

  /** The state of one connection between two emissions. */
  datatype Counters = Counters(total: nat, crcOk: nat, active: set<string>,
                               stationId: Option<int>, lastLogTime: real)

  /** Why a connection attempt or stream ended. */
  datatype Failure = ConnectTimeout | ConnectionRefused | OtherError(message: string)

  /** A frame, the clock when it arrived, and whether the database insert succeeds. */
  datatype Arrival = Arrival(frame: Frame, time: real, dbOk: bool)

  const LogIntervalSec: real := 60.0

  /** What the analyser keeps true between frames. */
  ghost predicate Inv(c: Counters)
  {
    c.crcOk <= c.total && c.active <= Known
  }

  /** The counters a fresh connection starts from. */
  function Fresh(now: real): (c: Counters)
    ensures Inv(c) && c.total == 0 && c.stationId.None?
  {
    Counters(0, 0, {}, None, now)
  }

  /** The per-frame updates before the emission check. */
  function Count(c: Counters, f: Frame): Counters
  {
    if !f.hasRaw then c
    else match f.parsed
      case None => c.(total := c.total + 1)
      case Some(m) =>
        var sys := ConstellationFromType(m.identity);
        c.(total := c.total + 1,
           crcOk := c.crcOk + 1,
           active := if sys != Other then c.active + {sys} else c.active,
           stationId := if m.staid.Some? then m.staid else c.stationId)
  }

  /** A frame at `now` triggers an emission once the interval has elapsed. */
  predicate Due(c: Counters, now: real)
  {
    now - c.lastLogTime >= LogIntervalSec
  }

  /** `(crc_ok_messages / total_messages) * 100 if total_messages > 0 else 0`. */
  function Quality(crcOk: nat, total: nat): (q: real)
    ensures crcOk <= total ==> 0.0 <= q <= 100.0
    ensures total > 0 && crcOk == total ==> q == 100.0
  {
    if total > 0 then
      var ratio := crcOk as real / total as real;
      assert ratio * total as real == crcOk as real;
      ratio * 100.0
    else 0.0
  }

  /** The known labels of `s`, in the order of `order`. */
  function Filter(order: seq<string>, s: set<string>): (r: seq<string>)
    requires StrictlyAscending(order)
    ensures StrictlyAscending(r)
    ensures forall y :: y in r <==> y in order && y in s
    decreases |order|
  {
    if |order| == 0 then []
    else
      var rest := Filter(order[1..], s);
      assert forall y :: y in order <==> y == order[0] || y in order[1..] by {
        assert order == [order[0]] + order[1..];
      }
      if order[0] in s then
        assert forall j :: 0 <= j < |rest| ==> Less(order[0], rest[j]) by {
          forall j | 0 <= j < |rest| ensures Less(order[0], rest[j]) {
            assert rest[j] in order[1..];
            var k :| 0 <= k < |order[1..]| && order[1..][k] == rest[j];
            assert order[k + 1] == rest[j];
          }
        }
        [order[0]] + rest
      else rest
  }

  lemma KnownOrderAscending()
    ensures StrictlyAscending(KnownOrder)
  {
    assert Less(BeiDou, Galileo) && Less(BeiDou, Glonass) && Less(BeiDou, Gps);
    assert Less(Galileo, Glonass) && Less(Galileo, Gps) && Less(Glonass, Gps);
  }

  /**
   * `sorted(active_constellations)` for a set of known labels: strictly
   * ascending, so free of duplicates, and holding exactly the set's members.
   */
  function SortedSystems(active: set<string>): (r: seq<string>)
    requires active <= Known
    ensures StrictlyAscending(r)
    ensures forall y :: y in r <==> y in active
  {
    KnownOrderAscending();
    Filter(KnownOrder, active)
  }

  /** `", ".join(sorted(active_constellations))`. */
  function SystemsText(active: set<string>): string
    requires active <= Known
  {
    Join(SortedSystems(active), ", ")
  }

  /** The OK row written at an emission, computed from the counters at `now`. */
  function Report(c: Counters, now: real): (row: DbRow)
    requires c.active <= Known
  {
    DbRow("OK", Quality(c.crcOk, c.total), SystemsText(c.active), c.stationId, c.total, now - c.lastLogTime)
  }

  /** The reset after an emission: `station_id` is kept. */
  function Reset(c: Counters, now: real): Counters
  {
    Counters(0, 0, {}, c.stationId, now)
  }

  /** One pass of the inner read loop: the new counters and the row it emits, if any. */
  function Step(c: Counters, f: Frame, now: real): (Counters, Option<DbRow>)
    requires Inv(c)
  {
    var counted := Count(c, f);
    if f.hasRaw && Due(counted, now) then (Reset(counted, now), Some(Report(counted, now)))
    else (counted, None)
  }

  /** The row written for a failed connection. */
  function ErrorRow(e: Failure): (row: DbRow)
    ensures row.status == "ERROR" && row.quality == 0.0 && row.stationId.None?
    ensures row.totalCount == 0 && row.latency == 0.0
  {
    var systems := if e.OtherError? then "Exception: " + e.message else "";
    DbRow("ERROR", 0.0, systems, None, 0, 0.0)
  }

  /** The counters and the rows stored after a run of arrivals on one connection. */
  function Run(c: Counters, xs: seq<Arrival>): (Counters, seq<DbRow>)
    requires Inv(c)
    decreases |xs|
  {
    if |xs| == 0 then (c, [])
    else
      StepPreservesInv(c, xs[0].frame, xs[0].time);
      var (c1, row) := Step(c, xs[0].frame, xs[0].time);
      var stored := if row.Some? && xs[0].dbOk then [row.value] else [];
      var (c2, rows) := Run(c1, xs[1..]);
      (c2, stored + rows)
  }

  /** A run extended by one arrival is the run followed by one more step. */
  lemma {:induction false} RunSnoc(c: Counters, xs: seq<Arrival>, x: Arrival)
    requires Inv(c)
    ensures Inv(Run(c, xs).0)
    ensures var (c1, row) := Step(Run(c, xs).0, x.frame, x.time);
      Run(c, xs + [x]) == (c1, Run(c, xs).1 + if row.Some? && x.dbOk then [row.value] else [])
    decreases |xs|
  {
    RunPreservesInv(c, xs);
    if |xs| > 0 {
      StepPreservesInv(c, xs[0].frame, xs[0].time);
      var (c1, row0) := Step(c, xs[0].frame, xs[0].time);
      var stored0 := if row0.Some? && xs[0].dbOk then [row0.value] else [];
      assert (xs + [x])[0] == xs[0] && (xs + [x])[1..] == xs[1..] + [x];
      RunSnoc(c1, xs[1..], x);
      assert Run(c, xs) == (Run(c1, xs[1..]).0, stored0 + Run(c1, xs[1..]).1);
      assert Run(c, xs + [x]) == (Run(c1, xs[1..] + [x]).0, stored0 + Run(c1, xs[1..] + [x]).1);
      var (c2, row) := Step(Run(c, xs).0, x.frame, x.time);
      var stored := if row.Some? && x.dbOk then [row.value] else [];
      assert stored0 + (Run(c1, xs[1..]).1 + stored) == (stored0 + Run(c1, xs[1..]).1) + stored;
    } else {
      assert xs + [x] == [x] && [x][1..] == [];
      var (c1, row) := Step(c, x.frame, x.time);
      var stored := if row.Some? && x.dbOk then [row.value] else [];
      assert Run(c, [x]) == (c1, stored + []);
      assert stored + [] == [] + stored;
    }
  }

  // ---------------------------------------------------------------------------
  // Properties
  // ---------------------------------------------------------------------------

  /** `crc_ok_messages <= total_messages` and only known labels are collected. */
  lemma StepPreservesInv(c: Counters, f: Frame, now: real)
    requires Inv(c)
    ensures Inv(Step(c, f, now).0)
  {
  }

  /**
   * A frame with bytes but no decoded message counts towards the total only:
   * the CRC count, the systems and the station ID stay as they were.
   */
  lemma RawOnlyFrame(c: Counters, raw: Frame)
    requires raw.hasRaw && raw.parsed.None?
    ensures Count(c, raw) == c.(total := c.total + 1)
  {
  }

  /** A frame without bytes changes nothing and emits nothing. */
  lemma EmptyRead(c: Counters, f: Frame, now: real)
    requires Inv(c) && !f.hasRaw
    ensures Step(c, f, now) == (c, None)
  {
  }

  /**
   * A row is emitted exactly when a frame with bytes arrives at least 60
   * seconds after the last emission; it is an OK row over at least one
   * frame, its quality lies in [0, 100], its latency is the elapsed time,
   * its systems are the sorted known labels seen; afterwards the counters
   * restart at `now` with the station ID kept.
   */
  lemma EmissionSpec(c: Counters, f: Frame, now: real)
    requires Inv(c)
    ensures Step(c, f, now).1.Some? <==> f.hasRaw && now - c.lastLogTime >= 60.0
    ensures Step(c, f, now).1.Some? ==>
      var counted := Count(c, f);
      var row := Step(c, f, now).1.value;
      && row.status == "OK"
      && row.totalCount == counted.total >= 1
      && 0.0 <= row.quality <= 100.0
      && row.latency == now - c.lastLogTime >= 60.0
      && row.systems == Join(SortedSystems(counted.active), ", ")
      && row.stationId == counted.stationId
      && Step(c, f, now).0 == Counters(0, 0, {}, counted.stationId, now)
  {
  }

  /** The station IDs seen, in arrival order, after `init`. */
  function StationsSeen(xs: seq<Arrival>): seq<int>
    decreases |xs|
  {
    if |xs| == 0 then []
    else
      var f := xs[0].frame;
      (if f.hasRaw && f.parsed.Some? && f.parsed.value.staid.Some? then [f.parsed.value.staid.value] else [])
      + StationsSeen(xs[1..])
  }

  /**
   * `station_id` survives emissions and follows the frames: after a run it is
   * the last station ID seen, or the one before the run if none was.
   */
  lemma {:induction false} RunStation(c: Counters, xs: seq<Arrival>)
    requires Inv(c)
    ensures var seen := StationsSeen(xs);
      Run(c, xs).0.stationId == if |seen| == 0 then c.stationId else Some(seen[|seen| - 1])
    decreases |xs|
  {
    if |xs| > 0 {
      StepPreservesInv(c, xs[0].frame, xs[0].time);
      RunStation(Step(c, xs[0].frame, xs[0].time).0, xs[1..]);
    }
  }

  /** The invariant holds after any run. */
  lemma {:induction false} RunPreservesInv(c: Counters, xs: seq<Arrival>)
    requires Inv(c)
    ensures Inv(Run(c, xs).0)
    decreases |xs|
  {
    if |xs| > 0 {
      StepPreservesInv(c, xs[0].frame, xs[0].time);
      RunPreservesInv(Step(c, xs[0].frame, xs[0].time).0, xs[1..]);
    }
  }

  /** Every row a connection stores is an OK row with quality in [0, 100] over at least one frame. */
  lemma {:induction false} RunRows(c: Counters, xs: seq<Arrival>)
    requires Inv(c)
    ensures forall k :: 0 <= k < |Run(c, xs).1| ==>
      var row := Run(c, xs).1[k];
      row.status == "OK" && row.totalCount >= 1 && 0.0 <= row.quality <= 100.0 && row.latency >= 60.0
    decreases |xs|
  {
    if |xs| > 0 {
      StepPreservesInv(c, xs[0].frame, xs[0].time);
      EmissionSpec(c, xs[0].frame, xs[0].time);
      RunRows(Step(c, xs[0].frame, xs[0].time).0, xs[1..]);
    }
  }

  /** 80 valid frames out of 100 give a quality of 80 per cent. */
  lemma QualityExample()
    ensures Quality(80, 100) == 80.0
    ensures Quality(0, 0) == 0.0
  {
  }

  lemma SortedSystemsExample()
    ensures SortedSystems({Gps, Glonass}) == [Glonass, Gps]
  {
    KnownOrderAscending();
    var s := {Gps, Glonass};
    var o := KnownOrder;
    assert BeiDou !in s by { assert BeiDou[0] != Gps[0] && BeiDou[0] != Glonass[0]; }
    assert Galileo !in s by { assert Galileo[1] != Gps[1] && Galileo[1] != Glonass[1]; }
    FilterStep(o, s);
    FilterStep(o[1..], s);
    assert o[1..][1..] == o[2..];
    FilterGpsGlonass(o[2..], s);
  }

  lemma FilterGpsGlonass(o: seq<string>, s: set<string>)
    requires o == [Glonass, Gps] && s == {Gps, Glonass}
    ensures StrictlyAscending(o) && Filter(o, s) == o
  {
    assert Less(Glonass, Gps);
    FilterStep(o, s);
    FilterStep(o[1..], s);
    assert o[1..][1..] == [];
  }

  /** One step of `Filter`: the head is kept exactly when it is in the set. */
  lemma FilterStep(order: seq<string>, s: set<string>)
    requires StrictlyAscending(order) && |order| > 0
    ensures StrictlyAscending(order[1..])
    ensures Filter(order, s) == (if order[0] in s then [order[0]] else []) + Filter(order[1..], s)
  {
  }

  /** The systems text of GPS and GLONASS, and of nothing. */
  lemma SystemsTextExample()
    ensures SystemsText({Gps, Glonass}) == "GLONASS, GPS"
    ensures SystemsText({}) == ""
  {
    SortedSystemsExample();
    assert Join([Glonass, Gps], ", ") == Glonass + ", " + Gps;
    HeadIsElement(SortedSystems({}));
  }

  // ---------------------------------------------------------------------------
  // The analyser loop as a state machine
  // ---------------------------------------------------------------------------

  /**
   * The locals of `rtk_analyzer_loop` for the current connection, and the
   * rows the database has received.
   */
  class Analyzer {
    var connected: bool
    var total: nat
    var crcOk: nat
    var active: set<string>
    var stationId: Option<int>
    var lastLogTime: real
    ghost var rows: seq<DbRow>

    function State(): Counters
      reads this
    {
      Counters(total, crcOk, active, stationId, lastLogTime)
    }

    ghost predicate Valid()
      reads this
    {
      connected ==> Inv(State())
    }

    constructor()
      ensures Valid() && !connected && rows == []
    {
      connected := false;
      total, crcOk, active, stationId, lastLogTime := 0, 0, {}, None, 0.0;
      rows := [];
    }

    /** A successful `socket.create_connection`: the counters start afresh at `now`. */
    method Connect(now: real)
      modifies this
      ensures Valid() && connected && State() == Fresh(now) && rows == old(rows)
    {
      connected := true;
      total, crcOk, active, stationId, lastLogTime := 0, 0, {}, None, now;
    }

    /** Records the row if the insert succeeds; a failed insert is swallowed. */
    method Write(row: DbRow, dbOk: bool)
      modifies this`rows
      ensures rows == old(rows) + if dbOk then [row] else []
    {
      if dbOk {
        rows := rows + [row];
      }
    }

    /** One frame read from the stream at `now`. */
    method Receive(f: Frame, now: real, dbOk: bool)
      requires Valid() && connected
      modifies this
      ensures Valid() && connected
      ensures State() == Step(old(State()), f, now).0
      ensures var row := Step(old(State()), f, now).1;
        rows == old(rows) + if row.Some? && dbOk then [row.value] else []
    {
      if f.hasRaw {
        Tally(f);
        var currentTime := now;
        if currentTime - lastLogTime >= LogIntervalSec {
          Emit(currentTime, dbOk);
        }
      }
    }

    /** The counting at the top of the read loop, for a frame with raw bytes. */
    method Tally(f: Frame)
      requires Valid() && connected && f.hasRaw
      modifies this
      ensures Valid() && connected && rows == old(rows)
      ensures State() == Count(old(State()), f)
    {
      total := total + 1;
      if f.parsed.Some? {
        var m := f.parsed.value;
        crcOk := crcOk + 1;
        var sys := ConstellationFromType(m.identity);
        if sys != Other {
          active := active + {sys};
        }
        if m.staid.Some? {
          stationId := m.staid;
        }
      }
    }

    /** An emission at `currentTime`: the report is written and the counters reset. */
    method Emit(currentTime: real, dbOk: bool)
      requires Valid() && connected
      modifies this
      ensures Valid() && connected
      ensures State() == Reset(old(State()), currentTime)
      ensures rows == old(rows) + if dbOk then [Report(old(State()), currentTime)] else []
    {
      var qualityPct := Quality(crcOk, total);
      var row := DbRow("OK", qualityPct, SystemsText(active), stationId, total, currentTime - lastLogTime);
      Write(row, dbOk);
      total := 0;
      crcOk := 0;
      active := {};
      lastLogTime := currentTime;
    }

    /** The inner read loop over a finite prefix of the stream. */
    method ReceiveAll(xs: seq<Arrival>)
      requires Valid() && connected
      modifies this
      ensures Valid() && connected
      ensures State() == Run(old(State()), xs).0
      ensures rows == old(rows) + Run(old(State()), xs).1
    {
      ghost var s0, r0 := State(), rows;
      var i := 0;
      assert xs[..0] == [] && rows[|r0|..] == [];
      while i < |xs|
        invariant 0 <= i <= |xs|
        invariant Valid() && connected
        invariant |r0| <= |rows| && rows[..|r0|] == r0
        invariant Run(s0, xs[..i]) == (State(), rows[|r0|..])
      {
        ghost var before := rows;
        assert xs[..i + 1] == xs[..i] + [xs[i]];
        RunSnoc(s0, xs[..i], xs[i]);
        Receive(xs[i].frame, xs[i].time, xs[i].dbOk);
        assert rows[|r0|..] == before[|r0|..] + rows[|before|..];
        i := i + 1;
      }
      assert xs[..|xs|] == xs;
      assert rows == r0 + rows[|r0|..];
    }

    /**
     * A connection that ends in an exception: exactly one ERROR row is
     * attempted and the window's counters are discarded.
     */
    method Fail(e: Failure, dbOk: bool)
      modifies this
      ensures Valid() && !connected
      ensures rows == old(rows) + if dbOk then [ErrorRow(e)] else []
    {
      connected := false;
      Write(ErrorRow(e), dbOk);
    }
  }
}
