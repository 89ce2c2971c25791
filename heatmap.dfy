/**
 * The coverage map (visualization.py): each logged point is coloured by its
 * RSSI in four bands, and rows whose RSSI is not a number are dropped
 * before plotting.
 */
module Heatmap {
  import opened Wrappers

  // ---------------------------------------------------------------------------
  // define_quality_color
  // ---------------------------------------------------------------------------

  /** `RSSI_THRESHOLDS`, in dBm. */
  const ExcellentThreshold: real := -65.0
  const GoodThreshold: real := -75.0
  const PoorThreshold: real := -85.0

  datatype Colour = Green | Gold | Red | Maroon

  /** The matplotlib colour name. */
  function ColourName(c: Colour): string
  {
    match c
    case Green => "green"
    case Gold => "gold"
    case Red => "red"
    case Maroon => "maroon"
  }

  /** How good a band is: 3 for green down to 0 for maroon. */
  function Rank(c: Colour): nat
  {
    match c
    case Green => 3
    case Gold => 2
    case Red => 1
    case Maroon => 0
  }

  /** `define_quality_color(rssi)`. */
  function QualityColour(rssi: real): Colour
  {
    if rssi > ExcellentThreshold then Green
    else if rssi > GoodThreshold then Gold
    else if rssi > PoorThreshold then Red
    else Maroon
  }

  /** The number of thresholds in `ts` that `rssi` lies strictly above. */
  function CountAbove(ts: seq<real>, rssi: real): (n: nat)
    ensures n <= |ts|
    decreases |ts|
  {
    if |ts| == 0 then 0
    else (if rssi > ts[0] then 1 else 0) + CountAbove(ts[1..], rssi)
  }

  /**
   * The band is the number of thresholds the RSSI exceeds: the function is
   * total, and a point is green, gold, red or maroon by how many of -65,
   * -75 and -85 dBm it lies above.
   */
  lemma BandIsThresholdsExceeded(rssi: real)
    ensures Rank(QualityColour(rssi)) == CountAbove([ExcellentThreshold, GoodThreshold, PoorThreshold], rssi)
  {
    var ts := [ExcellentThreshold, GoodThreshold, PoorThreshold];
    assert ts[1..] == [GoodThreshold, PoorThreshold] && ts[1..][1..] == [PoorThreshold] && ts[1..][1..][1..] == [];
    assert CountAbove(ts[1..][1..], rssi) == if rssi > PoorThreshold then 1 else 0;
    assert CountAbove(ts[1..], rssi) == (if rssi > GoodThreshold then 1 else 0) + CountAbove(ts[1..][1..], rssi);
  }

  /** The bands as intervals. */
  lemma Bands(rssi: real)
    ensures QualityColour(rssi) == Green <==> rssi > -65.0
    ensures QualityColour(rssi) == Gold <==> -75.0 < rssi <= -65.0
    ensures QualityColour(rssi) == Red <==> -85.0 < rssi <= -75.0
    ensures QualityColour(rssi) == Maroon <==> rssi <= -85.0
  {
  }

  /** A stronger signal never gets a worse band. */
  lemma QualityMonotone(a: real, b: real)
    requires a <= b
    ensures Rank(QualityColour(a)) <= Rank(QualityColour(b))
  {
  }

  // ---------------------------------------------------------------------------
  // generate_heatmap
  // ---------------------------------------------------------------------------

  /** A data row: its coordinates and its RSSI, None where `to_numeric` coerced it to NaN. */
  datatype Sample = Sample(lon: real, lat: real, rssi: Option<real>)

  /** What `pd.read_csv(data_path)` finds. */
  datatype DataFile = NotFound | EmptyFile | Table(rows: seq<Sample>)

  datatype Point = Point(lon: real, lat: real, colour: Colour)

  /** How `generate_heatmap` ends. */
  datatype MapResult =
    | NoDataFile        // FileNotFoundError: returns without plotting
    | DataFileEmpty     // EmptyDataError: returns without plotting
    | NoValidRssi       // nothing left after dropna
    | NameErrorRaised   // the legend refers to an undefined name
    | Saved(points: seq<Point>)

  /** `df.dropna(subset=['RSSI'])`: the rows with a numeric RSSI. */
  function NumericRows(rows: seq<Sample>): (r: seq<Sample>)
    ensures |r| <= |rows|
    ensures forall k :: 0 <= k < |r| ==> r[k].rssi.Some? && r[k] in rows
    ensures forall k :: 0 <= k < |rows| && rows[k].rssi.Some? ==> rows[k] in r
    decreases |rows|
  {
    if |rows| == 0 then []
    else
      var rest := NumericRows(rows[1..]);
      assert forall k :: 0 <= k < |rows[1..]| ==> rows[1..][k] == rows[k + 1];
      if rows[0].rssi.Some? then [rows[0]] + rest else rest
  }

  /** A single row is kept by itself or dropped. */
  lemma NumericRowsSingle(x: Sample)
    ensures NumericRows([x]) == if x.rssi.Some? then [x] else []
  {
    assert [x][1..] == [];
  }

  /**
   * `dropna` works row by row: filtering a concatenation is filtering each
   * part, so every kept row appears as often as in the file and in file order.
   */
  lemma {:induction false} NumericRowsAppend(a: seq<Sample>, b: seq<Sample>)
    ensures NumericRows(a + b) == NumericRows(a) + NumericRows(b)
    decreases |a|
  {
    if |a| == 0 {
      assert a + b == b;
    } else {
      assert (a + b)[0] == a[0] && (a + b)[1..] == a[1..] + b;
      NumericRowsAppend(a[1..], b);
    }
  }

  /** The coloured points, one per row, in order. */
  function Colourise(rows: seq<Sample>): (ps: seq<Point>)
    requires forall k :: 0 <= k < |rows| ==> rows[k].rssi.Some?
    ensures |ps| == |rows|
    ensures forall k :: 0 <= k < |rows| ==>
      ps[k] == Point(rows[k].lon, rows[k].lat, QualityColour(rows[k].rssi.value))
    decreases |rows|
  {
    if |rows| == 0 then []
    else [Point(rows[0].lon, rows[0].lat, QualityColour(rows[0].rssi.value))] + Colourise(rows[1..])
  }

  /**
   * `generate_heatmap` as written: once valid rows exist, building the
   * legend evaluates the undefined name on line 62 and raises NameError
   * before `savefig`.
   */
  function GenerateHeatmapAsWritten(f: DataFile): MapResult
  {
    match f
    case NotFound => NoDataFile
    case EmptyFile => DataFileEmpty
    case Table(rows) =>
      if |NumericRows(rows)| == 0 then NoValidRssi else NameErrorRaised
  }

  /** `generate_heatmap` with the legend's name spelt `CONFIG_VIS`. */
  function GenerateHeatmap(f: DataFile): MapResult
  {
    match f
    case NotFound => NoDataFile
    case EmptyFile => DataFileEmpty
    case Table(rows) =>
      var valid := NumericRows(rows);
      if |valid| == 0 then NoValidRssi else Saved(Colourise(valid))
  }

  /** As written, no input ever produces a map. */
  lemma AsWrittenNeverSaves(f: DataFile)
    ensures !GenerateHeatmapAsWritten(f).Saved?
    ensures f.Table? && |NumericRows(f.rows)| > 0 ==> GenerateHeatmapAsWritten(f) == NameErrorRaised
  {
  }

  /** One row at -70 dBm: the file is usable, yet as written nothing is saved. */
  lemma AsWrittenCounterexample()
    ensures GenerateHeatmapAsWritten(Table([Sample(0.0, 0.0, Some(-70.0))])) == NameErrorRaised
    ensures GenerateHeatmap(Table([Sample(0.0, 0.0, Some(-70.0))])) == Saved([Point(0.0, 0.0, Gold)])
  {
    var rows := [Sample(0.0, 0.0, Some(-70.0))];
    assert rows[1..] == [];
    assert NumericRows(rows) == rows;
  }

  /**
   * The map is saved exactly when some row has a numeric RSSI; it then has
   * one point per such row, coloured by its band, and rows without a
   * numeric RSSI take no part.
   */
  lemma {:induction false} HeatmapSpec(f: DataFile)
    ensures GenerateHeatmap(f).Saved? <==> f.Table? && exists k :: 0 <= k < |f.rows| && f.rows[k].rssi.Some?
    ensures GenerateHeatmap(f).Saved? ==>
      var valid := NumericRows(f.rows);
      var ps := GenerateHeatmap(f).points;
      && |ps| == |valid| > 0
      && forall k :: 0 <= k < |ps| ==> ps[k].colour == QualityColour(valid[k].rssi.value)
    ensures f.NotFound? ==> GenerateHeatmap(f) == NoDataFile
    ensures f.EmptyFile? ==> GenerateHeatmap(f) == DataFileEmpty
  {
    if f.Table? {
      var valid := NumericRows(f.rows);
      if |valid| > 0 {
        assert valid[0] in f.rows;
        var k :| 0 <= k < |f.rows| && f.rows[k] == valid[0];
        assert f.rows[k].rssi.Some?;
      }
      if exists k :: 0 <= k < |f.rows| && f.rows[k].rssi.Some? {
        var k :| 0 <= k < |f.rows| && f.rows[k].rssi.Some?;
        assert f.rows[k] in valid;
      }
    }
  }
}
