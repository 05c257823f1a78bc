/**
 * The first script: one theory table without an energy tag, read into records of four
 * values, projected on its columns, and the ratio of the DCS to the Rutherford DCS taken
 * record by record for three plots: the ratio against the angle, the DCS against the angle,
 * and the DCS against `MU`.
 */
module Basic {
  import opened Results
  import opened Seqs
  import opened CalcDcs
  import opened Plot

  /** `extract_data(file_path)` here keeps no energy: a record is the point itself. */
  function Plain(id: string, p: Point): Point {
    p
  }

  /** `read_csv(file_path)` here adds no id column: the table is kept as read. */
  function AsRead(table: seq<ExpRow>, id: string): seq<ExpRow> {
    table
  }

  /** `theta_values`, `mu_values`, `dcs_values`, `dcs_ruth_values`. */
  datatype PointColumns = PointColumns(thetas: seq<real>, mus: seq<real>, dcs: seq<real>, ruths: seq<real>)

  /** Column by column, the `i`-th entry of each column comes from the `i`-th point. */
  predicate ColumnsOf(c: PointColumns, ps: seq<Point>) {
    |c.thetas| == |ps| && |c.mus| == |ps| && |c.dcs| == |ps| && |c.ruths| == |ps| &&
    forall i :: 0 <= i < |ps| ==>
      c.thetas[i] == ps[i].theta && c.mus[i] == ps[i].mu && c.dcs[i] == ps[i].dcs && c.ruths[i] == ps[i].dcsRuth
  }

  /**
   * The four comprehensions `[row['...'] for row in extracted_data]`: over a list, the columns
   * of its points; over an error string, a TypeError at its first character (an empty string
   * would give empty columns).
   */
  function ProjectPoints(extracted: Result<seq<Point>, string>): (c: Result<PointColumns, ScriptError>)
    ensures extracted.Success? ==> c.Success? && ColumnsOf(c.value, extracted.value)
    ensures extracted.Failure? ==> (c.Success? <==> extracted.error == [])
    ensures extracted.Failure? && c.Success? ==> ColumnsOf(c.value, [])
    ensures c.Failure? ==> c.error == TypeError
  {
    match extracted
    case Success(ps) => Success(Columns(ps))
    case Failure(m) => if m == [] then Success(Columns([])) else Failure(TypeError)
  }

  /** The four columns of a list of points. */
  function Columns(ps: seq<Point>): (c: PointColumns)
    ensures ColumnsOf(c, ps)
  {
    PointColumns(seq(|ps|, i requires 0 <= i < |ps| => ps[i].theta), seq(|ps|, i requires 0 <= i < |ps| => ps[i].mu),
                 seq(|ps|, i requires 0 <= i < |ps| => ps[i].dcs), seq(|ps|, i requires 0 <= i < |ps| => ps[i].dcsRuth))
  }

  /**
   * `[dcs / dcs_ruth for dcs, dcs_ruth in zip(dcs_values, dcs_ruth_values)]`: one ratio per pair,
   * the exact real quotient, so it multiplies back to its DCS; a ZeroDivisionError when some
   * Rutherford DCS is zero.
   */
  function Ratios(dcs: seq<real>, ruths: seq<real>): (r: Result<seq<real>, ScriptError>)
    ensures r.Success? <==> forall i :: 0 <= i < Min(|dcs|, |ruths|) ==> ruths[i] != 0.0
    ensures r.Failure? ==> r.error == ZeroDivisionError
    ensures r.Success? ==>
              |r.value| == Min(|dcs|, |ruths|) &&
              forall i :: 0 <= i < |r.value| ==> r.value[i] * ruths[i] == dcs[i]
    decreases |dcs|
  {
    var n := Min(|dcs|, |ruths|);
    if n == 0 then Success([])
    else
      var (ds, rs) := (dcs[..n - 1], ruths[..n - 1]);
      assert forall i :: 0 <= i < n - 1 ==> ds[i] == dcs[i] && rs[i] == ruths[i];
      match Ratios(ds, rs)
      case Failure(e) => Failure(e)
      case Success(qs) =>
        if ruths[n - 1] == 0.0 then Failure(ZeroDivisionError)
        else Success(qs + [dcs[n - 1] / ruths[n - 1]])
  }

  /** One plot: the values on the horizontal axis and on the vertical axis. */
  datatype Axes = Axes(x: seq<real>, y: seq<real>)

  /**
   * The three plots of the figure: the ratio against the angle, the DCS against the angle,
   * and the DCS against `MU`.
   */
  function Figure(extracted: Result<seq<Point>, string>): Result<seq<Axes>, ScriptError> {
    match ProjectPoints(extracted)
    case Failure(e) => Failure(e)
    case Success(c) =>
      match Ratios(c.dcs, c.ruths)
      case Failure(e) => Failure(e)
      case Success(rs) => Success([Axes(c.thetas, rs), Axes(c.thetas, c.dcs), Axes(c.mus, c.dcs)])
  }

  /** The script: read the theory table and the experimental table, project, divide. */
  method Run(file: FileRead, csv: CsvRead<seq<ExpRow>>, parse: NumberParser)
    returns (r: Result<seq<Axes>, ScriptError>, table: Result<seq<ExpRow>, string>)
    ensures r == Figure(ExtractOutcome(file, parse, Plain, ""))
    ensures table == ReadCsv(csv, "", AsRead)
  {
    var extracted := ExtractData(file, parse, Plain, "");
    table := ReadCsv(csv, "", AsRead);
    var cols := ProjectPoints(extracted);
    if cols.Failure? {
      return Failure(cols.error), table;
    }
    var ratios := Ratios(cols.value.dcs, cols.value.ruths);
    if ratios.Failure? {
      return Failure(ratios.error), table;
    }
    var c := cols.value;
    r := Success([Axes(c.thetas, ratios.value), Axes(c.thetas, c.dcs), Axes(c.mus, c.dcs)]);
  }

  /** A file's outcome with `Plain`: its points when it reads cleanly, otherwise a non-empty message. */
  lemma PlainOutcome(file: FileRead, parse: NumberParser)
    ensures ReadsCleanly(file, parse) ==>
              ExtractOutcome(file, parse, Plain, "") == Success(ExtractPoints(file.lines, parse).value)
    ensures !ReadsCleanly(file, parse) ==>
              ExtractOutcome(file, parse, Plain, "").Failure? && ExtractOutcome(file, parse, Plain, "").error != []
  {
    if ReadsCleanly(file, parse) {
      var ps := ExtractPoints(file.lines, parse).value;
      assert Tagged(ps, Plain, "") == ps;
    }
  }

  /**
   * Over the points of a clean file, the figure is drawn exactly when no point has a zero
   * Rutherford DCS; then its first plot pairs the angle of every point, in order, with that
   * point's ratio, which multiplied by the Rutherford DCS gives back the DCS.
   */
  lemma FigureOfPoints(ps: seq<Point>)
    ensures Figure(Success(ps)).Success? <==> forall i :: 0 <= i < |ps| ==> ps[i].dcsRuth != 0.0
    ensures Figure(Success(ps)).Success? ==>
              var ax := Figure(Success(ps)).value;
              |ax| == 3 && |ax[0].x| == |ps| && |ax[0].y| == |ps| &&
              forall i :: 0 <= i < |ps| ==> ax[0].x[i] == ps[i].theta && ax[0].y[i] * ps[i].dcsRuth == ps[i].dcs
  {
    var c := ProjectPoints(Success(ps)).value;
    var q := Ratios(c.dcs, c.ruths);
    assert Figure(Success(ps)).Success? <==> q.Success?;
    if q.Success? {
      assert Figure(Success(ps)).value[0] == Axes(c.thetas, q.value);
      RatiosOfColumns(ps, c, q.value);
    }
  }

  /** Ratios computed over the columns of some points are ratios of those points' own values. */
  lemma RatiosOfColumns(ps: seq<Point>, c: PointColumns, q: seq<real>)
    requires ColumnsOf(c, ps)
    requires |q| == |ps| && forall i :: 0 <= i < |q| ==> q[i] * c.ruths[i] == c.dcs[i]
    ensures forall i :: 0 <= i < |ps| ==> c.thetas[i] == ps[i].theta && q[i] * ps[i].dcsRuth == ps[i].dcs
  {
  }

  /**
   * The figure is drawn exactly when the file reads cleanly and no point has a zero
   * Rutherford DCS; a file that does not read cleanly ends in a TypeError.
   */
  lemma FigureIff(file: FileRead, parse: NumberParser)
    ensures !ReadsCleanly(file, parse) ==> Figure(ExtractOutcome(file, parse, Plain, "")) == Failure(TypeError)
    ensures ReadsCleanly(file, parse) ==>
              (Figure(ExtractOutcome(file, parse, Plain, "")).Success? <==>
                 forall i :: 0 <= i < |ExtractPoints(file.lines, parse).value| ==> ExtractPoints(file.lines, parse).value[i].dcsRuth != 0.0)
  {
    PlainOutcome(file, parse);
    if ReadsCleanly(file, parse) {
      FigureOfPoints(ExtractPoints(file.lines, parse).value);
    }
  }
}
