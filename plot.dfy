/**
 * The plotting loop `for idx, mev in enumerate(unique_mev_values)`: for each energy it
 * computes the power of ten, builds the legend labels with `+=`, filters every series for
 * that energy and (in two of the scripts) takes the next marker. The `plt.plot` calls are
 * modelled by the curves they receive.
 */
module Plot {
  import opened Results
  import opened PyStr
  import opened Selection
  import opened Seqs

  /** One series drawn for every energy: its legend prefix, its columns, and whether it takes a marker. */
  datatype Series = Series(prefix: string, thetas: seq<real>, dcs: seq<real>, energies: seq<string>, marked: bool)

  /** What one `plt.plot` call receives: the legend, the angles, the DCS values and the marker. */
  datatype Curve = Curve(legend: string, thetas: seq<real>, dcs: seq<real>, marker: Option<string>)

  /**
   * The curves drawn for one energy and the power of ten of their legends; two of the scripts
   * also multiply the drawn DCS values by `10**exponent`, a float product the curves leave out.
   */
  datatype Panel = Panel(mev: string, exponent: nat, curves: seq<Curve>)

  /**
   * How the loops of the scripts differ: the angle window, the scaling, whether the marked
   * series take `next(csv_marker_iterator)`, and otherwise the one marker they always take.
   */
  datatype Style = Style(window: AngleWindow, scaled: bool, markers: bool, fixed: Option<string>)

  /**
   * The exceptions that end a script: the marker iterator running out, an unbound name, a
   * projection `row['...']` over a character, `float(x)` or `pd.DataFrame` refusing its input,
   * `split(marker)[1]` on a path without the marker, and a division by a zero DCS.
   */
  datatype ScriptError = StopIteration | NameError(name: string) | TypeError | ValueError | IndexError | ZeroDivisionError

  /** A row of the experimental table the scripts build with pandas: its energy, angle and DCS. */
  datatype ExpRow = ExpRow(energy: string, theta: real, dcs: real)

  function RowEnergy(r: ExpRow): string { r.energy }
  function RowTheta(r: ExpRow): real { r.theta }
  function RowDcs(r: ExpRow): real { r.dcs }

  /**
   * The experimental series: `[row[...] for row in all_extracted_csv_data]` for the energy, angle
   * and DCS columns, with the legend prefix `Exp. data `.
   */
  function ExpSeries(rows: seq<ExpRow>, marked: bool): (s: Series)
    ensures |s.thetas| == |s.dcs| == |s.energies| == |rows|
    ensures forall i :: 0 <= i < |rows| ==>
              s.energies[i] == rows[i].energy && s.thetas[i] == rows[i].theta && s.dcs[i] == rows[i].dcs
  {
    MapSeqAt(RowEnergy, rows);
    MapSeqAt(RowTheta, rows);
    MapSeqAt(RowDcs, rows);
    Series("Exp. data ", MapSeq(RowTheta, rows), MapSeq(RowDcs, rows), MapSeq(RowEnergy, rows), marked)
  }

  /** The power of ten for the `idx`-th of `n` energies: none when the script does not scale. */
  function ExponentOf(style: Style, n: nat, idx: nat): nat
    requires idx < n
  {
    if style.scaled then Exponent(n, idx) else 0
  }

  /** The marker of the marked series on the `idx`-th energy: `next(csv_marker_iterator)`, or the fixed one. */
  function MarkerOf(style: Style, idx: nat): Option<string> {
    if style.markers then (if idx < |CsvMarkers| then Some(CsvMarkers[idx]) else None)
    else style.fixed
  }

  /** The curve of one series for one energy. */
  function CurveFor(s: Series, mev: string, w: AngleWindow, p: nat, marker: Option<string>): Curve {
    Curve(Label(s.prefix, mev, p), Select(s.thetas, s.energies, mev, w),
          SelectBy(s.thetas, s.dcs, s.energies, mev, w), if s.marked then marker else None)
  }

  /** The curves of the series for one energy, in plotting order. */
  function CurvesFor(series: seq<Series>, mev: string, w: AngleWindow, p: nat, marker: Option<string>): seq<Curve> {
    MapSeq((s: Series) => CurveFor(s, mev, w, p, marker), series)
  }

  /** Everything drawn for the `idx`-th energy. */
  function PanelAt(unique: seq<string>, series: seq<Series>, style: Style, idx: nat): Panel
    requires idx < |unique|
  {
    var p := ExponentOf(style, |unique|, idx);
    Panel(unique[idx], p, CurvesFor(series, unique[idx], style.window, p, MarkerOf(style, idx)))
  }

  /** The panels of the first `k` energies. */
  function Panels(unique: seq<string>, series: seq<Series>, style: Style, k: nat): seq<Panel>
    requires k <= |unique|
  {
    if k == 0 then [] else Panels(unique, series, style, k - 1) + [PanelAt(unique, series, style, k - 1)]
  }

  /**
   * What the loop draws: a panel for every energy, unless the markers run out, which raises
   * StopIteration on the eleventh energy.
   */
  function Plots(unique: seq<string>, series: seq<Series>, style: Style): Result<seq<Panel>, ScriptError> {
    if style.markers && |unique| > |CsvMarkers| then Failure(StopIteration)
    else Success(Panels(unique, series, style, |unique|))
  }

  /**
   * `label = f'{prefix}(E = {mev} MeV)'` followed by the `if`/`elif`/`else` that appends the
   * suffix with `+=`; the curves use the function `Label` it is proved equal to.
   */
  method BuildLegend(prefix: string, mev: string, p: nat) returns (legend: string)
    ensures legend == Label(prefix, mev, p)
  {
    legend := prefix + "(E = " + mev + " MeV)";
    if p == 0 {
      legend := legend + "";
    } else if p == 1 {
      legend := legend + " $\\times 10$";
    } else {
      legend := legend + " $\\times 10^{" + Decimal(p) + "}$";
    }
  }

  lemma PanelsSnoc(unique: seq<string>, series: seq<Series>, style: Style, k: nat)
    requires k < |unique|
    ensures Panels(unique, series, style, k + 1) == Panels(unique, series, style, k) + [PanelAt(unique, series, style, k)]
  {
  }

  /** The loop over the energies, with their index. */
  method PlotEnergies(unique: seq<string>, series: seq<Series>, style: Style) returns (r: Result<seq<Panel>, ScriptError>)
    ensures r == Plots(unique, series, style)
  {
    var panels: seq<Panel> := [];
    var idx := 0;
    while idx < |unique|
      invariant 0 <= idx <= |unique|
      invariant style.markers ==> idx <= |CsvMarkers|
      invariant panels == Panels(unique, series, style, idx)
    {
      var mev := unique[idx];
      var p := if style.scaled then |unique| - idx - 1 else 0;
      // The labels and filters computed before `next(csv_marker_iterator)` leave nothing
      // behind when it raises, so the marker is taken first.
      var marker: Option<string> := style.fixed;
      if style.markers {
        if idx >= |CsvMarkers| {
          return Failure(StopIteration);
        }
        marker := Some(CsvMarkers[idx]);
      }
      assert p == ExponentOf(style, |unique|, idx) && marker == MarkerOf(style, idx);
      var curves := CurvesFor(series, mev, style.window, p, marker);
      PanelsSnoc(unique, series, style, idx);
      panels := panels + [Panel(mev, p, curves)];
      idx := idx + 1;
    }
    r := Success(panels);
  }

  /** The panels of the first `k` energies are the panels of those energies, in order. */
  lemma {:induction false} PanelsAt(unique: seq<string>, series: seq<Series>, style: Style, k: nat)
    requires k <= |unique|
    ensures |Panels(unique, series, style, k)| == k
    ensures forall i :: 0 <= i < k ==> Panels(unique, series, style, k)[i] == PanelAt(unique, series, style, i)
  {
    if k > 0 {
      PanelsAt(unique, series, style, k - 1);
      PanelsSnoc(unique, series, style, k - 1);
      AppendAt(Panels(unique, series, style, k - 1), PanelAt(unique, series, style, k - 1));
    }
  }

  /**
   * The loop fails exactly when it takes markers and there are more energies than markers;
   * otherwise it draws, for the `i`-th energy, one curve per series, in series order, each
   * labelled with the series prefix, the energy and the suffix of the panel's power of ten,
   * which is `len - i - 1` for a scaling script and 0 otherwise.
   */
  lemma PlotsShape(unique: seq<string>, series: seq<Series>, style: Style)
    ensures Plots(unique, series, style).Failure? <==> style.markers && |unique| > |CsvMarkers|
    ensures Plots(unique, series, style).Success? ==>
              var ps := Plots(unique, series, style).value;
              |ps| == |unique| &&
              forall i :: 0 <= i < |ps| ==>
                ps[i].mev == unique[i] && |ps[i].curves| == |series| &&
                ps[i].exponent == (if style.scaled then |unique| - i - 1 else 0) &&
                forall k :: 0 <= k < |series| ==>
                  ps[i].curves[k] == CurveFor(series[k], unique[i], style.window, ps[i].exponent, MarkerOf(style, i)) &&
                  ps[i].curves[k].legend == Label(series[k].prefix, unique[i], ps[i].exponent)
  {
    if Plots(unique, series, style).Success? {
      PanelsAt(unique, series, style, |unique|);
      forall i | 0 <= i < |unique|
        ensures var pn := PanelAt(unique, series, style, i);
                |pn.curves| == |series| &&
                forall k :: 0 <= k < |series| ==> pn.curves[k] == CurveFor(series[k], unique[i], style.window, pn.exponent, MarkerOf(style, i))
      {
        var p := ExponentOf(style, |unique|, i);
        MapSeqAt((s: Series) => CurveFor(s, unique[i], style.window, p, MarkerOf(style, i)), series);
      }
    }
  }

  /**
   * In a scaling script the powers of ten strictly decrease along the energies and the last
   * energy is not scaled; the suffixes of two panels are therefore different.
   */
  lemma ExponentsDecrease(unique: seq<string>, series: seq<Series>, style: Style)
    requires style.scaled && Plots(unique, series, style).Success?
    ensures var ps := Plots(unique, series, style).value;
            (forall i, j :: 0 <= i < j < |ps| ==> ps[i].exponent > ps[j].exponent) &&
            (|ps| > 0 ==> ps[|ps| - 1].exponent == 0) &&
            (forall i, j :: 0 <= i < j < |ps| ==> ScaleSuffix(ps[i].exponent) != ScaleSuffix(ps[j].exponent))
  {
    PlotsShape(unique, series, style);
    var ps := Plots(unique, series, style).value;
    forall i, j | 0 <= i < j < |ps|
      ensures ScaleSuffix(ps[i].exponent) != ScaleSuffix(ps[j].exponent)
    {
      if ScaleSuffix(ps[i].exponent) == ScaleSuffix(ps[j].exponent) {
        ScaleSuffixInjective(ps[i].exponent, ps[j].exponent);
      }
    }
  }
}
