/**
 * The script for the silicon-28 tables: the theory files `calcDCS_<energy>MEV.dat` and the
 * experimental files `Si28_<energy>MEV.csv` take their energy ids from the full path, the
 * energies are listed once each in the iteration order of a Python set, and the loop draws,
 * for every energy, the theory curve and the experimental points with the next of ten markers,
 * without an angle window and without powers of ten.
 *
 * The iteration order of `list(set(...))` is not defined by the program: the loop takes it as
 * a parameter `order`, and the lemmas hold for every order that lists each energy once.
 */
module Mev {
  import opened Results
  import opened Seqs
  import opened EnergyId
  import opened CalcDcs
  import opened Selection
  import opened Plot
  import opened Projection

  /**
   * The id the loop reads from a path with `pathId` (in the script `TheoryIdOfPath`, that is
   * `split('calcDCS_')[1]` without `MEV.dat`); the loop never reads it for a path without one.
   */
  function IdOr(pathId: string -> Option<string>): string -> string {
    (path: string) => match pathId(path) case Some(id) => id case None => ""
  }

  /** Whether every theory path gives an id, so that `split('calcDCS_')[1]` exists. */
  predicate AllMarked(files: seq<DataFile>, pathId: string -> Option<string>) {
    forall k :: 0 <= k < |files| ==> pathId(files[k].name).Some?
  }

  /**
   * The theory loop: an IndexError at the first path without an id, otherwise every file's
   * records tagged with the id read from its path, in one list.
   */
  function TheoryList(files: seq<DataFile>, pathId: string -> Option<string>, parse: NumberParser)
    : Result<seq<Entry<EnergyRecord>>, ScriptError>
  {
    if AllMarked(files, pathId) then Success(Gathered(files, IdOr(pathId), parse, WithEnergy)) else Failure(IndexError)
  }

  method GatherTheory(files: seq<DataFile>, pathId: string -> Option<string>, parse: NumberParser)
    returns (r: Result<seq<Entry<EnergyRecord>>, ScriptError>)
    ensures r == TheoryList(files, pathId, parse)
  {
    var all: seq<Entry<EnergyRecord>> := [];
    var k := 0;
    while k < |files|
      invariant 0 <= k <= |files|
      invariant AllMarked(files[..k], pathId)
      invariant all == Gathered(files[..k], IdOr(pathId), parse, WithEnergy)
    {
      var fileId := pathId(files[k].name);
      if fileId.None? {
        assert !AllMarked(files, pathId);
        return Failure(IndexError);
      }
      var extracted := ExtractData(files[k].content, parse, WithEnergy, fileId.value);
      TheoryStep(files, k, pathId, parse, all, extracted);
      all := all + Spill(extracted);
      k := k + 1;
    }
    WholePrefix(files);
    r := Success(all);
  }

  /** One more file with an id: its records, tagged with that id, follow the list so far. */
  lemma TheoryStep(files: seq<DataFile>, k: nat, pathId: string -> Option<string>, parse: NumberParser,
                   all: seq<Entry<EnergyRecord>>, extracted: Result<seq<EnergyRecord>, string>)
    requires k < |files| && AllMarked(files[..k], pathId) && pathId(files[k].name).Some?
    requires all == Gathered(files[..k], IdOr(pathId), parse, WithEnergy)
    requires extracted == ExtractOutcome(files[k].content, parse, WithEnergy, pathId(files[k].name).value)
    ensures AllMarked(files[..k + 1], pathId)
    ensures all + Spill(extracted) == Gathered(files[..k + 1], IdOr(pathId), parse, WithEnergy)
  {
    MarkedSnoc(files, k, pathId);
    GatheredSnoc(files, k, IdOr(pathId), parse, WithEnergy);
  }

  lemma MarkedSnoc(files: seq<DataFile>, k: nat, pathId: string -> Option<string>)
    requires k < |files| && AllMarked(files[..k], pathId) && pathId(files[k].name).Some?
    ensures AllMarked(files[..k + 1], pathId)
  {
    var before, now := files[..k], files[..k + 1];
    forall j | 0 <= j < |now|
      ensures pathId(now[j].name).Some?
    {
      if j < k {
        assert now[j] == before[j];
      }
    }
  }

  /** Every record of the list carries the id of the path of the file it was read from. */
  lemma TheoryRecordsTagged(files: seq<DataFile>, pathId: string -> Option<string>, parse: NumberParser, i: nat)
    requires TheoryList(files, pathId, parse).Success?
    requires i < |TheoryList(files, pathId, parse).value| && TheoryList(files, pathId, parse).value[i].Record?
    ensures exists k, p :: 0 <= k < |files| &&
              pathId(files[k].name) == Some(TheoryList(files, pathId, parse).value[i].rec.energy) &&
              TheoryList(files, pathId, parse).value[i].rec == EnergyRecord(pathId(files[k].name).value, p)
  {
    GatheredRecordsTagged(files, IdOr(pathId), parse, WithEnergy, i);
  }

  /** Whether `order` lists every energy of `pool` exactly once, as `list(set(pool))` does. */
  ghost predicate Enumerates(order: seq<string>, pool: seq<string>) {
    NoDup(order) && forall x :: x in order <==> x in pool
  }

  /** Plotting order: the theory curve, then the experimental points with the next marker. */
  function MevSeries(c: Columns, exp: seq<ExpRow>): seq<Series> {
    [Series("Theor. data ", c.thetas, c.dcs, c.energies, false), ExpSeries(exp, true)]
  }

  /** No angle window, no powers of ten, markers from `iter(csv_markers)`. */
  const MevStyle: Style := Style(Unbounded, false, true, None)

  function EnergyPool(c: Columns, exp: seq<ExpRow>): seq<string> {
    c.energies + MapSeq(RowEnergy, exp)
  }

  /**
   * From the theory list to the drawn panels: the projections, then the experimental ids, an
   * IndexError for a path without `Si28_`, then `pd.concat`, a ValueError when there is no
   * experimental file at all, then the loop over the energies in `order`.
   */
  function Figure(theory: Result<seq<Entry<EnergyRecord>>, ScriptError>, csvPaths: seq<string>, exp: seq<ExpRow>, order: seq<string>)
    : Result<seq<Panel>, ScriptError>
  {
    match theory
    case Failure(e) => Failure(e)
    case Success(all) =>
      match Project(all)
      case Failure(e) => Failure(e)
      case Success(c) =>
        if exists k :: 0 <= k < |csvPaths| && ExperimentIdOfPath(csvPaths[k]).None? then Failure(IndexError)
        else if csvPaths == [] then Failure(ValueError)
        else Plots(order, MevSeries(c, exp), MevStyle)
  }

  /** The experimental loop: the id of every path, or an IndexError at the first without `Si28_`. */
  method CsvIds(csvPaths: seq<string>) returns (r: Result<seq<string>, ScriptError>)
    ensures r.Failure? <==> exists k :: 0 <= k < |csvPaths| && ExperimentIdOfPath(csvPaths[k]).None?
    ensures r.Failure? ==> r.error == IndexError
    ensures r.Success? ==>
              |r.value| == |csvPaths| &&
              forall k :: 0 <= k < |csvPaths| ==> ExperimentIdOfPath(csvPaths[k]) == Some(r.value[k])
  {
    var ids: seq<string> := [];
    for k := 0 to |csvPaths|
      invariant |ids| == k
      invariant forall j :: 0 <= j < k ==> ExperimentIdOfPath(csvPaths[j]) == Some(ids[j])
    {
      var csvId := ExperimentIdOfPath(csvPaths[k]);
      if csvId.None? {
        return Failure(IndexError);
      }
      ids := ids + [csvId.value];
    }
    r := Success(ids);
  }

  /** The script: the theory loop, the projections, the experimental ids and the plotting loop. */
  method Run(files: seq<DataFile>, csvPaths: seq<string>, exp: seq<ExpRow>, parse: NumberParser, order: seq<string>)
    returns (r: Result<seq<Panel>, ScriptError>)
    ensures r == Figure(TheoryList(files, TheoryIdOfPath, parse), csvPaths, exp, order)
  {
    var theory := GatherTheory(files, TheoryIdOfPath, parse);
    if theory.Failure? {
      return Failure(theory.error);
    }
    var cols := Project(theory.value);
    if cols.Failure? {
      return Failure(cols.error);
    }
    var ids := CsvIds(csvPaths);
    if ids.Failure? {
      return Failure(ids.error);
    }
    if csvPaths == [] {
      return Failure(ValueError);
    }
    r := PlotEnergies(order, MevSeries(cols.value, exp), MevStyle);
  }

  /**
   * When the lists succeed, the loop fails exactly when there are more than ten distinct
   * energies; otherwise it draws one panel per energy, and every energy of the theory and of
   * the experiment has its panel.
   */
  lemma MevPanels(all: seq<Entry<EnergyRecord>>, csvPaths: seq<string>, exp: seq<ExpRow>, order: seq<string>)
    requires Project(all).Success?
    requires csvPaths != [] && forall k :: 0 <= k < |csvPaths| ==> ExperimentIdOfPath(csvPaths[k]).Some?
    requires Enumerates(order, EnergyPool(Project(all).value, exp))
    ensures var f := Figure(Success(all), csvPaths, exp, order);
            (f == Failure(StopIteration) <==> |order| > |CsvMarkers|) &&
            (f.Success? ==>
               |f.value| == |order| &&
               forall x :: x in EnergyPool(Project(all).value, exp) <==> exists i :: 0 <= i < |f.value| && f.value[i].mev == x)
  {
    var c := Project(all).value;
    PlotsShape(order, MevSeries(c, exp), MevStyle);
    var f := Figure(Success(all), csvPaths, exp, order);
    if f.Success? {
      forall x | x in EnergyPool(c, exp)
        ensures exists i :: 0 <= i < |f.value| && f.value[i].mev == x
      {
        var i :| 0 <= i < |order| && order[i] == x;
        assert f.value[i].mev == x;
      }
    }
  }

  /**
   * The panel of the `i`-th energy holds the theory curve
   * `[theta for theta, e in zip(theta_values, MEV_values) if e == mev]` beside
   * `[dcs for dcs, e in zip(dcs_values, MEV_values) if e == mev]`, without a marker, then the
   * experimental points with the `i`-th marker, under legends without a power of ten
   * (`LabelUnscaled`: `f'Theor. data (E = {mev} MeV)'` and `f'Exp. data (E = {mev} MeV)'`).
   */
  lemma MevPanel(all: seq<Entry<EnergyRecord>>, csvPaths: seq<string>, exp: seq<ExpRow>, order: seq<string>, i: nat)
    requires Project(all).Success?
    requires Figure(Success(all), csvPaths, exp, order).Success? && i < |order|
    ensures var c := Project(all).value;
            var ps := Figure(Success(all), csvPaths, exp, order).value;
            i < |ps| && ps[i].mev == order[i] && ps[i].exponent == 0 &&
            var cs := ps[i].curves;
            |cs| == 2 &&
            cs[0].legend == Label("Theor. data ", order[i], 0) &&
            cs[0].thetas == Select(c.thetas, c.energies, order[i], Unbounded) &&
            cs[0].dcs == Select(c.dcs, c.energies, order[i], Unbounded) &&
            cs[0].marker == None &&
            cs[1].legend == Label("Exp. data ", order[i], 0) &&
            cs[1].thetas == Select(MapSeq(RowTheta, exp), MapSeq(RowEnergy, exp), order[i], Unbounded) &&
            cs[1].dcs == Select(MapSeq(RowDcs, exp), MapSeq(RowEnergy, exp), order[i], Unbounded) &&
            cs[1].marker == Some(CsvMarkers[i])
  {
    var c := Project(all).value;
    var series := MevSeries(c, exp);
    assert Figure(Success(all), csvPaths, exp, order) == Plots(order, series, MevStyle);
    PanelsAt(order, series, MevStyle, |order|);
    var m := MarkerOf(MevStyle, i);
    assert m == Some(CsvMarkers[i]);
    MapSeqAt((s: Series) => CurveFor(s, order[i], Unbounded, 0, m), series);
    MapSeqAt(RowTheta, exp);
    MapSeqAt(RowDcs, exp);
    SelectByUnbounded(c.thetas, c.dcs, c.energies, order[i]);
    SelectByUnbounded(MapSeq(RowTheta, exp), MapSeq(RowDcs, exp), MapSeq(RowEnergy, exp), order[i]);
  }
}
