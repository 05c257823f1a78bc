/**
 * The script that compares the theory tables of one isotope with its experimental data: the
 * theory files are read into one list tagged with their energy ids, the list is projected on
 * its five columns, and the loop over the sorted energies draws the theory curve and the
 * experimental points of each energy, the points with the next marker of a list of ten.
 *
 * As written, the loop is `for mev in unique_mev_values:` and its first statement reads
 * `idx`, which the script never binds: the first iteration raises NameError. The model keeps
 * that behaviour (`Figure` with `corrected` false, `NameErrorOnAnyEnergy`) and gives the
 * loop over `enumerate(unique_mev_values)` the other scripts use (`Figure` with `corrected`
 * true, `CorrectedFigure`). This script puts the power of ten in the legends only; it does not
 * multiply the DCS values by it.
 */
module Elem {
  import opened Results
  import opened Seqs
  import opened EnergyId
  import opened CalcDcs
  import opened Selection
  import opened Plot
  import opened Projection

  /** Plotting order: the theory curve, then the experimental points with the next marker. */
  function ElemSeries(c: Columns, exp: seq<ExpRow>): seq<Series> {
    [Series("Theor. data ", c.thetas, c.dcs, c.energies, false), ExpSeries(exp, true)]
  }

  /** Window `[1, max_theta]`, powers of ten in the legends, markers from `iter(csv_markers)`. */
  function ElemStyle(maxTheta: int): Style {
    Style(UpTo(maxTheta), true, true, None)
  }

  /** `MEV_values + MEV_values_csv`, the energies `sorted(list(set(...)), key=float)` is taken over. */
  function EnergyPool(c: Columns, exp: seq<ExpRow>): seq<string> {
    c.energies + MapSeq(RowEnergy, exp)
  }

  /**
   * From the gathered list to the drawn panels. As written (`corrected` false) the loop raises
   * NameError on its first iteration, so it draws something only when there is no energy at
   * all; corrected, it is the enumerating loop. In the script that empty case is never reached:
   * `max(theta_values_csv)` before the loop raises ValueError when no experimental row is
   * left, and `max_theta` is a parameter here.
   */
  function Figure(all: seq<Entry<EnergyRecord>>, exp: seq<ExpRow>, parse: NumberParser, maxTheta: int, corrected: bool)
    : Result<seq<Panel>, ScriptError>
  {
    match Project(all)
    case Failure(e) => Failure(e)
    case Success(c) =>
      match UniqueEnergies(EnergyPool(c, exp), parse)
      case None => Failure(ValueError)
      case Some(u) =>
        if corrected then Plots(u, ElemSeries(c, exp), ElemStyle(maxTheta))
        else if u == [] then Success([])
        else Failure(NameError("idx"))
  }

  /** The script as written: read the theory files, project, list the energies, and enter the loop. */
  method RunAsWritten(files: seq<DataFile>, exp: seq<ExpRow>, parse: NumberParser, maxTheta: int)
    returns (r: Result<seq<Panel>, ScriptError>)
    ensures r == Figure(Gathered(files, DatId, parse, WithEnergy), exp, parse, maxTheta, false)
  {
    var all := Gather([], files, DatId, parse, WithEnergy);
    assert all == Gathered(files, DatId, parse, WithEnergy);
    var cols := Project(all);
    if cols.Failure? {
      return Failure(cols.error);
    }
    var unique := UniqueEnergies(EnergyPool(cols.value, exp), parse);
    if unique.None? {
      return Failure(ValueError);
    }
    var panels: seq<Panel> := [];
    for k := 0 to |unique.value|
      invariant panels == []
    {
      // `power_of_10 = len(unique_mev_values) - idx - 1`, and no `idx` is bound
      return Failure(NameError("idx"));
    }
    r := Success(panels);
  }

  /**
   * As written the loop never draws a curve: as soon as it has one theory record or one
   * experimental row, and the projections and the energy list succeed, it raises NameError;
   * the corrected loop draws a panel for each of those energies when there are at most ten.
   * The script itself enters the loop only with at least one experimental row, since
   * `max(theta_values_csv)` comes first.
   */
  lemma NameErrorOnAnyEnergy(all: seq<Entry<EnergyRecord>>, exp: seq<ExpRow>, parse: NumberParser, maxTheta: int)
    requires Project(all).Success?
    requires UniqueEnergies(EnergyPool(Project(all).value, exp), parse).Some?
    requires |all| > 0 || |exp| > 0
    ensures Figure(all, exp, parse, maxTheta, false) == Failure(NameError("idx"))
    ensures |UniqueEnergies(EnergyPool(Project(all).value, exp), parse).value| <= |CsvMarkers| ==>
              Figure(all, exp, parse, maxTheta, true).Success? &&
              |Figure(all, exp, parse, maxTheta, true).value| > 0
  {
    var c := Project(all).value;
    var pool := EnergyPool(c, exp);
    var u := UniqueEnergies(pool, parse).value;
    MapSeqAt(RowEnergy, exp);
    assert |pool| > 0;
    assert pool[0] in pool;
    assert pool[0] in u;
    PlotsShape(u, ElemSeries(c, exp), ElemStyle(maxTheta));
  }

  /**
   * The corrected loop fails exactly when there are more than ten distinct energies, the
   * eleventh taking `next` of an exhausted marker iterator; otherwise the `i`-th panel holds the
   * theory curve without a marker and the experimental points with the `i`-th marker, and the
   * two legends carry the same power-of-ten suffix.
   */
  lemma CorrectedFigure(all: seq<Entry<EnergyRecord>>, exp: seq<ExpRow>, parse: NumberParser, maxTheta: int)
    requires Project(all).Success?
    requires UniqueEnergies(EnergyPool(Project(all).value, exp), parse).Some?
    ensures var u := UniqueEnergies(EnergyPool(Project(all).value, exp), parse).value;
            var f := Figure(all, exp, parse, maxTheta, true);
            (f == Failure(StopIteration) <==> |u| > |CsvMarkers|) &&
            (f.Success? ==>
               |f.value| == |u| &&
               forall i :: 0 <= i < |u| ==>
                 |f.value[i].curves| == 2 &&
                 f.value[i].curves[0].legend == Label("Theor. data ", u[i], |u| - i - 1) &&
                 f.value[i].curves[0].marker == None &&
                 f.value[i].curves[1].legend == Label("Exp. data ", u[i], |u| - i - 1) &&
                 f.value[i].curves[1].marker == Some(CsvMarkers[i]))
  {
    var c := Project(all).value;
    var u := UniqueEnergies(EnergyPool(c, exp), parse).value;
    PlotsShape(u, ElemSeries(c, exp), ElemStyle(maxTheta));
  }

  /**
   * The theory curve of an energy holds the angles of the theory records with that energy in
   * the window, each next to its own DCS value: the `j`-th angle and the `j`-th value come
   * from one record `i`.
   */
  lemma TheoryCurveSound(all: seq<Entry<EnergyRecord>>, mev: string, maxTheta: int, j: nat) returns (i: nat)
    requires Project(all).Success?
    requires j < |Select(Project(all).value.thetas, Project(all).value.energies, mev, UpTo(maxTheta))|
    ensures var c := Project(all).value;
            |Select(c.thetas, c.energies, mev, UpTo(maxTheta))| == |SelectBy(c.thetas, c.dcs, c.energies, mev, UpTo(maxTheta))| &&
            i < |all| && all[i].rec.energy == mev && InWindow(UpTo(maxTheta), all[i].rec.point.theta) &&
            Select(c.thetas, c.energies, mev, UpTo(maxTheta))[j] == all[i].rec.point.theta &&
            SelectBy(c.thetas, c.dcs, c.energies, mev, UpTo(maxTheta))[j] == all[i].rec.point.dcs
  {
    var c := Project(all).value;
    var w := UpTo(maxTheta);
    SelectPicks(c.thetas, c.energies, mev, w);
    SelectByPicks(c.thetas, c.dcs, c.energies, mev, w);
    KeptExactly(c.thetas, c.energies, mev, w);
    var kept := Kept(c.thetas, c.energies, mev, w);
    assert kept[j] in kept;
    i := kept[j];
  }
}
