/**
 * The script that transforms the experimental data to the centre-of-mass frame and compares
 * it with the theory tables of one isotope: the theory files `T...-<energy>MEV.dat` are read
 * into one list tagged with their energy ids, one table `E...-<energy>MEV.dat` is written per
 * experimental energy, and the figure draws, for every energy, the experimental points and
 * the theory curve inside the angle window, scaled by powers of ten.
 */
module Article {
  import opened Results
  import opened Seqs
  import opened EnergyId
  import opened CalcDcs
  import opened Selection
  import opened Plot

  /** The theory loop: every file's records, tagged with the energy id of its base name, in one list. */
  method GatherTheory(files: seq<DataFile>, parse: NumberParser) returns (all: seq<Entry<EnergyRecord>>)
    ensures all == Gathered(files, DatId, parse, WithEnergy)
  {
    all := Gather([], files, DatId, parse, WithEnergy);
  }

  /**
   * `pd.DataFrame(theoretical_extracted_data, columns=[...])`: the records, or a ValueError
   * when the list holds the characters of an error message among its row dictionaries.
   */
  function TheoryTable(all: seq<Entry<EnergyRecord>>): (t: Result<seq<EnergyRecord>, ScriptError>)
    ensures t.Success? <==> forall i :: 0 <= i < |all| ==> all[i].Record?
    ensures t.Failure? ==> t.error == ValueError
  {
    match Records(all)
    case None => Failure(ValueError)
    case Some(rs) => Success(rs)
  }

  /** The theory curve of every energy: angles and DCS of the theory table, in the window. */
  function TheorySeries(rs: seq<EnergyRecord>): Series {
    Series("Theor. data ", MapSeq(RecTheta, rs), MapSeq(RecDcs, rs), MapSeq(RecEnergy, rs), false)
  }

  /** Plotting order: the experimental points first (fixed marker), then the theory curve. */
  function ArticleSeries(rs: seq<EnergyRecord>, exp: seq<ExpRow>): seq<Series> {
    [ExpSeries(exp, true), TheorySeries(rs)]
  }

  /** Window `[1, max_theta]`, powers of ten, and the one marker `'x'` (no iterator). */
  function ArticleStyle(maxTheta: int): Style {
    Style(UpTo(maxTheta), true, false, Some("x"))
  }

  /** The energies `sorted(...)` is taken over: those of the theory table and of the experiment. */
  function EnergyPool(rs: seq<EnergyRecord>, exp: seq<ExpRow>): seq<string> {
    MapSeq(RecEnergy, rs) + MapSeq(RowEnergy, exp)
  }

  /**
   * From the gathered list to the drawn panels: the theory table, then
   * `sorted(list(set(theory).union(set(experiment))), key=float)`, then the plotting loop.
   */
  function Figure(all: seq<Entry<EnergyRecord>>, exp: seq<ExpRow>, parse: NumberParser, maxTheta: int)
    : Result<seq<Panel>, ScriptError>
  {
    match TheoryTable(all)
    case Failure(e) => Failure(e)
    case Success(rs) =>
      match UniqueEnergies(EnergyPool(rs, exp), parse)
      case None => Failure(ValueError)
      case Some(u) => Plots(u, ArticleSeries(rs, exp), ArticleStyle(maxTheta))
  }

  /** The script: read the theory files, build the table, list the energies and plot. */
  method Run(files: seq<DataFile>, exp: seq<ExpRow>, parse: NumberParser, maxTheta: int)
    returns (r: Result<seq<Panel>, ScriptError>)
    ensures r == Figure(Gathered(files, DatId, parse, WithEnergy), exp, parse, maxTheta)
  {
    var all := GatherTheory(files, parse);
    var table := TheoryTable(all);
    if table.Failure? {
      return Failure(table.error);
    }
    var rs := table.value;
    var unique := UniqueEnergies(EnergyPool(rs, exp), parse);
    if unique.None? {
      return Failure(ValueError);
    }
    r := PlotEnergies(unique.value, ArticleSeries(rs, exp), ArticleStyle(maxTheta));
  }

  /**
   * The figure fails exactly when some theory file does not read cleanly, or when they all do
   * and some theory or experimental energy does not convert with `float`; it never runs out
   * of markers.
   */
  lemma FigureFailure(files: seq<DataFile>, exp: seq<ExpRow>, parse: NumberParser, maxTheta: int)
    ensures var all := Gathered(files, DatId, parse, WithEnergy);
            ((exists k :: 0 <= k < |files| && !ReadsCleanly(files[k].content, parse)) ==>
               Figure(all, exp, parse, maxTheta) == Failure(ValueError)) &&
            ((forall k :: 0 <= k < |files| ==> ReadsCleanly(files[k].content, parse)) ==>
               Records(all).Some? &&
               (Figure(all, exp, parse, maxTheta).Failure? <==>
                  exists x :: x in EnergyPool(Records(all).value, exp) && parse(x).None?))
  {
    var all := Gathered(files, DatId, parse, WithEnergy);
    GatheredRecordsIff(files, DatId, parse, WithEnergy);
    if Records(all).Some? {
      var rs := Records(all).value;
      var u := UniqueEnergies(EnergyPool(rs, exp), parse);
      if u.Some? {
        PlotsShape(u.value, ArticleSeries(rs, exp), ArticleStyle(maxTheta));
      }
    }
  }

  /**
   * For the `i`-th energy the figure draws the experimental points, then the theory curve;
   * the theory curve holds the angles and DCS values of the theory rows
   * `theoretical_data_df.loc[...]` keeps for that energy and window, and the two legends end
   * with the same power-of-ten suffix; the points carry the marker `'x'` and the curve none.
   */
  lemma TheoryCurveIsLoc(rs: seq<EnergyRecord>, exp: seq<ExpRow>, u: seq<string>, maxTheta: int, i: nat)
    requires Plots(u, ArticleSeries(rs, exp), ArticleStyle(maxTheta)).Success?
    requires i < |u|
    ensures var ps := Plots(u, ArticleSeries(rs, exp), ArticleStyle(maxTheta)).value;
            var w := UpTo(maxTheta);
            i < |ps| && |ps[i].curves| == 2 &&
            ps[i].curves[0].legend == Label("Exp. data ", u[i], ps[i].exponent) &&
            ps[i].curves[1].legend == Label("Theor. data ", u[i], ps[i].exponent) &&
            ps[i].curves[1].thetas == LocColumn(rs, RecEnergy, RecTheta, u[i], w, RecTheta) &&
            ps[i].curves[1].dcs == LocColumn(rs, RecEnergy, RecTheta, u[i], w, RecDcs) &&
            ps[i].curves[0].thetas == LocColumn(exp, RowEnergy, RowTheta, u[i], w, RowTheta) &&
            ps[i].curves[0].dcs == LocColumn(exp, RowEnergy, RowTheta, u[i], w, RowDcs) &&
            ps[i].curves[0].marker == Some("x") && ps[i].curves[1].marker == None
  {
    PlotsShape(u, ArticleSeries(rs, exp), ArticleStyle(maxTheta));
    LocIsSelect(rs, RecEnergy, RecTheta, RecDcs, u[i], UpTo(maxTheta));
    LocIsSelect(exp, RowEnergy, RowTheta, RowDcs, u[i], UpTo(maxTheta));
  }

  /** `experimental_data_df['E (MEV)'].unique()`: the experimental energies in order of first appearance. */
  function ExpEnergiesOnce(exp: seq<ExpRow>): seq<string> {
    Dedup(MapSeq(RowEnergy, exp))
  }

  /** The names of the tables written for the experimental energies, one per energy. */
  function OutputNames(projectile: string, symbol: string, mass: nat, exp: seq<ExpRow>): seq<string> {
    MapSeq((mev: string) => OutputName(projectile, symbol, mass, mev), ExpEnergiesOnce(exp))
  }

  /**
   * One table is written per experimental energy, and every name reads back, with the decoding
   * the scripts apply to theory file names, as the energy it was written for; distinct energies
   * therefore never write to the same file. This holds for energies without `-` and `p`.
   */
  lemma OutputNamesDistinct(projectile: string, symbol: string, mass: nat, exp: seq<ExpRow>)
    requires forall j :: 0 <= j < |exp| ==> '-' !in exp[j].energy && 'p' !in exp[j].energy
    ensures var names := OutputNames(projectile, symbol, mass, exp);
            var es := ExpEnergiesOnce(exp);
            |names| == |es| &&
            (forall x :: x in es <==> exists j :: 0 <= j < |exp| && exp[j].energy == x) &&
            (forall i :: 0 <= i < |names| ==> EnergyIdOf(names[i], DatTag) == es[i]) &&
            NoDup(names)
  {
    var f := (mev: string) => OutputName(projectile, symbol, mass, mev);
    var es := ExpEnergiesOnce(exp);
    var names := OutputNames(projectile, symbol, mass, exp);
    MapSeqAt(RowEnergy, exp);
    MapSeqAt(f, es);
    forall x | x in es
      ensures exists j :: 0 <= j < |exp| && exp[j].energy == x
    {
      var j :| 0 <= j < |exp| && MapSeq(RowEnergy, exp)[j] == x;
    }
    forall x | exists j :: 0 <= j < |exp| && exp[j].energy == x
      ensures x in es
    {
      var j :| 0 <= j < |exp| && exp[j].energy == x;
      assert MapSeq(RowEnergy, exp)[j] == x;
    }
    forall i | 0 <= i < |names|
      ensures EnergyIdOf(names[i], DatTag) == es[i]
    {
      assert es[i] in es;
      OutputNameRoundTrip(projectile, symbol, mass, es[i]);
    }
  }
}
