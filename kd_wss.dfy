/**
 * The script comparing two optical models, Koning-Delaroche (KD) and Watson-Singh-Segel (WSS):
 * its records carry the model tag and the energy, the KD files are read before the WSS files
 * into one list, and the per-model columns are filtered per energy.
 *
 * As written, the per-model angle columns are zipped against the energy column of ALL records,
 * so the WSS angles are paired with the energies of the leading (KD) records. The model keeps
 * that behaviour (`Figure` with `corrected` false), proves what it amounts to (`WssPairedWithKd`,
 * `WssCounterexample`), and gives the corrected pairing with the per-model energies
 * (`Figure` with `corrected` true, `ModelSelectionSound`, `ModelSelectionComplete`).
 */
module KdWss {
  import opened Results
  import opened EnergyId
  import opened Seqs
  import opened CalcDcs
  import opened Selection
  import opened Plot

  const KD: string := "KD"
  const WSS: string := "WSS"

  /** A record of `extract_data(file_path, file_id, opt_id)`: the model tag, the energy id and the point. */
  datatype ModelRecord = ModelRecord(model: string, energy: string, point: Point)

  /** The record maker for one model: `'Optical model': opt_id, 'E (MEV)': file_id, ...`. */
  function Tagger(model: string): (string, Point) -> ModelRecord {
    (id: string, p: Point) => ModelRecord(model, id, p)
  }

  /** The guard `row['Optical model'] == model`. */
  function IsModel(model: string): ModelRecord -> bool {
    (r: ModelRecord) => r.model == model
  }

  function EnergyOf(r: ModelRecord): string { r.energy }
  function ThetaOf(r: ModelRecord): real { r.point.theta }
  function DcsOf(r: ModelRecord): real { r.point.dcs }

  /** `MEV_values = [row['E (MEV)'] for row in all_extracted_data]`: the energies of all records. */
  function Energies(rs: seq<ModelRecord>): seq<string> {
    MapSeq(EnergyOf, rs)
  }

  /** `[row['Theta (deg)'] for row in all_extracted_data if row['Optical model'] == model]`. */
  function ModelThetas(rs: seq<ModelRecord>, model: string): seq<real> {
    Comprehend(rs, IsModel(model), ThetaOf)
  }

  /** `[row['DCS (cm^2/sr)'] for row in all_extracted_data if row['Optical model'] == model]`. */
  function ModelDcs(rs: seq<ModelRecord>, model: string): seq<real> {
    Comprehend(rs, IsModel(model), DcsOf)
  }

  /** The energies of the records of one model: the column the per-model angles belong with. */
  function ModelEnergies(rs: seq<ModelRecord>, model: string): seq<string> {
    Comprehend(rs, IsModel(model), EnergyOf)
  }

  /**
   * The two file loops: the KD files with `opt_id = 'KD'`, then the WSS files with
   * `opt_id = 'WSS'`, each result appended to the one list with `extend`.
   */
  method GatherModels(kdFiles: seq<DataFile>, wssFiles: seq<DataFile>, parse: NumberParser)
    returns (all: seq<Entry<ModelRecord>>)
    ensures all == Gathered(kdFiles, DatId, parse, Tagger(KD)) + Gathered(wssFiles, DatId, parse, Tagger(WSS))
  {
    all := Gather([], kdFiles, DatId, parse, Tagger(KD));
    assert all == Gathered(kdFiles, DatId, parse, Tagger(KD));
    all := Gather(all, wssFiles, DatId, parse, Tagger(WSS));
  }

  /** Every record read by the loop of one model carries that model's tag. */
  lemma GatheredModel(files: seq<DataFile>, parse: NumberParser, model: string)
    requires Records(Gathered(files, DatId, parse, Tagger(model))).Some?
    ensures forall i :: 0 <= i < |Records(Gathered(files, DatId, parse, Tagger(model))).value| ==>
              Records(Gathered(files, DatId, parse, Tagger(model))).value[i].model == model
  {
    var es := Gathered(files, DatId, parse, Tagger(model));
    forall i | 0 <= i < |Records(es).value|
      ensures Records(es).value[i].model == model
    {
      GatheredRecordsTagged(files, DatId, parse, Tagger(model), i);
    }
  }

  /**
   * The projections succeed exactly when every KD and WSS file reads without error, and the
   * records are then the KD records followed by the WSS records.
   */
  lemma KdBeforeWss(kdFiles: seq<DataFile>, wssFiles: seq<DataFile>, parse: NumberParser)
    ensures var kd := Gathered(kdFiles, DatId, parse, Tagger(KD));
            var wss := Gathered(wssFiles, DatId, parse, Tagger(WSS));
            (Records(kd + wss).Some? <==>
               (forall k :: 0 <= k < |kdFiles| ==> ReadsCleanly(kdFiles[k].content, parse)) &&
               (forall k :: 0 <= k < |wssFiles| ==> ReadsCleanly(wssFiles[k].content, parse))) &&
            (Records(kd + wss).Some? ==>
               Records(kd).Some? && Records(wss).Some? &&
               Records(kd + wss).value == Records(kd).value + Records(wss).value &&
               (forall i :: 0 <= i < |Records(kd).value| ==> Records(kd).value[i].model == KD) &&
               (forall i :: 0 <= i < |Records(wss).value| ==> Records(wss).value[i].model == WSS))
  {
    var kd := Gathered(kdFiles, DatId, parse, Tagger(KD));
    var wss := Gathered(wssFiles, DatId, parse, Tagger(WSS));
    RecordsAppend(kd, wss);
    GatheredRecordsIff(kdFiles, DatId, parse, Tagger(KD));
    GatheredRecordsIff(wssFiles, DatId, parse, Tagger(WSS));
    if Records(kd + wss).Some? {
      RecordsAppendValue(kd, wss);
      GatheredModel(kdFiles, parse, KD);
      GatheredModel(wssFiles, parse, WSS);
    }
  }

  /**
   * The angle, DCS and energy columns of one model have one entry per record of that model,
   * taken in record order from the same record.
   */
  lemma ModelColumnsAligned(rs: seq<ModelRecord>, model: string)
    ensures var h := Hits(rs, IsModel(model));
            |ModelThetas(rs, model)| == |h| && |ModelDcs(rs, model)| == |h| && |ModelEnergies(rs, model)| == |h| &&
            forall j :: 0 <= j < |h| ==>
              rs[h[j]].model == model &&
              ModelThetas(rs, model)[j] == rs[h[j]].point.theta &&
              ModelDcs(rs, model)[j] == rs[h[j]].point.dcs &&
              ModelEnergies(rs, model)[j] == rs[h[j]].energy
  {
    ComprehendPicks(rs, IsModel(model), ThetaOf);
    ComprehendPicks(rs, IsModel(model), DcsOf);
    ComprehendPicks(rs, IsModel(model), EnergyOf);
  }

  /** Whether the first records are all KD and the rest all WSS. */
  predicate KdThenWss(a: seq<ModelRecord>, b: seq<ModelRecord>) {
    (forall i :: 0 <= i < |a| ==> a[i].model == KD) && (forall i :: 0 <= i < |b| ==> b[i].model == WSS)
  }

  lemma SplitColumn<U>(a: seq<ModelRecord>, b: seq<ModelRecord>, f: ModelRecord -> U)
    requires KdThenWss(a, b)
    ensures Comprehend(a + b, IsModel(KD), f) == MapSeq(f, a)
    ensures Comprehend(a + b, IsModel(WSS), f) == MapSeq(f, b)
  {
    ComprehendAppend(a, b, IsModel(KD), f);
    ComprehendAll(a, IsModel(KD), f);
    ComprehendNone(b, IsModel(KD), f);
    ComprehendAppend(a, b, IsModel(WSS), f);
    ComprehendNone(a, IsModel(WSS), f);
    ComprehendAll(b, IsModel(WSS), f);
  }

  /**
   * With the KD records first, the KD columns are those of the KD records, the WSS columns
   * those of the WSS records, and the energy column of all records opens with the KD energies.
   */
  lemma ModelsSplit(a: seq<ModelRecord>, b: seq<ModelRecord>)
    requires KdThenWss(a, b)
    ensures ModelThetas(a + b, KD) == MapSeq(ThetaOf, a) && ModelDcs(a + b, KD) == MapSeq(DcsOf, a)
    ensures ModelEnergies(a + b, KD) == Energies(a)
    ensures ModelThetas(a + b, WSS) == MapSeq(ThetaOf, b) && ModelDcs(a + b, WSS) == MapSeq(DcsOf, b)
    ensures ModelEnergies(a + b, WSS) == Energies(b)
    ensures Energies(a + b) == Energies(a) + Energies(b)
    ensures |Energies(a)| == |a| && |ModelThetas(a + b, KD)| == |a| && |ModelThetas(a + b, WSS)| == |b|
  {
    SplitColumn(a, b, ThetaOf);
    SplitColumn(a, b, DcsOf);
    SplitColumn(a, b, EnergyOf);
    MapSeqAppend(EnergyOf, a, b);
    MapSeqAt(EnergyOf, a);
    MapSeqAt(ThetaOf, a);
    MapSeqAt(ThetaOf, b);
  }

  /**
   * The KD comprehensions as written select what the corrected ones select: the KD angles come
   * first, so `zip(theta_values_KD, MEV_values)` pairs each with its own record's energy.
   */
  lemma KdSelectionAsIntended(a: seq<ModelRecord>, b: seq<ModelRecord>, mev: string, w: AngleWindow)
    requires KdThenWss(a, b)
    ensures Select(ModelThetas(a + b, KD), Energies(a + b), mev, w)
         == Select(ModelThetas(a + b, KD), ModelEnergies(a + b, KD), mev, w)
    ensures SelectBy(ModelThetas(a + b, KD), ModelDcs(a + b, KD), Energies(a + b), mev, w)
         == SelectBy(ModelThetas(a + b, KD), ModelDcs(a + b, KD), ModelEnergies(a + b, KD), mev, w)
  {
    ModelsSplit(a, b);
    SelectIgnoresTail(ModelThetas(a + b, KD), ModelDcs(a + b, KD), Energies(a), Energies(b), mev, w);
  }

  /**
   * As written, the WSS comprehensions pair the `i`-th WSS angle and value with the energy of
   * the `i`-th record overall, KD records first, then WSS records. When there are at least as
   * many KD records as WSS records, the WSS curves are the WSS angles and values filtered by
   * the KD energies alone.
   */
  lemma WssPairedWithKd(a: seq<ModelRecord>, b: seq<ModelRecord>, mev: string, w: AngleWindow)
    requires KdThenWss(a, b)
    ensures Select(ModelThetas(a + b, WSS), Energies(a + b), mev, w)
         == Select(MapSeq(ThetaOf, b), Energies(a) + Energies(b), mev, w)
    ensures SelectBy(ModelThetas(a + b, WSS), ModelDcs(a + b, WSS), Energies(a + b), mev, w)
         == SelectBy(MapSeq(ThetaOf, b), MapSeq(DcsOf, b), Energies(a) + Energies(b), mev, w)
    ensures |b| <= |a| ==>
      Select(ModelThetas(a + b, WSS), Energies(a + b), mev, w)
      == Select(MapSeq(ThetaOf, b), Energies(a), mev, w)
    ensures |b| <= |a| ==>
      SelectBy(ModelThetas(a + b, WSS), ModelDcs(a + b, WSS), Energies(a + b), mev, w)
      == SelectBy(MapSeq(ThetaOf, b), MapSeq(DcsOf, b), Energies(a), mev, w)
  {
    ModelsSplit(a, b);
    if |b| <= |a| {
      SelectIgnoresTail(ModelThetas(a + b, WSS), ModelDcs(a + b, WSS), Energies(a), Energies(b), mev, w);
    }
  }

  /** An angle inside a window of `[1, 30]`. */
  const Probe: Point := Point(20.0, 0.0, 1.0, 1.0)

  /**
   * One KD record at "10" MeV and one WSS record at "20" MeV, both at 20 degrees: as written,
   * the WSS point is drawn under "10" MeV and missing from the "20" MeV curve, where the
   * corrected pairing puts it.
   */
  lemma WssCounterexample()
    ensures var rs := [ModelRecord(KD, "10", Probe), ModelRecord(WSS, "20", Probe)];
            Select(ModelThetas(rs, WSS), Energies(rs), "20", UpTo(30)) == [] &&
            Select(ModelThetas(rs, WSS), Energies(rs), "10", UpTo(30)) == [20.0] &&
            Select(ModelThetas(rs, WSS), ModelEnergies(rs, WSS), "20", UpTo(30)) == [20.0]
  {
    var a, b := [ModelRecord(KD, "10", Probe)], [ModelRecord(WSS, "20", Probe)];
    var rs := [ModelRecord(KD, "10", Probe), ModelRecord(WSS, "20", Probe)];
    assert rs == a + b;
    assert KdThenWss(a, b);
    ModelsSplit(a, b);
    assert MapSeq(ThetaOf, b) == [20.0];
    assert MapSeq(EnergyOf, a) == ["10"];
    assert MapSeq(EnergyOf, b) == ["20"];
    assert Energies(rs) == ["10", "20"];
    assert "10" != "20";
    SelectSingle(20.0, ["10", "20"], "20", UpTo(30));
    SelectSingle(20.0, ["10", "20"], "10", UpTo(30));
    SelectSingle(20.0, ["20"], "20", UpTo(30));
  }

  /**
   * The corrected per-model comprehensions: the selected angles and values have the same
   * length, and the `j`-th of each is the angle and the DCS of one record `i` of that model
   * whose energy is `mev` and whose angle lies in the window.
   */
  lemma ModelSelectionSound(rs: seq<ModelRecord>, model: string, mev: string, w: AngleWindow, j: nat) returns (i: nat)
    requires j < |Select(ModelThetas(rs, model), ModelEnergies(rs, model), mev, w)|
    ensures |Select(ModelThetas(rs, model), ModelEnergies(rs, model), mev, w)|
         == |SelectBy(ModelThetas(rs, model), ModelDcs(rs, model), ModelEnergies(rs, model), mev, w)|
    ensures i < |rs| && rs[i].model == model && rs[i].energy == mev && InWindow(w, rs[i].point.theta)
    ensures Select(ModelThetas(rs, model), ModelEnergies(rs, model), mev, w)[j] == rs[i].point.theta
    ensures SelectBy(ModelThetas(rs, model), ModelDcs(rs, model), ModelEnergies(rs, model), mev, w)[j] == rs[i].point.dcs
  {
    var thetas, dcs, es := ModelThetas(rs, model), ModelDcs(rs, model), ModelEnergies(rs, model);
    var h := Hits(rs, IsModel(model));
    ModelColumnsAligned(rs, model);
    SelectPicks(thetas, es, mev, w);
    SelectByPicks(thetas, dcs, es, mev, w);
    KeptExactly(thetas, es, mev, w);
    var kept := Kept(thetas, es, mev, w);
    var k := kept[j];
    assert k in kept;
    i := h[k];
  }

  /** And every record of the model whose energy is `mev` and whose angle lies in the window is drawn. */
  lemma ModelSelectionComplete(rs: seq<ModelRecord>, model: string, mev: string, w: AngleWindow, i: nat)
    requires i < |rs| && rs[i].model == model && rs[i].energy == mev && InWindow(w, rs[i].point.theta)
    ensures rs[i].point.theta in Select(ModelThetas(rs, model), ModelEnergies(rs, model), mev, w)
  {
    var thetas, es := ModelThetas(rs, model), ModelEnergies(rs, model);
    var h := Hits(rs, IsModel(model));
    ModelColumnsAligned(rs, model);
    assert i in h;
    var k :| 0 <= k < |h| && h[k] == i;
    SelectMembers(thetas, es, mev, w, rs[i].point.theta);
  }

  /** The legend prefixes of the three series, in plotting order. */
  const KdPrefix: string := "Theor. data for KD "
  const WssPrefix: string := "Theor. data for WSS "

  /** The series of lines 221-230 as written: both model columns filtered against `MEV_values`. */
  function SeriesAsWritten(rs: seq<ModelRecord>, exp: seq<ExpRow>): seq<Series> {
    [Series(KdPrefix, ModelThetas(rs, KD), ModelDcs(rs, KD), Energies(rs), false),
     Series(WssPrefix, ModelThetas(rs, WSS), ModelDcs(rs, WSS), Energies(rs), false),
     ExpSeries(exp, true)]
  }

  /** The corrected series: each model column filtered against the energies of its own records. */
  function SeriesCorrected(rs: seq<ModelRecord>, exp: seq<ExpRow>): seq<Series> {
    [Series(KdPrefix, ModelThetas(rs, KD), ModelDcs(rs, KD), ModelEnergies(rs, KD), false),
     Series(WssPrefix, ModelThetas(rs, WSS), ModelDcs(rs, WSS), ModelEnergies(rs, WSS), false),
     ExpSeries(exp, true)]
  }

  /** The loop of this script: angle window `[1, max_theta]`, powers of ten, the points always with `'o'`. */
  function KdWssStyle(maxTheta: int): Style {
    Style(UpTo(maxTheta), true, false, Some("o"))
  }

  /**
   * The loop never runs out of markers: for every energy it draws the KD and the WSS curves
   * without a marker and the experimental points with `'o'`, whichever pairing is used.
   */
  lemma FixedMarkers(rs: seq<ModelRecord>, exp: seq<ExpRow>, u: seq<string>, maxTheta: int, corrected: bool, i: nat)
    requires i < |u|
    ensures var f := Plots(u, if corrected then SeriesCorrected(rs, exp) else SeriesAsWritten(rs, exp), KdWssStyle(maxTheta));
            f.Success? && |f.value| == |u| && |f.value[i].curves| == 3 &&
            f.value[i].curves[0].marker == None && f.value[i].curves[1].marker == None &&
            f.value[i].curves[2].marker == Some("o")
  {
    PlotsShape(u, if corrected then SeriesCorrected(rs, exp) else SeriesAsWritten(rs, exp), KdWssStyle(maxTheta));
  }

  function ExpEnergies(exp: seq<ExpRow>): seq<string> {
    MapSeq(RowEnergy, exp)
  }

  /**
   * From the gathered list to the drawn panels: a TypeError when a projection meets the
   * characters of an error message, a ValueError when an energy does not convert, and
   * otherwise the loop over `sorted(set(MEV_values + MEV_values_csv), key=float)`.
   */
  function Figure(all: seq<Entry<ModelRecord>>, exp: seq<ExpRow>, parse: NumberParser, maxTheta: int, corrected: bool)
    : Result<seq<Panel>, ScriptError>
  {
    match Records(all)
    case None => Failure(TypeError)
    case Some(rs) =>
      match UniqueEnergies(Energies(rs) + ExpEnergies(exp), parse)
      case None => Failure(ValueError)
      case Some(u) => Plots(u, if corrected then SeriesCorrected(rs, exp) else SeriesAsWritten(rs, exp), KdWssStyle(maxTheta))
  }

  /** The script as written: gather both models, project, list the energies, and plot. */
  method RunAsWritten(kdFiles: seq<DataFile>, wssFiles: seq<DataFile>, exp: seq<ExpRow>, parse: NumberParser, maxTheta: int)
    returns (r: Result<seq<Panel>, ScriptError>)
    ensures r == Figure(Gathered(kdFiles, DatId, parse, Tagger(KD)) + Gathered(wssFiles, DatId, parse, Tagger(WSS)),
                        exp, parse, maxTheta, false)
  {
    var all := GatherModels(kdFiles, wssFiles, parse);
    var recs := Records(all);
    if recs.None? {
      return Failure(TypeError);
    }
    var rs := recs.value;
    var unique := UniqueEnergies(Energies(rs) + ExpEnergies(exp), parse);
    if unique.None? {
      return Failure(ValueError);
    }
    r := PlotEnergies(unique.value, SeriesAsWritten(rs, exp), KdWssStyle(maxTheta));
  }

  /**
   * The figure fails with a TypeError exactly when some KD or WSS file does not read cleanly,
   * whether the pairing is the one written or the corrected one.
   */
  lemma FigureTypeError(kdFiles: seq<DataFile>, wssFiles: seq<DataFile>, exp: seq<ExpRow>, parse: NumberParser, maxTheta: int, corrected: bool)
    ensures var all := Gathered(kdFiles, DatId, parse, Tagger(KD)) + Gathered(wssFiles, DatId, parse, Tagger(WSS));
            Figure(all, exp, parse, maxTheta, corrected) == Failure(TypeError) <==>
              (exists k :: 0 <= k < |kdFiles| && !ReadsCleanly(kdFiles[k].content, parse)) ||
              (exists k :: 0 <= k < |wssFiles| && !ReadsCleanly(wssFiles[k].content, parse))
  {
    var all := Gathered(kdFiles, DatId, parse, Tagger(KD)) + Gathered(wssFiles, DatId, parse, Tagger(WSS));
    KdBeforeWss(kdFiles, wssFiles, parse);
    if Records(all).Some? {
      var u := UniqueEnergies(Energies(Records(all).value) + ExpEnergies(exp), parse);
      if u.Some? {
        var st := KdWssStyle(maxTheta);
        var series := if corrected then SeriesCorrected(Records(all).value, exp) else SeriesAsWritten(Records(all).value, exp);
        assert Plots(u.value, series, st) != Failure(TypeError);
      }
    }
  }
}
