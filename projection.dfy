/**
 * The five column projections two of the scripts apply to the gathered list of records:
 * `[row['E (MEV)'] for row in all_extracted_data]` and the like for the angle, `MU`, DCS and
 * Rutherford DCS.
 */
module Projection {
  import opened Results
  import opened Seqs
  import opened CalcDcs
  import opened Plot

  /** `MEV_values`, `theta_values`, `mu_values`, `dcs_values`, `dcs_ruth_values`. */
  datatype Columns = Columns(energies: seq<string>, thetas: seq<real>, mus: seq<real>, dcs: seq<real>, ruths: seq<real>)

  /**
   * The five comprehensions `[row['...'] for row in all_extracted_data]`: one entry per
   * record, the `i`-th of every column from the `i`-th record; a TypeError when the list holds
   * the characters of an error message.
   */
  function Project(all: seq<Entry<EnergyRecord>>): (c: Result<Columns, ScriptError>)
    ensures c.Success? <==> forall i :: 0 <= i < |all| ==> all[i].Record?
    ensures c.Failure? ==> c.error == TypeError
    ensures c.Success? ==>
              |c.value.energies| == |all| && |c.value.thetas| == |all| && |c.value.mus| == |all| &&
              |c.value.dcs| == |all| && |c.value.ruths| == |all| &&
              forall i :: 0 <= i < |all| ==>
                c.value.energies[i] == all[i].rec.energy && c.value.thetas[i] == all[i].rec.point.theta &&
                c.value.mus[i] == all[i].rec.point.mu && c.value.dcs[i] == all[i].rec.point.dcs &&
                c.value.ruths[i] == all[i].rec.point.dcsRuth
  {
    match Records(all)
    case None => Failure(TypeError)
    case Some(rs) =>
      MapSeqAt(RecEnergy, rs);
      MapSeqAt(RecTheta, rs);
      MapSeqAt(RecMu, rs);
      MapSeqAt(RecDcs, rs);
      MapSeqAt(RecRuth, rs);
      Success(Columns(MapSeq(RecEnergy, rs), MapSeq(RecTheta, rs), MapSeq(RecMu, rs), MapSeq(RecDcs, rs), MapSeq(RecRuth, rs)))
  }

  /** The projections of the gathered list succeed exactly when every file reads cleanly. */
  lemma ProjectIff(files: seq<DataFile>, idOf: string -> string, parse: NumberParser)
    ensures Project(Gathered(files, idOf, parse, WithEnergy)).Success? <==>
              forall k :: 0 <= k < |files| ==> ReadsCleanly(files[k].content, parse)
  {
    GatheredRecordsIff(files, idOf, parse, WithEnergy);
  }
}
