/**
 * Energy identifiers: the energy read from a data-file name, the output-file name
 * written for an energy, and the normalisation of an energy printed by `str(float)`.
 */
module EnergyId {
  import opened Results
  import opened PyStr

  /** The suffix of a theory table name, `<energy>MEV.dat`. */
  const DatTag: string := "MEV.dat"

  /** The suffix of an experimental table name, `<energy>MEV.csv`. */
  const CsvTag: string := "MEV.csv"

  /** In both tags the `.` (index 3) occurs once. */
  lemma TagsHaveOneDot()
    ensures forall j :: 0 <= j < |DatTag| && j != 3 ==> DatTag[j] != '.'
    ensures forall j :: 0 <= j < |CsvTag| && j != 3 ==> CsvTag[j] != '.'
    ensures DatTag[3] == '.' && CsvTag[3] == '.'
  {
  }

  /** `basename.split("-")[-1].replace(tag, "")`. */
  function RawId(basename: string, tag: string): (raw: string)
    requires tag != []
    ensures '-' !in raw
  {
    var last := Last(SplitOn(basename, "-"));
    LastPieceIsTail(basename, '-');
    ReplaceChars(last, tag, [], '-');
    Replace(last, tag, [])
  }

  /**
   * The energy id of a data file: the text after the last `-` of its base name, with every
   * `tag` removed and, when a `p` is left, every `p` turned into `.` ("179p3" stands for 179.3).
   */
  function EnergyIdOf(basename: string, tag: string): (id: string)
    requires tag != []
    ensures 'p' !in id && '-' !in id
  {
    var raw := RawId(basename, tag);
    ReplaceCharIsMapChar(raw, 'p', '.');
    if 'p' in raw then Replace(raw, "p", ".") else raw
  }

  /** The `if "p" in` guard changes nothing: replacing absent `p`s leaves the text as it is. */
  lemma GuardIsRedundant(basename: string, tag: string)
    requires tag != []
    ensures EnergyIdOf(basename, tag) == Replace(RawId(basename, tag), "p", ".")
    ensures EnergyIdOf(basename, tag) == MapChar(RawId(basename, tag), 'p', '.')
  {
    var raw := RawId(basename, tag);
    ReplaceCharIsMapChar(raw, 'p', '.');
    FindChar(raw, 'p');
  }

  /** The energy id of a theory table `<...>-<energy>MEV.dat` from its base name. */
  function DatId(basename: string): (id: string)
    ensures 'p' !in id && '-' !in id
  {
    EnergyIdOf(basename, DatTag)
  }

  /** `str(mev).replace(".", "p")`: the energy as it is written in a file name. */
  function EncodeId(mev: string): (e: string)
    ensures e == MapChar(mev, '.', 'p')
  {
    ReplaceCharIsMapChar(mev, '.', 'p');
    Replace(mev, ".", "p")
  }

  /** `f"E{projectile}{symbol}{mass}-{mev_p}MEV.dat"`: the name of the table written for one energy. */
  function OutputName(projectile: string, symbol: string, mass: nat, mev: string): (name: string)
    ensures EndsWith(name, "-" + EncodeId(mev) + DatTag)
  {
    var name := "E" + projectile + symbol + Decimal(mass) + "-" + EncodeId(mev) + DatTag;
    assert name == ("E" + projectile + symbol + Decimal(mass)) + ("-" + EncodeId(mev) + DatTag);
    name
  }

  /** The raw id of `pre-<e><tag>` is `e` when `e` has no `-` and no `.`. */
  lemma RawIdOfName(pre: string, e: string, tag: string)
    requires tag == DatTag || tag == CsvTag
    requires '-' !in e && '.' !in e
    ensures RawId(pre + "-" + e + tag, tag) == e
  {
    TagsHaveOneDot();
    var name := pre + "-" + e + tag;
    assert name == pre + ['-'] + (e + tag);
    assert '-' !in tag;
    assert '-' !in e + tag;
    LastPieceAfter(pre, '-', e + tag);
    RemoveTrailingTag(e, tag, 3);
  }

  /**
   * Reading the energy back from the name written for it gives that energy, provided the
   * energy has no `-` (the split would cut it) and no `p` (it would come back as `.`).
   */
  lemma OutputNameRoundTrip(projectile: string, symbol: string, mass: nat, mev: string)
    requires '-' !in mev && 'p' !in mev
    ensures EnergyIdOf(OutputName(projectile, symbol, mass, mev), DatTag) == mev
  {
    var e := EncodeId(mev);
    assert '-' !in e && '.' !in e;
    var pre := "E" + projectile + symbol + Decimal(mass);
    assert OutputName(projectile, symbol, mass, mev) == pre + "-" + e + DatTag;
    RawIdOfName(pre, e, DatTag);
    GuardIsRedundant(pre + "-" + e + DatTag, DatTag);
    assert MapChar(e, 'p', '.') == mev;
  }

  /**
   * The other direction: the energy field `r` of a name `pre-<r><tag>`, decoded and encoded
   * again, is `r` itself when it has no `.` and no `-`.
   */
  lemma EncodeDecodedId(pre: string, r: string, tag: string)
    requires tag == DatTag || tag == CsvTag
    requires '.' !in r && '-' !in r
    ensures EncodeId(EnergyIdOf(pre + "-" + r + tag, tag)) == r
  {
    RawIdOfName(pre, r, tag);
    GuardIsRedundant(pre + "-" + r + tag, tag);
    assert MapChar(MapChar(r, 'p', '.'), '.', 'p') == r;
  }

  lemma EndsWithFound(s: string, suffix: string)
    ensures EndsWith(s, suffix) ==> Find(s, suffix) >= 0
  {
    if EndsWith(s, suffix) {
      assert OccursAt(s, suffix, |s| - |suffix|);
    }
  }

  /**
   * `x.split('.0')[0] if x.endswith('.0') else x`: an energy printed as "45.0" becomes "45".
   * The result is a prefix of `x`, never ends in ".0", and differs from `x` exactly when `x` ends in ".0".
   */
  function NormaliseEnergy(x: string): (r: string)
    ensures StartsWith(x, r)
    ensures !EndsWith(r, ".0")
    ensures r == x <==> !EndsWith(x, ".0")
  {
    if EndsWith(x, ".0") then
      EndsWithFound(x, ".0");
      var r := SplitOn(x, ".0")[0];
      assert r == x[..Find(x, ".0")];
      EndsWithFound(r, ".0");
      r
    else x
  }

  /** When the text ends in ".0" the result is the text before the first ".0". */
  lemma NormaliseCutsAtFirst(x: string)
    requires EndsWith(x, ".0")
    ensures Find(x, ".0") >= 0 && NormaliseEnergy(x) == x[..Find(x, ".0")]
  {
    EndsWithFound(x, ".0");
  }

  /** Normalising twice is normalising once. */
  lemma NormaliseIdempotent(x: string)
    ensures NormaliseEnergy(NormaliseEnergy(x)) == NormaliseEnergy(x)
  {
  }

  lemma NormaliseExamples()
    ensures NormaliseEnergy("45.0") == "45"
    ensures NormaliseEnergy("179.3") == "179.3"
  {
    assert OccursAt("45.0", ".0", 2);
    NormaliseCutsAtFirst("45.0");
    assert "45.0"[1..3][0] == '5';
    assert !OccursAt("45.0", ".0", 0) && !OccursAt("45.0", ".0", 1);
  }

  /**
   * `path.split(marker)[1].replace(tag, "")`: the piece of the full path between the first
   * and the second `marker` (or the end), with every `tag` removed and no `p` converted.
   * `None` is the IndexError raised when `marker` does not occur.
   */
  function PieceAfterMarker(path: string, marker: string, tag: string): (id: Option<string>)
    requires marker != [] && tag != []
    ensures id.None? <==> Find(path, marker) == -1
  {
    var pieces := SplitOn(path, marker);
    if |pieces| < 2 then None else Some(Replace(pieces[1], tag, []))
  }

  /** The theory energy id of a `calcDCS_<energy>MEV.dat` path. */
  function TheoryIdOfPath(path: string): Option<string> {
    PieceAfterMarker(path, "calcDCS_", DatTag)
  }

  /** The experimental energy id of a `Si28_<energy>MEV.csv` path. */
  function ExperimentIdOfPath(path: string): Option<string> {
    PieceAfterMarker(path, "Si28_", CsvTag)
  }

  /**
   * When the first `marker` of the path is the one that opens the file name `marker + e + tag`,
   * and `e` has no `.` and no `marker`, the id is `e` exactly: a `p` in `e` is kept.
   */
  lemma PieceAfterMarkerOfName(dir: string, marker: string, e: string, tag: string)
    requires marker != [] && (tag == DatTag || tag == CsvTag)
    requires Find(dir + marker + e + tag, marker) == |dir|
    requires Find(e + tag, marker) == -1
    requires '.' !in e
    ensures PieceAfterMarker(dir + marker + e + tag, marker, tag) == Some(e)
  {
    var path := dir + marker + e + tag;
    assert path[|dir| + |marker|..] == e + tag;
    assert SplitOn(path, marker) == [path[..|dir|]] + SplitOn(e + tag, marker);
    assert SplitOn(e + tag, marker) == [e + tag];
    TagsHaveOneDot();
    RemoveTrailingTag(e, tag, 3);
  }
}
