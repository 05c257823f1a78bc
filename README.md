# Differential cross sections: reading, selecting and plotting, modelled in Dafny

The repository holds five Python scripts that compare theoretical differential cross
sections (DCS) of elastic nuclear scattering with experimental data:

- `Python_Code.py` reads one table;
- `Python_Code_MEV.py` reads the silicon-28 tables;
- `Python_Code_Elem.py` reads the tables of one isotope;
- `Python_Code_KDRvsWattson.py` reads the tables of two optical potentials;
- `Article_Python_Code.py` also writes one table per experimental energy.

All five read theory tables with the same line reader, `extract_data`. The reader skips
comment lines and keeps every line of exactly four tokens. It converts each token with
`float` and returns either the list of records or an error string.

`Python_Code.py` reads a single file and tags nothing. It draws three subplots of that
file's columns: the ratio of the DCS to the Rutherford DCS against the angle, the DCS
against the angle, and the DCS against `mu`.

The other four scripts read a directory of theory files. They tag each record with an
energy id decoded from the file name and gather the records of all files into one list with
`extend`. Each projects that list on its columns, lists the energies, and draws one set of
curves per energy. Each curve holds the angles and DCS values of that energy, inside an
angle window except in `Python_Code_MEV.py`. The four differ in these ways:

- Energy order: `Python_Code_MEV.py` takes the energies in the order of `list(set(...))`.
  The other three sort them by numeric value.
- Legends: in `Python_Code_Elem.py`, `Python_Code_KDRvsWattson.py` and
  `Article_Python_Code.py` a legend ends with a power of ten. `Python_Code_MEV.py` has no
  suffix.
- Markers: the experimental points of `Python_Code_MEV.py` and `Python_Code_Elem.py` take
  the next marker of a list of ten. `Python_Code_KDRvsWattson.py` always uses `'o'` and
  `Article_Python_Code.py` always uses `'x'`.

This project models that pipeline in Dafny. The modules are:

- `Results` and `Seqs`: the option and result types, zips, comprehensions with a guard, maps,
  flattening.
- `PyStr`: the Python string methods the scripts use: `strip`, `split()`, `split(sep)`,
  `find`, `replace`, `startswith`, `endswith`, `str(int)`.
- `EnergyId`: energy ids decoded from file names, and the names of the written tables.
- `CalcDcs`: `extract_data`, `read_csv`, and the gathering loops with `extend`. An error
  string extended into the list becomes its characters (`Entry.Stray`).
- `Selection`: the per-energy comprehensions, the `.loc` filter, the legends with their
  power-of-ten suffix, and `sorted(set(...), key=float)`.
- `Plot`: the plotting loop shared by the scripts, with the marker iterator and the
  exceptions that end a script.
- `Projection`: the five-column projection of an energy-tagged list.
- `Basic`, `Mev`, `Elem`, `KdWss`, `Article`: one module per script.

`float` is a parameter `parse: string -> Option<real>`, and `None` stands for the
ValueError. Files are values of `FileRead`, which is not found, failed with a message, or
its lines. Every script function (`Figure`) returns what the script draws, or the
Python exception that ends the script. For `Basic.Figure` that is three pairs of axes. For
the other four it is the panels drawn, one per energy.

## Model

| member | source | states |
|---|---|---|
| PyStr.Strip | Python_Code.py:35 | the stripped line is empty or starts and ends with a non-blank |
| PyStr.StripInfix | Python_Code.py:35 | the stripped line is the infix of the line between a blank prefix and a blank suffix |
| PyStr.SplitWs | Python_Code.py:41 | `split()` yields only non-empty, blank-free tokens |
| PyStr.SplitWsKeepsNonBlanks | Python_Code.py:41 | the tokens of `split()` spell the non-blank characters of the line, in order |
| PyStr.SplitWsOfStrip | Python_Code.py:35-41 | splitting the stripped line gives the tokens of the raw line |
| PyStr.SplitWsLeading | Python_Code.py:41 | leading blanks do not change the tokens of `split()` |
| PyStr.SplitWsOfRun | Python_Code.py:41 | a non-empty run without blanks is exactly one token |
| PyStr.SplitWsCons | Python_Code.py:41 | tokens are maximal runs: a run without blanks followed by blanks is the first token, and splitting resumes after the blanks |
| PyStr.Find | Python_Code_MEV.py:75 | `find` gives the first index where the pattern occurs, or -1 when it occurs nowhere |
| PyStr.SplitOn | Article_Python_Code.py:122 | `split(sep)` gives at least one piece, and no piece contains the separator |
| PyStr.JoinSplit | Article_Python_Code.py:122 | joining the pieces with the separator gives the string back |
| PyStr.LastPieceIsTail | Article_Python_Code.py:122 | `split("-")[-1]` is the suffix after the last `-`, or the whole string when there is none |
| PyStr.ReplaceIsJoinSplit | Article_Python_Code.py:122 | `replace(pat, with)` is splitting on `pat` and joining with `with` |
| PyStr.ReplaceCharIsMapChar | Article_Python_Code.py:124 | replacing one character by another maps that character and keeps the length |
| PyStr.DecimalRoundTrip | Article_Python_Code.py:241 | `str(n)` of a natural number reads back as `n`, so distinct masses give distinct names |
| EnergyId.RawId | Article_Python_Code.py:122 | the piece after the last `-`, without its tag, holds no `-` |
| EnergyId.EnergyIdOf | Article_Python_Code.py:122-124 | a decoded energy id holds no `p` and no `-` |
| EnergyId.GuardIsRedundant | Article_Python_Code.py:123-124 | the `if "p" in file_id` guard changes nothing: the id is the unconditional replacement |
| EnergyId.EncodeId | Article_Python_Code.py:240 | `str(mev).replace(".", "p")` maps every `.` to `p` |
| EnergyId.OutputName | Article_Python_Code.py:240-241 | the written name ends with `-`, the encoded energy and `MEV.dat` |
| EnergyId.RawIdOfName | Article_Python_Code.py:141 | the raw id of `<prefix>-<e><tag>` is `e` when `e` has no `-` and no `.` |
| EnergyId.OutputNameRoundTrip | Article_Python_Code.py:240-241 | decoding a written name with the theory-file decoding gives back its energy (energies without `-` and `p`) |
| EnergyId.EncodeDecodedId | Article_Python_Code.py:122-124 | encoding a decoded id gives back the raw piece of the file name (pieces without `.` and `-`) |
| EnergyId.NormaliseEnergy | Python_Code_KDRvsWattson.py:145 | the result is a prefix of the input, never ends in `.0`, and equals the input exactly when the input does not end in `.0` |
| EnergyId.NormaliseCutsAtFirst | Python_Code_KDRvsWattson.py:145 | `x.split('.0')[0]` cuts at the first `.0`, not the last |
| EnergyId.NormaliseIdempotent | Python_Code_KDRvsWattson.py:145 | normalising twice is normalising once |
| EnergyId.NormaliseExamples | Python_Code_KDRvsWattson.py:145 | `45.0` becomes `45` and `179.3` is kept |
| EnergyId.PieceAfterMarker | Python_Code_MEV.py:75 | `split(marker)[1]` exists exactly when the marker occurs in the path |
| EnergyId.PieceAfterMarkerOfName | Python_Code_MEV.py:93 | on a path ending in `<marker><e><tag>` the id is `e`, with any `p` kept |
| CalcDcs.ErrorLine | Python_Code.py:54-55 | the message opens with `An error occurred: ` and ends with the exception's text |
| CalcDcs.Message | Python_Code.py:52-55 | every message is non-empty; it is `File not found.` exactly for a missing file; a conversion error ends with the quoted token |
| CalcDcs.ParseRow | Python_Code.py:44-50 | the four tokens are theta, mu, dcs, dcs_ruth in order; the row fails exactly when some token does not convert, and reports the first such token |
| CalcDcs.ReadLine | Python_Code.py:35-43 | a line contributes nothing exactly when it is a comment after stripping or does not have four tokens |
| CalcDcs.LineCases | Python_Code.py:35-43 | the three cases of a line: comment, wrong token count, data row |
| CalcDcs.Tagged | Article_Python_Code.py:55-61 | one record per point, in order, each carrying the file id as its energy |
| CalcDcs.RowsOf | Article_Python_Code.py:45-61 | a file yields at most one record per line |
| CalcDcs.ExtractLines | Python_Code.py:33-51 | the line loop returns the outcome defined by the fold over the lines |
| CalcDcs.ExtractData | Python_Code.py:27-55 | `extract_data` returns the records, `File not found.`, or the error string |
| CalcDcs.BadLineEnds | Python_Code.py:46-55 | the first token that does not convert ends the file with its message |
| CalcDcs.ExtractFailureIsFinal | Python_Code.py:46-55 | once a prefix of the lines fails, the lines after it do not change the outcome |
| CalcDcs.ExtractAppend | Python_Code.py:33-51 | reading two runs of lines one after the other combines their outcomes |
| CalcDcs.NonDataLineIgnored | Python_Code.py:37-49 | inserting a comment or a line without four tokens anywhere changes nothing |
| CalcDcs.ExtractCharacterised | Python_Code.py:33-55 | the file succeeds exactly when no line is bad; its points are the rows of the data lines in order; a failure names the first bad line's token |
| CalcDcs.ReadCsv | Python_Code_MEV.py:20-28 | `read_csv` gives the table with its `csv_id` column exactly when the file reads, otherwise the same messages as `extract_data` |
| CalcDcs.Spill | Article_Python_Code.py:126 | `extend` adds the records one by one, or the characters of the error string one by one |
| CalcDcs.Records | Python_Code_Elem.py:108-112 | the projections `row[...]` succeed exactly when no element is a character, and then give the records in order |
| CalcDcs.RecordsOfFlatten | Article_Python_Code.py:121-126 | the projections over the gathered list succeed exactly when they do over each file's list |
| CalcDcs.Gather | Article_Python_Code.py:121-126 | the file loop appends every file's entries, in file order |
| CalcDcs.GatheredAppend | Python_Code_KDRvsWattson.py:92-111 | two loops over two lists of files gather the concatenation of their entries |
| CalcDcs.FileEntriesRecords | Article_Python_Code.py:125-126 | a file's entries are all records exactly when it reads cleanly |
| CalcDcs.GatheredRecordsIff | Article_Python_Code.py:121-126 | the gathered list holds only records exactly when every file reads cleanly |
| CalcDcs.GatheredRecordsTagged | Article_Python_Code.py:121-126 | every gathered record carries the id of one of the files |
| Selection.KeptExactly | Python_Code_Elem.py:208 | the comprehension keeps exactly the positions within both zipped columns whose energy is `mev` and whose angle is in `[1, max_theta]`, in increasing order |
| Selection.SelectPicks | Python_Code_Elem.py:208 | the `j`-th kept angle is the angle at the `j`-th kept position |
| Selection.SelectByPicks | Python_Code_Elem.py:209 | the `j`-th kept DCS is the DCS at the `j`-th kept position |
| Selection.SelectPairs | Python_Code_Elem.py:208-209 | the angle and DCS comprehensions have equal lengths, and their `j`-th entries come from one row that passes the guard |
| Selection.SelectMembers | Python_Code_Elem.py:208 | an angle is kept exactly when some row with that angle passes the guard |
| Selection.SelectByUnbounded | Python_Code_MEV.py:145-146 | without a window, the three-way zip keeps what the two-way zip of DCS and energy keeps |
| Selection.SelectIgnoresTail | Python_Code_KDRvsWattson.py:221 | energies past the end of the angle column are never read, because `zip` stops at the shortest |
| Selection.SelectSingle | Python_Code_Elem.py:208 | a one-row column is kept exactly when its row passes the guard |
| Selection.LocIsSelect | Article_Python_Code.py:298-299 | filtering table rows with `.loc` and reading a column keeps what the zip comprehensions over its columns keep |
| Selection.Exponent | Article_Python_Code.py:278 | the power of ten is below the number of energies, and zero exactly for the last energy |
| Selection.ScaleSuffix | Article_Python_Code.py:281-286 | the legend suffix is empty exactly for the power zero |
| Selection.ScaleSuffixInjective | Article_Python_Code.py:281-286 | different powers give different suffixes |
| Selection.LabelParts | Article_Python_Code.py:280-286 | a legend opens with its series prefix and ends with the suffix of its power |
| Selection.LabelUnscaled | Python_Code_MEV.py:154-155 | at power zero the legend is `<prefix>(E = <mev> MeV)` |
| Selection.LabelDeterminesExponent | Article_Python_Code.py:280-295 | equal legends of one series and energy have equal powers |
| Selection.Dedup | Article_Python_Code.py:258 | `set` keeps every energy exactly once and adds none |
| Selection.DedupInOrder | Article_Python_Code.py:239 | `.unique()` lists the distinct energies in the order of their first occurrences |
| Selection.Insert | Article_Python_Code.py:258 | inserting adds exactly the one element |
| Selection.InsertKeepsSorted | Article_Python_Code.py:258 | inserting into a list sorted by key keeps it sorted |
| Selection.SortBy | Article_Python_Code.py:258 | `sorted(..., key=float)` is a permutation sorted by key |
| Selection.PermutationKeepsNoDup | Article_Python_Code.py:258 | a permutation of a duplicate-free list is duplicate-free with the same members |
| Selection.UniqueEnergies | Article_Python_Code.py:258 | a ValueError exactly when some energy does not convert; otherwise every energy once, in non-decreasing numeric value |
| Plot.ExpSeries | Python_Code_Elem.py:159-161 | the experimental columns are the energy, angle and DCS of each row, in order |
| Plot.BuildLegend | Article_Python_Code.py:280-286 | the `if`/`elif`/`else` that appends the suffix builds the legend `Label` |
| Plot.PanelsSnoc | Article_Python_Code.py:276 | one more loop iteration adds the panel of the next energy |
| Plot.PlotEnergies | Article_Python_Code.py:276-305 | the plotting loop returns the panels defined by `Plots`, or StopIteration |
| Plot.PanelsAt | Article_Python_Code.py:276-305 | the `i`-th panel is the one built for the `i`-th energy |
| Plot.PlotsShape | Python_Code_Elem.py:175-218 | StopIteration exactly when markers are drawn from the list of ten and there are more than ten energies; otherwise one panel per energy, in order, with power `n - i - 1` when scaled, each series drawn for that energy with its legend |
| Plot.ExponentsDecrease | Article_Python_Code.py:276-278 | the powers strictly decrease along the energies, end at zero, and give pairwise distinct suffixes |
| Projection.Project | Python_Code_MEV.py:79-83 | the five projections succeed exactly when no element is a character (else TypeError), and their `i`-th entries come from the `i`-th record |
| Projection.ProjectIff | Python_Code_Elem.py:100-112 | the projections succeed exactly when every theory file reads cleanly |
| Basic.ProjectPoints | Python_Code.py:83-86 | over a list, the columns of its points; over a non-empty error string, a TypeError |
| Basic.Columns | Python_Code.py:83-86 | the `i`-th entry of each column comes from the `i`-th point |
| Basic.Ratios | Python_Code.py:89 | a ZeroDivisionError exactly when some paired Rutherford DCS is zero; otherwise one ratio per zipped pair, the exact real quotient of its DCS by its Rutherford DCS |
| Basic.Run | Python_Code.py:59-90 | the script returns the figure of the outcome of `extract_data` and the table of `read_csv` |
| Basic.PlainOutcome | Python_Code.py:27-55 | a clean file gives its points; any other file gives a non-empty error string |
| Basic.FigureOfPoints | Python_Code.py:89-95 | over the points of a clean file the figure is drawn exactly when no Rutherford DCS is zero, and then the first plot pairs each angle with its point's ratio |
| Basic.FigureIff | Python_Code.py:62-90 | a file that does not read cleanly ends in TypeError; a clean one draws exactly when no Rutherford DCS is zero |
| Mev.GatherTheory | Python_Code_MEV.py:74-77 | the theory loop returns the gathered list, or IndexError when some path has no `calcDCS_` |
| Mev.TheoryRecordsTagged | Python_Code_MEV.py:74-77 | every gathered record carries the id read from one theory path |
| Mev.CsvIds | Python_Code_MEV.py:92-95 | IndexError exactly when some path lacks `Si28_`; otherwise the id of every path, in order |
| Mev.Run | Python_Code_MEV.py:74-155 | the script returns the figure defined by `Figure` for the given set order |
| Mev.MevPanels | Python_Code_MEV.py:125-151 | StopIteration exactly when there are more than ten energies; otherwise one panel per energy of the pool, and every energy has one |
| Mev.MevPanel | Python_Code_MEV.py:143-155 | the `i`-th panel draws the theory angles and DCS of energy `order[i]` with no window, unscaled, then the experimental points with the `i`-th marker |
| KdWss.GatherModels | Python_Code_KDRvsWattson.py:92-111 | the two loops gather the KD records, then the WSS records |
| KdWss.GatheredModel | Python_Code_KDRvsWattson.py:92-98 | every record of one loop carries that loop's model tag |
| KdWss.KdBeforeWss | Python_Code_KDRvsWattson.py:92-111 | the projections succeed exactly when every file of both loops reads cleanly, and then the records are the KD ones followed by the WSS ones |
| KdWss.ModelColumnsAligned | Python_Code_KDRvsWattson.py:114-117 | the `j`-th entries of a model's angle and DCS columns come from that model's `j`-th record |
| KdWss.SplitColumn | Python_Code_KDRvsWattson.py:114-117 | over KD records followed by WSS records, a model's column is that block's column |
| KdWss.ModelsSplit | Python_Code_KDRvsWattson.py:113-117 | the per-model angle, DCS and energy columns are those of each block; `MEV_values` is the KD energies then the WSS energies |
| KdWss.KdSelectionAsIntended | Python_Code_KDRvsWattson.py:221-223 | the KD curves select the same as with the KD energies, because the KD records come first |
| KdWss.WssPairedWithKd | Python_Code_KDRvsWattson.py:222-224 | as written, the `i`-th WSS angle and DCS value are filtered against the energy of the `i`-th record overall (KD records, then WSS records); when there are no more WSS records than KD records, that is against the KD energies alone |
| KdWss.WssCounterexample | Python_Code_KDRvsWattson.py:222 | one KD record at 10 MeV and one WSS record at 20 MeV: the 20 MeV WSS curve is empty and the 10 MeV one shows the 20 MeV angle |
| KdWss.ModelSelectionSound | Python_Code_KDRvsWattson.py:221-224 | corrected: every selected angle and DCS comes from one record of that model, energy and window |
| KdWss.ModelSelectionComplete | Python_Code_KDRvsWattson.py:221-222 | corrected: every record of that model, energy and window has its angle selected |
| KdWss.RunAsWritten | Python_Code_KDRvsWattson.py:92-233 | the script returns the as-written figure of the gathered list |
| KdWss.FixedMarkers | Python_Code_KDRvsWattson.py:231-233 | the loop never runs out of markers; each panel draws the KD and WSS curves without a marker and the experimental points with `'o'` |
| KdWss.FigureTypeError | Python_Code_KDRvsWattson.py:113-117 | the figure ends in TypeError exactly when some file of either loop does not read cleanly |
| Article.GatherTheory | Article_Python_Code.py:120-126 | the theory loop gathers every file's records tagged with the id of its name |
| Article.TheoryTable | Article_Python_Code.py:128 | the table is built exactly when the list holds only records; otherwise ValueError |
| Article.Run | Article_Python_Code.py:120-305 | the script returns the figure of the gathered list |
| Article.FigureFailure | Article_Python_Code.py:128-258 | a file that does not read cleanly gives ValueError; when all read, the figure fails exactly when some energy does not convert, and never for lack of markers |
| Article.TheoryCurveIsLoc | Article_Python_Code.py:280-307 | the `i`-th panel draws the experimental points with marker `'x'`, then the theory curve without a marker, selected by `.loc` for that energy and window, with legends sharing one power |
| Article.OutputNamesDistinct | Article_Python_Code.py:239-251 | one table per experimental energy; each name decodes to its energy, so no two energies write one file |
| Elem.RunAsWritten | Python_Code_Elem.py:100-213 | the script returns the as-written figure of the gathered list |
| Elem.NameErrorOnAnyEnergy | Python_Code_Elem.py:186-188 | as written, any energy makes the loop raise NameError on `idx`; corrected, it draws when there are at most ten |
| Elem.CorrectedFigure | Python_Code_Elem.py:175-218 | corrected: StopIteration exactly when there are more than ten energies; otherwise each panel holds the theory curve and the points with the `i`-th marker, and both legends carry power `n - i - 1` |
| Elem.TheoryCurveSound | Python_Code_Elem.py:208-209 | each point of a theory curve is the angle and DCS of one record of that energy in the window |

## Left out

- The Lab-to-centre-of-mass transformation (the atomic mass in MeV, `Beta_CM`, `Gamma_CM`, `Tau`, `theta_CM`, `DCS_CM`, `Article_Python_Code.py`:180-236): floating-point kinematics. Line 184 turns the `E (MEV)` column back into floats before the arithmetic, and line 193 turns it into strings again.
- A failed `read_csv` returns its message string, and the `df.rename` that follows raises AttributeError on it (`Python_Code_Elem.py`:134, `Python_Code_KDRvsWattson.py`:139, `Python_Code_MEV.py`:101, `Article_Python_Code.py`:151). The experimental rows are given to the model as `ExpRow` values, so the model never reaches this error.
- `max_theta = int(max(...) + just_in_case)` raises ValueError when no experimental angle is left after the `csv_id` filter (`Python_Code_Elem.py`:165, `Python_Code_KDRvsWattson.py`:171, `Article_Python_Code.py`:255). `max_theta` is a parameter of the model, so the model does not raise this error. In particular, the script reaches the `Elem.Figure` loop only with at least one experimental row, so the empty-energy case that `Elem.Figure` answers with no panels does not occur in the script.
- The pandas preparation of the experimental tables (renaming, unit scaling, rounding, the `csv_id` filter, `pd.concat`, `to_dict`): the experimental rows are given to each script as `ExpRow` values. The one string step, `x.split('.0')[0] if x.endswith('.0') else x`, is modelled as `EnergyId.NormaliseEnergy`.
- Plot.Panel: `Article_Python_Code.py` and `Python_Code_KDRvsWattson.py` multiply the DCS values by the power of ten. The model keeps the power only in the panel and its legends, because the scaling is floating point.
- Colours, line styles, axes, titles and `plt.show`: drawing only. The colour iterator has one colour per energy and never runs out.
- Interactive input (the element, mass and projectile questions, the directory prompts), `glob`, `os.path.basename` and the element table: file names and contents are parameters.
- `max_theta` is an integer parameter; its computation from the experimental angles is floating point, and its failure on no angles is described above.
- The second comparison in `Article_Python_Code.py`:324-409 (another optical potential) repeats the first loop with one more theory table, and is not modelled.
- `float` is the parameter `parse`; Python's float grammar is not modelled.
- CalcDcs.Message: the token in a conversion message is wrapped in plain `'` with no escaping. `repr` differs for three kinds of token that the model does not reproduce: a token holding `'` (then `repr` uses `"` or escapes it), a token holding a backslash (doubled by `repr`), and a token holding a non-printable character (escaped by `repr`). The scripts only ever turn such a message into a TypeError or a ValueError, so no drawn result depends on its text.
- Basic.Ratios: angles, DCS values and ratios are exact reals. The model has no floating-point rounding, so `r.value[i] * ruths[i] == dcs[i]` holds exactly where Python may be one ulp off (`1.0/49.0*49.0` is `0.9999999999999999`). It also has no `inf` or `nan`: `parse` gives a finite real or `None`, while Python's `float` accepts `inf` and `nan`, and a `nan` angle fails both halves of `1 <= theta <= max_theta`. The same holds for every real-valued column in the model.
- `Python_Code.py`:71-80 prints `CSV Error` when `read_csv` fails. The model returns the table outcome and does not model the print, or the failure of the later scatter plot (lines 128-140).
- The order of `list(set(...))` in `Python_Code_MEV.py`:125 is not defined by Python: `Mev` takes it as the parameter `order`, constrained by `Mev.Enumerates`.
- The `No CSV data found.` branch with `sys.exit()` is not modelled: `Python_Code_Elem.py`:151-153, `Python_Code_KDRvsWattson.py`:156-158 and `Article_Python_Code.py`:172-174. `Elem.Figure`, `KdWss.Figure` and `Article.Figure` take the experimental rows as given and do not stop when there are none. In `Python_Code_MEV.py` it is followed by `pd.concat([])`, modelled as ValueError.
- Mev.GatherTheory: the id function is a parameter `pathId`; `Mev.Run` passes `EnergyId.TheoryIdOfPath`.
- Article.TheoryTable: `pd.DataFrame` over a list that mixes row dictionaries and characters is taken to raise ValueError; pandas itself is not modelled.
- Selection.UniqueEnergies: two strings with the same numeric value keep set order in Python. The function picks one order, and its contract states only membership, uniqueness and numeric order.

## Findings

| source | as written | input that shows it | evidently intended | confidence | as-written member | corrected member |
|---|---|---|---|---|---|---|
| Python_Code_KDRvsWattson.py:222-224 | WSS angles and DCS values are zipped with `MEV_values`, the energies of all records, KD first | one KD record at 10 MeV, one WSS record at 20 MeV: the WSS curve of 20 MeV is empty and the one of 10 MeV shows the 20 MeV point | filter each model's columns against the energies of that model's own records | not executed | KdWss.WssCounterexample | KdWss.ModelSelectionSound |
| Python_Code_Elem.py:186-188 | the loop is `for mev in unique_mev_values:` and reads `idx`, which is never bound | any experimental row (with theory files that read cleanly): NameError on the first iteration | `for idx, mev in enumerate(unique_mev_values):`, as in the other scripts | not executed | Elem.NameErrorOnAnyEnergy | Elem.CorrectedFigure |
