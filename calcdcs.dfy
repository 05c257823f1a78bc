/**
 * Reading calcDCS tables (`extract_data`) and gathering the records of many tables into one
 * list (`all_extracted_data.extend(...)`), with the error strings `extract_data` and
 * `read_csv` return in place of data.
 */
module CalcDcs {
  import opened Results
  import opened PyStr
  import opened EnergyId
  import opened Seqs

  /** What `float()` makes of a token; `None` is the ValueError it raises. */
  type NumberParser = string -> Option<real>

  /** One tabulated point: angle in degrees, `mu`, DCS and Rutherford DCS. */
  datatype Point = Point(theta: real, mu: real, dcs: real, dcsRuth: real)

  /** What opening and reading a file gives: no such file, another I/O error, or its lines. */
  datatype FileRead = NotFound | ReadFailed(detail: string) | Lines(lines: seq<string>)

  /** The exceptions `extract_data` catches. */
  datatype ExtractError = FileNotFound | OtherError(detail: string) | NotANumber(token: string)

  /** The text every error string opens with, except the one for a missing file. */
  const ErrorPrefix: string := "An error occurred: "

  /** `f"An error occurred: {e}"` for an exception whose text is `detail`. */
  function ErrorLine(detail: string): (m: string)
    ensures StartsWith(m, ErrorPrefix) && m != "File not found."
    ensures EndsWith(m, detail)
  {
    var m := ErrorPrefix + detail;
    assert m[..|ErrorPrefix|] == ErrorPrefix;
    assert m[|m| - |detail|..] == detail;
    assert m[0] == 'A';
    m
  }

  /**
   * The string returned in place of data. A missing file, and only a missing file, gives
   * "File not found."; every other error gives a text opening with "An error occurred: ",
   * and a non-numeric token is quoted at its end.
   */
  function Message(e: ExtractError): (m: string)
    ensures |m| > 0
    ensures e.FileNotFound? <==> m == "File not found."
    ensures !e.FileNotFound? ==> StartsWith(m, ErrorPrefix)
    ensures e.NotANumber? ==> EndsWith(m, "'" + e.token + "'")
  {
    match e
    case FileNotFound => "File not found."
    case OtherError(d) => ErrorLine(d)
    case NotANumber(t) =>
      var m := ErrorLine("could not convert string to float: '" + t + "'");
      assert "could not convert string to float: '" + t + "'" == "could not convert string to float: " + ("'" + t + "'");
      assert EndsWith(m, "'" + t + "'") by {
        var d := "could not convert string to float: '" + t + "'";
        assert m[|m| - |d|..] == d;
        assert m[|m| - |"'" + t + "'"|..] == d[|d| - |"'" + t + "'"|..];
      }
      m
  }

  /** A line whose stripped text opens with `#`. */
  predicate IsComment(line: string) {
    StartsWith(Strip(line), "#")
  }

  /** The whitespace-separated tokens of the stripped line. */
  function Columns(line: string): seq<string> {
    SplitWs(Strip(line))
  }

  /** A line that yields a record or an error: not a comment, and exactly four tokens. */
  predicate IsDataLine(line: string) {
    !IsComment(line) && |Columns(line)| == 4
  }

  /** What one line contributes: nothing, a point, or the first token `float()` rejects. */
  datatype LineOutcome = Skip | Row(point: Point) | Bad(token: string)

  /**
   * The four tokens read positionally as theta, mu, dcs and dcs_ruth, converted in that order;
   * the first token that does not convert is the one reported.
   */
  function ParseRow(cols: seq<string>, parse: NumberParser): (o: LineOutcome)
    requires |cols| == 4
    ensures !o.Skip?
    ensures o.Row? <==> forall k :: 0 <= k < 4 ==> parse(cols[k]).Some?
    ensures o.Row? ==>
              o.point.theta == parse(cols[0]).value && o.point.mu == parse(cols[1]).value &&
              o.point.dcs == parse(cols[2]).value && o.point.dcsRuth == parse(cols[3]).value
    ensures o.Bad? ==>
              exists k :: 0 <= k < 4 && o.token == cols[k] && parse(cols[k]).None? &&
                          forall j :: 0 <= j < k ==> parse(cols[j]).Some?
  {
    if parse(cols[0]).None? then Bad(cols[0])
    else if parse(cols[1]).None? then Bad(cols[1])
    else if parse(cols[2]).None? then Bad(cols[2])
    else if parse(cols[3]).None? then Bad(cols[3])
    else Row(Point(parse(cols[0]).value, parse(cols[1]).value, parse(cols[2]).value, parse(cols[3]).value))
  }

  /** One line read on its own: comments and lines of another width contribute nothing. */
  function ReadLine(line: string, parse: NumberParser): (o: LineOutcome)
    ensures o.Skip? <==> !IsDataLine(line)
  {
    if IsComment(line) || |Columns(line)| != 4 then Skip else ParseRow(Columns(line), parse)
  }

  /** The points read so far, extended by one more line; an error, once met, stays. */
  function Step(acc: Result<seq<Point>, ExtractError>, o: LineOutcome): Result<seq<Point>, ExtractError> {
    match acc
    case Failure(_) => acc
    case Success(ps) =>
      match o
      case Skip => acc
      case Row(p) => Success(ps + [p])
      case Bad(t) => Failure(NotANumber(t))
  }

  /** Line outcomes taken front to back, as the loop of `extract_data` takes its lines. */
  function Fold(os: seq<LineOutcome>): Result<seq<Point>, ExtractError>
    decreases |os|
  {
    if os == [] then Success([]) else Step(Fold(os[..|os| - 1]), os[|os| - 1])
  }

  /** Each line read on its own. */
  function Outcomes(lines: seq<string>, parse: NumberParser): (os: seq<LineOutcome>)
    ensures |os| == |lines| && forall i :: 0 <= i < |lines| ==> os[i] == ReadLine(lines[i], parse)
  {
    seq(|lines|, i requires 0 <= i < |lines| => ReadLine(lines[i], parse))
  }

  /** The points of a table, or the error that ends its reading. */
  function ExtractPoints(lines: seq<string>, parse: NumberParser): Result<seq<Point>, ExtractError> {
    Fold(Outcomes(lines, parse))
  }

  /** Each point turned into a record carrying the file's id. */
  function Tagged<R>(ps: seq<Point>, make: (string, Point) -> R, id: string): (rs: seq<R>)
    ensures |rs| == |ps| && forall i :: 0 <= i < |ps| ==> rs[i] == make(id, ps[i])
  {
    seq(|ps|, i requires 0 <= i < |ps| => make(id, ps[i]))
  }

  /** What `extract_data(file, file_id)` returns: its records, or the error string. */
  function ExtractOutcome<R>(file: FileRead, parse: NumberParser, make: (string, Point) -> R, id: string): Result<seq<R>, string> {
    match file
    case NotFound => Failure(Message(FileNotFound))
    case ReadFailed(d) => Failure(Message(OtherError(d)))
    case Lines(lines) =>
      match ExtractPoints(lines, parse)
      case Success(ps) => Success(Tagged(ps, make, id))
      case Failure(e) => Failure(Message(e))
  }

  lemma OutcomesPrefix(lines: seq<string>, k: nat, parse: NumberParser)
    requires k <= |lines|
    ensures Outcomes(lines[..k], parse) == Outcomes(lines, parse)[..k]
  {
  }

  /** Reading one more line is one more `Step`. */
  lemma ExtractStep(lines: seq<string>, i: nat, parse: NumberParser)
    requires i < |lines|
    ensures ExtractPoints(lines[..i + 1], parse) == Step(ExtractPoints(lines[..i], parse), ReadLine(lines[i], parse))
  {
    OutcomesPrefix(lines, i + 1, parse);
    OutcomesPrefix(lines, i, parse);
    var os := Outcomes(lines[..i + 1], parse);
    assert os[..i] == Outcomes(lines[..i], parse);
  }

  lemma LineCases(line: string, parse: NumberParser)
    ensures StartsWith(Strip(line), "#") ==> ReadLine(line, parse) == Skip
    ensures !StartsWith(Strip(line), "#") && |SplitWs(Strip(line))| != 4 ==> ReadLine(line, parse) == Skip
    ensures !StartsWith(Strip(line), "#") && |SplitWs(Strip(line))| == 4 ==>
              ReadLine(line, parse) == ParseRow(SplitWs(Strip(line)), parse)
  {
  }

  /** A line that yields nothing leaves the points read so far as they are. */
  lemma SkipStep(lines: seq<string>, i: nat, parse: NumberParser)
    requires i < |lines| && ReadLine(lines[i], parse) == Skip
    ensures ExtractPoints(lines[..i + 1], parse) == ExtractPoints(lines[..i], parse)
  {
    ExtractStep(lines, i, parse);
  }

  /** A line that yields a point adds its record at the end. */
  lemma RowStep<R>(lines: seq<string>, i: nat, parse: NumberParser, make: (string, Point) -> R, id: string, point: Point)
    requires i < |lines| && ReadLine(lines[i], parse) == Row(point)
    requires ExtractPoints(lines[..i], parse).Success?
    ensures ExtractPoints(lines[..i + 1], parse) == Success(ExtractPoints(lines[..i], parse).value + [point])
    ensures Tagged(ExtractPoints(lines[..i + 1], parse).value, make, id)
         == Tagged(ExtractPoints(lines[..i], parse).value, make, id) + [make(id, point)]
  {
    ExtractStep(lines, i, parse);
    TaggedSnoc(ExtractPoints(lines[..i], parse).value, point, make, id);
  }

  lemma TaggedSnoc<R>(ps: seq<Point>, p: Point, make: (string, Point) -> R, id: string)
    ensures Tagged(ps + [p], make, id) == Tagged(ps, make, id) + [make(id, p)]
  {
  }

  /** A line with a non-numeric token, reached without an earlier error, decides the outcome. */
  lemma BadLineEnds<R>(lines: seq<string>, i: nat, parse: NumberParser, make: (string, Point) -> R, id: string, token: string)
    requires i < |lines| && ReadLine(lines[i], parse) == Bad(token)
    requires ExtractPoints(lines[..i], parse).Success?
    ensures ExtractOutcome(Lines(lines), parse, make, id) == Failure(Message(NotANumber(token)))
  {
    ExtractStep(lines, i, parse);
    ExtractFailureIsFinal(lines, i + 1, parse);
    FailedOutcome(lines, parse, make, id, NotANumber(token));
  }

  lemma FailedOutcome<R>(lines: seq<string>, parse: NumberParser, make: (string, Point) -> R, id: string, e: ExtractError)
    requires ExtractPoints(lines, parse) == Failure(e)
    ensures ExtractOutcome(Lines(lines), parse, make, id) == Failure(Message(e))
  {
  }

  /** Having read every line without error, the records are those of the whole table. */
  lemma AllLinesRead<R>(lines: seq<string>, parse: NumberParser, make: (string, Point) -> R, id: string)
    requires ExtractPoints(lines[..|lines|], parse).Success?
    ensures ExtractOutcome(Lines(lines), parse, make, id)
         == Success(Tagged(ExtractPoints(lines[..|lines|], parse).value, make, id))
  {
    assert lines[..|lines|] == lines;
  }

  /** Once the outcomes up to `k` hold an error, the rest changes nothing. */
  lemma {:induction false} FoldFailureIsFinal(os: seq<LineOutcome>, k: nat)
    requires k <= |os| && Fold(os[..k]).Failure?
    ensures Fold(os) == Fold(os[..k])
    decreases |os|
  {
    if k < |os| {
      var init := os[..|os| - 1];
      assert init[..k] == os[..k];
      FoldFailureIsFinal(init, k);
    } else {
      assert os[..k] == os;
    }
  }

  /** Once the lines up to `k` have failed, the rest of the file changes nothing. */
  lemma ExtractFailureIsFinal(lines: seq<string>, k: nat, parse: NumberParser)
    requires k <= |lines| && ExtractPoints(lines[..k], parse).Failure?
    ensures ExtractPoints(lines, parse) == ExtractPoints(lines[..k], parse)
  {
    OutcomesPrefix(lines, k, parse);
    FoldFailureIsFinal(Outcomes(lines, parse), k);
  }

  /**
   * The loop of `extract_data` over the lines of a file: strip each line, skip comments, and
   * from the first other line on emit one record per four-token line; a non-numeric token
   * ends the call with the error string.
   */
  method ExtractLines<R>(lines: seq<string>, parse: NumberParser, make: (string, Point) -> R, fileId: string)
    returns (result: Result<seq<R>, string>)
    ensures result == ExtractOutcome(Lines(lines), parse, make, fileId)
  {
    var data: seq<R> := [];
    var dataStarted := false;
    var i := 0;
    while i < |lines|
      invariant 0 <= i <= |lines|
      invariant ExtractPoints(lines[..i], parse).Success?
      invariant data == Tagged(ExtractPoints(lines[..i], parse).value, make, fileId)
    {
      LineCases(lines[i], parse);
      var line := Strip(lines[i]);
      if StartsWith(line, "#") {
        SkipStep(lines, i, parse);
        i := i + 1;
        continue;
      }
      if !dataStarted {
        dataStarted := true;
      }
      if dataStarted {
        var columns := SplitWs(line);
        if |columns| == 4 {
          match ParseRow(columns, parse) {
            case Bad(token) =>
              BadLineEnds(lines, i, parse, make, fileId, token);
              return Failure(Message(NotANumber(token)));
            case Row(point) =>
              RowStep(lines, i, parse, make, fileId, point);
              data := data + [make(fileId, point)];
          }
        } else {
          SkipStep(lines, i, parse);
        }
      }
      i := i + 1;
    }
    AllLinesRead(lines, parse, make, fileId);
    return Success(data);
  }

  /** `extract_data(file_path, file_id)`: a missing or unreadable file gives its error string. */
  method ExtractData<R>(file: FileRead, parse: NumberParser, make: (string, Point) -> R, fileId: string)
    returns (result: Result<seq<R>, string>)
    ensures result == ExtractOutcome(file, parse, make, fileId)
  {
    match file {
      case NotFound =>
        return Failure(Message(FileNotFound));
      case ReadFailed(d) =>
        return Failure(Message(OtherError(d)));
      case Lines(lines) =>
        result := ExtractLines(lines, parse, make, fileId);
    }
  }

  /** Reading two runs of lines one after the other: the first error wins, otherwise the points concatenate. */
  function Combine(r1: Result<seq<Point>, ExtractError>, r2: Result<seq<Point>, ExtractError>): Result<seq<Point>, ExtractError> {
    match r1
    case Failure(_) => r1
    case Success(p) =>
      match r2
      case Failure(e) => Failure(e)
      case Success(q) => Success(p + q)
  }

  /** The outcomes of `a + b` fold to the combination of those of `a` and of `b`. */
  lemma {:induction false} FoldAppend(a: seq<LineOutcome>, b: seq<LineOutcome>)
    ensures Fold(a + b) == Combine(Fold(a), Fold(b))
    decreases |b|
  {
    if b == [] {
      assert a + b == a;
      match Fold(a)
      case Failure(_) =>
      case Success(p) => assert p + [] == p;
    } else {
      var b' := b[..|b| - 1];
      assert (a + b)[..|a + b| - 1] == a + b';
      assert (a + b)[|a + b| - 1] == b[|b| - 1];
      FoldAppend(a, b');
      match Fold(a)
      case Failure(_) =>
      case Success(p) =>
        match Fold(b')
        case Failure(_) =>
        case Success(q) =>
          match b[|b| - 1]
          case Skip =>
          case Bad(_) =>
          case Row(x) => assert p + (q + [x]) == (p + q) + [x];
    }
  }

  lemma OutcomesAppend(a: seq<string>, b: seq<string>, parse: NumberParser)
    ensures Outcomes(a + b, parse) == Outcomes(a, parse) + Outcomes(b, parse)
  {
    assert forall i :: 0 <= i < |a| ==> (a + b)[i] == a[i];
    assert forall i :: |a| <= i < |a + b| ==> (a + b)[i] == b[i - |a|];
  }

  /** Lines are read independently of what came before: the reading of `a + b` combines those of `a` and `b`. */
  lemma ExtractAppend(a: seq<string>, b: seq<string>, parse: NumberParser)
    ensures ExtractPoints(a + b, parse) == Combine(ExtractPoints(a, parse), ExtractPoints(b, parse))
  {
    OutcomesAppend(a, b, parse);
    FoldAppend(Outcomes(a, parse), Outcomes(b, parse));
  }

  /**
   * A line that is not a data line (a comment, or a line without exactly four tokens) can be
   * dropped anywhere without changing the result: neither a leading comment nor `data_started`
   * decides whether a later line is read.
   */
  lemma NonDataLineIgnored(a: seq<string>, c: string, b: seq<string>, parse: NumberParser)
    requires !IsDataLine(c)
    ensures ExtractPoints(a + [c] + b, parse) == ExtractPoints(a + b, parse)
  {
    ExtractAppend(a + [c], b, parse);
    ExtractAppend(a, [c], parse);
    ExtractAppend(a, b, parse);
    assert Outcomes([c], parse) == [Skip];
    assert [Skip][..0] == [];
    match ExtractPoints(a, parse)
    case Failure(_) =>
    case Success(p) => assert p + [] == p;
  }

  /** The points of the `Row` outcomes, taken front to back: an independent definition of the result. */
  function Rows(os: seq<LineOutcome>): (ps: seq<Point>)
    ensures |ps| <= |os|
  {
    if os == [] then []
    else (match os[0] case Row(p) => [p] case _ => []) + Rows(os[1..])
  }

  lemma {:induction false} RowsAppend(a: seq<LineOutcome>, b: seq<LineOutcome>)
    ensures Rows(a + b) == Rows(a) + Rows(b)
    decreases |a|
  {
    if a == [] {
      assert a + b == b;
    } else {
      assert (a + b)[0] == a[0];
      assert (a + b)[1..] == a[1..] + b;
      RowsAppend(a[1..], b);
    }
  }

  /**
   * The fold succeeds exactly when no outcome is `Bad`, and then yields the `Row` points in
   * order; otherwise its error is the token of the first `Bad` outcome.
   */
  lemma {:induction false} FoldCharacterised(os: seq<LineOutcome>)
    ensures Fold(os).Success? <==> forall i :: 0 <= i < |os| ==> !os[i].Bad?
    ensures Fold(os).Success? ==> Fold(os).value == Rows(os)
    ensures Fold(os).Failure? ==>
              exists i :: 0 <= i < |os| && os[i].Bad? && Fold(os).error == NotANumber(os[i].token) &&
                          forall j :: 0 <= j < i ==> !os[j].Bad?
    decreases |os|
  {
    if os != [] {
      var n := |os| - 1;
      var init := os[..n];
      FoldCharacterised(init);
      assert os == init + [os[n]];
      assert forall j :: 0 <= j < n ==> os[j] == init[j];
      assert Fold(os) == Step(Fold(init), os[n]);
      if Fold(init).Failure? {
        var i :| 0 <= i < n && init[i].Bad? && Fold(init).error == NotANumber(init[i].token) &&
                 forall j :: 0 <= j < i ==> !init[j].Bad?;
        assert os[i] == init[i];
      } else {
        RowsAppend(init, [os[n]]);
        assert [os[n]][1..] == [];
        if os[n].Bad? {
          assert forall j :: 0 <= j < n ==> !os[j].Bad?;
        }
      }
    }
  }

  /** The points of the data lines of a table, in line order. */
  function RowsOf(lines: seq<string>, parse: NumberParser): (ps: seq<Point>)
    ensures |ps| <= |lines|
  {
    Rows(Outcomes(lines, parse))
  }

  /**
   * A table is read without error exactly when no line holds a non-numeric token among four;
   * the records are then the points of the data lines in line order, so there are at most as
   * many as lines. On an error, the token reported is that of the first bad line.
   */
  lemma ExtractCharacterised(lines: seq<string>, parse: NumberParser)
    ensures ExtractPoints(lines, parse).Success? <==> forall i :: 0 <= i < |lines| ==> !ReadLine(lines[i], parse).Bad?
    ensures ExtractPoints(lines, parse).Success? ==> ExtractPoints(lines, parse).value == RowsOf(lines, parse)
    ensures ExtractPoints(lines, parse).Failure? ==>
              exists i :: 0 <= i < |lines| && ReadLine(lines[i], parse).Bad? &&
                          ExtractPoints(lines, parse).error == NotANumber(ReadLine(lines[i], parse).token) &&
                          forall j :: 0 <= j < i ==> !ReadLine(lines[j], parse).Bad?
  {
    FoldCharacterised(Outcomes(lines, parse));
  }

  /** What `pd.read_csv` gives for a file: no such file, another error, or a table. */
  datatype CsvRead<T> = CsvMissing | CsvFailed(detail: string) | CsvTable(table: T)

  /**
   * `read_csv(file_path, csv_id)`: the table with the `csv_id` column set, or the same error
   * strings as `extract_data` for a missing file and for any other failure.
   */
  function ReadCsv<T>(f: CsvRead<T>, csvId: string, withId: (T, string) -> T): (r: Result<T, string>)
    ensures r.Success? <==> f.CsvTable?
    ensures r.Success? ==> r.value == withId(f.table, csvId)
    ensures f.CsvMissing? ==> r.error == Message(FileNotFound) == "File not found."
    ensures f.CsvFailed? ==> r.error == Message(OtherError(f.detail))
  {
    match f
    case CsvMissing => Failure(Message(FileNotFound))
    case CsvFailed(d) => Failure(Message(OtherError(d)))
    case CsvTable(t) => Success(withId(t, csvId))
  }

  /** An element of a list `extend` filled: a record, or one character of an error string. */
  datatype Entry<R> = Record(rec: R) | Stray(ch: char)

  /** `list.extend(result)`: a list of records adds its records, an error string its characters. */
  function Spill<R>(res: Result<seq<R>, string>): (es: seq<Entry<R>>)
    ensures res.Success? ==> |es| == |res.value| && forall i :: 0 <= i < |es| ==> es[i] == Record(res.value[i])
    ensures res.Failure? ==> |es| == |res.error| && forall i :: 0 <= i < |es| ==> es[i] == Stray(res.error[i])
  {
    match res
    case Success(rs) => seq(|rs|, i requires 0 <= i < |rs| => Record(rs[i]))
    case Failure(m) => seq(|m|, i requires 0 <= i < |m| => Stray(m[i]))
  }

  /**
   * The records of an accumulated list, as a comprehension `[row[...] for row in ...]` sees
   * them: `None` when some element is a character, on which `row['...']` raises TypeError.
   */
  function Records<R>(es: seq<Entry<R>>): (rs: Option<seq<R>>)
    ensures rs.Some? <==> forall i :: 0 <= i < |es| ==> es[i].Record?
    ensures rs.Some? ==> |rs.value| == |es| && forall i :: 0 <= i < |es| ==> rs.value[i] == es[i].rec
  {
    if es == [] then Some([])
    else
      match es[0]
      case Stray(_) => None
      case Record(r) =>
        match Records(es[1..])
        case None => None
        case Some(rest) => Some([r] + rest)
  }

  /**
   * A data file as the gathering loop sees it: the text its energy id is read from (its base
   * name, or in one script its whole path), and its contents.
   */
  datatype DataFile = DataFile(name: string, content: FileRead)

  /** What `extend(extract_data(file, file_id))` adds for one file, its id read from its name by `idOf`. */
  function FileEntries<R>(f: DataFile, idOf: string -> string, parse: NumberParser, make: (string, Point) -> R): seq<Entry<R>> {
    Spill(ExtractOutcome(f.content, parse, make, idOf(f.name)))
  }

  /** The projections over two lists one after the other succeed exactly when both succeed. */
  lemma {:induction false} RecordsAppend<R>(a: seq<Entry<R>>, b: seq<Entry<R>>)
    ensures Records(a + b).Some? <==> Records(a).Some? && Records(b).Some?
    decreases |a|
  {
    if a == [] {
      assert a + b == b;
    } else {
      assert (a + b)[0] == a[0];
      assert (a + b)[1..] == a[1..] + b;
      RecordsAppend(a[1..], b);
    }
  }

  /** When both succeed, the records of the two lists come one after the other. */
  lemma RecordsAppendValue<R>(a: seq<Entry<R>>, b: seq<Entry<R>>)
    requires Records(a).Some? && Records(b).Some?
    ensures Records(a + b) == Some(Records(a).value + Records(b).value)
  {
    RecordsAppend(a, b);
    var ra, rb, rab := Records(a).value, Records(b).value, Records(a + b).value;
    forall i | 0 <= i < |a + b| ensures rab[i] == (ra + rb)[i] {
      if i < |a| {
        assert (a + b)[i] == a[i];
      } else {
        assert (a + b)[i] == b[i - |a|];
      }
    }
    assert rab == ra + rb;
  }

  /** The projections over a flattened list succeed exactly when they succeed over each list. */
  lemma {:induction false} RecordsOfFlatten<R>(xss: seq<seq<Entry<R>>>)
    ensures Records(Flatten(xss)).Some? <==> forall k :: 0 <= k < |xss| ==> Records(xss[k]).Some?
    decreases |xss|
  {
    if xss != [] {
      var n := |xss| - 1;
      var init := xss[..n];
      RecordsOfFlatten(init);
      assert Flatten(xss) == Flatten(init) + xss[n];
      RecordsAppend(Flatten(init), xss[n]);
      assert forall k :: 0 <= k < n ==> init[k] == xss[k];
      assert (forall k :: 0 <= k < |xss| ==> Records(xss[k]).Some?) <==>
             (forall k :: 0 <= k < n ==> Records(init[k]).Some?) && Records(xss[n]).Some?;
    }
  }

  /** The per-file lists, in file order. */
  function PerFile<R>(files: seq<DataFile>, idOf: string -> string, parse: NumberParser, make: (string, Point) -> R): seq<seq<Entry<R>>> {
    MapSeq(f => FileEntries(f, idOf, parse, make), files)
  }

  /** The `k`-th list is the one of the `k`-th file. */
  lemma PerFileAt<R>(files: seq<DataFile>, idOf: string -> string, parse: NumberParser, make: (string, Point) -> R)
    ensures |PerFile(files, idOf, parse, make)| == |files|
    ensures forall k :: 0 <= k < |files| ==> PerFile(files, idOf, parse, make)[k] == FileEntries(files[k], idOf, parse, make)
  {
    MapSeqAt(f => FileEntries(f, idOf, parse, make), files);
  }

  /** The list built by extending with `extract_data(file, file_id)` for each file in turn. */
  function Gathered<R>(files: seq<DataFile>, idOf: string -> string, parse: NumberParser, make: (string, Point) -> R): seq<Entry<R>> {
    Flatten(PerFile(files, idOf, parse, make))
  }

  /** One more file adds its entries at the end. */
  lemma GatheredSnoc<R>(files: seq<DataFile>, k: nat, idOf: string -> string, parse: NumberParser, make: (string, Point) -> R)
    requires k < |files|
    ensures Gathered(files[..k + 1], idOf, parse, make) == Gathered(files[..k], idOf, parse, make) + FileEntries(files[k], idOf, parse, make)
    ensures FileEntries(files[k], idOf, parse, make)
         == Spill(ExtractOutcome(files[k].content, parse, make, idOf(files[k].name)))
  {
    assert files[..k + 1][..k] == files[..k];
    FlattenSnoc(PerFile(files[..k], idOf, parse, make), FileEntries(files[k], idOf, parse, make));
  }

  /**
   * The file loop: for each file, its energy id is read from its name by `idOf` and the result of
   * `extract_data` is appended to `acc` with `extend`.
   */
  method Gather<R>(acc: seq<Entry<R>>, files: seq<DataFile>, idOf: string -> string, parse: NumberParser, make: (string, Point) -> R)
    returns (all: seq<Entry<R>>)
    ensures all == acc + Gathered(files, idOf, parse, make)
  {
    all := acc;
    var k := 0;
    while k < |files|
      invariant 0 <= k <= |files|
      invariant all == acc + Gathered(files[..k], idOf, parse, make)
    {
      var file := files[k];
      var fileId := idOf(file.name);
      var extracted := ExtractData(file.content, parse, make, fileId);
      GatheredSnoc(files, k, idOf, parse, make);
      AppendAssoc(acc, Gathered(files[..k], idOf, parse, make), Spill(extracted));
      all := all + Spill(extracted);
      k := k + 1;
    }
    WholePrefix(files);
  }

  /** Gathering two runs of files one after the other concatenates their lists. */
  lemma GatheredAppend<R>(f1: seq<DataFile>, f2: seq<DataFile>, idOf: string -> string, parse: NumberParser, make: (string, Point) -> R)
    ensures Gathered(f1 + f2, idOf, parse, make) == Gathered(f1, idOf, parse, make) + Gathered(f2, idOf, parse, make)
  {
    MapSeqAppend(f => FileEntries(f, idOf, parse, make), f1, f2);
    FlattenAppend(PerFile(f1, idOf, parse, make), PerFile(f2, idOf, parse, make));
  }

  /** Whether `extract_data` returns a list for this file. */
  predicate ReadsCleanly(file: FileRead, parse: NumberParser) {
    file.Lines? && ExtractPoints(file.lines, parse).Success?
  }

  /** A file's entries are all records exactly when it reads cleanly; otherwise they spell its message. */
  lemma FileEntriesRecords<R>(f: DataFile, idOf: string -> string, parse: NumberParser, make: (string, Point) -> R)
    ensures Records(FileEntries(f, idOf, parse, make)).Some? <==> ReadsCleanly(f.content, parse)
  {
    var es := FileEntries(f, idOf, parse, make);
    if !ReadsCleanly(f.content, parse) {
      assert es[0].Stray?;
    }
  }

  /**
   * The projections over the gathered list succeed exactly when every file was read without
   * error: one failing file leaves the characters of its (non-empty) message in the list.
   */
  lemma GatheredRecordsIff<R>(files: seq<DataFile>, idOf: string -> string, parse: NumberParser, make: (string, Point) -> R)
    ensures Records(Gathered(files, idOf, parse, make)).Some? <==>
              forall k :: 0 <= k < |files| ==> ReadsCleanly(files[k].content, parse)
  {
    var ess := PerFile(files, idOf, parse, make);
    PerFileAt(files, idOf, parse, make);
    RecordsOfFlatten(ess);
    forall k | 0 <= k < |files|
      ensures Records(ess[k]).Some? <==> ReadsCleanly(files[k].content, parse)
    {
      FileEntriesRecords(files[k], idOf, parse, make);
    }
  }

  /** Every record of the gathered list was made by `make` from the energy id of one of the files. */
  lemma GatheredRecordsTagged<R>(files: seq<DataFile>, idOf: string -> string, parse: NumberParser, make: (string, Point) -> R, i: nat)
    requires i < |Gathered(files, idOf, parse, make)| && Gathered(files, idOf, parse, make)[i].Record?
    ensures exists k, p :: 0 <= k < |files| && Gathered(files, idOf, parse, make)[i].rec == make(idOf(files[k].name), p)
  {
    var ess := PerFile(files, idOf, parse, make);
    PerFileAt(files, idOf, parse, make);
    var k, j := FlattenIndex(ess, i);
    var f := files[k];
    var id := idOf(f.name);
    var out := ExtractOutcome(f.content, parse, make, id);
    assert ess[k] == Spill(out);
    var ps := ExtractPoints(f.content.lines, parse).value;
    assert out == Success(Tagged(ps, make, id));
    assert ess[k][j].rec == make(id, ps[j]);
  }

  /** A record of `extract_data(file_path, file_id)`: `'E (MEV)'` set to the file's id, and the point. */
  datatype EnergyRecord = EnergyRecord(energy: string, point: Point)

  /** The record maker of the scripts that tag each record with the energy id of its file. */
  function WithEnergy(id: string, p: Point): EnergyRecord {
    EnergyRecord(id, p)
  }

  function RecEnergy(r: EnergyRecord): string { r.energy }
  function RecTheta(r: EnergyRecord): real { r.point.theta }
  function RecMu(r: EnergyRecord): real { r.point.mu }
  function RecDcs(r: EnergyRecord): real { r.point.dcs }
  function RecRuth(r: EnergyRecord): real { r.point.dcsRuth }
}
