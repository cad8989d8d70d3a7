/**
  The per-file `process_gkg` of each script: which files are skipped, which lines of the
  archive member become rows, what is written, and what the function returns. Downloads,
  archives, S3, local files and the database are parameters: `member` is the decoded
  archive member's lines (`None` when the archive cannot be opened), and the sets stand
  for the outputs that already exist.
 */
module Scripts {
  import opened Wrappers
  import opened PyStrings
  import opened CodeSchema
  import opened Aligner
  import opened AlignerFacts
  import opened Locations
  import opened Feeds
  import opened Rows
  import opened CsvText

  // ---------------------------------------------------------------------------
  // Collecting the rows of a file
  // ---------------------------------------------------------------------------

  /**
    The `for raw in ...` loop: rows of accepted lines in file order; the first line that
    raises ends the loop with its exception.
   */
  function Collect<R>(lines: seq<string>, step: string -> Result<Outcome<R>>): (r: Result<seq<R>>)
    ensures r.Ok? <==> forall k :: 0 <= k < |lines| ==> step(lines[k]).Ok?
    ensures r.Err? ==> exists k :: 0 <= k < |lines| && step(lines[k]) == Err(r.error)
    ensures r.Ok? ==> |r.value| <= |lines|
    decreases |lines|
  {
    if |lines| == 0 then Ok([])
    else
      assert forall k :: 0 <= k < |lines[1..]| ==> lines[1..][k] == lines[k + 1];
      match step(lines[0])
      case Err(e) => Err(e)
      case Ok(o) =>
        match Collect(lines[1..], step)
        case Err(e) => Err(e)
        case Ok(rest) => Ok(Head(o) + rest)
  }

  /** Every collected row is the row of some accepted line. */
  lemma {:induction false} CollectRowsFromLines<R>(lines: seq<string>, step: string -> Result<Outcome<R>>)
    requires Collect(lines, step).Ok?
    ensures forall k :: 0 <= k < |Collect(lines, step).value| ==>
              exists j :: 0 <= j < |lines| && step(lines[j]) == Ok(Accepted(Collect(lines, step).value[k]))
    decreases |lines|
  {
    if |lines| > 0 {
      CollectTail(lines, step);
      CollectRowsFromLines(lines[1..], step);
      CollectCons(lines, step);
      var head := Head(step(lines[0]).value);
      var rest := Collect(lines[1..], step).value;
      var rows := Collect(lines, step).value;
      forall k | 0 <= k < |rows|
        ensures exists j :: 0 <= j < |lines| && step(lines[j]) == Ok(Accepted(rows[k]))
      {
        if k < |head| {
          assert step(lines[0]) == Ok(Accepted(rows[k]));
        } else {
          assert rows[k] == rest[k - |head|];
          var j :| 0 <= j < |lines[1..]| && step(lines[1..][j]) == Ok(Accepted(rest[k - |head|]));
          assert lines[1..][j] == lines[j + 1];
        }
      }
    }
  }

  /** The rows of two stretches of lines are the first stretch's rows, then the second's. */
  lemma {:induction false} CollectAppend<R>(a: seq<string>, b: seq<string>, step: string -> Result<Outcome<R>>)
    requires Collect(a, step).Ok? && Collect(b, step).Ok?
    ensures Collect(a + b, step) == Ok(Collect(a, step).value + Collect(b, step).value)
    decreases |a|
  {
    if |a| == 0 {
      assert a + b == b;
      assert Collect(a, step).value == [];
      assert [] + Collect(b, step).value == Collect(b, step).value;
    } else {
      var x, tail := a[0], a[1..];
      CollectTail(a, step);
      CollectAppend(tail, b, step);
      assert a == [x] + tail;
      CollectAppendStep(x, tail, b, step);
    }
  }

  /** The inductive step of `CollectAppend`: a line in front of `tail` leads `tail + b` too. */
  lemma {:induction false} CollectAppendStep<R>(x: string, tail: seq<string>, b: seq<string>, step: string -> Result<Outcome<R>>)
    requires step(x).Ok? && Collect(tail, step).Ok? && Collect(b, step).Ok?
    requires Collect(tail + b, step) == Ok(Collect(tail, step).value + Collect(b, step).value)
    ensures Collect([x] + tail + b, step) == Ok(Collect([x] + tail, step).value + Collect(b, step).value)
  {
    var head, rowsT, rowsB := Head(step(x).value), Collect(tail, step).value, Collect(b, step).value;
    assert [x] + tail + b == [x] + (tail + b);
    CollectConsOf(x, tail + b, step);
    CollectConsOf(x, tail, step);
    assert head + (rowsT + rowsB) == (head + rowsT) + rowsB;
  }

  /** The row one line contributes: its row when accepted, nothing when skipped. */
  function Head<R>(o: Outcome<R>): (r: seq<R>)
    ensures |r| <= 1
  {
    if o.Accepted? then [o.row] else []
  }

  lemma {:induction false} CollectTail<R>(lines: seq<string>, step: string -> Result<Outcome<R>>)
    requires |lines| > 0 && Collect(lines, step).Ok?
    ensures step(lines[0]).Ok? && Collect(lines[1..], step).Ok?
  {
    assert forall k :: 0 <= k < |lines[1..]| ==> lines[1..][k] == lines[k + 1];
  }

  lemma {:induction false} CollectCons<R>(lines: seq<string>, step: string -> Result<Outcome<R>>)
    requires |lines| > 0 && step(lines[0]).Ok? && Collect(lines[1..], step).Ok?
    ensures Collect(lines, step) == Ok(Head(step(lines[0]).value) + Collect(lines[1..], step).value)
  {
  }

  lemma {:induction false} CollectConsOf<R>(x: string, rest: seq<string>, step: string -> Result<Outcome<R>>)
    requires step(x).Ok? && Collect(rest, step).Ok?
    ensures Collect([x] + rest, step) == Ok(Head(step(x).value) + Collect(rest, step).value)
  {
    assert ([x] + rest)[0] == x && ([x] + rest)[1..] == rest;
    CollectCons([x] + rest, step);
  }

  /** One line contributes its row when accepted and nothing when skipped. */
  lemma {:induction false} CollectOne<R>(line: string, step: string -> Result<Outcome<R>>)
    requires step(line).Ok?
    ensures Collect([line], step) == Ok(if step(line).value.Accepted? then [step(line).value.row] else [])
  {
    assert [line][1..] == [];
    assert Collect([line][1..], step) == Ok([]);
    var o := step(line).value;
    var head := if o.Accepted? then [o.row] else [];
    assert head + [] == head;
  }

  // ---------------------------------------------------------------------------
  // Outcome of one file
  // ---------------------------------------------------------------------------

  /** The value `process_gkg` returns. */
  datatype Ret = RetTrue | RetFalse | RetNone

  /** A file either returns (with at most one write) or raises out of `process_gkg`. */
  datatype FileOutcome<W> = Returned(ret: Ret, write: Option<W>) | Raised(error: Exc)

  // ---------------------------------------------------------------------------
  // S3 variant: Australia, two codes, quoted CSV upload
  // ---------------------------------------------------------------------------

  const SwaPrefix: string := "G_from_2015/au/"
  const SwaCountry: string := "AS"

  datatype Upload = Upload(key: string, body: string)

  function SwaStep(raw: string): Result<Outcome<seq<string>>>
  {
    CsvLine(raw, SwaCountry, TwoCodes)
  }

  /**
    An existing key returns `None` before anything is read; any exception while reading
    returns `False` and uploads nothing; otherwise `True`, uploading the CSV text of the
    rows under the same key when there is at least one.
   */
  function SwaFile(fileName: string, stored: set<string>, member: Option<seq<string>>): (r: FileOutcome<Upload>)
    ensures r.Returned?
    ensures SwaPrefix + InnerName(fileName) in stored ==> r == Returned(RetNone, None)
    ensures r.write.Some? ==>
              && r.ret == RetTrue
              && r.write.value.key == SwaPrefix + InnerName(fileName)
              && member.Some? && Collect(member.value, SwaStep).Ok?
              && |Collect(member.value, SwaStep).value| > 0
              && r.write.value.body == CsvFile(Collect(member.value, SwaStep).value)
    ensures r.ret == RetFalse <==> SwaPrefix + InnerName(fileName) !in stored && (member.None? || Collect(member.value, SwaStep).Err?)
    ensures SwaPrefix + InnerName(fileName) !in stored && member.Some? && Collect(member.value, SwaStep).Ok? ==>
              r.ret == RetTrue && (r.write.Some? <==> |Collect(member.value, SwaStep).value| > 0)
  {
    var key := SwaPrefix + InnerName(fileName);
    if key in stored then Returned(RetNone, None)
    else
      match member
      case None => Returned(RetFalse, None)
      case Some(lines) =>
        match Collect(lines, SwaStep)
        case Err(_) => Returned(RetFalse, None)
        case Ok(rows) => Returned(RetTrue, if |rows| > 0 then Some(Upload(key, CsvFile(rows))) else None)
  }

  /** Running the file again after its upload returns `None` and uploads nothing. */
  lemma {:induction false} SwaRerunSkips(fileName: string, stored: set<string>, member: Option<seq<string>>, again: Option<seq<string>>)
    requires SwaFile(fileName, stored, member).write.Some?
    ensures SwaFile(fileName, stored + {SwaFile(fileName, stored, member).write.value.key}, again) == Returned(RetNone, None)
  {
  }

  /** One line that raises anywhere in the member loses the whole file. */
  lemma {:induction false} SwaAllOrNothing(fileName: string, stored: set<string>, lines: seq<string>, k: int)
    requires SwaPrefix + InnerName(fileName) !in stored
    requires 0 <= k < |lines| && SwaStep(lines[k]).Err?
    ensures SwaFile(fileName, stored, Some(lines)) == Returned(RetFalse, None)
  {
  }

  /** The uploaded text reads back as the accepted rows, each cell's `"` turned into `'`. */
  lemma {:induction false} SwaUploadReadsBack(fileName: string, stored: set<string>, lines: seq<string>)
    requires SwaFile(fileName, stored, Some(lines)).write.Some?
    ensures ReadFile(SwaFile(fileName, stored, Some(lines)).write.value.body) == Some(CleanRows(Collect(lines, SwaStep).value))
  {
    var rows := Collect(lines, SwaStep).value;
    CollectRowsFromLines(lines, SwaStep);
    forall k | 0 <= k < |rows| ensures |rows[k]| >= 1 {
      var j :| 0 <= j < |lines| && SwaStep(lines[j]) == Ok(Accepted(rows[k]));
      CsvRowLayout(lines[j], SwaCountry, TwoCodes);
    }
    ReadFileRoundTrip(rows);
  }

  /**
    With two codes, a record whose GCAM entries reach `c3.1:v` after codes below `c3.1`
    gets the block `[v, '']` at the end of its row, whatever entries follow.
   */
  lemma {:induction false} TwoCodeRowFirstPresent(raw: string, country: string, lows: seq<string>, e: string, rest: seq<string>, val: string)
    requires CsvLine(raw, country, TwoCodes).Ok? && CsvLine(raw, country, TwoCodes).value.Accepted?
    requires Entries(Fields(raw)[17]) == lows + [e] + rest
    requires AllBelow(lows, "c3.1") && Entry(e, "c3.1", val)
    ensures var row := CsvLine(raw, country, TwoCodes).value.row;
            |row| >= 2 && row[|row| - 2..] == [val, ""]
  {
    var line := Fields(raw);
    CsvRowLayout(raw, country, TwoCodes);
    TwoCodesFirstPresent(line[17], lows, e, rest, val);
    var row := CsvLine(raw, country, TwoCodes).value.row;
    var tone := Split(line[15], ',');
    var block := Render([Value(val), Missing]);
    assert block == [val, ""];
    assert row[|Selected| + |tone|..] == block;
    assert |row| == |Selected| + |tone| + 2;
    assert row[|row| - 2..] == block;
  }

  /**
    With two codes, a kept record whose GCAM entries reach a code above `c3.1` without a
    `c3.1` entry, and go on to another entry at or above `c3.1`, raises `IndexError`; with
    `SwaAllOrNothing` or `V1File` that loses the whole file.
   */
  lemma {:induction false} TwoCodeLineFirstAbsentRaises(raw: string, country: string, lows: seq<string>, e: string, rest: seq<string>)
    requires |Fields(raw)| >= 18 && Fields(raw)[9] != ""
    requires MentionsCountry(Split(Fields(raw)[9], ';'), country) == Ok(true)
    requires Entries(Fields(raw)[17]) == lows + [e] + rest
    requires AllBelow(lows, "c3.1") && |Split(e, ':')| == 2 && Less("c3.1", CodeOf(e))
    requires rest != [] && |Split(rest[0], ':')| == 2 && !Less(CodeOf(rest[0]), "c3.1")
    ensures CsvLine(raw, country, TwoCodes) == Err(IndexError)
  {
    var line := Fields(raw);
    SplitIsEmptyPiece(line[9], ';');
    TwoCodesFirstAbsent(line[17], lows, e, rest);
  }

  // ---------------------------------------------------------------------------
  // 2020 local-file variants: Australia with 41 codes, India with two codes
  // ---------------------------------------------------------------------------

  function CsvStep(country: string, codes: seq<string>): string -> Result<Outcome<seq<string>>>
  {
    raw => CsvLine(raw, country, codes)
  }

  /** The rows `csv.writer` writes to a local path (its quoting is not modelled). */
  datatype LocalFile = LocalFile(path: string, rows: seq<seq<string>>)

  /**
    Files whose name does not start with `2020` fall through and return `None`; an
    existing output file returns `None`; any exception returns `False`; otherwise `True`,
    writing the rows when there is at least one.
   */
  function V1File(fileName: string, country: string, codes: seq<string>, dir: string,
                  existing: set<string>, member: Option<seq<string>>): (r: FileOutcome<LocalFile>)
    ensures r.Returned?
    ensures !YearGate(fileName) ==> r == Returned(RetNone, None)
    ensures dir + InnerName(fileName) in existing ==> r == Returned(RetNone, None)
    ensures r.write.Some? ==>
              && r.ret == RetTrue
              && r.write.value.path == dir + InnerName(fileName)
              && member.Some?
              && Collect(member.value, CsvStep(country, codes)) == Ok(r.write.value.rows)
              && |r.write.value.rows| > 0
    ensures r.ret == RetFalse <==>
              YearGate(fileName) && dir + InnerName(fileName) !in existing
              && (member.None? || Collect(member.value, CsvStep(country, codes)).Err?)
    ensures r.ret == RetTrue ==> YearGate(fileName) && member.Some?
    ensures YearGate(fileName) && dir + InnerName(fileName) !in existing
            && member.Some? && Collect(member.value, CsvStep(country, codes)).Ok? ==>
              r.ret == RetTrue && (r.write.Some? <==> |Collect(member.value, CsvStep(country, codes)).value| > 0)
  {
    var path := dir + InnerName(fileName);
    if !YearGate(fileName) then Returned(RetNone, None)
    else if path in existing then Returned(RetNone, None)
    else
      match member
      case None => Returned(RetFalse, None)
      case Some(lines) =>
        match Collect(lines, CsvStep(country, codes))
        case Err(_) => Returned(RetFalse, None)
        case Ok(rows) => Returned(RetTrue, if |rows| > 0 then Some(LocalFile(path, rows)) else None)
  }

  /** The Australian 2020 script: `AS`, the 41-code schema, output under `gdelt-2020-AU/`. */
  function AuFile(fileName: string, existing: set<string>, member: Option<seq<string>>): (r: FileOutcome<LocalFile>)
    ensures r.Returned?
    ensures r.write.Some? ==>
              && r.write.value.path == "gdelt-2020-AU/" + InnerName(fileName)
              && member.Some? && Collect(member.value, CsvStep("AS", Schema41())) == Ok(r.write.value.rows)
  {
    V1File(fileName, "AS", Schema41(), "gdelt-2020-AU/", existing, member)
  }

  /** The Indian 2020 script: `IN`, the two-code schema, output under `../gdelt-in/`. */
  function InFile(fileName: string, existing: set<string>, member: Option<seq<string>>): (r: FileOutcome<LocalFile>)
    ensures r.Returned?
    ensures r.write.Some? ==>
              && r.write.value.path == "../gdelt-in/" + InnerName(fileName)
              && member.Some? && Collect(member.value, CsvStep("IN", TwoCodes)) == Ok(r.write.value.rows)
  {
    V1File(fileName, "IN", TwoCodes, "../gdelt-in/", existing, member)
  }

  /**
    A CSV row ends in a code block of at most 41 cells, never exactly 40, whose last
    cell is `''` when it is complete.
   */
  predicate Block41Shape(row: seq<string>, raw: string)
  {
    var line := Fields(raw);
    |line| >= 16 &&
    var tone := Split(line[15], ',');
    |row| >= |Selected| + |tone| &&
    var block := row[|Selected| + |tone|..];
    |block| <= 41 && |block| != 40 && (|block| == 41 ==> block[40] == "")
  }

  lemma {:induction false} RowBlock41(raw: string, country: string)
    requires CsvLine(raw, country, Schema41()).Ok? && CsvLine(raw, country, Schema41()).value.Accepted?
    ensures Block41Shape(CsvLine(raw, country, Schema41()).value.row, raw)
  {
    Schema41Facts();
    CsvRowLayout(raw, country, Schema41());
  }

  /** Every row the Australian 2020 script writes has the 41-code block shape of its line. */
  lemma {:induction false} AuRowsShape(fileName: string, existing: set<string>, member: Option<seq<string>>)
    requires AuFile(fileName, existing, member).write.Some?
    ensures var rows := AuFile(fileName, existing, member).write.value.rows;
            forall k :: 0 <= k < |rows| ==>
              exists j :: 0 <= j < |member.value| && CsvStep("AS", Schema41())(member.value[j]) == Ok(Accepted(rows[k]))
                && Block41Shape(rows[k], member.value[j])
  {
    var rows := AuFile(fileName, existing, member).write.value.rows;
    var lines := member.value;
    CollectRowsFromLines(lines, CsvStep("AS", Schema41()));
    forall k | 0 <= k < |rows|
      ensures exists j :: 0 <= j < |lines| && CsvStep("AS", Schema41())(lines[j]) == Ok(Accepted(rows[k]))
                && Block41Shape(rows[k], lines[j])
    {
      var j :| 0 <= j < |lines| && CsvStep("AS", Schema41())(lines[j]) == Ok(Accepted(rows[k]));
      RowBlock41(lines[j], "AS");
    }
  }

  /**
    The stale cursor on the 41-code schema drops a whole Australian file: a line that
    names `AS`, whose GCAM field reaches an entry beyond `v10.2` (the 40th code) before
    any schema code and then has another at or above `v10.2`, raises `IndexError`, so
    the script returns `False` and writes nothing.
   */
  lemma {:induction false} AuStaleCursorDropsFile(fileName: string, existing: set<string>, lines: seq<string>, k: int,
                                                  lows: seq<string>, e: string, f: string, rest: seq<string>)
    requires YearGate(fileName) && "gdelt-2020-AU/" + InnerName(fileName) !in existing
    requires 0 <= k < |lines| && |Fields(lines[k])| >= 18 && Fields(lines[k])[9] != ""
    requires MentionsCountry(Split(Fields(lines[k])[9], ';'), "AS") == Ok(true)
    requires Entries(Fields(lines[k])[17]) == lows + [e, f] + rest
    requires forall j :: 0 <= j < |lows| ==> |Split(lows[j], ':')| == 2 && Less(CodeOf(lows[j]), "c3.1")
    requires |Split(e, ':')| == 2 && Less("v10.2", CodeOf(e))
    requires |Split(f, ':')| == 2 && !Less(CodeOf(f), "v10.2")
    ensures CsvLine(lines[k], "AS", Schema41()) == Err(IndexError)
    ensures AuFile(fileName, existing, Some(lines)) == Returned(RetFalse, None)
  {
    Schema41Facts();
    AlignStaleRaises(Fields(lines[k])[17], Schema41(), lows, e, f, rest);
    assert CsvStep("AS", Schema41())(lines[k]).Err?;
  }

  // ---------------------------------------------------------------------------
  // Database variant: several countries, typed rows
  // ---------------------------------------------------------------------------

  function DbStep(countries: seq<string>): string -> Result<Outcome<DbRow>>
  {
    raw => DbLine(raw, countries)
  }

  /**
    The timestamp comes from the archive name outside the `try`, so a name without it
    raises; a timestamp already in the database returns `False` before the archive is
    read; any exception while reading returns `None`; otherwise `True`, inserting the
    rows when there is at least one.
   */
  function V2File(fileUrl: string, countries: seq<string>, inDb: set<Timestamp>, member: Option<seq<string>>): (r: FileOutcome<seq<DbRow>>)
    ensures r.Raised? <==> FileTimestamp(InnerName(fileUrl)).Err?
    ensures r.Raised? ==> r.error == AttributeError
    ensures r.Returned? && r.write.Some? ==>
              && r.ret == RetTrue
              && member.Some?
              && Collect(member.value, DbStep(countries)) == Ok(r.write.value)
              && |r.write.value| > 0
    ensures r.Returned? && r.ret == RetFalse <==> FileTimestamp(InnerName(fileUrl)).Ok? && FileTimestamp(InnerName(fileUrl)).value in inDb
    ensures FileTimestamp(InnerName(fileUrl)).Ok? && FileTimestamp(InnerName(fileUrl)).value !in inDb ==>
              if member.Some? && Collect(member.value, DbStep(countries)).Ok? then
                r.Returned? && r.ret == RetTrue && (r.write.Some? <==> |Collect(member.value, DbStep(countries)).value| > 0)
              else r == Returned(RetNone, None)
  {
    match FileTimestamp(InnerName(fileUrl))
    case Err(e) => Raised(e)
    case Ok(ts) =>
      if ts in inDb then Returned(RetFalse, None)
      else
        match member
        case None => Returned(RetNone, None)
        case Some(lines) =>
          match Collect(lines, DbStep(countries))
          case Err(_) => Returned(RetNone, None)
          case Ok(rows) => Returned(RetTrue, if |rows| > 0 then Some(rows) else None)
  }

  /** The timestamps the inserted rows carry in their date column. */
  function Dates(rows: seq<DbRow>): (r: set<Timestamp>)
    ensures forall k :: 0 <= k < |rows| ==> rows[k].date in r
  {
    set k | 0 <= k < |rows| :: rows[k].date
  }

  /**
    Re-running a file is skipped only through the date column: once a row carrying the
    file's own timestamp has been inserted, the next run returns `False` without reading.
   */
  lemma {:induction false} V2RerunSkips(fileUrl: string, countries: seq<string>, inDb: set<Timestamp>,
                     member: Option<seq<string>>, again: Option<seq<string>>)
    requires V2File(fileUrl, countries, inDb, member).Returned?
    requires V2File(fileUrl, countries, inDb, member).write.Some?
    requires FileTimestamp(InnerName(fileUrl)).value in Dates(V2File(fileUrl, countries, inDb, member).write.value)
    ensures V2File(fileUrl, countries, inDb + Dates(V2File(fileUrl, countries, inDb, member).write.value), again)
         == Returned(RetFalse, None)
  {
  }

  /** The file's timestamp is the one its URL was built from, so a URL of a known file is skipped. */
  lemma {:induction false} V2KnownFileSkipped(dir: string, t: Timestamp, countries: seq<string>, inDb: set<Timestamp>, member: Option<seq<string>>)
    requires ValidTimestamp(t) && t in inDb
    ensures V2File(dir + "/" + t.digits + ".gkg.csv.zip", countries, inDb, member) == Returned(RetFalse, None)
  {
    FileTimestampRoundTrip(dir, t);
  }

  /** One line that raises anywhere in the member loses the whole file: `None`, nothing inserted. */
  lemma {:induction false} V2AllOrNothing(fileUrl: string, countries: seq<string>, inDb: set<Timestamp>, lines: seq<string>, k: int)
    requires FileTimestamp(InnerName(fileUrl)).Ok? && FileTimestamp(InnerName(fileUrl)).value !in inDb
    requires 0 <= k < |lines| && DbLine(lines[k], countries).Err?
    ensures V2File(fileUrl, countries, inDb, Some(lines)) == Returned(RetNone, None)
  {
    assert DbStep(countries)(lines[k]).Err?;
  }

  /**
    The stale cursor on the 41-code schema drops a whole database file: a line that
    names a country of interest, whose GCAM field reaches an entry beyond `v10.2` (the
    40th code) before any schema code and then has another at or above `v10.2`, raises
    `IndexError`, so `process_gkg` returns `None` and inserts nothing.
   */
  lemma {:induction false} V2StaleCursorDropsFile(fileUrl: string, countries: seq<string>, inDb: set<Timestamp>, lines: seq<string>, k: int,
                                                  lows: seq<string>, e: string, f: string, rest: seq<string>)
    requires FileTimestamp(InnerName(fileUrl)).Ok? && FileTimestamp(InnerName(fileUrl)).value !in inDb
    requires 0 <= k < |lines| && |Fields(lines[k])| >= 18 && Fields(lines[k])[9] != ""
    requires RelevantCodes(Split(Fields(lines[k])[9], ';'), countries).Ok?
    requires |RelevantCodes(Split(Fields(lines[k])[9], ';'), countries).value| > 0
    requires Entries(Fields(lines[k])[17]) == lows + [e, f] + rest
    requires forall j :: 0 <= j < |lows| ==> |Split(lows[j], ':')| == 2 && Less(CodeOf(lows[j]), "c3.1")
    requires |Split(e, ':')| == 2 && Less("v10.2", CodeOf(e))
    requires |Split(f, ':')| == 2 && !Less(CodeOf(f), "v10.2")
    ensures DbLine(lines[k], countries) == Err(IndexError)
    ensures V2File(fileUrl, countries, inDb, Some(lines)) == Returned(RetNone, None)
  {
    Schema41Facts();
    AlignStaleRaises(Fields(lines[k])[17], Schema41(), lows, e, f, rest);
    V2AllOrNothing(fileUrl, countries, inDb, lines, k);
  }
}
