/**
  The per-line body of the scripts: a tab-split record is filtered on its location
  field, its GCAM field is aligned onto a code schema, and the output row is assembled
  from nine selected fields, the optional matched countries, the V1.5TONE sub-fields
  and the aligned block.
 */
module Rows {
  import opened Wrappers
  import opened PyStrings
  import opened CodeSchema
  import opened Aligner
  import opened Locations
  import opened Feeds

  /** `raw.split('\t')`. The last field keeps the line's newline. */
  function Fields(raw: string): seq<string>
  {
    Split(raw, '\t')
  }

  /** The field indices `itemgetter(0, 1, 2, 3, 4, 7, 9, 11, 13)` picks. */
  const Selected: seq<nat> := [0, 1, 2, 3, 4, 7, 9, 11, 13]

  function SelectedFields(line: seq<string>): (r: seq<string>)
    requires |line| >= 14
    ensures |r| == |Selected|
    ensures forall k :: 0 <= k < |Selected| ==> r[k] == line[Selected[k]]
  {
    [line[0], line[1], line[2], line[3], line[4], line[7], line[9], line[11], line[13]]
  }

  /** What a line contributes to the file: nothing, or one row. */
  datatype Outcome<R> = Skipped | Accepted(row: R)

  /** The CSV variants write the marker as the empty string. */
  function Render(out: seq<Cell>): (r: seq<string>)
    ensures |r| == |out|
    ensures forall k :: 0 <= k < |out| ==> (out[k].Value? ==> r[k] == out[k].text) && (out[k].Missing? ==> r[k] == "")
  {
    seq(|out|, k requires 0 <= k < |out| => if out[k].Value? then out[k].text else "")
  }

  // ---------------------------------------------------------------------------
  // CSV variants: single country, early-exit filter
  // ---------------------------------------------------------------------------

  /**
    One line of the S3 and 2020 scripts: short lines and an empty location field are
    skipped, then the line is kept iff some location item's fourth token is `country`;
    the row is the nine selected fields, the `,`-split tone field and the aligned block.
   */
  function CsvLine(raw: string, country: string, codes: seq<string>): (r: Result<Outcome<seq<string>>>)
    ensures |Fields(raw)| < 10 ==> r == Ok(Skipped)
    ensures |Fields(raw)| >= 10 && Fields(raw)[9] == "" ==> r == Ok(Skipped)
    ensures r.Ok? && r.value.Accepted? ==>
              |Fields(raw)| >= 18 && MentionsCountry(Split(Fields(raw)[9], ';'), country) == Ok(true)
    ensures |Fields(raw)| >= 10 && Fields(raw)[9] != "" ==>
              var line := Fields(raw);
              var found := MentionsCountry(Split(line[9], ';'), country);
              && (found.Err? ==> r == Err(found.error))
              && (found == Ok(false) ==> r == Ok(Skipped))
              && (found == Ok(true) && |line| < 18 ==> r == Err(IndexError))
              && (found == Ok(true) && |line| >= 18 && Align(line[17], codes).Err? ==>
                    r == Err(Align(line[17], codes).error))
              && (found == Ok(true) && |line| >= 18 && Align(line[17], codes).Ok? ==>
                    r.Ok? && r.value.Accepted?)
  {
    var line := Fields(raw);
    if |line| < 10 then Ok(Skipped)
    else
      var locs := Split(line[9], ';');
      SplitIsEmptyPiece(line[9], ';');
      if locs == [""] then Ok(Skipped)
      else
        match MentionsCountry(locs, country)
        case Err(e) => Err(e)
        case Ok(found) =>
          if !found then Ok(Skipped)
          else if |line| < 18 then Err(IndexError)
          else
            match Align(line[17], codes)
            case Err(e) => Err(e)
            case Ok(out) =>
              Ok(Accepted(SelectedFields(line) + Split(line[15], ',') + Render(out)))
  }

  /**
    The accepted row is the nine selected fields, then the tone sub-fields, then the
    aligned block with the marker written as the empty string.
   */
  lemma {:induction false} CsvRowLayout(raw: string, country: string, codes: seq<string>)
    requires CsvLine(raw, country, codes).Ok? && CsvLine(raw, country, codes).value.Accepted?
    ensures var line := Fields(raw);
            var tone := Split(line[15], ',');
            var row := CsvLine(raw, country, codes).value.row;
            && Align(line[17], codes).Ok?
            && |row| == |Selected| + |tone| + |Align(line[17], codes).value|
            && (forall k :: 0 <= k < |Selected| ==> row[k] == line[Selected[k]])
            && row[|Selected|..|Selected| + |tone|] == tone
            && row[|Selected| + |tone|..] == Render(Align(line[17], codes).value)
  {
    var line := Fields(raw);
    var tone := Split(line[15], ',');
    var row := CsvLine(raw, country, codes).value.row;
    var out := Align(line[17], codes).value;
    assert row == SelectedFields(line) + tone + Render(out);
    ThreeParts(SelectedFields(line), tone, Render(out));
  }

  /** Where the three parts of a concatenation sit. */
  lemma {:induction false} ThreeParts(a: seq<string>, b: seq<string>, c: seq<string>)
    ensures forall k :: 0 <= k < |a| ==> (a + b + c)[k] == a[k]
    ensures (a + b + c)[|a|..|a| + |b|] == b
    ensures (a + b + c)[|a| + |b|..] == c
  {
    assert (a + b + c)[|a|..|a| + |b|] == b;
    assert (a + b + c)[|a| + |b|..] == c;
  }

  /** A record whose location items all have four tokens and whose GCAM field aligns. */
  predicate Decodable(raw: string, codes: seq<string>)
  {
    var line := Fields(raw);
    |line| >= 18 && AllReadable(Split(line[9], ';')) && Align(line[17], codes).Ok?
  }

  /** On a decodable record the CSV variants keep the line iff some item names `country`. */
  lemma {:induction false} CsvLineAcceptsIff(raw: string, country: string, codes: seq<string>)
    requires Decodable(raw, codes)
    ensures CsvLine(raw, country, codes).Ok?
    ensures CsvLine(raw, country, codes).value.Accepted? <==> NamesAny(Split(Fields(raw)[9], ';'), [country])
  {
    var line := Fields(raw);
    var locs := Split(line[9], ';');
    MentionsIff(locs, country);
  }

  // ---------------------------------------------------------------------------
  // Database variant: every matching country, typed row
  // ---------------------------------------------------------------------------

  /** The parts of a list without the empty ones. */
  function DropEmpty(xs: seq<string>): (r: seq<string>)
    ensures |r| <= |xs|
    ensures forall k :: 0 <= k < |r| ==> r[k] != "" && r[k] in xs
    ensures forall x :: x in xs && x != "" ==> x in r
  {
    if |xs| == 0 then [] else (if xs[0] == "" then [] else [xs[0]]) + DropEmpty(xs[1..])
  }

  /** One part is kept exactly when it is non-empty. */
  lemma {:induction false} DropEmptyOne(x: string)
    ensures DropEmpty([x]) == if x == "" then [] else [x]
  {
    assert [x][1..] == [];
  }

  /** The comprehension keeps order and repeats: the kept parts of `a + b` are those of `a`, then those of `b`. */
  lemma {:induction false} DropEmptyAppend(a: seq<string>, b: seq<string>)
    ensures DropEmpty(a + b) == DropEmpty(a) + DropEmpty(b)
    decreases |a|
  {
    if |a| == 0 {
      assert a + b == b;
    } else {
      assert (a + b)[0] == a[0] && (a + b)[1..] == a[1..] + b;
      DropEmptyAppend(a[1..], b);
      var head := if a[0] == "" then [] else [a[0]];
      assert head + (DropEmpty(a[1..]) + DropEmpty(b)) == (head + DropEmpty(a[1..])) + DropEmpty(b);
    }
  }

  /** `[x for x in s.split(';') if x] if s else []`. */
  function NonEmptyParts(s: string): (r: seq<string>)
    ensures forall k :: 0 <= k < |r| ==> r[k] != "" && ';' !in r[k]
  {
    if s == "" then [] else DropEmpty(Split(s, ';'))
  }

  /** The guard on the empty field changes nothing: `''.split(';')` has no non-empty part. */
  lemma {:induction false} NonEmptyPartsUnguarded(s: string)
    ensures NonEmptyParts(s) == DropEmpty(Split(s, ';'))
  {
  }

  lemma {:induction false} DropEmptyKeeps(xs: seq<string>)
    requires forall k :: 0 <= k < |xs| ==> xs[k] != ""
    ensures DropEmpty(xs) == xs
    decreases |xs|
  {
    if |xs| > 0 {
      DropEmptyKeeps(xs[1..]);
    }
  }

  /** A list of non-empty, `;`-free names written with `;` is read back unchanged. */
  lemma {:induction false} NonEmptyPartsRoundTrip(parts: seq<string>)
    requires forall k :: 0 <= k < |parts| ==> parts[k] != "" && ';' !in parts[k]
    ensures NonEmptyParts(Join(parts, ';')) == parts
  {
    if |parts| > 0 {
      SplitJoin(parts, ';');
      DropEmptyKeeps(parts);
      SplitIsEmptyPiece(Join(parts, ';'), ';');
    }
  }

  /** Every location item becomes a record; the first short item raises `TypeError`. */
  function GetLocItems(items: seq<string>): (r: Result<seq<LocItem>>)
    ensures r.Err? ==> r.error == TypeError
    ensures r.Ok? <==> forall k :: 0 <= k < |items| ==> GetLocItem(items[k]).Ok?
    ensures r.Ok? ==> |r.value| == |items| && forall k :: 0 <= k < |items| ==> r.value[k] == GetLocItem(items[k]).value
    decreases |items|
  {
    if |items| == 0 then Ok([])
    else
      match GetLocItem(items[0])
      case Err(e) => Err(e)
      case Ok(item) =>
        match GetLocItems(items[1..])
        case Err(e) => Err(e)
        case Ok(rest) =>
          assert forall k :: 0 <= k < |items[1..]| ==> items[1..][k] == items[k + 1];
          Ok([item] + rest)
  }

  /** The database variant keeps the marker as `None`. */
  function Nullable(out: seq<Cell>): (r: seq<Option<string>>)
    ensures |r| == |out|
    ensures forall k :: 0 <= k < |out| ==> (r[k].None? <==> out[k].Missing?) && (out[k].Value? ==> r[k] == Some(out[k].text))
  {
    seq(|out|, k requires 0 <= k < |out| => if out[k].Value? then Some(out[k].text) else None)
  }

  /** The database row, with the reshaped fields in their typed form. */
  datatype DbRow = DbRow(
    gkgId: string,
    date: Timestamp,
    source: string,
    sourceName: string,
    docId: string,
    themes: seq<string>,
    locations: seq<LocItem>,
    persons: seq<string>,
    orgs: seq<string>,
    countries: seq<string>,
    tone: seq<string>,
    gcam: seq<Option<string>>)

  /** The number of columns the row's tuple has. */
  function DbColumns(row: DbRow): nat
  {
    |Selected| + 1 + |row.tone| + |row.gcam|
  }

  /**
    One line of the database variant: after the field-count and empty-location checks,
    `relevant_codes` collects every item's fourth token that is a country of interest and
    the line is skipped when none is; the 41-code block uses `None` as marker; the date,
    themes, locations, persons and organisations are then reshaped.
   */
  function DbLine(raw: string, countries: seq<string>): (r: Result<Outcome<DbRow>>)
    ensures |Fields(raw)| < 10 ==> r == Ok(Skipped)
    ensures |Fields(raw)| >= 10 && Fields(raw)[9] == "" ==> r == Ok(Skipped)
    ensures r.Ok? && r.value.Accepted? ==>
              var line := Fields(raw);
              var row := r.value.row;
              && |line| >= 18
              && RelevantCodes(Split(line[9], ';'), countries) == Ok(row.countries)
              && |row.countries| > 0
              && Align(line[17], Schema41()).Ok?
              && row.gcam == Nullable(Align(line[17], Schema41()).value)
              && row.gkgId == line[0] && row.source == line[2] && row.sourceName == line[3] && row.docId == line[4]
              && row.date.digits == line[1]
              && row.themes == NonEmptyParts(line[7])
              && GetLocItems(Split(line[9], ';')) == Ok(row.locations)
              && row.persons == NonEmptyParts(line[11])
              && row.orgs == NonEmptyParts(line[13])
              && row.tone == Split(line[15], ',')
    ensures |Fields(raw)| >= 10 && Fields(raw)[9] != "" ==>
              var line := Fields(raw);
              var relevant := RelevantCodes(Split(line[9], ';'), countries);
              && (relevant.Err? ==> r == Err(relevant.error))
              && (relevant == Ok([]) ==> r == Ok(Skipped))
              && (relevant.Ok? && |relevant.value| > 0 && |line| < 18 ==> r == Err(IndexError))
              && (relevant.Ok? && |relevant.value| > 0 && |line| >= 18 ==>
                    var block := Align(line[17], Schema41());
                    var date := ParseTimestamp(line[1]);
                    var items := GetLocItems(Split(line[9], ';'));
                    && (block.Err? ==> r == Err(block.error))
                    && (block.Ok? && date.Err? ==> r == Err(date.error))
                    && (block.Ok? && date.Ok? && items.Err? ==> r == Err(items.error))
                    && (block.Ok? && date.Ok? && items.Ok? ==> r.Ok? && r.value.Accepted?))
  {
    var line := Fields(raw);
    if |line| < 10 then Ok(Skipped)
    else
      var locs := Split(line[9], ';');
      SplitIsEmptyPiece(line[9], ';');
      if locs == [""] then Ok(Skipped)
      else
        match RelevantCodes(locs, countries)
        case Err(e) => Err(e)
        case Ok(relevant) =>
          if |relevant| == 0 then Ok(Skipped)
          else if |line| < 18 then Err(IndexError)
          else
            match Align(line[17], Schema41())
            case Err(e) => Err(e)
            case Ok(out) =>
              match ParseTimestamp(line[1])
              case Err(e) => Err(e)
              case Ok(date) =>
                match GetLocItems(locs)
                case Err(e) => Err(e)
                case Ok(items) =>
                  Ok(Accepted(DbRow(line[0], date, line[2], line[3], line[4],
                                    NonEmptyParts(line[7]), items, NonEmptyParts(line[11]),
                                    NonEmptyParts(line[13]), relevant, Split(line[15], ','),
                                    Nullable(out))))
  }

  /** A record the database variant can decode through to its typed row. */
  predicate DbDecodable(raw: string)
  {
    var line := Fields(raw);
    |line| >= 18
    && AllReadable(Split(line[9], ';'))
    && (forall k :: 0 <= k < |Split(line[9], ';')| ==> GetLocItem(Split(line[9], ';')[k]).Ok?)
    && Align(line[17], Schema41()).Ok?
    && ParseTimestamp(line[1]).Ok?
  }

  /** On a decodable record the database variant keeps the line iff some item names a country of interest. */
  lemma {:induction false} DbLineAcceptsIff(raw: string, countries: seq<string>)
    requires DbDecodable(raw)
    ensures DbLine(raw, countries).Ok?
    ensures DbLine(raw, countries).value.Accepted? <==> NamesAny(Split(Fields(raw)[9], ';'), countries)
  {
    var line := Fields(raw);
    var locs := Split(line[9], ';');
    RelevantCodesEmptyIff(locs, countries);
  }

  /**
    The accepted row's last code column is always `None`, and the block either has all
    41 columns or stops short of 40.
   */
  lemma {:induction false} DbRowBlockShape(raw: string, countries: seq<string>)
    requires DbLine(raw, countries).Ok? && DbLine(raw, countries).value.Accepted?
    ensures var g := DbLine(raw, countries).value.row.gcam;
            |g| <= 41 && |g| != 40 && (|g| == 41 ==> g[40] == None)
  {
    Schema41Facts();
  }
}
