/**
  The CSV text the S3 upload writes (`write_to_csv_s3`): every cell is wrapped in double
  quotes after its own double quotes are turned into single quotes, cells are joined
  with `,`, rows with a newline, and the text ends with a newline. A quote-aware reader
  recovers the cleaned rows from that text.
 */
module CsvText {
  import opened Wrappers
  import opened PyStrings

  /** A cell's text with `"` replaced by `'`. */
  function Clean(x: string): (r: string)
    ensures |r| == |x| && '"' !in r
  {
    Replace(x, '"', '\'')
  }

  /** `'"' + str(x).replace('"', "'") + '"'`. */
  function QuoteCell(x: string): (r: string)
    ensures |r| == |x| + 2 && r[0] == '"' && r[|r| - 1] == '"'
    ensures r[1..|r| - 1] == Clean(x)
    ensures forall k :: 0 < k < |r| - 1 ==> r[k] != '"'
  {
    var r := "\"" + Clean(x) + "\"";
    assert forall k :: 0 < k < |r| - 1 ==> r[k] == Clean(x)[k - 1];
    r
  }

  function CleanRow(row: seq<string>): (r: seq<string>)
    ensures |r| == |row|
  {
    seq(|row|, k requires 0 <= k < |row| => Clean(row[k]))
  }

  function CleanRows(rows: seq<seq<string>>): (r: seq<seq<string>>)
    ensures |r| == |rows|
  {
    seq(|rows|, k requires 0 <= k < |rows| => CleanRow(rows[k]))
  }

  /** One row: its quoted cells joined with `,`. */
  function CsvRow(row: seq<string>): string
  {
    Join(seq(|row|, k requires 0 <= k < |row| => QuoteCell(row[k])), ',')
  }

  /** The whole text: the rows joined with newlines, plus a final newline. */
  function CsvFile(rows: seq<seq<string>>): (text: string)
    ensures |text| > 0 && text[|text| - 1] == '\n'
  {
    Join(seq(|rows|, k requires 0 <= k < |rows| => CsvRow(rows[k])), '\n') + "\n"
  }

  // ---------------------------------------------------------------------------
  // Reader
  // ---------------------------------------------------------------------------

  /** The text up to the next `"`, and what follows that quote. */
  function UntilQuote(s: string): (r: Option<(string, string)>)
    ensures r.Some? ==> '"' !in r.value.0 && |r.value.1| < |s|
    decreases |s|
  {
    if |s| == 0 then None
    else if s[0] == '"' then Some(("", s[1..]))
    else
      match UntilQuote(s[1..])
      case None => None
      case Some((cell, rest)) => Some(([s[0]] + cell, rest))
  }

  /** One row of quoted cells separated by `,` and closed by a newline; returns the text after it. */
  function ReadRow(s: string): (r: Option<(seq<string>, string)>)
    ensures r.Some? ==> |r.value.0| >= 1 && |r.value.1| < |s|
    ensures r.Some? ==> forall k :: 0 <= k < |r.value.0| ==> '"' !in r.value.0[k]
    decreases |s|
  {
    if |s| == 0 || s[0] != '"' then None
    else
      match UntilQuote(s[1..])
      case None => None
      case Some((cell, rest)) =>
        if |rest| > 0 && rest[0] == ',' then
          match ReadRow(rest[1..])
          case None => None
          case Some((cells, after)) => Some(([cell] + cells, after))
        else if |rest| > 0 && rest[0] == '\n' then Some(([cell], rest[1..]))
        else None
  }

  /** The rows of a whole text. */
  function ReadFile(s: string): (r: Option<seq<seq<string>>>)
    decreases |s|
  {
    if |s| == 0 then Some([])
    else
      match ReadRow(s)
      case None => None
      case Some((row, rest)) =>
        match ReadFile(rest)
        case None => None
        case Some(rows) => Some([row] + rows)
  }

  // ---------------------------------------------------------------------------
  // Round trip
  // ---------------------------------------------------------------------------

  lemma {:induction false} UntilQuoteOf(cell: string, rest: string)
    requires '"' !in cell
    ensures UntilQuote(cell + "\"" + rest) == Some((cell, rest))
    decreases |cell|
  {
    var s := cell + "\"" + rest;
    if |cell| == 0 {
      assert s == "\"" + rest;
      assert s[1..] == rest;
    } else {
      assert s[0] == cell[0];
      assert s[1..] == cell[1..] + "\"" + rest;
      UntilQuoteOf(cell[1..], rest);
      assert [cell[0]] + cell[1..] == cell;
    }
  }

  /** A written row followed by a newline is read back as its cleaned cells. */
  lemma {:induction false} ReadRowOf(row: seq<string>, tail: string)
    requires |row| >= 1
    ensures ReadRow(CsvRow(row) + "\n" + tail) == Some((CleanRow(row), tail))
    decreases |row|
  {
    var c := Clean(row[0]);
    CsvRowCons(row);
    if |row| == 1 {
      ReadLastCell(c, tail);
      assert CsvRow(row) + "\n" + tail == "\"" + c + "\"" + "\n" + tail;
      assert CleanRow(row) == [c];
    } else {
      ReadRowOf(row[1..], tail);
      ReadInnerCell(c, CsvRow(row[1..]) + "\n" + tail);
      assert CsvRow(row) + "\n" + tail == "\"" + c + "\"" + "," + (CsvRow(row[1..]) + "\n" + tail);
      assert CleanRow(row) == [c] + CleanRow(row[1..]);
    }
  }

  /** A row's text is its first quoted cell, then `,` and the rest of the row when there is one. */
  lemma {:induction false} CsvRowCons(row: seq<string>)
    requires |row| >= 1
    ensures |row| == 1 ==> CsvRow(row) == "\"" + Clean(row[0]) + "\""
    ensures |row| >= 2 ==> CsvRow(row) == "\"" + Clean(row[0]) + "\"" + "," + CsvRow(row[1..])
  {
    var quoted := seq(|row|, k requires 0 <= k < |row| => QuoteCell(row[k]));
    if |row| >= 2 {
      assert quoted[1..] == seq(|row| - 1, k requires 0 <= k < |row| - 1 => QuoteCell(row[1..][k]));
    }
  }

  /** The last cell of a row, closed by the newline. */
  lemma {:induction false} ReadLastCell(c: string, tail: string)
    requires '"' !in c
    ensures ReadRow("\"" + c + "\"" + "\n" + tail) == Some(([c], tail))
  {
    var s := "\"" + c + "\"" + "\n" + tail;
    assert s[1..] == c + "\"" + ("\n" + tail);
    UntilQuoteOf(c, "\n" + tail);
    assert ("\n" + tail)[1..] == tail;
  }

  /** A cell followed by `,` is read, then the rest of the row. */
  lemma {:induction false} ReadInnerCell(c: string, more: string)
    requires '"' !in c
    ensures ReadRow("\"" + c + "\"" + "," + more)
         == match ReadRow(more)
            case None => None
            case Some((cells, after)) => Some(([c] + cells, after))
  {
    var s := "\"" + c + "\"" + "," + more;
    assert s[1..] == c + "\"" + ("," + more);
    UntilQuoteOf(c, "," + more);
    assert ("," + more)[1..] == more;
  }

  /** `CsvFile(rows)` is every row's text followed by a newline, one after another. */
  lemma {:induction false} CsvFileCons(rows: seq<seq<string>>)
    requires |rows| >= 1
    ensures |rows| == 1 ==> CsvFile(rows) == CsvRow(rows[0]) + "\n"
    ensures |rows| >= 2 ==> CsvFile(rows) == CsvRow(rows[0]) + "\n" + CsvFile(rows[1..])
  {
    var lines := seq(|rows|, k requires 0 <= k < |rows| => CsvRow(rows[k]));
    if |rows| >= 2 {
      assert lines[1..] == seq(|rows| - 1, k requires 0 <= k < |rows| - 1 => CsvRow(rows[1..][k]));
    }
  }

  /**
    Reading the uploaded text back gives the rows with `"` turned into `'`, whatever
    commas or newlines the cells contain, as long as there is a row and no row is empty.
   */
  lemma {:induction false} ReadFileRoundTrip(rows: seq<seq<string>>)
    requires |rows| >= 1
    requires forall k :: 0 <= k < |rows| ==> |rows[k]| >= 1
    ensures ReadFile(CsvFile(rows)) == Some(CleanRows(rows))
    decreases |rows|
  {
    CsvFileCons(rows);
    var cleaned := CleanRows(rows);
    if |rows| == 1 {
      ReadRowOf(rows[0], "");
      assert CsvRow(rows[0]) + "\n" + "" == CsvFile(rows);
      assert ReadRow(CsvFile(rows)) == Some((CleanRow(rows[0]), ""));
      assert ReadFile("") == Some([]);
      assert ReadFile(CsvFile(rows)) == Some([CleanRow(rows[0])] + []);
      assert cleaned == [CleanRow(rows[0])] + [];
    } else {
      ReadRowOf(rows[0], CsvFile(rows[1..]));
      ReadFileRoundTrip(rows[1..]);
      assert cleaned == [CleanRow(rows[0])] + CleanRows(rows[1..]);
    }
  }
}
