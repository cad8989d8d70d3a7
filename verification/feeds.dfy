/**
  The GKG feed around the per-line core: the master file list, the archive's inner
  file name, the timestamp carried by that name, and the year gate of the 2020 scripts.
 */
module Feeds {
  import opened Wrappers
  import opened PyStrings

  // ---------------------------------------------------------------------------
  // Splitting facts used below
  // ---------------------------------------------------------------------------

  /** Text without the separator is a single piece. */
  lemma {:induction false} SplitNoSep(s: string, sep: char)
    requires sep !in s
    ensures Split(s, sep) == [s]
  {
    SplitJoin([s], sep);
  }

  /** Splitting `a + sep + b` splits `a` and `b` separately. */
  lemma {:induction false} SplitAround(a: string, b: string, sep: char)
    ensures Split(a + [sep] + b, sep) == Split(a, sep) + Split(b, sep)
    decreases |a|
  {
    if |a| == 0 {
      assert a + [sep] + b == [sep] + b;
      assert ([sep] + b)[1..] == b;
    } else {
      assert (a + [sep] + b)[0] == a[0];
      assert (a + [sep] + b)[1..] == a[1..] + [sep] + b;
      SplitAround(a[1..], b, sep);
    }
  }

  // ---------------------------------------------------------------------------
  // Master file list
  // ---------------------------------------------------------------------------

  /** The marker a master-list line must contain to be kept. */
  const GkgMarker: string := "gkg.csv.zip"

  /** The download keeps the lines that mention a GKG archive, in order. */
  function KeepGkgLines(lines: seq<string>): (kept: seq<string>)
    ensures |kept| <= |lines|
    ensures forall k :: 0 <= k < |kept| ==> Contains(kept[k], GkgMarker) && kept[k] in lines
    ensures forall l :: l in lines && Contains(l, GkgMarker) ==> l in kept
  {
    if |lines| == 0 then []
    else (if Contains(lines[0], GkgMarker) then [lines[0]] else []) + KeepGkgLines(lines[1..])
  }

  /** One line is kept exactly when it mentions a GKG archive. */
  lemma {:induction false} KeepGkgLinesOne(line: string)
    ensures KeepGkgLines([line]) == if Contains(line, GkgMarker) then [line] else []
  {
    assert [line][1..] == [];
  }

  /** The filter keeps the download's order: the kept lines of `a + b` are those of `a`, then those of `b`. */
  lemma {:induction false} KeepGkgLinesAppend(a: seq<string>, b: seq<string>)
    ensures KeepGkgLines(a + b) == KeepGkgLines(a) + KeepGkgLines(b)
    decreases |a|
  {
    if |a| == 0 {
      assert a + b == b;
    } else {
      assert (a + b)[0] == a[0] && (a + b)[1..] == a[1..] + b;
      KeepGkgLinesAppend(a[1..], b);
      var head := if Contains(a[0], GkgMarker) then [a[0]] else [];
      assert head + (KeepGkgLines(a[1..]) + KeepGkgLines(b)) == (head + KeepGkgLines(a[1..])) + KeepGkgLines(b);
    }
  }

  /** Each kept line is written followed by a newline. */
  function SavedLines(kept: seq<string>): (saved: seq<string>)
    ensures |saved| == |kept|
  {
    seq(|kept|, k requires 0 <= k < |kept| => kept[k] + "\n")
  }

  /** `line.split(' ')[2][:-1]`: the third token without its last character (the newline). */
  function MasterUrl(line: string): (r: Result<string>)
    ensures r.Err? <==> |Split(line, ' ')| < 3
    ensures r.Err? ==> r.error == IndexError
    ensures r.Ok? ==> ' ' !in r.value
  {
    var tokens := Split(line, ' ');
    if |tokens| < 3 then Err(IndexError) else Ok(DropLast(tokens[2], 1))
  }

  /** `get_gkg_files`: every line's URL, most recent (last line) first. */
  function GkgFiles(lines: seq<string>): (r: Result<seq<string>>)
    ensures r.Err? ==> r.error == IndexError
    ensures r.Ok? <==> forall k :: 0 <= k < |lines| ==> MasterUrl(lines[k]).Ok?
    ensures r.Ok? ==> |r.value| == |lines|
    ensures r.Ok? ==> forall k :: 0 <= k < |lines| ==> r.value[k] == MasterUrl(lines[|lines| - 1 - k]).value
    decreases |lines|
  {
    if |lines| == 0 then Ok([])
    else
      match MasterUrl(lines[0])
      case Err(e) => Err(e)
      case Ok(url) =>
        match GkgFiles(lines[1..])
        case Err(e) => Err(e)
        case Ok(rest) =>
          assert forall k :: 0 <= k < |lines[1..]| ==> lines[1..][k] == lines[k + 1];
          Ok(rest + [url])
  }

  /** One master-list line: size, checksum and URL separated by spaces. */
  datatype MasterEntry = MasterEntry(size: string, hash: string, url: string)

  predicate SpaceFree(e: MasterEntry)
  {
    ' ' !in e.size && ' ' !in e.hash && ' ' !in e.url
  }

  function EntryLine(e: MasterEntry): string
  {
    Join([e.size, e.hash, e.url], ' ')
  }

  /** A saved line gives back the URL it was written with. */
  lemma {:induction false} MasterUrlRoundTrip(e: MasterEntry)
    requires SpaceFree(e)
    ensures MasterUrl(EntryLine(e) + "\n") == Ok(e.url)
  {
    Join3(e.size, e.hash, e.url, ' ');
    Join3(e.size, e.hash, e.url + "\n", ' ');
    assert EntryLine(e) + "\n" == Join([e.size, e.hash, e.url + "\n"], ' ');
    SplitJoin([e.size, e.hash, e.url + "\n"], ' ');
    assert (e.url + "\n")[..|e.url|] == e.url;
  }

  /** The master list as published: one line per entry. */
  function EntryLines(entries: seq<MasterEntry>): (lines: seq<string>)
    ensures |lines| == |entries|
  {
    seq(|entries|, k requires 0 <= k < |entries| => EntryLine(entries[k]))
  }

  /** The entries' URLs, last entry first. */
  function UrlsNewestFirst(entries: seq<MasterEntry>): (urls: seq<string>)
    ensures |urls| == |entries|
  {
    seq(|entries|, k requires 0 <= k < |entries| => entries[|entries| - 1 - k].url)
  }

  /** Saving well-formed entries and reading the file back lists their URLs in reverse order. */
  lemma {:induction false} GkgFilesRoundTrip(entries: seq<MasterEntry>)
    requires forall k :: 0 <= k < |entries| ==> SpaceFree(entries[k])
    ensures GkgFiles(SavedLines(EntryLines(entries))) == Ok(UrlsNewestFirst(entries))
  {
    var lines := SavedLines(EntryLines(entries));
    forall k | 0 <= k < |lines| ensures MasterUrl(lines[k]) == Ok(entries[k].url) {
      assert lines[k] == EntryLine(entries[k]) + "\n";
      MasterUrlRoundTrip(entries[k]);
    }
    var r := GkgFiles(lines);
    var urls := UrlsNewestFirst(entries);
    assert r.Ok? && |r.value| == |urls|;
    forall k | 0 <= k < |urls| ensures r.value[k] == urls[k] {
      var j := |lines| - 1 - k;
      assert r.value[k] == MasterUrl(lines[j]).value;
      assert MasterUrl(lines[j]) == Ok(entries[j].url);
    }
    assert r.value == urls;
  }

  // ---------------------------------------------------------------------------
  // Archive member name and its timestamp
  // ---------------------------------------------------------------------------

  /** `file_url.split('/')[-1][:-4]`: the last path segment without `.zip`. */
  function InnerName(url: string): (r: string)
    ensures '/' !in r
  {
    DropLast(LastPiece(url, '/'), 4)
  }

  /** The name of a `.zip` archive in any directory is recovered. */
  lemma {:induction false} InnerNameRoundTrip(dir: string, name: string)
    requires '/' !in name
    ensures InnerName(dir + "/" + name + ".zip") == name
  {
    var last := name + ".zip";
    assert dir + "/" + name + ".zip" == dir + ['/'] + last;
    SplitAround(dir, last, '/');
    SplitNoSep(last, '/');
    assert last[..|last| - 4] == name;
  }

  /** The 2020 scripts only process files whose last path segment starts with `2020`. */
  predicate YearGate(url: string)
  {
    Prefix(LastPiece(url, '/'), 4) == "2020"
  }

  predicate IsDigit(c: char)
  {
    '0' <= c <= '9'
  }

  predicate AllDigits(s: string)
  {
    forall k :: 0 <= k < |s| ==> IsDigit(s[k])
  }

  /**
    A date-time as the record writes it, `YYYYmmddHHMMSS`: fourteen digits.
    Calendar range checks are outside this model.
   */
  datatype Timestamp = Timestamp(digits: string)

  predicate ValidTimestamp(t: Timestamp)
  {
    |t.digits| == 14 && AllDigits(t.digits)
  }

  /** `datetime.strptime(s, '%Y%m%d%H%M%S')`, modelled as a fourteen-digit check. */
  function ParseTimestamp(s: string): (r: Result<Timestamp>)
    ensures r.Err? ==> r.error == ValueError
    ensures r.Ok? ==> ValidTimestamp(r.value) && r.value.digits == s
    ensures ValidTimestamp(Timestamp(s)) ==> r.Ok?
  {
    if |s| == 14 && AllDigits(s) then Ok(Timestamp(s)) else Err(ValueError)
  }

  /**
    `re.match(r'(\d{14}).gkg.csv', name)`: fourteen digits, any character but a newline,
    `gkg`, any character but a newline, `csv`, anything after. `group(1)` on a failed
    match raises `AttributeError`.
   */
  predicate NameMatches(name: string)
  {
    |name| >= 22 && AllDigits(name[..14]) && name[14] != '\n' && name[15..18] == "gkg"
    && name[18] != '\n' && name[19..22] == "csv"
  }

  function FileTimestamp(name: string): (r: Result<Timestamp>)
    ensures r.Err? <==> !NameMatches(name)
    ensures r.Err? ==> r.error == AttributeError
    ensures r.Ok? ==> ValidTimestamp(r.value) && r.value.digits <= name
  {
    if NameMatches(name) then Ok(Timestamp(name[..14])) else Err(AttributeError)
  }

  /** The timestamp written into an archive URL is the one read from it. */
  lemma {:induction false} FileTimestampRoundTrip(dir: string, t: Timestamp)
    requires ValidTimestamp(t)
    ensures FileTimestamp(InnerName(dir + "/" + t.digits + ".gkg.csv.zip")) == Ok(t)
  {
    assert dir + "/" + t.digits + ".gkg.csv.zip" == dir + "/" + (t.digits + ".gkg.csv") + ".zip";
    InnerNameRoundTrip(dir, t.digits + ".gkg.csv");
    var name := t.digits + ".gkg.csv";
    assert name[..14] == t.digits;
    assert name[15..18] == "gkg" && name[19..22] == "csv";
  }
}
