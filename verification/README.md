# GDELT GKG per-line pipeline, modelled in Dafny

The scripts of this repository read GDELT Global Knowledge Graph (GKG) archives one
tab-separated record at a time. They share one per-line pipeline, copied with small
changes into four scripts.

- **Line and location filter.** A record with fewer than 10 fields is skipped, and so is a
  record whose location field (field 9) is empty. The `;`-separated location items are
  split on `#`, and their fourth token is compared with the countries of interest.
- **GCAM merge-aligner.** A single-pass sorted merge projects the sparse `code:value`
  list of field 17 onto a fixed, sorted code schema. Codes with no entry get a marker:
  `None` in the database script, `''` in the others.
- **Row assembly.** The row is the nine fields `0,1,2,3,4,7,9,11,13`, then the matched
  countries (database script only), then the `,`-split V1.5TONE field, then the aligned
  block. The database script also reshapes the date, the list fields and the location
  items.
- **Per-file driver.** `process_gkg` skips files that were already handled, collects the
  rows of one archive member, writes them when there is at least one, and returns
  `True`, `False` or `None` according to each script's own convention.
- **Helpers.** The master-list URL parser, the archive name and its timestamp, the typed
  location item, the quoting CSV serialiser of the S3 upload, and the header constants.

The model takes already-decoded lines. Downloads, archives, S3, local files and the
database become parameters: the archive member's lines are an `Option`, and what already
exists is a set. Python exceptions are values of `Wrappers.Exc`, carried in a `Result`.

Modules, one file each:

- `Wrappers`: `Option`, `Result`, `Exc`.
- `PyStrings`: Python's `split`, `join` and slicing, and string `<`. It proves split/join
  round trips and that `<` is a strict total order.
- `CodeSchema`: the two-code and 41-code schemas. It proves the 41 codes are strictly
  sorted and that both scripts build the same list.
- `Aligner`: the merge-aligner as pure functions (`SkipLoop`, `Advance`, `Scan`, `Align`), mirrored
  by imperative methods with loop invariants (`SkipCodes`, `ScanLoop`, `AlignLoop`).
- `AlignerFacts`: the aligner's guard behaviour, the exact two-code outcomes, agreement
  with a reference lookup alignment, and worked examples.
- `Locations`: the filter token, the collecting and early-exit country filters, and
  `get_loc_item`.
- `Feeds`: the master list, the archive name, its timestamp, and the `2020` year gate.
- `Rows`: the per-line bodies of the CSV scripts and of the database script.
- `CsvText`: the text `write_to_csv_s3` uploads, and a quote-aware reader of it.
- `Scripts`: the per-file `process_gkg` of each script.
- `Headers`: the column-name constants of `gdelt_utils.py`.

The aligner is modelled as written. It has three guard effects:

- `code_v` is never set to the last schema code. The last column is therefore always the
  marker.
- A `break` in the equality branch leaves the whole GCAM loop.
- A `break` in the skip loop leaves `code_v` stale at `codes[m-2]`. Any further entry at
  or above that code then reads `codes[m]` and raises `IndexError`.

So a successful block is at most `m` long and never exactly `m-1` long, but it can be
shorter than `m`. A complete merge-join would fill every column whose code has an entry,
and would always give `m` cells. The worked-example lemmas state where the code differs
from that:

- Schema `[c3.1, c3.2, c4.1]`, entries `c3.2:5, c4.1:9`: a complete merge-join gives
  `[null, "5", "9"]`; the code gives `[null, "5", null]`
  (`AlignerFacts.LastCodeDroppedExample`, with `a, b, c` = `c3.1, c3.2, c4.1`).
- Schema `[c3.1, c3.2, c7.1]`, entries `c3.1:0.2, c7.1:1.0`: a complete merge-join gives
  `["0.2", null, "1.0"]`; the code gives `["0.2", null, null]`
  (`AlignerFacts.StaleCursorExample`).
- Schema `[c3.1, c3.2]`, no entries: a complete merge-join gives `[null, null]`; the code
  gives an empty block (`AlignerFacts.NoEntriesExample`).

The filter compares the fourth `#` token, as the code does. The location record calls
that token `ADM1_code`, not `country_code` (`Locations.FilterReadsAdm1Code`).

## Model

| member | source | states |
|---|---|---|
| CodeSchema.SpliceAt | Gdelt/Gdelt_v1/gdelt_2020_au.py:30 | `codes[2:2] = ys` keeps the first two codes, puts `ys` next, and shifts the rest behind it |
| CodeSchema.C4SortedIsSorted | Gdelt/Gdelt_v1/gdelt_2020_au.py:24-25 | sorting the generated `c4.1..c4.28` keeps the same 28 codes and puts them in strict string order |
| CodeSchema.Schema41Facts | Gdelt/Gdelt_v1/gdelt_2020_au.py:24-31 | the spliced schema has 41 codes, strictly increasing under string order, equals the database script's schema, starts with `c3.1` and ends with `v10.2, v11.1` |
| CodeSchema.Schema41IsV2 | Gdelt/process_v2/gkg_raw_to_db.py:110-117 | the database script's schema literal is the same list as the spliced 41-code schema |
| CodeSchema.TwoCodesSorted | Gdelt/swa/swa_gdelt_process.py:24 | the two-code schema has `m = 2` and is strictly sorted |
| Aligner.SkipLoop | Gdelt/process_v2/gkg_raw_to_db.py:163-167 | raises `IndexError` exactly when it starts at the last index with `code_v < gcode`; appends one marker per passed code; every passed code is below `gcode`; stops on a code not below `gcode`, or at `m-1` with `code_v` stale and still below `gcode` |
| Aligner.Advance | Gdelt/process_v2/gkg_raw_to_db.py:161-173 | one entry keeps the cursor inside the schema and only appends cells; an entry that does not split into two parts raises `ValueError`; with the cursor at `m-1`, an entry at or above `code_v` raises `IndexError`; no other exception arises |
| Aligner.Scan | Gdelt/process_v2/gkg_raw_to_db.py:160-173 | the cursor stays inside the schema, `len(out) == code_i`, and cells are only ever appended; no entries leave the cursor as it is; an entry that does not split into two parts raises `ValueError`; with the cursor at `m-1`, an entry at or above `code_v` raises `IndexError`; no other exception arises |
| Aligner.ScanPlaces | Gdelt/process_v2/gkg_raw_to_db.py:169-170 | every value cell the scan appends sits at the index of a schema code that some entry reported that value under |
| Aligner.Align | Gdelt/process_v2/gkg_raw_to_db.py:154-176 | an empty schema raises `IndexError`; otherwise it raises exactly when the scan of `gcam[1:]` raises, and only `ValueError` or `IndexError`; a malformed first entry raises `ValueError`; on a one-code schema any entry at or above the code raises `IndexError`; a block is at most `m` long and never `m-1` long; a full block ends in the marker; every value sits at its code's column |
| Aligner.SkipCodes | Gdelt/process_v2/gkg_raw_to_db.py:163-167 | the `while` loop with its `break` computes `SkipLoop` |
| Aligner.ScanLoop | Gdelt/process_v2/gkg_raw_to_db.py:160-173 | the `for` loop over `gcam[1:]` with both `break`s computes `Scan` |
| Aligner.AlignLoop | Gdelt/process_v2/gkg_raw_to_db.py:154-176 | the whole imperative aligner, trailing marker included, computes `Align` |
| AlignerFacts.LowerCodeDropped | Gdelt/process_v2/gkg_raw_to_db.py:163-169 | an entry whose code is below `code_v` changes neither the cursor nor the block |
| AlignerFacts.LowerRunDropped | Gdelt/process_v2/gkg_raw_to_db.py:160-173 | a whole run of entries below `code_v` is dropped |
| AlignerFacts.CursorAtEndRaises | Gdelt/process_v2/gkg_raw_to_db.py:163-167 | with the cursor at `m-1`, any entry at or above `code_v` raises `IndexError` |
| AlignerFacts.SkipPastAll | Gdelt/process_v2/gkg_raw_to_db.py:163-167 | on a sorted schema, a code above `codes[m-2]` runs the skip loop to `m-1`, writes one marker per passed code and leaves `code_v` stale at `codes[m-2]` |
| AlignerFacts.StaleCursorRaises | Gdelt/process_v2/gkg_raw_to_db.py:160-173 | from a fresh cursor, an entry above `codes[m-2]` followed by any entry at or above `codes[m-2]` raises `IndexError` |
| AlignerFacts.AlignStaleRaises | Gdelt/process_v2/gkg_raw_to_db.py:154-176 | a GCAM field whose first code at or above `codes[0]` lies beyond `codes[m-2]`, with a further entry at or above `codes[m-2]`, raises `IndexError` |
| AlignerFacts.MatchBeforeLastEndsScan | Gdelt/process_v2/gkg_raw_to_db.py:169-172 | a match at `m-2` appends the value, moves the cursor to `m-1` and ends the scan, so later entries are never read |
| AlignerFacts.AlignTwoCodes | Gdelt/swa/swa_gdelt_process.py:69-91 | on the two-code schema, the block is the scan's output plus one marker exactly when it holds one cell |
| AlignerFacts.TwoCodesFirstPresent | Gdelt/swa/swa_gdelt_process.py:85-91 | with `c3.1` present after lower codes, the block is `[value, marker]` whatever follows |
| AlignerFacts.StaleAfterLargerCode | Gdelt/swa/swa_gdelt_process.py:79-83 | a first code above `c3.1` leaves the cursor at index 1 with `code_v` still `c3.1` and one marker written |
| AlignerFacts.TwoCodesFirstAbsent | Gdelt/swa/swa_gdelt_process.py:79-91 | with `c3.1` absent, a larger code gives `[marker, marker]` when nothing follows, and `IndexError` when another entry at or above `c3.1` follows |
| AlignerFacts.TwoCodesAllBelow | Gdelt/swa/swa_gdelt_process.py:74-91 | when every code is below `c3.1`, the block is empty |
| AlignerFacts.AlignMatchesReference | Gdelt/process_v2/gkg_raw_to_db.py:154-176 | on a sorted schema and well-formed ascending entries, a successful block, padded with markers, equals the lookup-by-code reference on every column but the last, and the last column is the marker |
| AlignerFacts.LastCodeDroppedExample | Gdelt/process_v2/gkg_raw_to_db.py:169-176 | schema `[a, b, c]`, entries `b:x, c:y`: the block is `[marker, x, marker]`, so `y` is lost |
| AlignerFacts.StaleCursorExample | Gdelt/process_v2/gkg_raw_to_db.py:163-176 | schema `[a, b, c]`, entries `a:x, c:y`: the block is `[x, marker, marker]`, so `y` is lost behind the stale cursor |
| AlignerFacts.NoEntriesExample | Gdelt/swa/swa_gdelt_process.py:74-91 | the two-code schema with no GCAM entry gives an empty block |
| Locations.Token3 | Gdelt/process_v2/gkg_raw_to_db.py:147 | the fourth `#` token, and `IndexError` exactly when an item has fewer than four tokens |
| Locations.Token3OfJoin | Gdelt/process_v2/gkg_raw_to_db.py:147 | an item written from `#`-free tokens yields its fourth token back |
| Locations.RelevantCodes | Gdelt/process_v2/gkg_raw_to_db.py:145-149 | it succeeds exactly when every item has four tokens; every collected code is a country of interest; one short item raises `IndexError` |
| Locations.RelevantCodesAppend | Gdelt/process_v2/gkg_raw_to_db.py:145-149 | the codes of two item lists, one after the other, are the first list's codes followed by the second's |
| Locations.RelevantCodesCounts | Gdelt/process_v2/gkg_raw_to_db.py:145-149 | duplicates are kept: a country of interest occurs as often as items name it, and any other country never occurs |
| Locations.RelevantCodesEmptyIff | Gdelt/process_v2/gkg_raw_to_db.py:145-151 | the list is non-empty, so the line is kept, exactly when some item names a country of interest |
| Locations.MentionsCountry | Gdelt/swa/swa_gdelt_process.py:59-66 | the early-exit scan errs only with `IndexError`; a `True` answer comes from a matching item preceded only by readable items |
| Locations.MentionsIgnoresTail | Gdelt/swa/swa_gdelt_process.py:62-65 | items after the first match are never inspected, even short ones |
| Locations.MentionsMatchesRelevant | Gdelt/swa/swa_gdelt_process.py:59-66 | on readable items, the early-exit scan agrees with the collecting filter restricted to one country |
| Locations.MentionsIff | Gdelt/Gdelt_v1/gdelt_2020_au.py:54-61 | on readable items, the line is kept exactly when some item's fourth token is the country |
| Locations.ScanForCountry | Gdelt/Gdelt_v1/gdelt_process_IN.py:52-56 | the imperative `for ... break` scan computes `MentionsCountry` |
| Locations.NonEmpty | Gdelt/process_v2/gkg_raw_to_db.py:61 | an empty token becomes `None`, and any other token is kept as it is |
| Locations.GetLocItem | Gdelt/process_v2/gkg_raw_to_db.py:57-65 | the constructor raises `TypeError` exactly when the item has fewer than seven `#` tokens |
| Locations.GetLocItemKeepsTokens | Gdelt/process_v2/gkg_raw_to_db.py:59-63 | the record keeps exactly the first seven tokens, and `zip` drops the rest |
| Locations.GetLocItemRoundTrip | Gdelt/process_v2/gkg_raw_to_db.py:57-65 | a canonical record written as seven `#`-joined tokens is read back unchanged |
| Locations.FilterReadsAdm1Code | Gdelt/process_v2/gkg_raw_to_db.py:208-211 | the filter token is the record's `ADM1_code` field |
| Feeds.KeepGkgLines | Gdelt/process_v2/gkg_raw_to_db.py:75-77 | kept lines all contain `gkg.csv.zip`, and every line containing it is kept |
| Feeds.KeepGkgLinesOne | Gdelt/process_v2/gkg_raw_to_db.py:76-77 | a single line is kept exactly when it contains `gkg.csv.zip` |
| Feeds.KeepGkgLinesAppend | Gdelt/process_v2/gkg_raw_to_db.py:75-77 | the filter keeps the download's order and repeats: the kept lines of `a + b` are those of `a`, then those of `b` |
| Feeds.MasterUrl | Gdelt/process_v2/gkg_raw_to_db.py:80 | `IndexError` exactly when a line has fewer than three space-separated tokens; the URL holds no space |
| Feeds.GkgFiles | Gdelt/process_v2/gkg_raw_to_db.py:79-83 | succeeds exactly when every line parses; position `k` holds the URL of line `n-1-k` |
| Feeds.MasterUrlRoundTrip | Gdelt/swa/swa_gdelt_process.py:146-149 | a saved `size hash url` line gives back its URL |
| Feeds.GkgFilesRoundTrip | Gdelt/process_v2/gkg_raw_to_db.py:74-83 | saving well-formed entries and reading the file back lists their URLs, newest entry first |
| Feeds.InnerName | Gdelt/process_v2/gkg_raw_to_db.py:121 | the last path segment without its last four characters holds no `/` |
| Feeds.InnerNameRoundTrip | Gdelt/swa/swa_gdelt_process.py:39 | the name of a `.zip` archive in any directory is recovered |
| Feeds.ParseTimestamp | Gdelt/process_v2/gkg_raw_to_db.py:186 | parsing succeeds exactly on fourteen digits and keeps them; otherwise `ValueError` |
| Feeds.FileTimestamp | Gdelt/process_v2/gkg_raw_to_db.py:121-125 | `AttributeError` exactly when the name does not match the pattern; otherwise the first fourteen digits |
| Feeds.FileTimestampRoundTrip | Gdelt/process_v2/gkg_raw_to_db.py:121-125 | the timestamp written into an archive URL is the one read back from it |
| Rows.SelectedFields | Gdelt/process_v2/gkg_raw_to_db.py:180 | the nine cells are fields `0,1,2,3,4,7,9,11,13`, in that order |
| Rows.Render | Gdelt/swa/swa_gdelt_process.py:79-91 | a value cell keeps its text, and the marker is written as `''` |
| Rows.CsvLine | Gdelt/swa/swa_gdelt_process.py:55-97 | short lines and an empty location field are skipped; past those checks, an `IndexError` of the country filter is passed on, a line naming no wanted country is skipped, a matching line with fewer than 18 fields raises `IndexError`, the aligner's exception is passed on, and otherwise the line is accepted; an accepted line has at least 18 fields and a matching location item |
| Rows.CsvRowLayout | Gdelt/swa/swa_gdelt_process.py:95-96 | the accepted row is the nine selected fields, then the tone sub-fields, then the rendered block |
| Rows.CsvLineAcceptsIff | Gdelt/Gdelt_v1/gdelt_process_IN.py:45-56 | on a decodable record, the line is kept exactly when some location item names the country |
| Rows.DropEmpty | Gdelt/process_v2/gkg_raw_to_db.py:187 | the kept parts are the non-empty ones, and every non-empty part is kept |
| Rows.DropEmptyOne | Gdelt/process_v2/gkg_raw_to_db.py:187 | a single part is kept exactly when it is non-empty |
| Rows.DropEmptyAppend | Gdelt/process_v2/gkg_raw_to_db.py:187 | the comprehension keeps order and repeats: the kept parts of `a + b` are those of `a`, then those of `b` |
| Rows.NonEmptyParts | Gdelt/process_v2/gkg_raw_to_db.py:191-192 | every part is non-empty and free of `;` |
| Rows.NonEmptyPartsUnguarded | Gdelt/process_v2/gkg_raw_to_db.py:187 | the `if row[5] else []` guard changes nothing |
| Rows.NonEmptyPartsRoundTrip | Gdelt/process_v2/gkg_raw_to_db.py:191 | non-empty names written with `;` are read back unchanged |
| Rows.GetLocItems | Gdelt/process_v2/gkg_raw_to_db.py:188-190 | one record per item, in order, and the first short item raises `TypeError` |
| Rows.Nullable | Gdelt/process_v2/gkg_raw_to_db.py:164 | a cell is `None` exactly when it is the marker; a value keeps its text |
| Rows.DbLine | Gdelt/process_v2/gkg_raw_to_db.py:136-194 | short lines and empty location fields are skipped; an accepted row holds fields 0, 2, 3 and 4 as id, source, source name and document id, the parsed date of field 1, the non-empty `;` parts of fields 7, 11 and 13 as themes, persons and organisations, the `get_loc_item` records of field 9, the collected codes (non-empty), the tone sub-fields and the 41-code block with `None` markers; past the skip checks, the exception of the country collection, the `IndexError` of a line with fewer than 18 fields, then the aligner's, the date's and the location items' exceptions are passed on in that order, a line with no wanted country is skipped, and otherwise the line is accepted |
| Rows.DbLineAcceptsIff | Gdelt/process_v2/gkg_raw_to_db.py:145-151 | on a decodable record, the line is kept exactly when some item names a country of interest |
| Rows.DbRowBlockShape | Gdelt/process_v2/gkg_raw_to_db.py:175-176 | the stored block has at most 41 columns, never 40, and its last column is `None` when it has 41 |
| CsvText.Clean | Gdelt/swa/swa_gdelt_process.py:133 | replacing `"` by `'` keeps the length and leaves no `"` |
| CsvText.QuoteCell | Gdelt/swa/swa_gdelt_process.py:133 | the cell is the cleaned text between two quotes, with no quote inside |
| CsvText.CsvFile | Gdelt/swa/swa_gdelt_process.py:137-138 | the text is never empty and ends in a newline |
| CsvText.ReadFileRoundTrip | Gdelt/swa/swa_gdelt_process.py:132-138 | reading the uploaded text back gives the rows with `"` turned into `'`, whatever commas or newlines the cells hold |
| Scripts.Collect | Gdelt/swa/swa_gdelt_process.py:52-97 | succeeds exactly when no line raises; otherwise fails with the exception of some line; at most one row per line |
| Scripts.CollectRowsFromLines | Gdelt/swa/swa_gdelt_process.py:94-97 | every collected row is the row of some accepted line |
| Scripts.CollectAppend | Gdelt/process_v2/gkg_raw_to_db.py:135-194 | the rows of two stretches of lines are the first stretch's rows followed by the second's |
| Scripts.SwaFile | Gdelt/swa/swa_gdelt_process.py:36-103 | an existing key returns `None`; past that check, a raising line or a missing archive returns `False`, and otherwise the file returns `True`; an upload happens exactly when at least one row was collected, under the key `G_from_2015/au/` + name, with the CSV text of the rows |
| Scripts.SwaRerunSkips | Gdelt/swa/swa_gdelt_process.py:43 | after an upload, running the same file again returns `None` and uploads nothing |
| Scripts.SwaAllOrNothing | Gdelt/swa/swa_gdelt_process.py:103 | one raising line anywhere loses the whole file: `False`, nothing uploaded |
| Scripts.SwaUploadReadsBack | Gdelt/swa/swa_gdelt_process.py:125-140 | the uploaded text reads back as the accepted rows, each `"` turned into `'` |
| Scripts.TwoCodeRowFirstPresent | Gdelt/swa/swa_gdelt_process.py:85-97 | a kept row whose GCAM entries reach `c3.1:v` ends in `[v, '']` |
| Scripts.TwoCodeLineFirstAbsentRaises | Gdelt/Gdelt_v1/gdelt_process_IN.py:64-79 | a kept line without `c3.1`, a larger code and one more entry raises `IndexError` |
| Scripts.V1File | Gdelt/Gdelt_v1/gdelt_2020_au.py:33-102 | a name not starting with `2020` or an existing output returns `None`; past those checks, a raising line or a missing archive returns `False`, and otherwise the file returns `True`; a write happens exactly when at least one row was collected, and holds exactly the collected rows |
| Scripts.AuFile | Gdelt/Gdelt_v1/gdelt_2020_au.py:40-99 | writes go to `gdelt-2020-AU/` + name, holding the `AS` rows aligned on the 41 codes |
| Scripts.InFile | Gdelt/Gdelt_v1/gdelt_process_IN.py:35-109 | writes go to `../gdelt-in/` + name, holding the `IN` rows aligned on the two codes |
| Scripts.RowBlock41 | Gdelt/Gdelt_v1/gdelt_2020_au.py:87-91 | a row's code block has at most 41 cells, never 40, and its 41st cell is `''` |
| Scripts.AuRowsShape | Gdelt/Gdelt_v1/gdelt_2020_au.py:89-99 | every written row comes from an accepted line and has the 41-code block shape |
| Scripts.AuStaleCursorDropsFile | Gdelt/Gdelt_v1/gdelt_2020_au.py:66-102 | one line naming `AS` whose GCAM field meets the stale cursor on the 41-code schema raises `IndexError`, and the whole file returns `False` with nothing written |
| Scripts.V2File | Gdelt/process_v2/gkg_raw_to_db.py:103-201 | a name without a timestamp raises `AttributeError` outside the `try`; `False` exactly when the timestamp is already stored; otherwise a raising line or a missing archive returns `None`, and a clean file returns `True`; an insert happens exactly when at least one row was collected, and holds exactly the collected rows |
| Scripts.V2RerunSkips | Gdelt/process_v2/gkg_raw_to_db.py:126-128 | once rows carrying the file's timestamp are stored, the next run returns `False` |
| Scripts.V2KnownFileSkipped | Gdelt/process_v2/gkg_raw_to_db.py:121-128 | the URL of a file whose timestamp is stored returns `False` |
| Scripts.V2AllOrNothing | Gdelt/process_v2/gkg_raw_to_db.py:199-201 | one raising line anywhere loses the whole file: `None`, nothing inserted |
| Scripts.V2StaleCursorDropsFile | Gdelt/process_v2/gkg_raw_to_db.py:154-201 | one line naming a country of interest whose GCAM field meets the stale cursor on the 41-code schema raises `IndexError`, and `process_gkg` returns `None` with nothing inserted |
| Headers.IdHeadersNameSelectedFields | Gdelt/gdelt_utils.py:1-5 | nine names, one per selected field: the first five are the record's own names, and the rest are its V1 themes, locations, persons and organisations |
| Headers.ReadFieldsAreNamed | Gdelt/Gdelt_v1/gdelt_2020_au.py:18-22 | the record has 26 fields, with locations at 9, tone at 15 and GCAM at 17 |
| Headers.NonIdHeadersLayout | Gdelt/gdelt_utils.py:7-41 | the seven tone names come first, then one name per code of the 41-code schema, 57 columns in all |
| Headers.CsvRowFitsRawHeaders | Gdelt/gdelt_utils.py:41 | a complete 41-code CSV row has exactly one cell per raw header |
| Headers.DbRowHasCountriesColumn | Gdelt/process_v2/gkg_raw_to_db.py:179-184 | a row the database script accepts, with seven tone parts and a complete block, has one column more than the raw headers: the countries |

## Left out

- Network, archive and storage I/O is out of scope: `requests`, `zipfile`, latin-1
  decoding, S3 (`head_object`, `put_object`), PostgreSQL (`psycopg2`), `os.path.exists`
  and local file writes. Their results are parameters, such as the member's lines or the
  sets of existing keys, files and timestamps.
- `check_dt_in_db` and `write_processed_to_db` are reduced to membership in a set of
  stored timestamps and to the rows handed over. Their SQL, their connection errors and
  their printing are outside the model.
- `is_s3_key_valid` is reduced to membership. Re-raising a non-404 error is not modelled.
- `requests.get` outside the `try` is not modelled. Its failures are network errors.
- Thread and process pools only fan files out in parallel, so they are left out.
- The `csv.writer` text of the local-file scripts is left out. Those files are modelled as
  their rows, not as quoted text.
- Scripts.SwaFile: the upload is modelled as infallible. In the source a failing `put_object` inside the `try` also returns `False`.
- Scripts.V1File: the local write is modelled as infallible. In the source a failing `open` or `writerows` inside the `try` also returns `False`.
- Scripts.V2File: the insert is modelled as infallible. `write_processed_to_db` catches its own query errors, but a connection failure inside the `try` also returns `None`.
- Aligner.Scan: the exceptions are stated for the first entry, and for later entries through the step lemmas (`ScanAfterSkip`, `ScanAfterMiss`, `AlignerFacts.StaleCursorRaises`), not as one if-and-only-if. The cursor that the equality guard leaves at `m-1` and the stale cursor that the skip loop leaves there are the same state, so only the history of the scan tells them apart.
- Feeds.FileTimestamp: `strptime`'s `ValueError` on fourteen digits that are not a calendar date is not modelled, and the `\d` of the file-name pattern is modelled as ASCII digits only, while Python's `re` also matches other Unicode digits. It is raised outside the `try`, so such a name would raise out of `process_gkg`, while the model accepts it.
- Feeds.ParseTimestamp: `strptime` is modelled as a check for fourteen ASCII digits. Calendar
  range checks and Unicode digits for `\d` are not modelled.
- Locations.GetLocItem: the `int` and `float` conversions are not performed. Numbers stay as
  their text, tagged with the conversion, so a non-numeric token does not raise
  `ValueError` in the model.
- Headers.NonIdHeadersLayout: only the counts and the order of tone names against tone
  sub-fields are stated. That each GCAM name describes its schema code is documentation,
  not code.
- The other scripts of the repository are not part of this model: Common Crawl
  processing, analytics, merging, S3 utilities and the Twitter client.
