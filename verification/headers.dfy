/**
  Column-name constants for the assembled rows, and how they line up with the row
  layout, the raw GKG field order and the 41-code schema.
 */
module Headers {
  import opened PyStrings
  import opened CodeSchema
  import opened Aligner
  import opened Rows

  /** The raw GKG record's field names, in tab order. */
  const RecordFields: seq<string> := [
    "gkg_id", "date", "source", "source_name", "doc_id", "v1counts",
    "v2counts", "v1themes", "v2themes", "v1locations", "v2locations",
    "v1persons", "v2persons", "v1org", "v2org", "tone", "mention_dates",
    "gcam", "image1", "image2", "image3", "video1", "allnames",
    "amounts", "translation", "extra"]

  /** `ID_GDELT_HEADERS`: the nine article columns. */
  const IdHeaders: seq<string> := [
    "gkg_id", "date", "source", "source_name", "doc_id",
    "themes", "locations", "persons", "orgs"]

  /** The V1.5TONE sub-fields, in the order `split(',')` yields them. */
  const ToneHeaders: seq<string> := ["tone", "pos", "neg", "polarity", "ard", "srd", "wc"]

  /** The GCAM column names, one per schema code. */
  const GcamHeaders: seq<string> := [
    "lexicode_neg", "lexicode_pos",
    "MACROECONOMICS", "ENERGY", "FISHERIES",
    "TRANSPORTATION", "CRIME", "SOCIAL_WELFARE",
    "HOUSING", "FINANCE", "DEFENCE", "SSTC",
    "FOREIGN_TRADE", "CIVIL_RIGHTS",
    "INTL_AFFAIRS", "GOVERNMENT_OPS",
    "LAND-WATER-MANAGEMENT", "CULTURE",
    "PROV_LOCAL", "INTERGOVERNMENTAL",
    "CONSTITUTIONAL_NATL_UNITY", "ABORIGINAL",
    "RELIGION", "HEALTHCARE", "AGRICULTURE",
    "FORESTRY", "LABOUR", "IMMIGRATION",
    "EDUCATION", "ENVIRONMENT",
    "finstab_pos", "finstab_neg", "finstab_neutral",
    "finsent_neg", "finsent_pos", "finsent_unc",
    "opin_neg", "opin_pos",
    "sent_pos", "sent_neg", "sent_pol"]

  /** `NONID_GDELT_HEADERS`: the seven V1.5TONE columns, then the GCAM columns. */
  function NonIdHeaders(): seq<string>
  {
    ToneHeaders + GcamHeaders
  }

  /** `RAW_GDELT_HEADERS`. */
  function RawHeaders(): seq<string>
  {
    IdHeaders + NonIdHeaders()
  }

  /**
    The nine article columns name the nine selected fields: the first five by the
    record's own names, the rest being its V1 themes, locations, persons and organisations.
   */
  lemma {:induction false} IdHeadersNameSelectedFields()
    ensures |IdHeaders| == |Selected|
    ensures forall k :: 0 <= k < 5 ==> IdHeaders[k] == RecordFields[Selected[k]]
    ensures RecordFields[Selected[5]] == "v1themes" && IdHeaders[5] == "themes"
    ensures RecordFields[Selected[6]] == "v1locations" && IdHeaders[6] == "locations"
    ensures RecordFields[Selected[7]] == "v1persons" && IdHeaders[7] == "persons"
    ensures RecordFields[Selected[8]] == "v1org" && IdHeaders[8] == "orgs"
  {
  }

  /** The filter, tone and GCAM fields the pipeline reads are the record's location, tone and GCAM fields. */
  lemma {:induction false} ReadFieldsAreNamed()
    ensures |RecordFields| == 26
    ensures RecordFields[9] == "v1locations" && RecordFields[15] == "tone" && RecordFields[17] == "gcam"
  {
  }

  /** The non-article columns are the seven tone names, then one name per schema code. */
  lemma {:induction false} NonIdHeadersLayout()
    ensures NonIdHeaders()[..7] == ToneHeaders
    ensures |NonIdHeaders()| - |ToneHeaders| == |Schema41()| == 41
    ensures |RawHeaders()| == 57
  {
    Schema41Facts();
  }

  /**
    A row of the Australian 2020 script has exactly one cell per raw header when its tone
    field has seven parts and its block is complete; the database row has one column more,
    the matched countries.
   */
  lemma {:induction false} CsvRowFitsRawHeaders(raw: string, country: string)
    requires CsvLine(raw, country, Schema41()).Ok? && CsvLine(raw, country, Schema41()).value.Accepted?
    requires |Split(Fields(raw)[15], ',')| == |ToneHeaders|
    requires |Align(Fields(raw)[17], Schema41()).value| == |Schema41()|
    ensures |CsvLine(raw, country, Schema41()).value.row| == |RawHeaders()|
  {
    CsvRowLayout(raw, country, Schema41());
    NonIdHeadersLayout();
  }

  /**
    A database row whose tone field has seven parts and whose block is complete has one
    column per raw header, plus one column for the matched countries.
   */
  lemma {:induction false} DbRowHasCountriesColumn(raw: string, countries: seq<string>)
    requires DbLine(raw, countries).Ok? && DbLine(raw, countries).value.Accepted?
    requires |Split(Fields(raw)[15], ',')| == |ToneHeaders|
    requires |Align(Fields(raw)[17], Schema41()).value| == |Schema41()|
    ensures DbColumns(DbLine(raw, countries).value.row) == |RawHeaders()| + 1
  {
    NonIdHeadersLayout();
  }
}
