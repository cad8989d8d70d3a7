/**
  The location side of a GKG record: the `;`-separated location field (field 9) whose
  items are `#`-separated tokens, the country filters the scripts apply to it, and the
  typed location item the database variant stores.
 */
module Locations {
  import opened Wrappers
  import opened PyStrings

  // ---------------------------------------------------------------------------
  // The filter token
  // ---------------------------------------------------------------------------

  /** `item.split('#')[3]`: the fourth token, or `IndexError` when there are fewer than four. */
  function Token3(item: string): (r: Result<string>)
    ensures r.Err? ==> r.error == IndexError
    ensures r.Ok? <==> |Split(item, '#')| >= 4
    ensures r.Ok? ==> '#' !in r.value
  {
    var tokens := Split(item, '#');
    if |tokens| < 4 then Err(IndexError) else Ok(tokens[3])
  }

  /** An item written from its tokens yields its fourth token back. */
  lemma {:induction false} Token3OfJoin(tokens: seq<string>)
    requires |tokens| >= 4
    requires forall k :: 0 <= k < |tokens| ==> '#' !in tokens[k]
    ensures Token3(Join(tokens, '#')) == Ok(tokens[3])
  {
    SplitJoin(tokens, '#');
  }

  /** Every item of the list has at least four tokens. */
  predicate AllReadable(items: seq<string>)
  {
    forall k :: 0 <= k < |items| ==> Token3(items[k]).Ok?
  }

  // ---------------------------------------------------------------------------
  // Multi-country filter of the database variant: every match is collected
  // ---------------------------------------------------------------------------

  /**
    The `relevant_codes` loop: the fourth token of every item that is one of
    `countries`, in encounter order, duplicates kept. One short item anywhere
    raises `IndexError`.
   */
  function RelevantCodes(items: seq<string>, countries: seq<string>): (r: Result<seq<string>>)
    ensures r.Err? ==> r.error == IndexError
    ensures r.Ok? <==> AllReadable(items)
    ensures r.Ok? ==> forall k :: 0 <= k < |r.value| ==> r.value[k] in countries
    ensures r.Ok? ==> |r.value| <= |items|
    decreases |items|
  {
    if |items| == 0 then Ok([])
    else
      match Token3(items[0])
      case Err(e) => Err(e)
      case Ok(t) =>
        match RelevantCodes(items[1..], countries)
        case Err(e) => Err(e)
        case Ok(rest) =>
          assert forall k :: 0 <= k < |items[1..]| ==> items[1..][k] == items[k + 1];
          Ok((if t in countries then [t] else []) + rest)
  }

  /** The collected codes of a concatenation are the two lists' codes, in order. */
  lemma {:induction false} RelevantCodesAppend(a: seq<string>, b: seq<string>, countries: seq<string>)
    requires AllReadable(a) && AllReadable(b)
    ensures AllReadable(a + b)
    ensures RelevantCodes(a + b, countries).value
         == RelevantCodes(a, countries).value + RelevantCodes(b, countries).value
    decreases |a|
  {
    if |a| == 0 {
      assert a + b == b;
    } else {
      var x, tail := a[0], a[1..];
      assert a == [x] + tail && a + b == [x] + (tail + b);
      assert AllReadable(tail) by {
        forall k | 0 <= k < |tail| ensures Token3(tail[k]).Ok? {
          assert tail[k] == a[k + 1];
        }
      }
      RelevantCodesAppend(tail, b, countries);
      RelevantCodesCons(x, tail + b, countries);
      RelevantCodesCons(x, tail, countries);
      var head: seq<string> := if Token3(x).value in countries then [Token3(x).value] else [];
      var ct, cb := RelevantCodes(tail, countries).value, RelevantCodes(b, countries).value;
      assert head + (ct + cb) == (head + ct) + cb;
    }
  }

  /** An item in front contributes its fourth token when it is one of `countries`. */
  lemma {:induction false} RelevantCodesCons(x: string, rest: seq<string>, countries: seq<string>)
    requires Token3(x).Ok? && AllReadable(rest)
    ensures AllReadable([x] + rest)
    ensures RelevantCodes([x] + rest, countries).value
         == (if Token3(x).value in countries then [Token3(x).value] else []) + RelevantCodes(rest, countries).value
  {
    var items := [x] + rest;
    assert items[0] == x && items[1..] == rest;
    forall k | 0 <= k < |items| ensures Token3(items[k]).Ok? {
      if k > 0 {
        assert items[k] == rest[k - 1];
      }
    }
  }

  /** The count of one country among the collected codes is the number of items naming it. */
  function Count(xs: seq<string>, x: string): nat
  {
    if |xs| == 0 then 0 else (if xs[0] == x then 1 else 0) + Count(xs[1..], x)
  }

  /** The number of items whose fourth token is `x`. */
  function Naming(items: seq<string>, x: string): (n: nat)
    requires AllReadable(items)
    ensures n <= |items|
  {
    if |items| == 0 then 0
    else
      assert forall k :: 0 <= k < |items[1..]| ==> items[1..][k] == items[k + 1];
      (if Token3(items[0]).value == x then 1 else 0) + Naming(items[1..], x)
  }

  /**
    Duplicates are kept: each country of interest occurs in `relevant_codes` exactly as
    often as items name it, and a country not of interest does not occur at all.
   */
  lemma {:induction false} RelevantCodesCounts(items: seq<string>, countries: seq<string>, x: string)
    requires AllReadable(items)
    ensures Count(RelevantCodes(items, countries).value, x) == if x in countries then Naming(items, x) else 0
    decreases |items|
  {
    if |items| > 0 {
      assert forall k :: 0 <= k < |items[1..]| ==> items[1..][k] == items[k + 1];
      RelevantCodesCounts(items[1..], countries, x);
      var t := Token3(items[0]).value;
      var rest := RelevantCodes(items[1..], countries).value;
      var head: seq<string> := if t in countries then [t] else [];
      CountAppend(head, rest, x);
    }
  }

  lemma {:induction false} CountAppend(a: seq<string>, b: seq<string>, x: string)
    ensures Count(a + b, x) == Count(a, x) + Count(b, x)
    decreases |a|
  {
    if |a| == 0 {
      assert a + b == b;
    } else {
      assert (a + b)[1..] == a[1..] + b;
      CountAppend(a[1..], b, x);
    }
  }

  /** Some item's fourth token is one of `countries`. */
  predicate NamesAny(items: seq<string>, countries: seq<string>)
    requires AllReadable(items)
  {
    exists k :: 0 <= k < |items| && Token3(items[k]).value in countries
  }

  /** The line is rejected (empty `relevant_codes`) exactly when no item names a country of interest. */
  lemma {:induction false} RelevantCodesEmptyIff(items: seq<string>, countries: seq<string>)
    requires AllReadable(items)
    ensures |RelevantCodes(items, countries).value| > 0 <==> NamesAny(items, countries)
    decreases |items|
  {
    if |items| > 0 {
      assert forall k :: 0 <= k < |items[1..]| ==> items[1..][k] == items[k + 1];
      RelevantCodesEmptyIff(items[1..], countries);
      if NamesAny(items, countries) {
        var k :| 0 <= k < |items| && Token3(items[k]).value in countries;
        if k > 0 {
          assert items[1..][k - 1] == items[k];
        }
      }
      if NamesAny(items[1..], countries) {
        var k :| 0 <= k < |items[1..]| && Token3(items[1..][k]).value in countries;
        assert items[k + 1] == items[1..][k];
      }
    }
  }

  // ---------------------------------------------------------------------------
  // Single-country filter of the CSV variants: the scan stops at the first match
  // ---------------------------------------------------------------------------

  /**
    The `inc_nz` loop: `true` at the first item whose fourth token is `country`,
    `IndexError` at a short item met before any match, `false` when none matches.
   */
  function MentionsCountry(items: seq<string>, country: string): (r: Result<bool>)
    ensures r.Err? ==> r.error == IndexError
    ensures r == Ok(true) ==>
              exists k :: 0 <= k < |items| && Token3(items[k]) == Ok(country) && AllReadable(items[..k])
    decreases |items|
  {
    if |items| == 0 then Ok(false)
    else
      match Token3(items[0])
      case Err(e) => Err(e)
      case Ok(t) =>
        if t == country then
          assert Token3(items[0]) == Ok(country) && items[..0] == [];
          Ok(true)
        else
          var r := MentionsCountry(items[1..], country);
          if r == Ok(true) then
            var k :| 0 <= k < |items[1..]| && Token3(items[1..][k]) == Ok(country) && AllReadable(items[1..][..k]);
            assert items[k + 1] == items[1..][k];
            assert items[..k + 1] == [items[0]] + items[1..][..k];
            r
          else r
  }

  /** Items after the first match are never inspected: appending anything, even short items, keeps `true`. */
  lemma {:induction false} MentionsIgnoresTail(items: seq<string>, more: seq<string>, country: string)
    requires MentionsCountry(items, country) == Ok(true)
    ensures MentionsCountry(items + more, country) == Ok(true)
    decreases |items|
  {
    assert (items + more)[0] == items[0];
    if Token3(items[0]).value != country {
      assert (items + more)[1..] == items[1..] + more;
      MentionsIgnoresTail(items[1..], more, country);
    }
  }

  /** On readable items the early-exit scan agrees with the collecting filter restricted to one country. */
  lemma {:induction false} MentionsMatchesRelevant(items: seq<string>, country: string)
    requires AllReadable(items)
    ensures MentionsCountry(items, country) == Ok(|RelevantCodes(items, [country]).value| > 0)
    decreases |items|
  {
    if |items| > 0 {
      assert forall k :: 0 <= k < |items[1..]| ==> items[1..][k] == items[k + 1];
      MentionsMatchesRelevant(items[1..], country);
    }
  }

  /** On readable items the scan answers whether some item's fourth token is `country`. */
  lemma {:induction false} MentionsIff(items: seq<string>, country: string)
    requires AllReadable(items)
    ensures MentionsCountry(items, country) == Ok(NamesAny(items, [country]))
  {
    MentionsMatchesRelevant(items, country);
    RelevantCodesEmptyIff(items, [country]);
  }

  /** Imperative mirror of the `inc_nz` loop with its `break`. */
  method ScanForCountry(items: seq<string>, country: string) returns (r: Result<bool>)
    ensures r == MentionsCountry(items, country)
  {
    var n := 0;
    while n < |items|
      invariant 0 <= n <= |items|
      invariant MentionsCountry(items, country) == MentionsCountry(items[n..], country)
      decreases |items| - n
    {
      assert items[n..][1..] == items[n + 1..];
      var tokens := Split(items[n], '#');
      if |tokens| < 4 {
        return Err(IndexError);
      }
      if tokens[3] == country {
        return Ok(true);
      }
      n := n + 1;
    }
    return Ok(false);
  }

  // ---------------------------------------------------------------------------
  // Typed location item of the database variant
  // ---------------------------------------------------------------------------

  /**
    The record's location item. The seven tokens are paired with the conversions
    `int, str, str, str, float, float, str`; an empty token becomes `None`. Numbers are
    kept as their text, tagged with the conversion the record applies.
   */
  datatype IntText = IntText(text: string)
  datatype FloatText = FloatText(text: string)
  datatype LocItem = LocItem(
    locType: Option<IntText>,
    fullName: Option<string>,
    countryCode: Option<string>,
    adm1Code: Option<string>,
    lat: Option<FloatText>,
    long: Option<FloatText>,
    featureId: Option<string>)

  /** `item if item != '' else None`. */
  function NonEmpty(s: string): (r: Option<string>)
    ensures r.None? <==> s == ""
    ensures r.Some? ==> r.value == s
  {
    if s == "" then None else Some(s)
  }

  /**
    `get_loc_item`: `zip` stops at the seven conversions, so extra tokens are ignored;
    fewer than seven tokens make the record constructor raise `TypeError`.
   */
  function GetLocItem(s: string): (r: Result<LocItem>)
    ensures r.Err? <==> |Split(s, '#')| < 7
    ensures r.Err? ==> r.error == TypeError
  {
    var p := Split(s, '#');
    if |p| < 7 then Err(TypeError)
    else
      Ok(LocItem(
        if p[0] == "" then None else Some(IntText(p[0])),
        NonEmpty(p[1]), NonEmpty(p[2]), NonEmpty(p[3]),
        if p[4] == "" then None else Some(FloatText(p[4])),
        if p[5] == "" then None else Some(FloatText(p[5])),
        NonEmpty(p[6])))
  }

  function OrEmpty(o: Option<string>): string
  {
    if o.Some? then o.value else ""
  }

  /** The seven tokens an item holds, `None` read back as the empty token. */
  function Tokens(item: LocItem): (t: seq<string>)
    ensures |t| == 7
  {
    [ if item.locType.Some? then item.locType.value.text else "",
      OrEmpty(item.fullName), OrEmpty(item.countryCode), OrEmpty(item.adm1Code),
      if item.lat.Some? then item.lat.value.text else "",
      if item.long.Some? then item.long.value.text else "",
      OrEmpty(item.featureId) ]
  }

  /** The item keeps exactly the first seven tokens of the text it was built from. */
  lemma {:induction false} GetLocItemKeepsTokens(s: string)
    requires GetLocItem(s).Ok?
    ensures Tokens(GetLocItem(s).value) == Split(s, '#')[..7]
  {
  }

  /** An item is written back as its seven tokens joined with `#`. */
  function LocItemText(item: LocItem): string
  {
    Join(Tokens(item), '#')
  }

  /** No field holds `Some("")` (that is `None`) and no token holds the separator. */
  predicate Canonical(item: LocItem)
  {
    (item.locType.Some? ==> item.locType.value.text != "") &&
    (item.fullName.Some? ==> item.fullName.value != "") &&
    (item.countryCode.Some? ==> item.countryCode.value != "") &&
    (item.adm1Code.Some? ==> item.adm1Code.value != "") &&
    (item.lat.Some? ==> item.lat.value.text != "") &&
    (item.long.Some? ==> item.long.value.text != "") &&
    (item.featureId.Some? ==> item.featureId.value != "") &&
    forall k :: 0 <= k < 7 ==> '#' !in Tokens(item)[k]
  }

  /** Writing a canonical item out and reading it back gives the same item. */
  lemma {:induction false} GetLocItemRoundTrip(item: LocItem)
    requires Canonical(item)
    ensures GetLocItem(LocItemText(item)) == Ok(item)
  {
    SplitJoin(Tokens(item), '#');
  }

  /** The filter token is the token the record calls `ADM1_code`, not `country_code`. */
  lemma {:induction false} FilterReadsAdm1Code(s: string)
    requires GetLocItem(s).Ok?
    ensures Token3(s) == Ok(OrEmpty(GetLocItem(s).value.adm1Code))
  {
  }
}
