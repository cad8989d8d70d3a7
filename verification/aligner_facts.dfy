/**
  What the merge-aligner does to sorted input: the cursor-guard behaviour (dropped lower
  codes, the stale cursor that raises, the equality match that ends the scan), the exact
  outcomes on the two-code schema, agreement with a reference alignment by code lookup,
  and when it raises `IndexError`.
 */
module AlignerFacts {
  import opened Wrappers
  import opened PyStrings
  import opened CodeSchema
  import opened Aligner

  /** The code part of a `code:value` entry. */
  function CodeOf(e: string): string
  {
    Split(e, ':')[0]
  }

  /** Every entry splits into exactly `code` and `value` (no `ValueError`). */
  predicate WellFormed(entries: seq<string>)
  {
    forall j :: 0 <= j < |entries| ==> |Split(entries[j], ':')| == 2
  }

  /** The entries' codes strictly increase, as GDELT writes them. */
  predicate Ascending(entries: seq<string>)
  {
    forall p, q :: 0 <= p < q < |entries| ==> Less(CodeOf(entries[p]), CodeOf(entries[q]))
  }

  /** Reference meaning of one column: the value of the first entry reported under `code`. */
  function Lookup(entries: seq<string>, code: string): Cell
  {
    if |entries| == 0 then Missing
    else
      var parts := Split(entries[0], ':');
      if |parts| == 2 && parts[0] == code then Value(parts[1]) else Lookup(entries[1..], code)
  }

  /** Reference alignment: one column per schema code, filled by lookup. */
  function Reference(entries: seq<string>, codes: seq<string>): (r: seq<Cell>)
    ensures |r| == |codes|
  {
    seq(|codes|, k requires 0 <= k < |codes| => Lookup(entries, codes[k]))
  }

  /** A short code block read as a full one: the absent trailing columns are markers. */
  function PadTo(out: seq<Cell>, m: nat): (r: seq<Cell>)
    ensures |r| == if |out| <= m then m else |out|
    ensures forall k :: 0 <= k < |out| ==> r[k] == out[k]
    ensures forall k :: |out| <= k < |r| ==> r[k] == Missing
  {
    if |out| <= m then out + Missings(m - |out|) else out
  }

  /** `code_v == codes[code_i]`: the cursor is not stale. */
  predicate Fresh(codes: seq<string>, c: Cursor)
  {
    c.i < |codes| && c.v == codes[c.i]
  }

  predicate LessEq(a: string, b: string)
  {
    a == b || Less(a, b)
  }

  // ---------------------------------------------------------------------------
  // Cursor guards, one GCAM entry at a time
  // ---------------------------------------------------------------------------

  /** An entry whose code is below `code_v` leaves the cursor and the block untouched. */
  lemma {:induction false} LowerCodeDropped(codes: seq<string>, entries: seq<string>, c: Cursor)
    requires Valid(codes, c)
    requires |entries| > 0 && |Split(entries[0], ':')| == 2
    requires Less(CodeOf(entries[0]), c.v)
    ensures Scan(codes, entries, c) == Scan(codes, entries[1..], c)
  {
    LessAsymmetric(CodeOf(entries[0]), c.v);
    LessIrreflexive(c.v);
  }

  /** A run of entries all below `code_v` is dropped as a whole. */
  lemma {:induction false} LowerRunDropped(codes: seq<string>, lows: seq<string>, rest: seq<string>, c: Cursor)
    requires Valid(codes, c)
    requires forall j :: 0 <= j < |lows| ==> |Split(lows[j], ':')| == 2 && Less(CodeOf(lows[j]), c.v)
    ensures Scan(codes, lows + rest, c) == Scan(codes, rest, c)
    decreases |lows|
  {
    if |lows| > 0 {
      assert (lows + rest)[0] == lows[0];
      LowerCodeDropped(codes, lows + rest, c);
      assert (lows + rest)[1..] == lows[1..] + rest;
      forall j | 0 <= j < |lows[1..]|
        ensures |Split(lows[1..][j], ':')| == 2 && Less(CodeOf(lows[1..][j]), c.v)
      {
        assert lows[1..][j] == lows[j + 1];
      }
      LowerRunDropped(codes, lows[1..], rest, c);
      calc {
        Scan(codes, lows + rest, c);
        Scan(codes, (lows + rest)[1..], c);
        Scan(codes, lows[1..] + rest, c);
        Scan(codes, rest, c);
      }
    } else {
      assert lows + rest == rest;
    }
  }

  /** Once the cursor sits at the last index, any entry at or above `code_v` reads `codes[m]`. */
  lemma {:induction false} CursorAtEndRaises(codes: seq<string>, entries: seq<string>, c: Cursor)
    requires Valid(codes, c) && c.i == |codes| - 1
    requires |entries| > 0 && |Split(entries[0], ':')| == 2
    requires !Less(CodeOf(entries[0]), c.v)
    ensures Scan(codes, entries, c) == Err(IndexError)
  {
    if CodeOf(entries[0]) != c.v {
      LessTotal(CodeOf(entries[0]), c.v);
    }
  }

  /** From a fresh cursor, a code above `codes[m-2]` runs the skip loop to the last index:
      one marker per passed code, and `code_v` left stale at `codes[m-2]`. */
  lemma {:induction false} SkipPastAll(codes: seq<string>, c: Cursor, g: string)
    requires StrictlySorted(codes) && |codes| >= 2
    requires Valid(codes, c) && Fresh(codes, c) && c.i <= |codes| - 2
    requires Less(codes[|codes| - 2], g)
    ensures SkipLoop(codes, c, g) == Ok(Cursor(|codes| - 1, codes[|codes| - 2], c.out + Missings(|codes| - 1 - c.i)))
  {
    forall k | 0 <= k <= |codes| - 2 ensures Less(codes[k], g) {
      SchemaOrder(codes, k, |codes| - 2);
      LessEqChain(codes[k], codes[|codes| - 2], g);
    }
  }

  /** The stale cursor raises: from a fresh cursor, an entry above `codes[m-2]` followed by
      any entry at or above `codes[m-2]` makes the aligner read `codes[m]`. */
  lemma {:induction false} StaleCursorRaises(codes: seq<string>, c: Cursor, e: string, f: string, rest: seq<string>)
    requires StrictlySorted(codes) && |codes| >= 2
    requires Valid(codes, c) && Fresh(codes, c) && c.i <= |codes| - 2
    requires |Split(e, ':')| == 2 && Less(codes[|codes| - 2], CodeOf(e))
    requires |Split(f, ':')| == 2 && !Less(CodeOf(f), codes[|codes| - 2])
    ensures Scan(codes, [e, f] + rest, c) == Err(IndexError)
  {
    var stale := Cursor(|codes| - 1, codes[|codes| - 2], c.out + Missings(|codes| - 1 - c.i));
    SkipPastAll(codes, c, CodeOf(e));
    LessDistinct(codes[|codes| - 2], CodeOf(e));
    var parts := Split(e, ':');
    assert parts == [CodeOf(e), parts[1]];
    assert ([e, f] + rest)[0] == e && ([e, f] + rest)[1..] == [f] + rest;
    ScanAfterMiss(codes, [e, f] + rest, c, CodeOf(e), parts[1], stale);
    CursorAtEndRaises(codes, [f] + rest, stale);
  }

  /** A GCAM field whose first code at or above `codes[0]` lies beyond `codes[m-2]`, and
      which has a further entry at or above `codes[m-2]`, raises `IndexError`. */
  lemma {:induction false} AlignStaleRaises(gcam: string, codes: seq<string>, lows: seq<string>, e: string, f: string, rest: seq<string>)
    requires StrictlySorted(codes) && |codes| >= 2
    requires Entries(gcam) == lows + [e, f] + rest
    requires forall j :: 0 <= j < |lows| ==> |Split(lows[j], ':')| == 2 && Less(CodeOf(lows[j]), codes[0])
    requires |Split(e, ':')| == 2 && Less(codes[|codes| - 2], CodeOf(e))
    requires |Split(f, ':')| == 2 && !Less(CodeOf(f), codes[|codes| - 2])
    ensures Align(gcam, codes) == Err(IndexError)
  {
    var start := Cursor(0, codes[0], []);
    assert lows + [e, f] + rest == lows + ([e, f] + rest);
    LowerRunDropped(codes, lows, [e, f] + rest, start);
    StaleCursorRaises(codes, start, e, f, rest);
  }

  /** An equality match at `m-2` moves the cursor to `m-1` and ends the scan: later entries,
      well-formed or not, are never read. */
  lemma {:induction false} MatchBeforeLastEndsScan(codes: seq<string>, entries: seq<string>, c: Cursor, val: string)
    requires |codes| >= 2 && Valid(codes, c) && c.i == |codes| - 2
    requires |entries| > 0 && Entry(entries[0], codes[|codes| - 2], val)
    ensures Scan(codes, entries, c) == Ok(Cursor(|codes| - 1, codes[|codes| - 2], c.out + [Value(val)]))
  {
    LessIrreflexive(codes[|codes| - 2]);
  }

  // ---------------------------------------------------------------------------
  // The two-code schema of swa_gdelt_process.py and gdelt_process_IN.py
  // ---------------------------------------------------------------------------

  predicate AllBelow(entries: seq<string>, code: string)
  {
    forall j :: 0 <= j < |entries| ==> |Split(entries[j], ':')| == 2 && Less(CodeOf(entries[j]), code)
  }

  /** `Align` on a schema whose first code is `c3.1`: the scan from the initial cursor. */
  lemma {:induction false} AlignTwoCodes(gcam: string)
    ensures Align(gcam, TwoCodes) ==
              match Scan(TwoCodes, Entries(gcam), Cursor(0, "c3.1", []))
              case Err(e) => Err(e)
              case Ok(c) => Ok(if |c.out| == 1 then c.out + [Missing] else c.out)
  {
  }

  /** With `c3.1` present the block is `[value, marker]`, whatever follows it. */
  lemma {:induction false} TwoCodesFirstPresent(gcam: string, lows: seq<string>, e: string, rest: seq<string>, val: string)
    requires Entries(gcam) == lows + [e] + rest
    requires AllBelow(lows, "c3.1") && Entry(e, "c3.1", val)
    ensures Align(gcam, TwoCodes) == Ok([Value(val), Missing])
  {
    var start := Cursor(0, "c3.1", []);
    assert |TwoCodes| == 2 && TwoCodes[0] == "c3.1";
    assert Valid(TwoCodes, start);
    assert lows + [e] + rest == lows + ([e] + rest);
    LowerRunDropped(TwoCodes, lows, [e] + rest, start);
    assert ([e] + rest)[0] == e;
    MatchBeforeLastEndsScan(TwoCodes, [e] + rest, start, val);
    assert [] + [Value(val)] == [Value(val)];
    assert Scan(TwoCodes, Entries(gcam), start) == Ok(Cursor(1, "c3.1", [Value(val)]));
    AlignTwoCodes(gcam);
    assert [Value(val)] + [Missing] == [Value(val), Missing];
  }

  /** With `c3.1` absent, the first larger code leaves the cursor stale at `c3.1`: the block is
      `[marker, marker]` when nothing follows, and `IndexError` when another entry follows. */
  lemma {:induction false} TwoCodesFirstAbsent(gcam: string, lows: seq<string>, e: string, rest: seq<string>)
    requires Entries(gcam) == lows + [e] + rest
    requires AllBelow(lows, "c3.1")
    requires |Split(e, ':')| == 2 && Less("c3.1", CodeOf(e))
    ensures rest == [] ==> Align(gcam, TwoCodes) == Ok([Missing, Missing])
    ensures rest != [] && |Split(rest[0], ':')| == 2 && !Less(CodeOf(rest[0]), "c3.1") ==>
              Align(gcam, TwoCodes) == Err(IndexError)
  {
    var start := Cursor(0, "c3.1", []);
    assert lows + [e] + rest == lows + ([e] + rest);
    LowerRunDropped(TwoCodes, lows, [e] + rest, start);
    var stale := Cursor(1, "c3.1", [Missing]);
    assert |TwoCodes| == 2 && TwoCodes[0] == "c3.1";
    assert Valid(TwoCodes, start) && Valid(TwoCodes, stale);
    StaleAfterLargerCode(e, rest);
    assert Scan(TwoCodes, Entries(gcam), start) == Scan(TwoCodes, rest, stale);
    AlignTwoCodes(gcam);
    if rest == [] {
      assert Scan(TwoCodes, rest, stale) == Ok(stale);
      assert [Missing] + [Missing] == [Missing, Missing];
    } else if |Split(rest[0], ':')| == 2 && !Less(CodeOf(rest[0]), "c3.1") {
      CursorAtEndRaises(TwoCodes, rest, stale);
    }
  }

  /** A first code above `c3.1` stops the cursor at index 1 with `code_v` still `c3.1`. */
  lemma {:induction false} StaleAfterLargerCode(e: string, rest: seq<string>)
    requires |Split(e, ':')| == 2 && Less("c3.1", CodeOf(e))
    ensures Scan(TwoCodes, [e] + rest, Cursor(0, "c3.1", [])) == Scan(TwoCodes, rest, Cursor(1, "c3.1", [Missing]))
  {
    LessIrreflexive("c3.1");
    assert |TwoCodes| == 2 && TwoCodes[0] == "c3.1";
    assert Valid(TwoCodes, Cursor(0, "c3.1", []));
    assert [] + [Missing] == [Missing];
    assert SkipLoop(TwoCodes, Cursor(0, "c3.1", []), CodeOf(e)) == Ok(Cursor(1, "c3.1", [] + [Missing]));
    assert ([e] + rest)[0] == e && ([e] + rest)[1..] == rest;
  }

  /** With every code below `c3.1` nothing is appended and no trailing marker is added:
      the code block is empty. */
  lemma {:induction false} TwoCodesAllBelow(gcam: string)
    requires AllBelow(Entries(gcam), "c3.1")
    ensures Align(gcam, TwoCodes) == Ok([])
  {
    var start := Cursor(0, "c3.1", []);
    LowerRunDropped(TwoCodes, Entries(gcam), [], start);
    assert Entries(gcam) + [] == Entries(gcam);
    AlignTwoCodes(gcam);
  }

  // ---------------------------------------------------------------------------
  // Agreement with the reference alignment on sorted input
  // ---------------------------------------------------------------------------

  /** The block agrees with the reference on every column but the last. */
  predicate Agrees(codes: seq<string>, all: seq<string>, out: seq<Cell>)
  {
    forall k :: 0 <= k < |codes| - 1 ==> PadTo(out, |codes|)[k] == Lookup(all, codes[k])
  }

  /** The cells written so far agree with the reference. */
  predicate AgreesBelow(codes: seq<string>, all: seq<string>, out: seq<Cell>)
  {
    forall k :: 0 <= k < |out| && k < |codes| - 1 ==> out[k] == Lookup(all, codes[k])
  }

  lemma {:induction false} SchemaOrder(codes: seq<string>, a: int, b: int)
    requires StrictlySorted(codes) && 0 <= a <= b < |codes|
    ensures LessEq(codes[a], codes[b])
  {
  }

  lemma {:induction false} LessEqChain(x: string, y: string, z: string)
    ensures Less(x, y) && LessEq(y, z) ==> Less(x, z)
    ensures LessEq(x, y) && Less(y, z) ==> Less(x, z)
  {
    if Less(x, y) && Less(y, z) { LessTransitive(x, y, z); }
  }

  lemma {:induction false} LessDistinct(x: string, y: string)
    requires Less(x, y)
    ensures x != y
  {
    LessIrreflexive(x);
  }

  /** No well-formed entry reports `code`: the reference column is the marker. */
  lemma {:induction false} LookupAbsent(all: seq<string>, code: string)
    requires WellFormed(all)
    requires forall p :: 0 <= p < |all| ==> CodeOf(all[p]) != code
    ensures Lookup(all, code) == Missing
    decreases |all|
  {
    if |all| > 0 {
      forall p | 0 <= p < |all[1..]| ensures |Split(all[1..][p], ':')| == 2 && CodeOf(all[1..][p]) != code {
        assert all[1..][p] == all[p + 1];
      }
      LookupAbsent(all[1..], code);
    }
  }

  /** The first entry reporting `code` gives the reference column its value. */
  lemma {:induction false} LookupFound(all: seq<string>, j: nat, code: string, val: string)
    requires WellFormed(all)
    requires j < |all| && Entry(all[j], code, val)
    requires forall p :: 0 <= p < j ==> CodeOf(all[p]) != code
    ensures Lookup(all, code) == Value(val)
    decreases j
  {
    if j > 0 {
      forall p | 0 <= p < |all[1..]| ensures |Split(all[1..][p], ':')| == 2 {
        assert all[1..][p] == all[p + 1];
      }
      forall p | 0 <= p < j - 1 ensures CodeOf(all[1..][p]) != code {
        assert all[1..][p] == all[p + 1];
      }
      assert all[1..][j - 1] == all[j];
      LookupFound(all[1..], j - 1, code, val);
    }
  }

  /** Schema codes below the current entry's code, passed by the skip loop, are absent
      from the whole entry list. */
  lemma {:induction false} PassedCodesAbsent(codes: seq<string>, all: seq<string>, j: nat, lo: nat, hi: nat, g: string)
    requires StrictlySorted(codes) && WellFormed(all) && Ascending(all)
    requires j < |all| && g == CodeOf(all[j])
    requires lo <= hi <= |codes|
    requires lo < hi ==> forall p :: 0 <= p < j ==> Less(CodeOf(all[p]), codes[lo])
    requires forall k :: lo <= k < hi ==> Less(codes[k], g)
    ensures forall k :: lo <= k < hi ==> Lookup(all, codes[k]) == Missing
  {
    forall k | lo <= k < hi ensures Lookup(all, codes[k]) == Missing {
      forall p | 0 <= p < |all| ensures CodeOf(all[p]) != codes[k] {
        if p < j {
          SchemaOrder(codes, lo, k);
          LessEqChain(CodeOf(all[p]), codes[lo], codes[k]);
          LessDistinct(CodeOf(all[p]), codes[k]);
        } else if p == j {
          LessDistinct(codes[k], g);
        } else {
          LessTransitive(codes[k], g, CodeOf(all[p]));
          LessDistinct(codes[k], CodeOf(all[p]));
        }
      }
      LookupAbsent(all, codes[k]);
    }
  }

  /** When every entry is below `codes[i]`, every column from `i` on is the marker. */
  lemma {:induction false} ColumnsBeyondAbsent(codes: seq<string>, all: seq<string>, i: nat)
    requires StrictlySorted(codes) && WellFormed(all) && i < |codes|
    requires forall p :: 0 <= p < |all| ==> Less(CodeOf(all[p]), codes[i])
    ensures forall k :: i <= k < |codes| ==> Lookup(all, codes[k]) == Missing
  {
    forall k | i <= k < |codes| ensures Lookup(all, codes[k]) == Missing {
      forall p | 0 <= p < |all| ensures CodeOf(all[p]) != codes[k] {
        SchemaOrder(codes, i, k);
        LessEqChain(CodeOf(all[p]), codes[i], codes[k]);
        LessDistinct(CodeOf(all[p]), codes[k]);
      }
      LookupAbsent(all, codes[k]);
    }
  }

  /** Scanning the entries from `j` keeps every written column equal to the reference. */
  lemma {:induction false} ScanAgrees(codes: seq<string>, all: seq<string>, j: nat, c: Cursor)
    requires StrictlySorted(codes) && WellFormed(all) && Ascending(all)
    requires j <= |all| && Valid(codes, c)
    requires Fresh(codes, c) ==> forall p :: 0 <= p < j ==> Less(CodeOf(all[p]), c.v)
    requires !Fresh(codes, c) ==> forall p :: j <= p < |all| ==> Less(c.v, CodeOf(all[p]))
    requires AgreesBelow(codes, all, c.out)
    ensures Scan(codes, all[j..], c).Ok? ==> Agrees(codes, all, Scan(codes, all[j..], c).value.out)
    decreases |all| - j, 2
  {
    if j == |all| {
      assert all[j..] == [];
      if Fresh(codes, c) {
        ColumnsBeyondAbsent(codes, all, c.i);
      }
    } else if !Fresh(codes, c) {
      assert all[j..][0] == all[j];
      assert Less(c.v, CodeOf(all[j]));
    } else {
      ScanAgreesEntry(codes, all, j, c);
    }
  }

  /** One entry scanned from a fresh cursor. */
  lemma {:induction false} ScanAgreesEntry(codes: seq<string>, all: seq<string>, j: nat, c: Cursor)
    requires StrictlySorted(codes) && WellFormed(all) && Ascending(all)
    requires j < |all| && Valid(codes, c) && Fresh(codes, c)
    requires forall p :: 0 <= p < j ==> Less(CodeOf(all[p]), c.v)
    requires AgreesBelow(codes, all, c.out)
    ensures Scan(codes, all[j..], c).Ok? ==> Agrees(codes, all, Scan(codes, all[j..], c).value.out)
    decreases |all| - j, 1
  {
    var parts := Split(all[j], ':');
    assert |parts| == 2;
    var g, val := parts[0], parts[1];
    var rest := all[j..];
    assert rest[0] == all[j] && rest[1..] == all[j + 1..];
    var skipped := SkipLoop(codes, c, g);
    if skipped.Ok? {
      var c1 := skipped.value;
      SkipKeepsAgreement(codes, all, j, c, g);
      if c1.v == g {
        ScanAfterSkip(codes, rest, c, val, c1);
        if c1.i + 1 < |codes| {
          ScanAgreesMatch(codes, all, j, c, c1, val);
        }
      } else {
        ScanAfterMiss(codes, rest, c, g, val, c1);
        if Less(c1.v, g) {
          ScanAgreesBreak(codes, all, j, c1);
        } else {
          LessTotal(g, c1.v);
          ScanAgreesPass(codes, all, j, c, c1);
        }
      }
    }
  }

  /** The codes the skip loop passes have no entry, so the markers it appends agree too. */
  lemma {:induction false} SkipKeepsAgreement(codes: seq<string>, all: seq<string>, j: nat, c: Cursor, g: string)
    requires StrictlySorted(codes) && WellFormed(all) && Ascending(all)
    requires j < |all| && g == CodeOf(all[j]) && Valid(codes, c) && Fresh(codes, c)
    requires forall p :: 0 <= p < j ==> Less(CodeOf(all[p]), c.v)
    requires AgreesBelow(codes, all, c.out)
    requires SkipLoop(codes, c, g).Ok?
    ensures AgreesBelow(codes, all, SkipLoop(codes, c, g).value.out)
  {
    var c1 := SkipLoop(codes, c, g).value;
    PassedCodesAbsent(codes, all, j, c.i, c1.i, g);
    forall k | 0 <= k < |c1.out| && k < |codes| - 1 ensures c1.out[k] == Lookup(all, codes[k]) {
      if k < |c.out| {
        assert c1.out[k] == c.out[k];
      } else {
        assert c1.out[k] == Missings(c1.i - c.i)[k - c.i] == Missing;
      }
    }
  }

  /** The entry matched the cursor's code: its value lands in the matching column. */
  lemma {:induction false} ScanAgreesMatch(codes: seq<string>, all: seq<string>, j: nat, c: Cursor, c1: Cursor, val: string)
    requires StrictlySorted(codes) && WellFormed(all) && Ascending(all)
    requires j < |all| && Valid(codes, c) && Fresh(codes, c) && Fresh(codes, c1) && c.i <= c1.i
    requires c1.i + 1 < |codes| && Valid(codes, c1)
    requires Split(all[j], ':') == [c1.v, val]
    requires forall p :: 0 <= p < j ==> Less(CodeOf(all[p]), c.v)
    requires AgreesBelow(codes, all, c1.out)
    ensures AgreesBelow(codes, all, c1.out + [Value(val)])
    ensures c1.i + 1 < |codes| - 1 ==>
              var next := Cursor(c1.i + 1, codes[c1.i + 1], c1.out + [Value(val)]);
              Scan(codes, all[j + 1..], next).Ok? ==> Agrees(codes, all, Scan(codes, all[j + 1..], next).value.out)
    decreases |all| - j, 0
  {
    var g := c1.v;
    var out := c1.out + [Value(val)];
    var i := c1.i + 1;
    forall p | 0 <= p < j ensures Less(CodeOf(all[p]), g) {
      SchemaOrder(codes, c.i, c1.i);
      LessEqChain(CodeOf(all[p]), c.v, g);
    }
    forall p | 0 <= p < j ensures CodeOf(all[p]) != g {
      LessDistinct(CodeOf(all[p]), g);
    }
    LookupFound(all, j, g, val);
    if i < |codes| - 1 {
      StrictlySortedDistinct(codes, c1.i, i);
      forall p | 0 <= p < j + 1 ensures Less(CodeOf(all[p]), codes[i]) {
        if p < j {
          LessTransitive(CodeOf(all[p]), g, codes[i]);
        }
      }
      ScanAgrees(codes, all, j + 1, Cursor(i, codes[i], out));
    }
  }

  /** The skip loop broke at `m-1`, leaving `code_v` stale. */
  lemma {:induction false} ScanAgreesBreak(codes: seq<string>, all: seq<string>, j: nat, c1: Cursor)
    requires StrictlySorted(codes) && WellFormed(all) && Ascending(all)
    requires j < |all| && Valid(codes, c1)
    requires |codes| >= 2 && c1.i == |codes| - 1 && c1.v == codes[|codes| - 2]
    requires Less(c1.v, CodeOf(all[j]))
    requires AgreesBelow(codes, all, c1.out)
    ensures Scan(codes, all[j + 1..], c1).Ok? ==> Agrees(codes, all, Scan(codes, all[j + 1..], c1).value.out)
    decreases |all| - j, 0
  {
    StrictlySortedDistinct(codes, |codes| - 2, |codes| - 1);
    forall p | j + 1 <= p < |all| ensures Less(c1.v, CodeOf(all[p])) {
      LessTransitive(c1.v, CodeOf(all[j]), CodeOf(all[p]));
    }
    ScanAgrees(codes, all, j + 1, c1);
  }

  /** The entry fell strictly between two schema codes and was dropped. */
  lemma {:induction false} ScanAgreesPass(codes: seq<string>, all: seq<string>, j: nat, c: Cursor, c1: Cursor)
    requires StrictlySorted(codes) && WellFormed(all) && Ascending(all)
    requires j < |all| && Valid(codes, c1) && Fresh(codes, c) && Fresh(codes, c1) && c.i <= c1.i
    requires forall p :: 0 <= p < j ==> Less(CodeOf(all[p]), c.v)
    requires Less(CodeOf(all[j]), c1.v)
    requires AgreesBelow(codes, all, c1.out)
    ensures Scan(codes, all[j + 1..], c1).Ok? ==> Agrees(codes, all, Scan(codes, all[j + 1..], c1).value.out)
    decreases |all| - j, 0
  {
    forall p | 0 <= p < j + 1 ensures Less(CodeOf(all[p]), c1.v) {
      if p < j {
        SchemaOrder(codes, c.i, c1.i);
        LessEqChain(CodeOf(all[p]), c.v, c1.v);
      }
    }
    ScanAgrees(codes, all, j + 1, c1);
  }

  /**
    On well-formed, ascending entries and a strictly sorted schema, a successful alignment
    agrees column by column with the reference lookup on every column but the last, once
    its missing trailing columns are read as markers. The last column is always the marker.
   */
  lemma {:induction false} AlignMatchesReference(gcam: string, codes: seq<string>)
    requires StrictlySorted(codes)
    requires WellFormed(Entries(gcam)) && Ascending(Entries(gcam))
    ensures Align(gcam, codes).Ok? ==>
              forall k :: 0 <= k < |codes| - 1 ==>
                PadTo(Align(gcam, codes).value, |codes|)[k] == Reference(Entries(gcam), codes)[k]
  {
    if |codes| > 0 {
      var all := Entries(gcam);
      assert all[0..] == all;
      ScanAgrees(codes, all, 0, Cursor(0, codes[0], []));
    }
  }
  // ---------------------------------------------------------------------------
  // Worked examples: the last schema column is never filled
  // ---------------------------------------------------------------------------

  /** An entry `code:val` splits back into its code and its value. */
  lemma {:induction false} EntryOfParts(code: string, val: string)
    requires ':' !in code && ':' !in val
    ensures Split(code + ":" + val, ':') == [code, val]
  {
    assert [code, val][1..] == [val];
    assert Join([code, val], ':') == code + ":" + val;
    SplitJoin([code, val], ':');
  }

  /** The entries of a GCAM field with a word count and two entries. */
  lemma {:induction false} TwoEntries(wc: string, e1: string, e2: string)
    requires ',' !in wc && ',' !in e1 && ',' !in e2
    ensures Entries(wc + "," + e1 + "," + e2) == [e1, e2]
  {
    Join3(wc, e1, e2, ',');
    assert wc + "," + e1 + "," + e2 == wc + [','] + e1 + [','] + e2;
    SplitJoin([wc, e1, e2], ',');
  }

  /** One step of the skip loop that lands on the next code. */
  lemma {:induction false} SkipOneStep(codes: seq<string>, c: Cursor, g: string)
    requires Valid(codes, c) && c.i + 2 < |codes| && Less(c.v, g) && codes[c.i + 1] == g
    ensures SkipLoop(codes, c, g) == Ok(Cursor(c.i + 1, g, c.out + [Missing]))
  {
    LessIrreflexive(g);
    assert SkipLoop(codes, Cursor(c.i + 1, g, c.out + [Missing]), g) == Ok(Cursor(c.i + 1, g, c.out + [Missing]));
  }

  /** One step of the skip loop that reaches the last index and stops there with a stale code. */
  lemma {:induction false} SkipToLastStep(codes: seq<string>, c: Cursor, g: string)
    requires Valid(codes, c) && c.i + 2 == |codes| && Less(c.v, g)
    ensures SkipLoop(codes, c, g) == Ok(Cursor(c.i + 1, c.v, c.out + [Missing]))
  {
  }

  /** The skip loop does nothing when the cursor's code is the entry's. */
  lemma {:induction false} SkipNoStep(codes: seq<string>, c: Cursor)
    requires Valid(codes, c)
    ensures SkipLoop(codes, c, c.v) == Ok(c)
  {
    LessIrreflexive(c.v);
  }

  /** The entries of a GCAM field `wc,g1:v1,g2:v2`, split into codes and values. */
  lemma {:induction false} TwoEntriesOf(wc: string, g1: string, v1: string, g2: string, v2: string)
    requires ',' !in wc && ',' !in g1 && ',' !in v1 && ',' !in g2 && ',' !in v2
    requires ':' !in g1 && ':' !in v1 && ':' !in g2 && ':' !in v2
    ensures var entries := Entries(wc + "," + g1 + ":" + v1 + "," + g2 + ":" + v2);
            |entries| == 2 && Split(entries[0], ':') == [g1, v1] && Split(entries[1], ':') == [g2, v2]
  {
    var e1, e2 := g1 + ":" + v1, g2 + ":" + v2;
    assert ',' !in e1 && ',' !in e2;
    assert wc + "," + g1 + ":" + v1 + "," + g2 + ":" + v2 == wc + "," + e1 + "," + e2;
    TwoEntries(wc, e1, e2);
    EntryOfParts(g1, v1);
    EntryOfParts(g2, v2);
  }

  /**
    Schema `[a, b, c]` with `a < b < c`, entries `b:x, c:y` (for instance `c3.1, c3.2, c4.1`
    with `c3.2:5, c4.1:9`): the match on `b` moves the cursor to the last index and leaves
    the loop, so `y` is dropped and the block is `[marker, x, marker]`, not `[marker, x, y]`.
   */
  lemma {:induction false} LastCodeDroppedExample(a: string, b: string, c: string, wc: string, x: string, y: string)
    requires Less(a, b) && Less(b, c)
    requires ',' !in wc && ',' !in b && ',' !in x && ',' !in c && ',' !in y
    requires ':' !in b && ':' !in x && ':' !in c && ':' !in y
    ensures Align(wc + "," + b + ":" + x + "," + c + ":" + y, [a, b, c]) == Ok([Missing, Value(x), Missing])
  {
    var codes := [a, b, c];
    var gcam := wc + "," + b + ":" + x + "," + c + ":" + y;
    TwoEntriesOf(wc, b, x, c, y);
    var entries := Entries(gcam);
    var start := Cursor(0, a, []);
    var c1 := Cursor(1, b, [Missing]);
    SkipOneStep(codes, start, b);
    assert start.out + [Missing] == c1.out;
    ScanAfterSkip(codes, entries, start, x, c1);
    assert [Missing] + [Value(x)] + [Missing] == [Missing, Value(x), Missing];
  }

  /**
    Schema `[a, b, c]` with `b < c`, entries `a:x, c:y` (for instance `c3.1, c3.2, c7.1` with
    `c3.1:0.2, c7.1:1.0`): the skip towards `c` stops at the last index with the cursor
    stale at `b`, so `y` is dropped and the block is `[x, marker, marker]`, not `[x, marker, y]`.
   */
  lemma {:induction false} StaleCursorExample(a: string, b: string, c: string, wc: string, x: string, y: string)
    requires Less(b, c)
    requires ',' !in wc && ',' !in a && ',' !in x && ',' !in c && ',' !in y
    requires ':' !in a && ':' !in x && ':' !in c && ':' !in y
    ensures Align(wc + "," + a + ":" + x + "," + c + ":" + y, [a, b, c]) == Ok([Value(x), Missing, Missing])
  {
    var codes := [a, b, c];
    var gcam := wc + "," + a + ":" + x + "," + c + ":" + y;
    TwoEntriesOf(wc, a, x, c, y);
    var entries := Entries(gcam);
    var start := Cursor(0, a, []);
    SkipNoStep(codes, start);
    ScanAfterSkip(codes, entries, start, x, start);
    var cur := Cursor(1, b, [Value(x)]);
    assert start.out + [Value(x)] == cur.out;
    assert Scan(codes, entries, start) == Scan(codes, entries[1..], cur);
    var stale := Cursor(2, b, [Value(x), Missing]);
    assert entries[1..][0] == entries[1] && entries[1..][1..] == [];
    SkipToLastStep(codes, cur, c);
    assert cur.out + [Missing] == stale.out;
    LessIrreflexive(c);
    ScanAfterMiss(codes, entries[1..], cur, c, y, stale);
    assert Scan(codes, entries, start) == Ok(stale);
    assert [Value(x), Missing] + [Missing] == [Value(x), Missing, Missing];
  }

  /** Schema `[c3.1, c3.2]` and no entry at all: the block is empty, not `[marker, marker]`. */
  lemma {:induction false} NoEntriesExample(wc: string)
    requires ',' !in wc
    ensures Align(wc, TwoCodes) == Ok([])
  {
    SplitJoin([wc], ',');
    assert Entries(wc) == [];
    TwoCodesAllBelow(wc);
  }
}
