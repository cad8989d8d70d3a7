/**
  The GCAM merge-aligner shared by every `process_gkg` variant: a single pass over the
  sorted `code:value` entries of field 17 that projects them onto a sorted code schema.
  `SkipLoop`, `Scan` and `Align` follow the Python loops statement by statement, including
  the cursor guard `if code_i == codes_l - 1: break` in both places it appears:
  - in the skip loop it leaves `code_v` at the previous code (stale);
  - in the equality branch it leaves the whole GCAM loop.
  `AlignLoop` is the same algorithm written with the source's loops and `break`s.
 */
module Aligner {
  import opened Wrappers
  import opened PyStrings

  /** One slot of the aligned code block: a GCAM value, or the marker for "no entry"
      (`None` in gkg_raw_to_db.py, `''` in the other scripts). */
  datatype Cell = Missing | Value(text: string)

  /** The aligner's loop state: `code_i`, `code_v` and `out`. */
  datatype Cursor = Cursor(i: nat, v: string, out: seq<Cell>)

  function Missings(n: nat): (r: seq<Cell>)
    ensures |r| == n && forall k :: 0 <= k < n ==> r[k] == Missing
  {
    seq(n, _ => Missing)
  }

  /** The state between two GCAM entries: `code_i` lies inside the schema, `out` has one
      cell per code already passed, and `code_v` is `codes[code_i]`, or the stale
      `codes[m-2]` once a guard has stopped the cursor at `m-1`. */
  predicate Valid(codes: seq<string>, c: Cursor)
  {
    && c.i < |codes|
    && |c.out| == c.i
    && (c.v == codes[c.i] || (|codes| >= 2 && c.i == |codes| - 1 && c.v == codes[|codes| - 2]))
  }

  /** The field-17 entries after the word-count pseudo-entry (`gcam[1:]`). */
  function Entries(gcam: string): seq<string>
  {
    Split(gcam, ',')[1..]
  }

  /** The entry text `e` reads `code:val`. */
  predicate Entry(e: string, code: string, val: string)
  {
    Split(e, ':') == [code, val]
  }

  /** Some entry reports `val` under `code`. */
  predicate Supplies(entries: seq<string>, code: string, val: string)
  {
    exists j :: 0 <= j < |entries| && Entry(entries[j], code, val)
  }

  /**
    `while code_v < gcode: out.append(marker); code_i += 1; if code_i == codes_l - 1: break;
    code_v = codes[code_i]`. The skip loop appends one `Missing` per passed code. It raises
    only when it starts at the last index with `code_v < gcode`, because then `codes[m]` is read.
   */
  function SkipLoop(codes: seq<string>, c: Cursor, gcode: string): (r: Result<Cursor>)
    requires Valid(codes, c)
    ensures r.Err? <==> c.i == |codes| - 1 && Less(c.v, gcode)
    ensures r.Err? ==> r.error == IndexError
    ensures r.Ok? ==> Valid(codes, r.value) && c.i <= r.value.i
    ensures r.Ok? ==> r.value.out == c.out + Missings(r.value.i - c.i)
    ensures r.Ok? ==> forall k :: c.i <= k < r.value.i ==> Less(codes[k], gcode)
    ensures r.Ok? && r.value.i == c.i ==> r.value == c && !Less(c.v, gcode)
    ensures r.Ok? && r.value.i > c.i ==>
              || (r.value.i < |codes| - 1 && r.value.v == codes[r.value.i] && !Less(r.value.v, gcode))
              || (r.value.i == |codes| - 1 && r.value.v == codes[|codes| - 2] && Less(r.value.v, gcode))
    decreases |codes| - c.i
  {
    if !Less(c.v, gcode) then Ok(c)
    else
      var out := c.out + [Missing];
      var i := c.i + 1;
      if i == |codes| - 1 then Ok(Cursor(i, c.v, out))
      else if i >= |codes| then Err(IndexError)
      else SkipLoop(codes, Cursor(i, codes[i], out), gcode)
  }

  /** What one GCAM entry leaves behind: the loop goes on from `Next`, or the guard in the
      equality branch has left it at `Done`. */
  datatype Step = Next(c: Cursor) | Done(c: Cursor)

  /**
    One pass of the `for el in gcam[1:]` body: `gcode, val = el.split(':')`, the skip loop,
    then `if code_v == gcode: out.append(val); code_i += 1; if code_i == codes_l - 1: break;
    code_v = codes[code_i]`. An entry that does not split in two raises `ValueError`; with
    the cursor at `m-1`, an entry at or above `code_v` raises `IndexError`.
   */
  function Advance(codes: seq<string>, e: string, c: Cursor): (r: Result<Step>)
    requires Valid(codes, c)
    ensures r.Ok? ==> Valid(codes, r.value.c) && c.i <= r.value.c.i && r.value.c.out[..|c.out|] == c.out
    ensures r.Err? ==> r.error == ValueError || r.error == IndexError
    ensures |Split(e, ':')| != 2 ==> r == Err(ValueError)
    ensures |Split(e, ':')| == 2 && c.i == |codes| - 1 ==>
              (Less(c.v, Split(e, ':')[0]) || c.v == Split(e, ':')[0]) ==> r == Err(IndexError)
  {
    var parts := Split(e, ':');
    if |parts| != 2 then Err(ValueError)
    else
      var gcode, val := parts[0], parts[1];
      LessIrreflexive(c.v);
      match SkipLoop(codes, c, gcode)
      case Err(err) => Err(err)
      case Ok(c1) =>
        if c1.v == gcode then
          var out := c1.out + [Value(val)];
          var i := c1.i + 1;
          if i == |codes| - 1 then Ok(Done(Cursor(i, c1.v, out)))
          else if i >= |codes| then Err(IndexError)
          else Ok(Next(Cursor(i, codes[i], out)))
        else Ok(Next(c1))
  }

  /**
    The `for el in gcam[1:]` loop from cursor `c`. No entries leave the cursor as it is;
    only `ValueError` and `IndexError` arise, and the first entry decides them as
    `Advance` states. Every value cell it adds sits at the index of the code it was
    reported under (`ScanPlaces`).
   */
  function Scan(codes: seq<string>, entries: seq<string>, c: Cursor): (r: Result<Cursor>)
    requires Valid(codes, c)
    ensures r.Ok? ==> Valid(codes, r.value) && c.i <= r.value.i
    ensures r.Ok? ==> r.value.out[..|c.out|] == c.out
    ensures |entries| == 0 ==> r == Ok(c)
    ensures r.Err? ==> r.error == ValueError || r.error == IndexError
    ensures |entries| > 0 && |Split(entries[0], ':')| != 2 ==> r == Err(ValueError)
    ensures |entries| > 0 && |Split(entries[0], ':')| == 2 && c.i == |codes| - 1 ==>
              (Less(c.v, Split(entries[0], ':')[0]) || c.v == Split(entries[0], ':')[0]) ==> r == Err(IndexError)
    decreases |entries|
  {
    if |entries| == 0 then Ok(c)
    else
      match Advance(codes, entries[0], c)
      case Err(e) => Err(e)
      case Ok(Done(c1)) => Ok(c1)
      case Ok(Next(c1)) => Scan(codes, entries[1..], c1)
  }

  /** How `Scan` continues after the skip loop on its first entry succeeded. */
  lemma {:induction false} ScanAfterSkip(codes: seq<string>, entries: seq<string>, c: Cursor, val: string, c1: Cursor)
    requires Valid(codes, c) && |entries| > 0
    requires Split(entries[0], ':') == [c1.v, val] && SkipLoop(codes, c, c1.v) == Ok(c1)
    ensures c1.i + 1 == |codes| - 1 ==> Scan(codes, entries, c) == Ok(Cursor(c1.i + 1, c1.v, c1.out + [Value(val)]))
    ensures c1.i + 1 < |codes| - 1 ==>
              Scan(codes, entries, c) == Scan(codes, entries[1..], Cursor(c1.i + 1, codes[c1.i + 1], c1.out + [Value(val)]))
    ensures c1.i + 1 >= |codes| ==> Scan(codes, entries, c).Err?
  {
    var out := c1.out + [Value(val)];
    if c1.i + 1 == |codes| - 1 {
      assert Advance(codes, entries[0], c) == Ok(Done(Cursor(c1.i + 1, c1.v, out)));
    } else if c1.i + 1 < |codes| - 1 {
      assert Advance(codes, entries[0], c) == Ok(Next(Cursor(c1.i + 1, codes[c1.i + 1], out)));
    } else {
      assert Advance(codes, entries[0], c) == Err(IndexError);
    }
  }

  /** How `Scan` continues when the skip loop stopped on a code other than the entry's. */
  lemma {:induction false} ScanAfterMiss(codes: seq<string>, entries: seq<string>, c: Cursor, g: string, val: string, c1: Cursor)
    requires Valid(codes, c) && |entries| > 0
    requires Split(entries[0], ':') == [g, val] && SkipLoop(codes, c, g) == Ok(c1) && c1.v != g
    ensures Scan(codes, entries, c) == Scan(codes, entries[1..], c1)
  {
    assert Advance(codes, entries[0], c) == Ok(Next(c1));
  }

  lemma {:induction false} SuppliesTail(entries: seq<string>, code: string, val: string)
    requires |entries| > 0 && Supplies(entries[1..], code, val)
    ensures Supplies(entries, code, val)
  {
    var j :| 0 <= j < |entries[1..]| && Entry(entries[1..][j], code, val);
    assert entries[1..][j] == entries[j + 1];
  }

  /** Every cell from index `from` on is either the marker or supplied by `entries`. */
  predicate PlacedFrom(codes: seq<string>, entries: seq<string>, out: seq<Cell>, from: nat)
  {
    forall k :: from <= k < |out| && out[k].Value? ==> k < |codes| && Supplies(entries, codes[k], out[k].text)
  }

  /** A value cell that `Scan` adds lands at the index of the code it was reported under. */
  lemma {:induction false} ScanPlaces(codes: seq<string>, entries: seq<string>, c: Cursor)
    requires Valid(codes, c)
    ensures var r := Scan(codes, entries, c);
            r.Ok? ==> PlacedFrom(codes, entries, r.value.out, |c.out|)
    decreases |entries|
  {
    var r := Scan(codes, entries, c);
    if |entries| > 0 && r.Ok? {
      var parts := Split(entries[0], ':');
      var gcode, val := parts[0], parts[1];
      var rest := entries[1..];
      var skipped := SkipLoop(codes, c, gcode);
      assert skipped.Ok?;
      var c1 := skipped.value;
      if c1.v == gcode {
        var out := c1.out + [Value(val)];
        var i := c1.i + 1;
        assert c1.v == codes[c1.i];
        assert Supplies(entries, codes[c1.i], val) by {
          assert parts == [gcode, val];
          assert Entry(entries[0], gcode, val);
        }
        assert PlacedFrom(codes, entries, out, |c.out|);
        if i < |codes| - 1 {
          assert r == Scan(codes, rest, Cursor(i, codes[i], out));
          ScanPlaces(codes, rest, Cursor(i, codes[i], out));
          PlacedExtend(codes, entries, out, r.value.out, |c.out|);
        } else {
          assert r == Ok(Cursor(i, c1.v, out));
        }
      } else {
        assert r == Scan(codes, rest, c1);
        ScanPlaces(codes, rest, c1);
        assert PlacedFrom(codes, entries, c1.out, |c.out|) by {
          assert forall k :: |c.out| <= k < |c1.out| ==> c1.out[k] == Missing;
        }
        PlacedExtend(codes, entries, c1.out, r.value.out, |c.out|);
      }
    }
  }

  /** Cells placed from the rest of the entries are placed from all of them. */
  lemma {:induction false} PlacedExtend(codes: seq<string>, entries: seq<string>, out: seq<Cell>, longer: seq<Cell>, from: nat)
    requires |entries| > 0 && from <= |out| <= |longer| && longer[..|out|] == out
    requires PlacedFrom(codes, entries, out, from)
    requires PlacedFrom(codes, entries[1..], longer, |out|)
    ensures PlacedFrom(codes, entries, longer, from)
  {
    forall k | from <= k < |longer| && longer[k].Value?
      ensures k < |codes| && Supplies(entries, codes[k], longer[k].text)
    {
      if k < |out| {
        assert longer[k] == out[k];
      } else {
        SuppliesTail(entries, codes[k], longer[k].text);
      }
    }
  }

  /**
    The whole aligner: start at `codes[0]`, scan `gcam[1:]`, then add one trailing marker
    when `len(codes) == len(out) + 1`. On success the block is never longer than the
    schema, its length is never `m-1`, its last column is the marker whenever it is full,
    and every value cell carries a value reported under that column's code.
   */
  function Align(gcam: string, codes: seq<string>): (r: Result<seq<Cell>>)
    ensures |codes| == 0 ==> r == Err(IndexError)
    ensures r.Ok? ==> |r.value| <= |codes| && |r.value| + 1 != |codes|
    ensures r.Ok? && |r.value| == |codes| ==> r.value[|codes| - 1] == Missing
    ensures r.Ok? ==> PlacedFrom(codes, Entries(gcam), r.value, 0)
    ensures |codes| > 0 ==> (r.Err? <==> Scan(codes, Entries(gcam), Cursor(0, codes[0], [])).Err?)
    ensures r.Err? ==> r.error == ValueError || r.error == IndexError
    ensures |codes| > 0 && |Entries(gcam)| > 0 && |Split(Entries(gcam)[0], ':')| != 2 ==> r == Err(ValueError)
    ensures |codes| == 1 && |Entries(gcam)| > 0 && |Split(Entries(gcam)[0], ':')| == 2 ==>
              (Less(codes[0], Split(Entries(gcam)[0], ':')[0]) || codes[0] == Split(Entries(gcam)[0], ':')[0])
              ==> r == Err(IndexError)
  {
    if |codes| == 0 then Err(IndexError)
    else
      ScanPlaces(codes, Entries(gcam), Cursor(0, codes[0], []));
      match Scan(codes, Entries(gcam), Cursor(0, codes[0], []))
      case Err(e) => Err(e)
      case Ok(c) => Ok(if |codes| == |c.out| + 1 then c.out + [Missing] else c.out)
  }

  /**
    The inner `while code_v < gcode` loop with its guarded `break`, on the loop variables.
   */
  method SkipCodes(codes: seq<string>, i0: nat, v0: string, out0: seq<Cell>, gcode: string)
    returns (r: Result<Cursor>)
    requires Valid(codes, Cursor(i0, v0, out0))
    ensures r == SkipLoop(codes, Cursor(i0, v0, out0), gcode)
  {
    var i, v, out := i0, v0, out0;
    while Less(v, gcode)
      invariant Valid(codes, Cursor(i, v, out))
      invariant SkipLoop(codes, Cursor(i0, v0, out0), gcode) == SkipLoop(codes, Cursor(i, v, out), gcode)
      decreases |codes| - i
    {
      out := out + [Missing];
      i := i + 1;
      if i == |codes| - 1 {
        break;
      }
      if i >= |codes| {
        return Err(IndexError);
      }
      v := codes[i];
    }
    return Ok(Cursor(i, v, out));
  }

  /** A step of the scan from the `n`-th entry, restated on the suffixes the loop walks. */
  lemma {:induction false} ScanSuffix(codes: seq<string>, entries: seq<string>, n: nat, c0: Cursor, c1: Cursor)
    requires n < |entries| && Valid(codes, c0) && Valid(codes, c1)
    requires Scan(codes, entries[n..], c0) == Scan(codes, entries[n..][1..], c1)
    ensures Scan(codes, entries[n..], c0) == Scan(codes, entries[n + 1..], c1)
  {
    assert entries[n..][1..] == entries[n + 1..];
  }

  /**
    The `for el in gcam[1:]` loop with its inner skip loop and the guarded `break` that
    leaves it, on the loop variables `code_i`, `code_v` and `out`.
   */
  method ScanLoop(codes: seq<string>, entries: seq<string>, i0: nat, v0: string, out0: seq<Cell>)
    returns (r: Result<Cursor>)
    requires Valid(codes, Cursor(i0, v0, out0))
    ensures r == Scan(codes, entries, Cursor(i0, v0, out0))
  {
    var i: nat, v, out := i0, v0, out0;
    var n := 0;
    while n < |entries|
      invariant 0 <= n <= |entries|
      invariant Valid(codes, Cursor(i, v, out))
      invariant Scan(codes, entries, Cursor(i0, v0, out0)) == Scan(codes, entries[n..], Cursor(i, v, out))
      decreases |entries| - n
    {
      ghost var c0 := Cursor(i, v, out);
      ghost var rest := entries[n..];
      assert rest[0] == entries[n] && rest[1..] == entries[n + 1..];
      var parts := Split(entries[n], ':');
      if |parts| != 2 {
        return Err(ValueError);
      }
      var gcode, val := parts[0], parts[1];
      assert Split(rest[0], ':') == [gcode, val];
      var skipped := SkipCodes(codes, i, v, out, gcode);
      if skipped.Err? {
        return Err(skipped.error);
      }
      i, v, out := skipped.value.i, skipped.value.v, skipped.value.out;
      if v == gcode {
        out := out + [Value(val)];
        i := i + 1;
        if i == |codes| - 1 {
          ScanAfterSkip(codes, rest, c0, val, skipped.value);
          return Ok(Cursor(i, v, out));
        }
        if i >= |codes| {
          ScanAfterSkip(codes, rest, c0, val, skipped.value);
          return Err(IndexError);
        }
        v := codes[i];
        ScanAfterSkip(codes, rest, c0, val, skipped.value);
      } else {
        ScanAfterMiss(codes, rest, c0, gcode, val, skipped.value);
      }
      ScanSuffix(codes, entries, n, c0, Cursor(i, v, out));
      n := n + 1;
    }
    return Ok(Cursor(i, v, out));
  }

  /**
    The aligner as the scripts write it: the GCAM loop, then the trailing marker when
    exactly one column is left. It computes exactly `Align`.
   */
  method AlignLoop(gcam: string, codes: seq<string>) returns (r: Result<seq<Cell>>)
    ensures r == Align(gcam, codes)
  {
    if |codes| == 0 {
      return Err(IndexError);
    }
    var scanned := ScanLoop(codes, Entries(gcam), 0, codes[0], []);
    if scanned.Err? {
      return Err(scanned.error);
    }
    var out := scanned.value.out;
    if |codes| == |out| + 1 {
      out := out + [Missing];
    }
    return Ok(out);
  }
}
