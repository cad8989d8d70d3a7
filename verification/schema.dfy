/**
  The fixed GCAM code schemas: the 41-code schema of gkg_raw_to_db.py and gdelt_2020_au.py,
  built by splicing the string-sorted `c4.1 .. c4.28` into the other codes, and the two-code
  schema of swa_gdelt_process.py and gdelt_process_IN.py.
 */
module CodeSchema {
  import opened PyStrings

  /** Strictly increasing under Python's string order, hence also free of duplicates. */
  predicate StrictlySorted(codes: seq<string>)
  {
    forall p, q :: 0 <= p < q < |codes| ==> Less(codes[p], codes[q])
  }

  /** Each code is below its successor. */
  predicate StepSorted(codes: seq<string>)
  {
    forall p :: 0 <= p < |codes| - 1 ==> Less(codes[p], codes[p + 1])
  }

  /** Neighbour-wise order extends to every pair, by transitivity of string order. */
  lemma {:induction false} StepSortedIsStrict(codes: seq<string>)
    requires StepSorted(codes)
    ensures StrictlySorted(codes)
    decreases |codes|
  {
    if |codes| > 1 {
      var tail := codes[1..];
      assert StepSorted(tail) by {
        forall p | 0 <= p < |tail| - 1 ensures Less(tail[p], tail[p + 1]) {
          assert tail[p] == codes[p + 1] && tail[p + 1] == codes[p + 2];
        }
      }
      StepSortedIsStrict(tail);
      forall p, q | 0 <= p < q < |codes| ensures Less(codes[p], codes[q]) {
        if p > 0 {
          assert codes[p] == tail[p - 1] && codes[q] == tail[q - 1];
        } else if q > 1 {
          assert codes[1] == tail[0] && codes[q] == tail[q - 1];
          LessTransitive(codes[0], codes[1], codes[q]);
        }
      }
    }
  }

  /** Two sorted runs whose boundary is in order form one sorted run. */
  lemma {:induction false} StepSortedAppend(a: seq<string>, b: seq<string>)
    requires StepSorted(a) && StepSorted(b)
    requires |a| > 0 && |b| > 0 && Less(a[|a| - 1], b[0])
    ensures StepSorted(a + b)
  {
    var s := a + b;
    forall p | 0 <= p < |s| - 1 ensures Less(s[p], s[p + 1]) {
      if p < |a| - 1 {
        assert s[p] == a[p] && s[p + 1] == a[p + 1];
      } else if p == |a| - 1 {
        assert s[p + 1] == b[0];
      } else {
        assert s[p] == b[p - |a|] && s[p + 1] == b[p - |a| + 1];
      }
    }
  }

  /** A strictly sorted schema has no repeated code. */
  lemma {:induction false} StrictlySortedDistinct(codes: seq<string>, p: int, q: int)
    requires StrictlySorted(codes)
    requires 0 <= p < |codes| && 0 <= q < |codes| && p != q
    ensures codes[p] != codes[q]
  {
    if p < q { LessIrreflexive(codes[p]); } else { LessIrreflexive(codes[q]); }
  }

  /** `['c4.' + str(i) for i in range(1, 29)]`, written out in generation order. */
  const C4Generated: seq<string> := [
    "c4.1", "c4.2", "c4.3", "c4.4", "c4.5", "c4.6", "c4.7", "c4.8", "c4.9", "c4.10",
    "c4.11", "c4.12", "c4.13", "c4.14", "c4.15", "c4.16", "c4.17", "c4.18", "c4.19", "c4.20",
    "c4.21", "c4.22", "c4.23", "c4.24", "c4.25", "c4.26", "c4.27", "c4.28"
  ]

  /** `sorted(...)` of the `c4.*` codes, written out. */
  const C4Sorted: seq<string> := [
    "c4.1", "c4.10", "c4.11", "c4.12", "c4.13", "c4.14", "c4.15", "c4.16", "c4.17", "c4.18",
    "c4.19", "c4.2", "c4.20", "c4.21", "c4.22", "c4.23", "c4.24", "c4.25", "c4.26", "c4.27",
    "c4.28", "c4.3", "c4.4", "c4.5", "c4.6", "c4.7", "c4.8", "c4.9"
  ]

  /** The thirteen codes that `codes[2:2] = classification` splices into (gdelt_2020_au.py). */
  const BaseCodes: seq<string> := [
    "c3.1", "c3.2", "c41.1", "c41.2", "c41.3", "c6.4", "c6.5", "c6.6",
    "c7.1", "c7.2", "v10.1", "v10.2", "v11.1"
  ]

  /** `xs[k:k] = ys`: insert `ys` before position `k`. */
  function SpliceAt(xs: seq<string>, k: nat, ys: seq<string>): (r: seq<string>)
    requires k <= |xs|
    ensures |r| == |xs| + |ys|
    ensures r[..k] == xs[..k] && r[k..k + |ys|] == ys && r[k + |ys|..] == xs[k..]
  {
    xs[..k] + ys + xs[k..]
  }

  /** The 41-code schema of gdelt_2020_au.py. */
  function Schema41(): seq<string>
  {
    SpliceAt(BaseCodes, 2, C4Sorted)
  }

  /** The schema literal of `process_gkg` in gkg_raw_to_db.py. */
  function SchemaV2(): seq<string>
  {
    ["c3.1", "c3.2"] + C4Sorted
    + ["c41.1", "c41.2", "c41.3", "c6.4", "c6.5", "c6.6", "c7.1", "c7.2", "v10.1", "v10.2", "v11.1"]
  }

  /** The two-code schema of swa_gdelt_process.py and gdelt_process_IN.py. */
  const TwoCodes: seq<string> := ["c3.1", "c3.2"]

  /** `sorted` turns the generated `c4.*` codes into `C4Sorted`: the same codes, as many, in strict order. */
  lemma {:induction false} C4SortedIsSorted()
    ensures |C4Sorted| == |C4Generated| == 28
    ensures forall x :: x in C4Generated <==> x in C4Sorted
    ensures StrictlySorted(C4Sorted)
  {
    Schema41Sorted();
    var s := Schema41();
    assert C4Sorted == s[2..30];
    forall p, q | 0 <= p < q < |C4Sorted| ensures Less(C4Sorted[p], C4Sorted[q]) {
      assert C4Sorted[p] == s[p + 2] && C4Sorted[q] == s[q + 2];
    }
  }

  /** Both scripts build the same 41 codes, strictly increasing under string order. */
  lemma {:induction false} Schema41Facts()
    ensures SchemaV2() == Schema41()
    ensures |Schema41()| == 41
    ensures StrictlySorted(Schema41())
    ensures Schema41()[0] == "c3.1" && Schema41()[39] == "v10.2" && Schema41()[40] == "v11.1"
  {
    Schema41IsV2();
    Schema41Sorted();
  }

  lemma {:induction false} Schema41Sorted()
    ensures StrictlySorted(Schema41())
  {
    Schema41IsRuns();
    RunsSorted();
    StepSortedIsStrict(Schema41());
  }

  lemma {:induction false} Schema41IsRuns()
    ensures Schema41() == Run0() + Run1() + Run2() + Run3() + Run4() + Run5()
  {
    Schema41IsV2();
    RunsAreV2();
  }

  lemma {:induction false} Schema41IsV2()
    ensures Schema41() == SchemaV2()
  {
    assert BaseCodes[..2] == ["c3.1", "c3.2"];
    assert BaseCodes[2..] == [
      "c41.1", "c41.2", "c41.3", "c6.4", "c6.5", "c6.6", "c7.1", "c7.2", "v10.1", "v10.2", "v11.1"
    ];
  }

  lemma {:induction false} RunsAreV2()
    ensures Run0() + Run1() + Run2() + Run3() + Run4() + Run5() == SchemaV2()
  {
    RunsListed();
    SchemaV2Listed();
  }

  lemma {:induction false} RunsListed()
    ensures Run0() + Run1() + Run2() + Run3() + Run4() + Run5() == ["c3.1", "c3.2", "c4.1", "c4.10", "c4.11", "c4.12", "c4.13", "c4.14", "c4.15", "c4.16", "c4.17", "c4.18", "c4.19", "c4.2", "c4.20", "c4.21", "c4.22", "c4.23", "c4.24", "c4.25", "c4.26", "c4.27", "c4.28", "c4.3", "c4.4", "c4.5", "c4.6", "c4.7", "c4.8", "c4.9", "c41.1", "c41.2", "c41.3", "c6.4", "c6.5", "c6.6", "c7.1", "c7.2", "v10.1", "v10.2", "v11.1"]
  {
    assert Run0() + Run1()
        == ["c3.1", "c3.2", "c4.1", "c4.10", "c4.11", "c4.12", "c4.13", "c4.14", "c4.15", "c4.16", "c4.17", "c4.18", "c4.19", "c4.2"];
    assert Run0() + Run1() + Run2()
        == ["c3.1", "c3.2", "c4.1", "c4.10", "c4.11", "c4.12", "c4.13", "c4.14", "c4.15", "c4.16", "c4.17", "c4.18", "c4.19", "c4.2", "c4.20", "c4.21", "c4.22", "c4.23", "c4.24", "c4.25", "c4.26"];
    assert Run0() + Run1() + Run2() + Run3()
        == ["c3.1", "c3.2", "c4.1", "c4.10", "c4.11", "c4.12", "c4.13", "c4.14", "c4.15", "c4.16", "c4.17", "c4.18", "c4.19", "c4.2", "c4.20", "c4.21", "c4.22", "c4.23", "c4.24", "c4.25", "c4.26", "c4.27", "c4.28", "c4.3", "c4.4", "c4.5", "c4.6", "c4.7"];
    assert Run0() + Run1() + Run2() + Run3() + Run4()
        == ["c3.1", "c3.2", "c4.1", "c4.10", "c4.11", "c4.12", "c4.13", "c4.14", "c4.15", "c4.16", "c4.17", "c4.18", "c4.19", "c4.2", "c4.20", "c4.21", "c4.22", "c4.23", "c4.24", "c4.25", "c4.26", "c4.27", "c4.28", "c4.3", "c4.4", "c4.5", "c4.6", "c4.7", "c4.8", "c4.9", "c41.1", "c41.2", "c41.3", "c6.4", "c6.5"];
  }

  lemma {:induction false} SchemaV2Listed()
    ensures SchemaV2() == ["c3.1", "c3.2", "c4.1", "c4.10", "c4.11", "c4.12", "c4.13", "c4.14", "c4.15", "c4.16", "c4.17", "c4.18", "c4.19", "c4.2", "c4.20", "c4.21", "c4.22", "c4.23", "c4.24", "c4.25", "c4.26", "c4.27", "c4.28", "c4.3", "c4.4", "c4.5", "c4.6", "c4.7", "c4.8", "c4.9", "c41.1", "c41.2", "c41.3", "c6.4", "c6.5", "c6.6", "c7.1", "c7.2", "v10.1", "v10.2", "v11.1"]
  {
    assert ["c3.1", "c3.2"] + C4Sorted == ["c3.1", "c3.2", "c4.1", "c4.10", "c4.11", "c4.12", "c4.13", "c4.14", "c4.15", "c4.16", "c4.17", "c4.18", "c4.19", "c4.2", "c4.20", "c4.21", "c4.22", "c4.23", "c4.24", "c4.25", "c4.26", "c4.27", "c4.28", "c4.3", "c4.4", "c4.5", "c4.6", "c4.7", "c4.8", "c4.9"];
  }

  lemma {:induction false} RunsSorted()
    ensures StepSorted(Run0() + Run1() + Run2() + Run3() + Run4() + Run5())
  {
    Run0Sorted();
    var acc := Run0();
    Run1Sorted();
    assert acc[|acc| - 1] == Run0()[|Run0()| - 1] == "c4.13";
    assert Run1()[0] == "c4.14" && Less("c4.13", "c4.14");
    StepSortedAppend(acc, Run1());
    acc := acc + Run1();
    Run2Sorted();
    assert acc[|acc| - 1] == Run1()[|Run1()| - 1] == "c4.2";
    assert Run2()[0] == "c4.20" && Less("c4.2", "c4.20");
    StepSortedAppend(acc, Run2());
    acc := acc + Run2();
    Run3Sorted();
    assert acc[|acc| - 1] == Run2()[|Run2()| - 1] == "c4.26";
    assert Run3()[0] == "c4.27" && Less("c4.26", "c4.27");
    StepSortedAppend(acc, Run3());
    acc := acc + Run3();
    Run4Sorted();
    assert acc[|acc| - 1] == Run3()[|Run3()| - 1] == "c4.7";
    assert Run4()[0] == "c4.8" && Less("c4.7", "c4.8");
    StepSortedAppend(acc, Run4());
    acc := acc + Run4();
    Run5Sorted();
    assert acc[|acc| - 1] == Run4()[|Run4()| - 1] == "c6.5";
    assert Run5()[0] == "c6.6" && Less("c6.5", "c6.6");
    StepSortedAppend(acc, Run5());
    acc := acc + Run5();
  }

  function Run0(): seq<string> { ["c3.1", "c3.2", "c4.1", "c4.10", "c4.11", "c4.12", "c4.13"] }
  function Run1(): seq<string> { ["c4.14", "c4.15", "c4.16", "c4.17", "c4.18", "c4.19", "c4.2"] }
  function Run2(): seq<string> { ["c4.20", "c4.21", "c4.22", "c4.23", "c4.24", "c4.25", "c4.26"] }
  function Run3(): seq<string> { ["c4.27", "c4.28", "c4.3", "c4.4", "c4.5", "c4.6", "c4.7"] }
  function Run4(): seq<string> { ["c4.8", "c4.9", "c41.1", "c41.2", "c41.3", "c6.4", "c6.5"] }
  function Run5(): seq<string> { ["c6.6", "c7.1", "c7.2", "v10.1", "v10.2", "v11.1"] }

  lemma {:induction false} Run0Sorted()
    ensures StepSorted(Run0())
  {
    assert Less("c3.1", "c3.2");
    assert Less("c3.2", "c4.1");
    assert Less("c4.1", "c4.10");
    assert Less("c4.10", "c4.11");
    assert Less("c4.11", "c4.12");
    assert Less("c4.12", "c4.13");
  }
  lemma {:induction false} Run1Sorted()
    ensures StepSorted(Run1())
  {
    assert Less("c4.14", "c4.15");
    assert Less("c4.15", "c4.16");
    assert Less("c4.16", "c4.17");
    assert Less("c4.17", "c4.18");
    assert Less("c4.18", "c4.19");
    assert Less("c4.19", "c4.2");
  }
  lemma {:induction false} Run2Sorted()
    ensures StepSorted(Run2())
  {
    assert Less("c4.20", "c4.21");
    assert Less("c4.21", "c4.22");
    assert Less("c4.22", "c4.23");
    assert Less("c4.23", "c4.24");
    assert Less("c4.24", "c4.25");
    assert Less("c4.25", "c4.26");
  }
  lemma {:induction false} Run3Sorted()
    ensures StepSorted(Run3())
  {
    assert Less("c4.27", "c4.28");
    assert Less("c4.28", "c4.3");
    assert Less("c4.3", "c4.4");
    assert Less("c4.4", "c4.5");
    assert Less("c4.5", "c4.6");
    assert Less("c4.6", "c4.7");
  }
  lemma {:induction false} Run4Sorted()
    ensures StepSorted(Run4())
  {
    assert Less("c4.8", "c4.9");
    assert Less("c4.9", "c41.1");
    assert Less("c41.1", "c41.2");
    assert Less("c41.2", "c41.3");
    assert Less("c41.3", "c6.4");
    assert Less("c6.4", "c6.5");
  }
  lemma {:induction false} Run5Sorted()
    ensures StepSorted(Run5())
  {
    assert Less("c6.6", "c7.1");
    assert Less("c7.1", "c7.2");
    assert Less("c7.2", "v10.1");
    assert Less("v10.1", "v10.2");
    assert Less("v10.2", "v11.1");
  }

  lemma {:induction false} TwoCodesSorted()
    ensures |TwoCodes| == 2
    ensures StrictlySorted(TwoCodes)
  {
    assert Less("c3.1", "c3.2");
  }
}
