/**
 The extraction pipeline (`extract_tcga_subtypes_main`) without its file
 input and output: group the loaded table by subtype, sample each group,
 concatenate, tally.
 */
module Pipeline {
  import opened Strings
  import opened Sequences
  import opened Tables
  import opened Grouping
  import opened Balancing
  import opened Tally

  /** The default number of samples drawn per subtype. */
  const DefaultSamplesPerSubtype: nat := 80

  /** What one run produces: the balanced table, its tally, and the
      shortfall warnings printed on the way. */
  datatype Extraction = Extraction(balanced: Table, counts: map<string, nat>, shortfalls: seq<Shortfall>)

  /** The number of rows of `t` whose stripped label is `name`. */
  function Available(t: Table, name: string): nat {
    |SelectSubtype(t, name)|
  }

  /** Each group of the grouping is the filter for its subtype. */
  lemma GroupsAreFilters(t: Table)
    ensures forall i :: 0 <= i < |SubtypesOfInterest| ==>
      FilterBySubtypes(t)[i].rows == SelectSubtype(t, SubtypesOfInterest[i])
  {
    var gs := FilterBySubtypes(t);
    forall i | 0 <= i < |SubtypesOfInterest|
      ensures gs[i].rows == SelectSubtype(t, SubtypesOfInterest[i])
    {
      SelectUnique(t, SubtypesOfInterest[i], gs[i].rows);
    }
  }

  /** The concatenation of the grouping's samples is the LumA, Basal and Her2
      samples of the input's filters, in that order. */
  lemma BlocksInOrder(t: Table, k: nat, sel: Selector)
    requires ValidSelector(sel)
    ensures Extracted(FilterBySubtypes(t), k, sel)
      == SampleGroup(SelectSubtype(t, "LumA"), k, sel)
       + SampleGroup(SelectSubtype(t, "Basal"), k, sel)
       + SampleGroup(SelectSubtype(t, "Her2"), k, sel)
  {
    var gs := FilterBySubtypes(t);
    GroupsAreFilters(t);
    ExtractedThree(gs, k, sel);
  }

  /** `extract_tcga_subtypes_main` between loading and saving: filter,
      balance, tally. The balanced table is the LumA sample, then the Basal
      sample, then the Her2 sample, each drawn from the input's rows of that
      subtype; the tally counts that table. */
  function ExtractTcgaSubtypes(t: Table, k: nat, sel: Selector): (e: Extraction)
    requires ValidSelector(sel)
    ensures e.balanced == SampleGroup(SelectSubtype(t, "LumA"), k, sel)
                        + SampleGroup(SelectSubtype(t, "Basal"), k, sel)
                        + SampleGroup(SelectSubtype(t, "Her2"), k, sel)
    ensures e.counts == ValueCounts(e.balanced)
  {
    var gs := FilterBySubtypes(t);
    var balanced := BalanceAndExtract(gs, k, sel).table;
    BlocksInOrder(t, k, sel);
    Extraction(balanced, ValueCounts(balanced), Shortfalls(gs, k))
  }

  /** The rows of subtype `name` in the balanced table are that subtype's
      sample drawn from the input's rows of subtype `name`. */
  lemma OutputBySubtype(t: Table, k: nat, sel: Selector, i: nat)
    requires ValidSelector(sel) && i < |SubtypesOfInterest|
    ensures SelectSubtype(ExtractTcgaSubtypes(t, k, sel).balanced, SubtypesOfInterest[i])
      == SampleGroup(SelectSubtype(t, SubtypesOfInterest[i]), k, sel)
  {
    GroupsAreFilters(t);
  }

  /** Balance: for every subtype of interest with `N` rows in the input, the
      output holds `min(N, k)` rows of it: exactly `k` rows drawn without
      replacement when `N >= k`, otherwise all `N` in input order. */
  lemma Balanced(t: Table, k: nat, sel: Selector, name: string)
    requires ValidSelector(sel) && name in SubtypesOfInterest
    ensures var out := SelectSubtype(ExtractTcgaSubtypes(t, k, sel).balanced, name);
      && |out| == Min(Available(t, name), k)
      && (Available(t, name) >= k ==>
           exists d :: IsDraw(d, Available(t, name), k) && out == Pick(SelectSubtype(t, name), d))
      && (Available(t, name) < k ==> out == SelectSubtype(t, name))
      && multiset(out) <= multiset(SelectSubtype(t, name))
  {
    var i :| 0 <= i < |SubtypesOfInterest| && SubtypesOfInterest[i] == name;
    OutputBySubtype(t, k, sel, i);
  }

  /** The balanced table has `min(N, k)` rows per subtype of interest and no
      others. */
  lemma OutputSize(t: Table, k: nat, sel: Selector)
    requires ValidSelector(sel)
    ensures |ExtractTcgaSubtypes(t, k, sel).balanced|
      == Min(Available(t, "LumA"), k) + Min(Available(t, "Basal"), k) + Min(Available(t, "Her2"), k)
  {
    var gs := FilterBySubtypes(t);
    GroupsAreFilters(t);
    assert gs[1..][1..][1..] == [];
    assert gs[1..][0] == gs[1] && gs[1..][1..][0] == gs[2];
    assert ExpectedSize(gs[1..][1..], k) == Min(|gs[2].rows|, k);
    assert ExpectedSize(gs[1..], k) == Min(|gs[1].rows|, k) + Min(|gs[2].rows|, k);
  }

  /** Every output row comes from the input, no more often than it occurs
      there, and carries a subtype of interest. */
  lemma OutputFromInput(t: Table, k: nat, sel: Selector)
    requires ValidSelector(sel)
    ensures multiset(ExtractTcgaSubtypes(t, k, sel).balanced) <= multiset(t)
    ensures forall j :: 0 <= j < |ExtractTcgaSubtypes(t, k, sel).balanced| ==>
      Trim(ExtractTcgaSubtypes(t, k, sel).balanced[j].subtype) in SubtypesOfInterest
  {
    var balanced := ExtractTcgaSubtypes(t, k, sel).balanced;
    GroupsWithinTable(t);
    forall j | 0 <= j < |balanced|
      ensures Trim(balanced[j].subtype) in SubtypesOfInterest
    {
      assert balanced[j] in multiset(balanced);
    }
  }

  /** A warning is issued for a subtype exactly when the input has fewer
      than `k` rows of it, and it reports how many there are. */
  lemma ShortfallWarned(t: Table, k: nat, sel: Selector, name: string)
    requires ValidSelector(sel) && name in SubtypesOfInterest
    ensures Shortfall(name, k, Available(t, name)) in ExtractTcgaSubtypes(t, k, sel).shortfalls
      <==> Available(t, name) < k
  {
    var gs := FilterBySubtypes(t);
    var i :| 0 <= i < |SubtypesOfInterest| && SubtypesOfInterest[i] == name;
    GroupsAreFilters(t);
    ShortfallFor(gs, k, i);
  }

  /** Warnings only ever name subtypes of interest. */
  lemma ShortfallsNameSubtypes(t: Table, k: nat, sel: Selector)
    requires ValidSelector(sel)
    ensures forall w :: w in ExtractTcgaSubtypes(t, k, sel).shortfalls ==> w.subtype in SubtypesOfInterest
  {
    var gs := FilterBySubtypes(t);
    forall w | w in Shortfalls(gs, k)
      ensures w.subtype in SubtypesOfInterest
    {
      var j :| 0 <= j < |gs| && |gs[j].rows| < k && w == Shortfall(gs[j].subtype, k, |gs[j].rows|);
      assert w.subtype == SubtypesOfInterest[j];
    }
  }

  /** The tally accounts for every row of the balanced table. */
  lemma CountsCoverOutput(t: Table, k: nat, sel: Selector)
    requires ValidSelector(sel)
    ensures Total(ExtractTcgaSubtypes(t, k, sel).counts) == |ExtractTcgaSubtypes(t, k, sel).balanced|
  {
    ValueCountsTotal(ExtractTcgaSubtypes(t, k, sel).balanced);
  }

  /** The code does not reject a zero count: every group is then sampled
      down to nothing and the balanced table is empty. */
  lemma ZeroCountEmpty(t: Table, sel: Selector)
    requires ValidSelector(sel)
    ensures ExtractTcgaSubtypes(t, 0, sel).balanced == []
  {
    OutputSize(t, 0, sel);
  }

  /** Where every label is stored already stripped, counting raw labels
      counts the filter's rows. */
  lemma {:induction false} RawCountIsFilterSize(b: Table, name: string)
    requires forall j :: 0 <= j < |b| ==> Trim(b[j].subtype) == b[j].subtype
    ensures multiset(Labels(b))[name] == |SelectSubtype(b, name)|
    decreases |b|
  {
    if |b| > 0 {
      assert Labels(b) == [b[0].subtype] + Labels(b[1..]);
      RawCountIsFilterSize(b[1..], name);
    }
  }

  /** Rows keep their labels: a stripped input gives a stripped output. */
  lemma OutputStripped(t: Table, k: nat, sel: Selector)
    requires ValidSelector(sel)
    requires forall j :: 0 <= j < |t| ==> Trim(t[j].subtype) == t[j].subtype
    ensures forall j :: 0 <= j < |ExtractTcgaSubtypes(t, k, sel).balanced| ==>
      var r := ExtractTcgaSubtypes(t, k, sel).balanced[j]; Trim(r.subtype) == r.subtype && r.subtype in SubtypesOfInterest
  {
    var b := ExtractTcgaSubtypes(t, k, sel).balanced;
    OutputFromInput(t, k, sel);
    forall j | 0 <= j < |b|
      ensures Trim(b[j].subtype) == b[j].subtype
    {
      assert b[j] in multiset(t);
    }
  }

  /** When the input's labels carry no surrounding whitespace, the tally
      reports each subtype of interest present in the output with its
      balanced count `min(N, k)`. */
  lemma CountsReportBalance(t: Table, k: nat, sel: Selector, name: string)
    requires ValidSelector(sel) && name in SubtypesOfInterest
    requires forall j :: 0 <= j < |t| ==> Trim(t[j].subtype) == t[j].subtype
    ensures var e := ExtractTcgaSubtypes(t, k, sel);
      && (name in e.counts <==> Min(Available(t, name), k) > 0)
      && (name in e.counts ==> e.counts[name] == Min(Available(t, name), k))
  {
    var b := ExtractTcgaSubtypes(t, k, sel).balanced;
    OutputStripped(t, k, sel);
    RawCountIsFilterSize(b, name);
    Balanced(t, k, sel, name);
  }

  /** ... and reports no other label. */
  lemma CountsOnlySubtypes(t: Table, k: nat, sel: Selector)
    requires ValidSelector(sel)
    requires forall j :: 0 <= j < |t| ==> Trim(t[j].subtype) == t[j].subtype
    ensures forall l :: l in ExtractTcgaSubtypes(t, k, sel).counts ==> l in SubtypesOfInterest
  {
    OutputStripped(t, k, sel);
  }

  /** Scenario: 100 LumA, 50 Basal and 90 Her2 rows with the default count
      of 80 give 80 + 50 + 80 rows, and only Basal is warned about. */
  lemma DefaultScenario(t: Table, sel: Selector)
    requires ValidSelector(sel)
    requires Available(t, "LumA") == 100 && Available(t, "Basal") == 50 && Available(t, "Her2") == 90
    ensures var e := ExtractTcgaSubtypes(t, DefaultSamplesPerSubtype, sel);
      && |e.balanced| == 210
      && Shortfall("Basal", 80, 50) in e.shortfalls
      && Shortfall("LumA", 80, 100) !in e.shortfalls
      && Shortfall("Her2", 80, 90) !in e.shortfalls
  {
    OutputSize(t, DefaultSamplesPerSubtype, sel);
    ShortfallWarned(t, DefaultSamplesPerSubtype, sel, "LumA");
    ShortfallWarned(t, DefaultSamplesPerSubtype, sel, "Basal");
    ShortfallWarned(t, DefaultSamplesPerSubtype, sel, "Her2");
  }

  /** Stripping applies to grouping only: a label stored as "LumA " joins
      the LumA group but is tallied under its own raw spelling. */
  lemma TallyKeepsRawLabels()
    ensures var t := [Record("s1", "LumA ", []), Record("s2", "LumA", [])];
      && SelectSubtype(t, "LumA") == t
      && ValueCounts(t) == map["LumA " := 1, "LumA" := 1]
  {
    var t := [Record("s1", "LumA ", []), Record("s2", "LumA", [])];
    assert SelectSubtype(t, "LumA") == t by {
      assert "LumA " == [] + "LumA" + " ";
      TrimUnique([], "LumA", " ");
      assert "LumA" == [] + "LumA" + [];
      TrimUnique([], "LumA", []);
      SelectAll(t, "LumA");
    }
    assert ValueCounts(t) == map["LumA " := 1, "LumA" := 1] by {
      assert Labels(t) == ["LumA ", "LumA"];
      assert "LumA " != "LumA";
      assert ValueCounts(t).Keys == {"LumA ", "LumA"};
    }
  }
}
