/**
 Fixed-count sampling per subtype and concatenation of the samples
 (`balance_and_extract_samples`).
 */
module Balancing {
  import opened Sequences
  import opened Tables
  import opened Grouping

  /** The seeded draw `data.sample(n=k, random_state=42)`. With the seed
      fixed, the positions drawn depend only on the group size `n` and the
      count `k`; the selector returns them in draw order. The generator
      behind it is not modelled, only what every draw guarantees. */
  type Selector = (nat, nat) -> seq<nat>

  /** Every draw of `k <= n` rows yields `k` different positions below `n`. */
  ghost predicate ValidSelector(sel: Selector) {
    forall n: nat, k: nat :: k <= n ==> IsDraw(sel(n, k), n, k)
  }

  /** Taking the first `k` positions is one selector the abstraction admits,
      so `ValidSelector` is not vacuous. */
  function FirstPositions(n: nat, k: nat): seq<nat> {
    seq(k, i requires 0 <= i < k => i)
  }

  lemma FirstPositionsValid()
    ensures ValidSelector(FirstPositions)
  {
  }

  function Min(a: nat, b: nat): nat {
    if a <= b then a else b
  }

  /** What one group contributes: `k` rows drawn without replacement when the
      group has at least `k` rows, otherwise the whole group unchanged. */
  function SampleGroup(g: Table, k: nat, sel: Selector): (r: Table)
    requires ValidSelector(sel)
    ensures |r| == Min(|g|, k)
    ensures |g| >= k ==> exists d :: IsDraw(d, |g|, k) && r == Pick(g, d)
    ensures |g| < k ==> r == g
    ensures multiset(r) <= multiset(g)
    ensures |g| == k ==> multiset(r) == multiset(g)
    ensures forall i :: 0 <= i < |r| ==> r[i] in g
  {
    if |g| >= k then
      var d := sel(|g|, k);
      PickSubMultiset(g, d);
      var r := Pick(g, d);
      assert forall i :: 0 <= i < |r| ==> r[i] in g by {
        forall i | 0 <= i < |r|
          ensures r[i] in g
        {
          assert r[i] == g[d[i]];
        }
      }
      assert |g| == k ==> multiset(r) == multiset(g) by {
        if |g| == k {
          SubMultisetSameSize(r, g);
        }
      }
      r
    else
      g
  }

  /** Seed 42 is reused for every subtype: two groups of the same size get
      rows from the same positions. */
  lemma SharedSeed(g1: Table, g2: Table, k: nat, sel: Selector)
    requires ValidSelector(sel)
    requires |g1| == |g2| >= k
    ensures exists d :: IsDraw(d, |g1|, k) && SampleGroup(g1, k, sel) == Pick(g1, d) && SampleGroup(g2, k, sel) == Pick(g2, d)
  {
    var d := sel(|g1|, k);
    assert IsDraw(d, |g1|, k);
  }

  /** The console warning printed for a group smaller than the request. */
  datatype Shortfall = Shortfall(subtype: string, requested: nat, available: nat)

  /** The warnings of one run, in group order: one for each group that has
      fewer than `k` rows, carrying its size, and no other. */
  function Shortfalls(gs: seq<Group>, k: nat): (ws: seq<Shortfall>)
    ensures forall w :: w in ws <==>
      exists i :: 0 <= i < |gs| && |gs[i].rows| < k && w == Shortfall(gs[i].subtype, k, |gs[i].rows|)
  {
    if |gs| == 0 then []
    else
      var rest := Shortfalls(gs[1..], k);
      assert forall j :: 0 <= j < |gs| - 1 ==> gs[1..][j] == gs[j + 1];
      var w := Shortfall(gs[0].subtype, k, |gs[0].rows|);
      if |gs[0].rows| < k then [w] + rest else rest
  }

  /** With distinct subtypes, a group is warned about exactly when it is
      smaller than the request. */
  lemma ShortfallFor(gs: seq<Group>, k: nat, i: nat)
    requires WellFormed(gs) && i < |gs|
    ensures Shortfall(gs[i].subtype, k, |gs[i].rows|) in Shortfalls(gs, k) <==> |gs[i].rows| < k
  {
    var w := Shortfall(gs[i].subtype, k, |gs[i].rows|);
    if w in Shortfalls(gs, k) {
      var j :| 0 <= j < |gs| && |gs[j].rows| < k && w == Shortfall(gs[j].subtype, k, |gs[j].rows|);
      assert gs[j].subtype == gs[i].subtype;
      assert j == i;
    }
  }

  /** How many rows the balanced table has: the sum over groups of
      `min(N, k)`. */
  function ExpectedSize(gs: seq<Group>, k: nat): nat {
    if |gs| == 0 then 0 else Min(|gs[0].rows|, k) + ExpectedSize(gs[1..], k)
  }

  /** The groups' samples, one after another in group order. */
  function Extracted(gs: seq<Group>, k: nat, sel: Selector): (r: Table)
    requires ValidSelector(sel)
    ensures |r| == ExpectedSize(gs, k)
    ensures multiset(r) <= AllRows(gs)
  {
    if |gs| == 0 then []
    else SampleGroup(gs[0].rows, k, sel) + Extracted(gs[1..], k, sel)
  }

  /** The concatenation puts the first group's sample in front of the rest,
      so the samples appear as blocks in group order. */
  lemma ExtractedCons(g: Group, rest: seq<Group>, k: nat, sel: Selector)
    requires ValidSelector(sel)
    ensures Extracted([g] + rest, k, sel) == SampleGroup(g.rows, k, sel) + Extracted(rest, k, sel)
  {
    assert ([g] + rest)[1..] == rest;
  }

  /** With three groups, the concatenation is their three samples in order. */
  lemma ExtractedThree(gs: seq<Group>, k: nat, sel: Selector)
    requires ValidSelector(sel) && |gs| == 3
    ensures Extracted(gs, k, sel)
      == SampleGroup(gs[0].rows, k, sel) + SampleGroup(gs[1].rows, k, sel) + SampleGroup(gs[2].rows, k, sel)
  {
    var tail := gs[1..];
    var last := tail[1..];
    assert last[0] == gs[2] && last[1..] == [];
    assert Extracted(last, k, sel) == SampleGroup(gs[2].rows, k, sel);
    assert tail[0] == gs[1];
    assert Extracted(tail, k, sel) == SampleGroup(gs[1].rows, k, sel) + SampleGroup(gs[2].rows, k, sel);
  }

  /** A sample of rows that all carry subtype `name` carries only `name`. */
  lemma SampleMatches(g: Table, k: nat, sel: Selector, name: string)
    requires ValidSelector(sel)
    requires forall p :: 0 <= p < |g| ==> HasSubtype(g[p], name)
    ensures forall j :: 0 <= j < |SampleGroup(g, k, sel)| ==> HasSubtype(SampleGroup(g, k, sel)[j], name)
  {
    var c := SampleGroup(g, k, sel);
    forall j | 0 <= j < |c|
      ensures HasSubtype(c[j], name)
    {
      var p :| 0 <= p < |g| && g[p] == c[j];
    }
  }

  lemma WellFormedTail(gs: seq<Group>)
    requires WellFormed(gs) && |gs| > 0
    ensures WellFormed(gs[1..])
    ensures forall j :: 0 <= j < |gs| - 1 ==> gs[1..][j].subtype != gs[0].subtype
    ensures forall p :: 0 <= p < |gs[0].rows| ==> HasSubtype(gs[0].rows[p], gs[0].subtype)
  {
    assert forall j :: 0 <= j < |gs| - 1 ==> gs[1..][j] == gs[j + 1];
  }

  /** Samples of groups whose rows all carry other subtypes contribute no row
      of subtype `name`. */
  lemma {:induction false} ExtractedOthers(gs: seq<Group>, k: nat, sel: Selector, name: string)
    requires ValidSelector(sel) && WellFormed(gs)
    requires forall j :: 0 <= j < |gs| ==> gs[j].subtype != name
    ensures SelectSubtype(Extracted(gs, k, sel), name) == []
    decreases |gs|
  {
    if |gs| > 0 {
      var c := SampleGroup(gs[0].rows, k, sel);
      SelectAppend(c, Extracted(gs[1..], k, sel), name);
      WellFormedTail(gs);
      SampleMatches(gs[0].rows, k, sel, gs[0].subtype);
      SelectNone(c, name);
      ExtractedOthers(gs[1..], k, sel, name);
    }
  }

  /** The rows of subtype `gs[i].subtype` in the balanced table are exactly
      that group's sample, in draw order: the samples are laid end to end and
      no other group contributes to it. */
  lemma {:induction false} ExtractedSelect(gs: seq<Group>, k: nat, sel: Selector, i: nat)
    requires ValidSelector(sel) && WellFormed(gs) && i < |gs|
    ensures SelectSubtype(Extracted(gs, k, sel), gs[i].subtype) == SampleGroup(gs[i].rows, k, sel)
    decreases |gs|
  {
    var name := gs[i].subtype;
    var c := SampleGroup(gs[0].rows, k, sel);
    var rest := Extracted(gs[1..], k, sel);
    SelectAppend(c, rest, name);
    WellFormedTail(gs);
    SampleMatches(gs[0].rows, k, sel, gs[0].subtype);
    if i == 0 {
      SelectAll(c, name);
      ExtractedOthers(gs[1..], k, sel, name);
    } else {
      assert gs[0].subtype != name;
      SelectNone(c, name);
      assert gs[1..][i - 1] == gs[i];
      ExtractedSelect(gs[1..], k, sel, i - 1);
    }
  }

  /** `pd.concat` of the per-group samples: it refuses an empty list. */
  datatype Outcome = Concatenated(table: Table) | NoObjectsToConcatenate

  /** `balance_and_extract_samples`: samples every group and concatenates
      the samples in group order. */
  function BalanceAndExtract(gs: seq<Group>, k: nat, sel: Selector): (r: Outcome)
    requires ValidSelector(sel)
    ensures r.NoObjectsToConcatenate? <==> |gs| == 0
    ensures r.Concatenated? ==> |r.table| == ExpectedSize(gs, k)
    ensures r.Concatenated? ==> multiset(r.table) <= AllRows(gs)
    ensures r.Concatenated? && WellFormed(gs) ==> forall i :: 0 <= i < |gs| ==>
      SelectSubtype(r.table, gs[i].subtype) == SampleGroup(gs[i].rows, k, sel)
  {
    if |gs| == 0 then NoObjectsToConcatenate
    else
      var t := Extracted(gs, k, sel);
      assert WellFormed(gs) ==> forall i :: 0 <= i < |gs| ==> SelectSubtype(t, gs[i].subtype) == SampleGroup(gs[i].rows, k, sel) by {
        if WellFormed(gs) {
          forall i | 0 <= i < |gs|
            ensures SelectSubtype(t, gs[i].subtype) == SampleGroup(gs[i].rows, k, sel)
          {
            ExtractedSelect(gs, k, sel, i);
          }
        }
      }
      Concatenated(t)
  }
}
