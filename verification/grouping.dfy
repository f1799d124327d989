/**
 Partition of the metadata table into one group per subtype of interest
 (`filter_by_subtypes`).
 */
module Grouping {
  import opened Strings
  import opened Sequences
  import opened Tables

  /** The subtypes the pipeline extracts, in the order it visits them. */
  const SubtypesOfInterest: seq<string> := ["LumA", "Basal", "Her2"]

  /** One entry of the grouping dictionary: a subtype and its rows. */
  datatype Group = Group(subtype: string, rows: Table)

  /** Group subtypes are pairwise different and every row of a group carries
      that group's subtype once stripped. */
  predicate WellFormed(gs: seq<Group>) {
    && (forall i, j :: 0 <= i < j < |gs| ==> gs[i].subtype != gs[j].subtype)
    && (forall i, k :: 0 <= i < |gs| && 0 <= k < |gs[i].rows| ==> HasSubtype(gs[i].rows[k], gs[i].subtype))
  }

  /** All rows held by the groups, counted with multiplicity. */
  function AllRows(gs: seq<Group>): multiset<Record> {
    if |gs| == 0 then multiset{} else multiset(gs[0].rows) + AllRows(gs[1..])
  }

  /** The filter's characterisation, for every subtype at once. */
  lemma SelectFacts(t: Table)
    ensures forall name, r :: multiset(SelectSubtype(t, name))[r] == if HasSubtype(r, name) then multiset(t)[r] else 0
    ensures forall name :: IsSubsequence(SelectSubtype(t, name), t)
  {
    forall name: string
      ensures forall r :: multiset(SelectSubtype(t, name))[r] == if HasSubtype(r, name) then multiset(t)[r] else 0
      ensures IsSubsequence(SelectSubtype(t, name), t)
    {
      SelectCounts(t, name);
      SelectOrdered(t, name);
    }
  }

  /** The subtype names differ (already in their first letters). */
  lemma SubtypesDistinct()
    ensures Distinct(SubtypesOfInterest)
  {
    assert SubtypesOfInterest[0][0] == 'L';
    assert SubtypesOfInterest[1][0] == 'B';
    assert SubtypesOfInterest[2][0] == 'H';
  }

  /** One group per name, in the order of `names`; each holds the rows of
      `t` whose stripped label is that name, in table order, as often as
      they occur in `t`. A name absent from `t` gets an empty group. */
  function GroupByNames(t: Table, names: seq<string>): (gs: seq<Group>)
    ensures |gs| == |names|
    ensures forall i :: 0 <= i < |gs| ==> gs[i].subtype == names[i]
    ensures forall i, k :: 0 <= i < |gs| && 0 <= k < |gs[i].rows| ==> HasSubtype(gs[i].rows[k], gs[i].subtype)
    ensures forall i, r :: 0 <= i < |gs| ==>
      multiset(gs[i].rows)[r] == if HasSubtype(r, gs[i].subtype) then multiset(t)[r] else 0
    ensures forall i :: 0 <= i < |gs| ==> IsSubsequence(gs[i].rows, t)
  {
    SelectFacts(t);
    seq(|names|, i requires 0 <= i < |names| => Group(names[i], SelectSubtype(t, names[i])))
  }

  /** `filter_by_subtypes`: the grouping for the subtypes of interest. Its
      keys are exactly those subtypes, in their fixed order. */
  function FilterBySubtypes(t: Table): (gs: seq<Group>)
    ensures |gs| == |SubtypesOfInterest|
    ensures forall i :: 0 <= i < |gs| ==> gs[i].subtype == SubtypesOfInterest[i]
    ensures WellFormed(gs)
    ensures forall i, r :: 0 <= i < |gs| ==>
      multiset(gs[i].rows)[r] == if HasSubtype(r, gs[i].subtype) then multiset(t)[r] else 0
    ensures forall i :: 0 <= i < |gs| ==> IsSubsequence(gs[i].rows, t)
  {
    SubtypesDistinct();
    GroupByNames(t, SubtypesOfInterest)
  }

  /** No row is in two groups, and a row whose stripped label is not a
      subtype of interest is in none. */
  lemma GroupsDisjoint(t: Table)
    ensures forall i, j :: 0 <= i < j < |FilterBySubtypes(t)| ==>
      multiset(FilterBySubtypes(t)[i].rows) !! multiset(FilterBySubtypes(t)[j].rows)
    ensures forall r: Record, i :: Trim(r.subtype) !in SubtypesOfInterest && 0 <= i < |FilterBySubtypes(t)| ==>
      r !in FilterBySubtypes(t)[i].rows
  {
    var gs := FilterBySubtypes(t);
    forall i, j | 0 <= i < j < |gs|
      ensures multiset(gs[i].rows) !! multiset(gs[j].rows)
    {
      forall r | r in multiset(gs[i].rows)
        ensures r !in multiset(gs[j].rows)
      {
        assert HasSubtype(r, gs[i].subtype);
      }
    }
  }

  /** Taken together, groups for distinct names hold exactly the rows whose
      stripped label is one of the names, each as often as in the table. */
  lemma {:induction false} GroupsCover(t: Table, names: seq<string>)
    requires Distinct(names)
    ensures forall r :: AllRows(GroupByNames(t, names))[r] == if Trim(r.subtype) in names then multiset(t)[r] else 0
    decreases |names|
  {
    if |names| > 0 {
      var gs := GroupByNames(t, names);
      assert gs[1..] == GroupByNames(t, names[1..]);
      assert Distinct(names[1..]);
      GroupsCover(t, names[1..]);
      forall r
        ensures AllRows(gs)[r] == if Trim(r.subtype) in names then multiset(t)[r] else 0
      {
        assert Trim(r.subtype) in names <==> Trim(r.subtype) == names[0] || Trim(r.subtype) in names[1..];
        if Trim(r.subtype) == names[0] {
          assert Trim(r.subtype) !in names[1..];
        }
      }
    }
  }

  /** The grouping only ever drops rows: it holds every row of a subtype of
      interest as often as the table does, and nothing else. */
  lemma GroupsWithinTable(t: Table)
    ensures forall r :: AllRows(FilterBySubtypes(t))[r] == if Trim(r.subtype) in SubtypesOfInterest then multiset(t)[r] else 0
    ensures AllRows(FilterBySubtypes(t)) <= multiset(t)
  {
    SubtypesDistinct();
    GroupsCover(t, SubtypesOfInterest);
  }
}
