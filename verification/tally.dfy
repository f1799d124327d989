/**
 The balance check (`validate_extraction_balance`): a tally of the raw
 subtype labels of a table, as `value_counts().to_dict()` produces it.
 */
module Tally {
  import opened Tables

  /** The label column, unstripped. */
  function Labels(t: Table): seq<string> {
    seq(|t|, i requires 0 <= i < |t| => t[i].subtype)
  }

  /** One entry per distinct value of `ls`, mapped to the number of times
      it occurs there. */
  function CountValues(ls: seq<string>): (m: map<string, nat>)
    ensures forall l :: l in m <==> l in ls
    ensures forall l :: l in m ==> m[l] == multiset(ls)[l]
  {
    if |ls| == 0 then map[]
    else
      var n := |ls| - 1;
      assert ls == ls[..n] + [ls[n]];
      var m := CountValues(ls[..n]);
      m[ls[n] := if ls[n] in m then m[ls[n]] + 1 else 1]
  }

  /** `value_counts().to_dict()` on the label column: one entry per distinct
      raw label present, mapped to the number of rows carrying it. Labels
      are counted as stored, without stripping whitespace. */
  function ValueCounts(t: Table): (m: map<string, nat>)
    ensures forall l :: l in m <==> exists i :: 0 <= i < |t| && t[i].subtype == l
    ensures forall l :: l in m ==> m[l] == multiset(Labels(t))[l]
  {
    var ls := Labels(t);
    assert forall i :: 0 <= i < |t| ==> ls[i] == t[i].subtype;
    CountValues(ls)
  }

  /** Some key of a non-empty tally. */
  ghost function AnyKey(m: map<string, nat>): (l: string)
    requires |m| > 0
    ensures l in m
  {
    var l :| l in m; l
  }

  /** The sum of the counts of a tally. */
  ghost function Total(m: map<string, nat>): nat
    decreases |m|
  {
    if |m| == 0 then 0
    else
      var l := AnyKey(m);
      assert (m - {l}).Keys == m.Keys - {l};
      m[l] + Total(m - {l})
  }

  /** `Total` does not depend on which key it takes out first. */
  lemma {:induction false} TotalRemove(m: map<string, nat>, l: string)
    requires l in m
    ensures Total(m) == m[l] + Total(m - {l})
    decreases |m|
  {
    assert l in m.Keys;
    var x := AnyKey(m);
    if x != l {
      var mx := m - {x};
      var ml := m - {l};
      assert mx.Keys == m.Keys - {x};
      assert ml.Keys == m.Keys - {l};
      assert |mx| < |m| && |ml| < |m|;
      assert l in mx && mx[l] == m[l];
      assert x in ml && ml[x] == m[x];
      TotalRemove(mx, l);
      TotalRemove(ml, x);
      assert mx - {l} == ml - {x};
    }
  }

  /** Counting one more occurrence of `l` adds one to the total. */
  lemma TotalIncrement(m: map<string, nat>, l: string)
    ensures Total(m[l := if l in m then m[l] + 1 else 1]) == Total(m) + 1
  {
    var m1 := m[l := if l in m then m[l] + 1 else 1];
    TotalRemove(m1, l);
    if l in m {
      TotalRemove(m, l);
      assert m1 - {l} == m - {l};
    } else {
      assert m1 - {l} == m;
    }
  }

  /** The counts add up to the number of values counted. */
  lemma {:induction false} CountsSumToLength(ls: seq<string>)
    ensures Total(CountValues(ls)) == |ls|
    decreases |ls|
  {
    if |ls| > 0 {
      var n := |ls| - 1;
      CountsSumToLength(ls[..n]);
      TotalIncrement(CountValues(ls[..n]), ls[n]);
    }
  }

  /** The tally of a table has one count per row. */
  lemma ValueCountsTotal(t: Table)
    ensures Total(ValueCounts(t)) == |t|
  {
    CountsSumToLength(Labels(t));
  }
}
