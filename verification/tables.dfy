/**
 The metadata table and the one query the pipeline makes of it: the rows
 whose subtype label, stripped of surrounding whitespace, equals a given
 label (the boolean-mask filter `data[data[col].str.strip() == label]`).
 */
module Tables {
  import opened Strings
  import opened Sequences

  /** One sample row: its identifier, its raw subtype label as stored in the
      file, and the remaining columns, carried through untouched. */
  datatype Record = Record(sampleId: string, subtype: string, features: seq<(string, string)>)

  /** Rows in file order; a row's identity is its position. */
  type Table = seq<Record>

  /** The row's label matches `name` after stripping, case-sensitively. */
  predicate HasSubtype(r: Record, name: string) {
    Trim(r.subtype) == name
  }

  /** The rows whose stripped label is `name`, in table order. */
  function SelectSubtype(t: Table, name: string): (g: Table)
    ensures |g| <= |t|
    ensures forall i :: 0 <= i < |g| ==> HasSubtype(g[i], name)
  {
    if |t| == 0 then []
    else (if HasSubtype(t[0], name) then [t[0]] else []) + SelectSubtype(t[1..], name)
  }

  /** Every matching row is kept as often as it occurs in the table, and no
      other row is kept. */
  lemma {:induction false} SelectCounts(t: Table, name: string)
    ensures forall r :: multiset(SelectSubtype(t, name))[r] == if HasSubtype(r, name) then multiset(t)[r] else 0
    decreases |t|
  {
    if |t| > 0 {
      assert t == [t[0]] + t[1..];
      SelectCounts(t[1..], name);
    }
  }

  /** The kept rows appear in the same relative order as in the table. */
  lemma {:induction false} SelectOrdered(t: Table, name: string)
    ensures IsSubsequence(SelectSubtype(t, name), t)
    decreases |t|
  {
    if |t| > 0 {
      SelectOrdered(t[1..], name);
      var g := SelectSubtype(t, name);
      var g' := SelectSubtype(t[1..], name);
      if HasSubtype(t[0], name) {
        assert g == [t[0]] + g';
        assert g[1..] == g';
      } else {
        assert g == g';
      }
    }
  }

  /** The filter is the only order-preserving subsequence of the table that
      holds exactly the matching rows: `SelectCounts` and `SelectOrdered`
      together pin it down. */
  lemma {:induction false} SelectUnique(t: Table, name: string, g: Table)
    requires IsSubsequence(g, t)
    requires forall r :: multiset(g)[r] == if HasSubtype(r, name) then multiset(t)[r] else 0
    ensures g == SelectSubtype(t, name)
    decreases |t|
  {
    if |t| == 0 {
      assert |multiset(g)| == 0;
    } else {
      var x := t[0];
      var t' := t[1..];
      assert t == [x] + t';
      assert multiset(t) == multiset{x} + multiset(t');
      if HasSubtype(x, name) {
        assert multiset(g)[x] == multiset(t)[x];
        assert g == [g[0]] + g[1..];
        assert multiset(g) == multiset{g[0]} + multiset(g[1..]);
        SubsequenceBound(g, t');
        assert g[0] == x && IsSubsequence(g[1..], t');
        SelectUnique(t', name, g[1..]);
      } else {
        assert multiset(g)[x] == 0;
        if |g| > 0 {
          assert g[0] in multiset(g);
        }
        assert IsSubsequence(g, t');
        SelectUnique(t', name, g);
      }
    }
  }

  /** Filtering a concatenation filters each part. */
  lemma {:induction false} SelectAppend(a: Table, b: Table, name: string)
    ensures SelectSubtype(a + b, name) == SelectSubtype(a, name) + SelectSubtype(b, name)
    decreases |a|
  {
    if |a| > 0 {
      assert (a + b)[0] == a[0];
      assert (a + b)[1..] == a[1..] + b;
      SelectAppend(a[1..], b, name);
    } else {
      assert a + b == b;
    }
  }

  /** A table all of whose rows match is kept whole. */
  lemma {:induction false} SelectAll(t: Table, name: string)
    requires forall i :: 0 <= i < |t| ==> HasSubtype(t[i], name)
    ensures SelectSubtype(t, name) == t
    decreases |t|
  {
    if |t| > 0 {
      SelectAll(t[1..], name);
    }
  }

  /** A table none of whose rows match yields nothing: an absent label gives
      an empty group, not an error. */
  lemma {:induction false} SelectNone(t: Table, name: string)
    requires forall i :: 0 <= i < |t| ==> !HasSubtype(t[i], name)
    ensures SelectSubtype(t, name) == []
    decreases |t|
  {
    if |t| > 0 {
      SelectNone(t[1..], name);
    }
  }
}
