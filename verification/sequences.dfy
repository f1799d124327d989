/**
 Sequence notions the table operations are stated in: order-preserving
 subsequences, and draws of distinct positions.
 */
module Sequences {

  /** `a` can be obtained from `b` by deleting elements, keeping the order
      of the rest. */
  predicate IsSubsequence<T(==)>(a: seq<T>, b: seq<T>)
    decreases |b|
  {
    if |a| == 0 then true
    else if |b| == 0 then false
    else (a[0] == b[0] && IsSubsequence(a[1..], b[1..])) || IsSubsequence(a, b[1..])
  }

  /** Deleting elements never adds occurrences of any value. */
  lemma {:induction false} SubsequenceSubMultiset<T>(a: seq<T>, b: seq<T>)
    requires IsSubsequence(a, b)
    ensures multiset(a) <= multiset(b)
    decreases |b|
  {
    if |a| > 0 {
      assert b == [b[0]] + b[1..];
      if a[0] == b[0] && IsSubsequence(a[1..], b[1..]) {
        assert a == [a[0]] + a[1..];
        SubsequenceSubMultiset(a[1..], b[1..]);
      } else {
        SubsequenceSubMultiset(a, b[1..]);
      }
    }
  }

  /** `SubsequenceSubMultiset`, stated so that it can also rule a
      subsequence out. */
  lemma SubsequenceBound<T>(a: seq<T>, b: seq<T>)
    ensures IsSubsequence(a, b) ==> multiset(a) <= multiset(b)
  {
    if IsSubsequence(a, b) {
      SubsequenceSubMultiset(a, b);
    }
  }

  predicate Distinct<T(==)>(s: seq<T>) {
    forall i, j :: 0 <= i < j < |s| ==> s[i] != s[j]
  }

  predicate Below(d: seq<nat>, n: nat) {
    forall i :: 0 <= i < |d| ==> d[i] < n
  }

  /** `d` names `k` different positions of a sequence of length `n`: the
      shape of a draw of `k` rows without replacement. */
  predicate IsDraw(d: seq<nat>, n: nat, k: nat) {
    |d| == k && Distinct(d) && Below(d, n)
  }

  /** The elements of `s` at positions `d`, in the order `d` lists them. */
  function Pick<T>(s: seq<T>, d: seq<nat>): seq<T>
    requires Below(d, |s|)
  {
    seq(|d|, i requires 0 <= i < |d| => s[d[i]])
  }

  lemma PickAppend<T>(s: seq<T>, d: seq<nat>, e: seq<nat>)
    requires Below(d, |s|) && Below(e, |s|)
    ensures Pick(s, d + e) == Pick(s, d) + Pick(s, e)
  {
  }

  /** Picking from a longer sequence at positions of its prefix is picking
      from the prefix. */
  lemma PickExtend<T>(s: seq<T>, x: T, d: seq<nat>)
    requires Below(d, |s|)
    ensures Pick(s + [x], d) == Pick(s, d)
  {
  }

  /** Removing one position from a draw takes exactly its element out of
      the picked multiset. */
  lemma PickRemove<T>(s: seq<T>, d: seq<nat>, p: nat)
    requires Below(d, |s|) && p < |d|
    ensures multiset(Pick(s, d)) == multiset(Pick(s, d[..p] + d[p + 1..])) + multiset{s[d[p]]}
  {
    assert d == d[..p] + [d[p]] + d[p + 1..];
    PickAppend(s, d[..p] + [d[p]], d[p + 1..]);
    PickAppend(s, d[..p], [d[p]]);
    PickAppend(s, d[..p], d[p + 1..]);
  }

  /** Without its one occurrence of the last position `n`, a draw below
      `n + 1` is a draw below `n`. */
  lemma DropLast(d: seq<nat>, p: nat, n: nat)
    requires Below(d, n + 1) && Distinct(d) && p < |d| && d[p] == n
    ensures Below(d[..p] + d[p + 1..], n) && Distinct(d[..p] + d[p + 1..])
  {
    var d' := d[..p] + d[p + 1..];
    forall i | 0 <= i < |d'|
      ensures d'[i] == d[if i < p then i else i + 1]
    {
    }
  }

  /** Picking distinct positions uses every element of `s` at most as often
      as it occurs there. */
  lemma {:induction false} PickSubMultiset<T>(s: seq<T>, d: seq<nat>)
    requires Below(d, |s|) && Distinct(d)
    ensures multiset(Pick(s, d)) <= multiset(s)
    decreases |s|
  {
    if |s| > 0 {
      var n := |s| - 1;
      var s' := s[..n];
      assert s == s' + [s[n]];
      if p :| 0 <= p < |d| && d[p] == n {
        var d' := d[..p] + d[p + 1..];
        DropLast(d, p, n);
        PickRemove(s, d, p);
        PickExtend(s', s[n], d');
        PickSubMultiset(s', d');
      } else {
        assert Below(d, n);
        PickExtend(s', s[n], d);
        PickSubMultiset(s', d);
      }
    }
  }

  /** A sub-multiset of the same size is the whole multiset. */
  lemma SubMultisetSameSize<T>(a: seq<T>, b: seq<T>)
    requires multiset(a) <= multiset(b) && |a| == |b|
    ensures multiset(a) == multiset(b)
  {
    var rest := multiset(b) - multiset(a);
    assert multiset(b) == multiset(a) + rest;
    assert |multiset(b)| == |multiset(a)| + |rest|;
    assert |rest| == 0;
  }
}
