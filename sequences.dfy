/**
 * Kotlin's `List.filter`, and what it means for the result to be an
 * order-preserving selection from the input.
 */
module Sequences {

  /** Kotlin `filter`: the elements of `s` that satisfy `keep`, in order. */
  function Filter<T>(s: seq<T>, keep: T -> bool): (r: seq<T>)
    ensures |r| <= |s|
    ensures forall i :: 0 <= i < |r| ==> r[i] in s && keep(r[i])
    ensures forall i :: 0 <= i < |s| && keep(s[i]) ==> s[i] in r
  {
    if s == [] then []
    else (if keep(s[0]) then [s[0]] else []) + Filter(s[1..], keep)
  }

  /** `ks` is strictly increasing. */
  ghost predicate Increasing(ks: seq<nat>) {
    forall i, j :: 0 <= i < j < |ks| ==> ks[i] < ks[j]
  }

  /** The positions `i` in `from..|s|` with `keep(s[i])`, in increasing order. */
  function KeptFrom<T>(s: seq<T>, keep: T -> bool, from: nat): (ks: seq<nat>)
    ensures forall i :: 0 <= i < |ks| ==> from <= ks[i] < |s| && keep(s[ks[i]])
    ensures forall i, j :: 0 <= i < j < |ks| ==> ks[i] < ks[j]
    ensures forall k :: from <= k < |s| && keep(s[k]) ==> k in ks
    decreases |s| - from
  {
    if from >= |s| then []
    else (if keep(s[from]) then [from] else []) + KeptFrom(s, keep, from + 1)
  }

  /** The positions of `s` whose element satisfies `keep`, in increasing order. */
  function KeptIndices<T>(s: seq<T>, keep: T -> bool): (ks: seq<nat>)
    ensures Increasing(ks)
    ensures forall i :: 0 <= i < |ks| ==> ks[i] < |s|
    ensures forall k :: 0 <= k < |s| ==> (k in ks <==> keep(s[k]))
  {
    KeptFrom(s, keep, 0)
  }

  /** `r` is the subsequence of `s` taken at the strictly increasing
      positions `ks`: nothing added, nothing re-ordered. */
  ghost predicate SelectsAt<T>(r: seq<T>, s: seq<T>, ks: seq<nat>) {
    && |ks| == |r|
    && (forall i :: 0 <= i < |ks| ==> ks[i] < |s| && r[i] == s[ks[i]])
    && Increasing(ks)
  }

  /** Putting a selected element in front of a selection from later positions. */
  lemma SelectsAtCons<T>(r: seq<T>, s: seq<T>, ks: seq<nat>, k: nat)
    requires SelectsAt(r, s, ks) && k < |s|
    requires forall i :: 0 <= i < |ks| ==> k < ks[i]
    ensures SelectsAt([s[k]] + r, s, [k] + ks)
  {
    var r', ks' := [s[k]] + r, [k] + ks;
    forall i | 0 <= i < |ks'| ensures ks'[i] < |s| && r'[i] == s[ks'[i]] {
      if i > 0 { assert ks'[i] == ks[i - 1] && r'[i] == r[i - 1]; }
    }
    forall i, j | 0 <= i < j < |ks'| ensures ks'[i] < ks'[j] {
      assert ks'[j] == ks[j - 1];
      if i > 0 { assert ks'[i] == ks[i - 1]; }
    }
  }

  lemma {:induction false} FilterFromSelects<T>(s: seq<T>, keep: T -> bool, from: nat)
    requires from <= |s|
    ensures SelectsAt(Filter(s[from..], keep), s, KeptFrom(s, keep, from))
    decreases |s| - from
  {
    if from < |s| {
      FilterFromSelects(s, keep, from + 1);
      var t := s[from..];
      assert t[0] == s[from] && t[1..] == s[from + 1..];
      var r, ks := Filter(s[from + 1..], keep), KeptFrom(s, keep, from + 1);
      if keep(s[from]) {
        assert Filter(t, keep) == [s[from]] + r;
        assert KeptFrom(s, keep, from) == [from] + ks;
        SelectsAtCons(r, s, ks, from);
      } else {
        assert Filter(t, keep) == r;
        assert KeptFrom(s, keep, from) == ks;
      }
    } else {
      assert s[from..] == [];
    }
  }

  /** `filter` keeps exactly the satisfying positions, in their original order. */
  lemma FilterSelects<T>(s: seq<T>, keep: T -> bool)
    ensures SelectsAt(Filter(s, keep), s, KeptIndices(s, keep))
  {
    FilterFromSelects(s, keep, 0);
    assert s[0..] == s;
  }

  /** Filtering by a predicate every element satisfies changes nothing. */
  lemma {:induction false} FilterAll<T>(s: seq<T>, keep: T -> bool)
    requires forall x :: x in s ==> keep(x)
    ensures Filter(s, keep) == s
  {
    if s != [] {
      assert s[0] in s;
      FilterAll(s[1..], keep);
      assert [s[0]] + s[1..] == s;
    }
  }

  /** Only what the predicate says about the elements of `s` matters. */
  lemma {:induction false} FilterCongruent<T>(s: seq<T>, p: T -> bool, q: T -> bool)
    requires forall x :: x in s ==> p(x) == q(x)
    ensures Filter(s, p) == Filter(s, q)
  {
    if s != [] {
      assert s[0] in s;
      FilterCongruent(s[1..], p, q);
    }
  }

  /** Two filters in a row are one filter by the conjunction. */
  lemma {:induction false} FilterFilter<T>(s: seq<T>, p: T -> bool, q: T -> bool, both: T -> bool)
    requires forall x :: both(x) == (p(x) && q(x))
    ensures Filter(Filter(s, p), q) == Filter(s, both)
  {
    if s != [] {
      FilterFilter(s[1..], p, q, both);
      var rest := Filter(s[1..], p);
      if p(s[0]) {
        assert Filter(s, p) == [s[0]] + rest;
        assert ([s[0]] + rest)[0] == s[0] && ([s[0]] + rest)[1..] == rest;
      } else {
        assert Filter(s, p) == rest;
      }
    }
  }

  /** A strictly increasing sequence is determined by its set of elements. */
  lemma {:induction false} IncreasingDeterminedByElements(a: seq<nat>, b: seq<nat>)
    requires Increasing(a) && Increasing(b)
    requires forall k :: k in a <==> k in b
    ensures a == b
  {
    if a != [] { assert a[0] in b; }
    if b != [] { assert b[0] in a; }
    if a != [] {
      assert a[0] == b[0];
      forall k ensures k in a[1..] <==> k in b[1..] {
        if k in a[1..] { assert k in a && k != a[0]; }
        if k in b[1..] { assert k in b && k != b[0]; }
      }
      IncreasingDeterminedByElements(a[1..], b[1..]);
      assert a == [a[0]] + a[1..] && b == [b[0]] + b[1..];
    }
  }

}
