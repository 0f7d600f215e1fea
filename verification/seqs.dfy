/**
 * Sequence helpers that stand for the Python list idioms the draft logic
 * uses: slicing `s[:n]`, list comprehensions with an `if` filter, and
 * `list(reversed(s))`.
 */
module Seqs {

  /** `s[:n]` for a non-negative `n`: the first `n` items, or all of `s` when it is shorter. */
  function Take<T>(s: seq<T>, n: nat): (r: seq<T>)
    ensures |r| == if n < |s| then n else |s|
    ensures r == s[..|r|]
  {
    if n < |s| then s[..n] else s
  }

  /** Taking a prefix never adds an occurrence of anything. */
  lemma TakeMultiset<T>(s: seq<T>, n: nat)
    ensures multiset(Take(s, n)) <= multiset(s)
  {
    var k := |Take(s, n)|;
    assert s == s[..k] + s[k..];
  }

  /** `[x for x in s if keep(x)]`: the items of `s` that `keep` accepts, in the order of `s`. */
  function Filter<T>(s: seq<T>, keep: T -> bool): (r: seq<T>)
    ensures |r| <= |s|
  {
    if s == [] then []
    else Filter(s[..|s| - 1], keep) + (if keep(s[|s| - 1]) then [s[|s| - 1]] else [])
  }

  /** Every item a filter keeps is accepted by it. */
  lemma {:induction false} FilterAccepted<T>(s: seq<T>, keep: T -> bool)
    ensures forall i :: 0 <= i < |Filter(s, keep)| ==> keep(Filter(s, keep)[i])
  {
    if s != [] {
      var init, last := s[..|s| - 1], s[|s| - 1];
      FilterAccepted(init, keep);
      var r0, r := Filter(init, keep), Filter(s, keep);
      assert r == r0 + (if keep(last) then [last] else []);
      forall i | 0 <= i < |r| ensures keep(r[i]) {
        if i < |r0| {
          assert r[i] == r0[i];
        }
      }
    }
  }

  lemma FilterSnoc<T>(s: seq<T>, x: T, keep: T -> bool)
    ensures Filter(s + [x], keep) == Filter(s, keep) + (if keep(x) then [x] else [])
  {
    assert (s + [x])[..|s|] == s;
  }

  /** Filtering keeps every occurrence of an accepted item and drops every occurrence of a rejected one. */
  lemma {:induction false} FilterCount<T>(s: seq<T>, keep: T -> bool, x: T)
    ensures multiset(Filter(s, keep))[x] == if keep(x) then multiset(s)[x] else 0
  {
    if s != [] {
      var init, last := s[..|s| - 1], s[|s| - 1];
      assert s == init + [last];
      FilterCount(init, keep, x);
    }
  }

  /** Filtering distributes over concatenation, so it keeps the relative order of the items it keeps. */
  lemma {:induction false} FilterAppend<T>(a: seq<T>, b: seq<T>, keep: T -> bool)
    ensures Filter(a + b, keep) == Filter(a, keep) + Filter(b, keep)
  {
    if b == [] {
      assert a + b == a;
    } else {
      var init, last := b[..|b| - 1], b[|b| - 1];
      assert (a + b)[..|a + b| - 1] == a + init;
      FilterAppend(a, init, keep);
    }
  }

  /** A sequence whose items all pass the filter is left as it is. */
  lemma {:induction false} FilterAll<T>(s: seq<T>, keep: T -> bool)
    requires forall i :: 0 <= i < |s| ==> keep(s[i])
    ensures Filter(s, keep) == s
  {
    if s != [] {
      var init := s[..|s| - 1];
      FilterAll(init, keep);
      assert s == init + [s[|s| - 1]];
    }
  }

  /** A sequence none of whose items pass the filter filters to nothing. */
  lemma {:induction false} FilterNone<T>(s: seq<T>, keep: T -> bool)
    requires forall i :: 0 <= i < |s| ==> !keep(s[i])
    ensures Filter(s, keep) == []
  {
    if s != [] {
      FilterNone(s[..|s| - 1], keep);
    }
  }

  /** `list(reversed(s))`. */
  function Reversed<T>(s: seq<T>): (r: seq<T>)
    ensures |r| == |s|
    ensures forall i :: 0 <= i < |s| ==> r[i] == s[|s| - 1 - i]
  {
    seq(|s|, i requires 0 <= i < |s| => s[|s| - 1 - i])
  }

  /** The items of the sequences of `ss`, one sequence after another. */
  function Flatten<T>(ss: seq<seq<T>>): seq<T>
  {
    if ss == [] then [] else Flatten(ss[..|ss| - 1]) + ss[|ss| - 1]
  }

  /** Flattening in two halves and joining the results is flattening the whole. */
  lemma {:induction false} FlattenSplit<T>(ss: seq<seq<T>>, k: nat)
    requires k <= |ss|
    ensures Flatten(ss) == Flatten(ss[..k]) + Flatten(ss[k..])
  {
    if k == |ss| {
      assert ss[..k] == ss && ss[k..] == [];
    } else {
      var n := |ss|;
      var init := ss[..n - 1];
      FlattenSplit(init, k);
      assert init[..k] == ss[..k];
      assert ss[k..][..n - 1 - k] == init[k..];
    }
  }
}
