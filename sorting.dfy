/**
 * `list.sort((a, b) => (b.uploadedAtTs || 0) - (a.uploadedAtTs || 0))`: the
 * newest-first order of the books and notes lists. JavaScript's sort is
 * stable; it is modelled by an insertion sort, which is stable too.
 */
module Sorting {
  import opened Wrappers
  import opened Records
  import opened Sequences

  /** The sort key; a record without a timestamp counts as 0. */
  function Ts(u: Upload): int {
    u.uploadedAtTs.GetOr(0)
  }

  /** Non-increasing by timestamp. */
  predicate NewestFirst(s: seq<Upload>) {
    forall i, j | 0 <= i < j < |s| :: Ts(s[i]) >= Ts(s[j])
  }

  /** `u` placed before the first element that is not newer than it. */
  function Insert(u: Upload, s: seq<Upload>): (r: seq<Upload>)
    requires NewestFirst(s)
    ensures NewestFirst(r)
    ensures multiset(r) == multiset(s) + multiset{u}
    ensures |r| == |s| + 1
    decreases |s|
  {
    if s == [] || Ts(u) >= Ts(s[0]) then [u] + s
    else
      var t := Insert(u, s[1..]);
      assert s == [s[0]] + s[1..];
      PrependNewest(s[0], t, u, s[1..]);
      [s[0]] + t
  }

  /** Prepending an element at least as new as everything in `t` keeps `t` newest first. */
  lemma PrependNewest(x: Upload, t: seq<Upload>, u: Upload, rest: seq<Upload>)
    requires NewestFirst(t) && multiset(t) == multiset(rest) + multiset{u}
    requires Ts(u) < Ts(x)
    requires forall y | y in rest :: Ts(x) >= Ts(y)
    ensures NewestFirst([x] + t)
  {
    forall j | 0 <= j < |t| ensures Ts(x) >= Ts(t[j]) {
      assert t[j] in multiset(t);
    }
  }

  /** The list a page shows after loading: a newest-first permutation of what was stored. */
  function SortNewestFirst(s: seq<Upload>): (r: seq<Upload>)
    ensures NewestFirst(r)
    ensures multiset(r) == multiset(s)
    ensures |r| == |s|
    decreases |s|
  {
    if s == [] then []
    else
      assert s == [s[0]] + s[1..];
      Insert(s[0], SortNewestFirst(s[1..]))
  }

  /** A list that is already newest first is loaded unchanged. */
  lemma {:induction false} SortKeepsSorted(s: seq<Upload>)
    requires NewestFirst(s)
    ensures SortNewestFirst(s) == s
    decreases |s|
  {
    if s != [] {
      SortKeepsSorted(s[1..]);
      if |s| > 1 {
        assert Ts(s[0]) >= Ts(s[1]);
      }
    }
  }

  /** Sorting twice is sorting once, so reloading a sorted list does not reorder it. */
  lemma SortIdempotent(s: seq<Upload>)
    ensures SortNewestFirst(SortNewestFirst(s)) == SortNewestFirst(s)
  {
    SortKeepsSorted(SortNewestFirst(s));
  }

  /** Dropping elements from a newest-first list leaves it newest-first. */
  lemma {:induction false} SubseqKeepsNewestFirst(a: seq<Upload>, b: seq<Upload>)
    requires IsSubseq(a, b) && NewestFirst(b)
    ensures NewestFirst(a)
    decreases |b|
  {
    if a != [] {
      if a[0] == b[0] && IsSubseq(a[1..], b[1..]) {
        SubseqKeepsNewestFirst(a[1..], b[1..]);
        SubseqMembers(a[1..], b[1..]);
        forall j | 1 <= j < |a| ensures Ts(a[0]) >= Ts(a[j]) {
          assert a[j] == a[1..][j - 1];
          var k :| 0 <= k < |b[1..]| && b[1..][k] == a[j];
          assert b[k + 1] == a[j];
        }
        forall i, j | 0 <= i < j < |a| ensures Ts(a[i]) >= Ts(a[j]) {
          if i > 0 { assert a[i] == a[1..][i - 1] && a[j] == a[1..][j - 1]; }
        }
      } else {
        SubseqKeepsNewestFirst(a, b[1..]);
      }
    }
  }
}
