/**
 * The list transformations the page handlers build their new collections
 * with: `filter((_, i) => i !== index)` and `splice(index, 1)` (ExceptIndex),
 * `filter(predicate)` (Filter), and `indexOf` (IndexOf).
 */
module Sequences {

  /** `a` is `b` with some elements deleted: what remains keeps its relative order. */
  predicate IsSubseq<T(==)>(a: seq<T>, b: seq<T>)
    decreases |b|
  {
    a == [] || (b != [] && ((a[0] == b[0] && IsSubseq(a[1..], b[1..])) || IsSubseq(a, b[1..])))
  }

  lemma {:induction false} SubseqRefl<T>(s: seq<T>)
    ensures IsSubseq(s, s)
    decreases |s|
  {
    if s != [] { SubseqRefl(s[1..]); }
  }

  /** A subsequence is no longer than the sequence it comes from. */
  lemma {:induction false} SubseqLength<T>(a: seq<T>, b: seq<T>)
    requires IsSubseq(a, b)
    ensures |a| <= |b|
    decreases |b|
  {
    if a != [] {
      if a[0] == b[0] && IsSubseq(a[1..], b[1..]) {
        SubseqLength(a[1..], b[1..]);
      } else {
        SubseqLength(a, b[1..]);
      }
    }
  }

  /**
   * The sequence without position `i`; an index outside the sequence removes
   * nothing (`filter((_, k) => k !== i)`, and `splice(i, 1)` for `i >= 0`).
   */
  function ExceptIndex<T>(s: seq<T>, i: int): (r: seq<T>)
    ensures 0 <= i < |s| ==> |r| == |s| - 1
    ensures 0 <= i < |s| ==> forall k | 0 <= k < |r| :: r[k] == if k < i then s[k] else s[k + 1]
    ensures !(0 <= i < |s|) ==> r == s
  {
    if 0 <= i < |s| then s[..i] + s[i + 1..] else s
  }

  /** Removing one position keeps the others in their original order. */
  lemma {:induction false} ExceptIndexKeepsOrder<T>(s: seq<T>, i: int)
    ensures IsSubseq(ExceptIndex(s, i), s)
    decreases |s|
  {
    if !(0 <= i < |s|) {
      SubseqRefl(s);
    } else if i == 0 {
      assert ExceptIndex(s, i) == s[1..];
      SubseqRefl(s[1..]);
    } else {
      ExceptIndexKeepsOrder(s[1..], i - 1);
      assert ExceptIndex(s, i)[1..] == ExceptIndex(s[1..], i - 1);
    }
  }

  /** Removing position `i` removes exactly one copy of `s[i]` and nothing else. */
  lemma ExceptIndexMultiset<T>(s: seq<T>, i: int)
    requires 0 <= i < |s|
    ensures multiset(ExceptIndex(s, i)) == multiset(s) - multiset{s[i]}
  {
    assert s == s[..i] + [s[i]] + s[i + 1..];
  }

  /** `s.filter(p)`: the elements that satisfy `p`, in their original order. */
  function Filter<T>(s: seq<T>, p: T -> bool): (r: seq<T>)
    ensures |r| <= |s|
    ensures forall i | 0 <= i < |r| :: r[i] in s && p(r[i])
    ensures forall i | 0 <= i < |s| && p(s[i]) :: s[i] in r
    ensures IsSubseq(r, s)
    decreases |s|
  {
    if s == [] then []
    else if p(s[0]) then [s[0]] + Filter(s[1..], p)
    else Filter(s[1..], p)
  }

  /**
   * Filtering keeps each element as many times as it occurs in `s` when it
   * passes the test, and drops every copy of it when it does not.
   */
  lemma FilterMultiset<T>(s: seq<T>, p: T -> bool)
    ensures multiset(Filter(s, p)) <= multiset(s)
    ensures forall i | 0 <= i < |s| ::
      multiset(Filter(s, p))[s[i]] == if p(s[i]) then multiset(s)[s[i]] else 0
  {
    forall x ensures multiset(Filter(s, p))[x] == if p(x) then multiset(s)[x] else 0 {
      FilterCount(s, p, x);
    }
  }

  /** How many copies of `x` survive filtering: all of them or none. */
  lemma {:induction false} FilterCount<T>(s: seq<T>, p: T -> bool, x: T)
    ensures multiset(Filter(s, p))[x] == if p(x) then multiset(s)[x] else 0
    decreases |s|
  {
    if s != [] {
      var t := s[1..];
      FilterCount(t, p, x);
      assert s == [s[0]] + t;
      assert multiset(s) == multiset([s[0]]) + multiset(t);
      if p(s[0]) {
        assert Filter(s, p) == [s[0]] + Filter(t, p);
      }
    }
  }

  /** When every element satisfies the predicate, filtering keeps the whole sequence. */
  lemma {:induction false} FilterKeepsAll<T>(s: seq<T>, p: T -> bool)
    requires forall x | x in s :: p(x)
    ensures Filter(s, p) == s
    decreases |s|
  {
    if s != [] { FilterKeepsAll(s[1..], p); }
  }

  /**
   * Filtering by a predicate and by its negation splits a sequence in two:
   * the lengths add up and every element lands in exactly one part.
   */
  lemma FilterSplit<T>(s: seq<T>, p: T -> bool, q: T -> bool)
    requires forall x | x in s :: q(x) == !p(x)
    ensures |Filter(s, p)| + |Filter(s, q)| == |s|
    ensures multiset(Filter(s, p)) + multiset(Filter(s, q)) == multiset(s)
  {
    forall x ensures multiset(Filter(s, p))[x] + multiset(Filter(s, q))[x] == multiset(s)[x] {
      FilterCount(s, p, x);
      FilterCount(s, q, x);
    }
    assert multiset(Filter(s, p)) + multiset(Filter(s, q)) == multiset(s);
    assert |multiset(Filter(s, p)) + multiset(Filter(s, q))| == |multiset(s)|;
  }

  /** Every element of a subsequence occurs in the sequence it comes from. */
  lemma {:induction false} SubseqMembers<T>(a: seq<T>, b: seq<T>)
    requires IsSubseq(a, b)
    ensures forall i | 0 <= i < |a| :: a[i] in b
    decreases |b|
  {
    if a != [] {
      if a[0] == b[0] && IsSubseq(a[1..], b[1..]) {
        SubseqMembers(a[1..], b[1..]);
        forall i | 0 <= i < |a| ensures a[i] in b {
          if i > 0 { assert a[i] == a[1..][i - 1]; }
        }
      } else {
        SubseqMembers(a, b[1..]);
      }
    }
  }

  /** Two tests that agree on every element select the same elements. */
  lemma {:induction false} FilterCongruent<T>(s: seq<T>, p: T -> bool, q: T -> bool)
    requires forall x | x in s :: p(x) == q(x)
    ensures Filter(s, p) == Filter(s, q)
    decreases |s|
  {
    if s != [] { FilterCongruent(s[1..], p, q); }
  }

  /** Filtering by `p` and then by `q` is filtering once by their conjunction. */
  lemma {:induction false} FilterCompose<T>(s: seq<T>, p: T -> bool, q: T -> bool, pq: T -> bool)
    requires forall x | x in s :: pq(x) == (p(x) && q(x))
    ensures Filter(Filter(s, p), q) == Filter(s, pq)
    decreases |s|
  {
    if s != [] {
      FilterCompose(s[1..], p, q, pq);
      if p(s[0]) {
        var t := Filter(s, p);
        assert t == [s[0]] + Filter(s[1..], p);
        assert t[0] == s[0] && t[1..] == Filter(s[1..], p);
      }
    }
  }

  /**
   * The position in `s` of the element shown at `row` of `Filter(s, p)`:
   * the `row`-th element of `s` (counting from 0) that satisfies `p`.
   */
  function SourceIndex<T>(s: seq<T>, p: T -> bool, row: nat): (k: nat)
    requires row < |Filter(s, p)|
    ensures k < |s| && p(s[k])
    ensures s[k] == Filter(s, p)[row]
    ensures |Filter(s[..k], p)| == row
    decreases |s|
  {
    assert s[..0] == [];
    if p(s[0]) && row == 0 then 0
    else
      var k := 1 + SourceIndex(s[1..], p, if p(s[0]) then row - 1 else row);
      FilterPrefixStep(s, p, k);
      k
  }

  /** Filtering a non-empty prefix: its head counts once if it passes, then the rest of the prefix. */
  lemma FilterPrefixStep<T>(s: seq<T>, p: T -> bool, k: nat)
    requires 1 <= k <= |s|
    ensures |Filter(s[..k], p)| == (if p(s[0]) then 1 else 0) + |Filter(s[1..][..k - 1], p)|
  {
    var a := s[..k];
    assert a[0] == s[0] && a[1..] == s[1..][..k - 1];
  }

  /** `s.indexOf(x)`: the first position holding `x`, or -1. */
  function IndexOf<T(==)>(s: seq<T>, x: T): (k: int)
    ensures x in s ==> 0 <= k < |s| && s[k] == x && x !in s[..k]
    ensures x !in s ==> k == -1
    decreases |s|
  {
    if s == [] then -1
    else if s[0] == x then 0
    else
      var k := IndexOf(s[1..], x);
      if k == -1 then -1
      else
        assert s[..k + 1] == [s[0]] + s[1..][..k];
        k + 1
  }
}
