/**
 * Python's ordering of `str` values (lexicographic by code point, a proper prefix first)
 * and `sorted` on a list of strings.
 */
module Sorting {

  /** `a < b` on Python strings. */
  predicate StrLess(a: string, b: string)
  {
    if a == [] then b != []
    else b != [] && (a[0] < b[0] || (a[0] == b[0] && StrLess(a[1..], b[1..])))
  }

  predicate StrLe(a: string, b: string)
  {
    a == b || StrLess(a, b)
  }

  lemma {:induction false} StrLessIrreflexive(a: string)
    ensures !StrLess(a, a)
  {
    if a != [] {
      StrLessIrreflexive(a[1..]);
    }
  }

  lemma {:induction false} StrLessTransitive(a: string, b: string, c: string)
    requires StrLess(a, b) && StrLess(b, c)
    ensures StrLess(a, c)
  {
    if a != [] && a[0] == b[0] && b[0] == c[0] {
      StrLessTransitive(a[1..], b[1..], c[1..]);
    }
  }

  lemma {:induction false} StrLessTotal(a: string, b: string)
    ensures a == b || StrLess(a, b) || StrLess(b, a)
  {
    if a != [] && b != [] && a[0] == b[0] {
      StrLessTotal(a[1..], b[1..]);
      if a[1..] == b[1..] {
        assert a == [a[0]] + a[1..] && b == [b[0]] + b[1..];
      }
    }
  }

  lemma StrLeTransitive(a: string, b: string, c: string)
    requires StrLe(a, b) && StrLe(b, c)
    ensures StrLe(a, c)
  {
    if a != b && b != c {
      StrLessTransitive(a, b, c);
    }
  }

  predicate Sorted(xs: seq<string>)
  {
    forall i, j :: 0 <= i < j < |xs| ==> StrLe(xs[i], xs[j])
  }

  /** `x` inserted into a sorted list in front of the first element not below it. */
  function Insert(x: string, xs: seq<string>): (r: seq<string>)
    requires Sorted(xs)
    ensures Sorted(r) && multiset(r) == multiset(xs) + multiset{x}
    decreases |xs|
  {
    if xs == [] then [x]
    else if StrLe(x, xs[0]) then
      InsertFront(x, xs);
      [x] + xs
    else
      var rest := Insert(x, xs[1..]);
      StrLessTotal(x, xs[0]);
      InsertBehind(xs[0], rest, xs[1..], x);
      assert xs == [xs[0]] + xs[1..];
      [xs[0]] + rest
  }

  lemma InsertFront(x: string, xs: seq<string>)
    requires Sorted(xs) && xs != [] && StrLe(x, xs[0])
    ensures Sorted([x] + xs)
  {
    var r := [x] + xs;
    forall i, j | 0 <= i < j < |r|
      ensures StrLe(r[i], r[j])
    {
      if i == 0 {
        StrLeTransitive(x, xs[0], xs[j - 1]);
      } else {
        assert r[i] == xs[i - 1] && r[j] == xs[j - 1];
      }
    }
  }

  /** The head stays in front: every element of the sorted tail is one of the old tail's or
      `x`, all of which lie above the head. */
  lemma InsertBehind(h: string, rest: seq<string>, tail: seq<string>, x: string)
    requires Sorted(rest) && Sorted([h] + tail)
    requires multiset(rest) == multiset(tail) + multiset{x}
    requires StrLe(h, x)
    ensures Sorted([h] + rest)
  {
    forall j | 0 <= j < |rest|
      ensures StrLe(h, rest[j])
    {
      assert rest[j] in multiset(rest);
      if rest[j] != x {
        assert rest[j] in multiset(tail);
        var k :| 0 <= k < |tail| && tail[k] == rest[j];
        assert ([h] + tail)[0] == h && ([h] + tail)[k + 1] == tail[k];
      }
    }
    var r := [h] + rest;
    forall i, j | 0 <= i < j < |r|
      ensures StrLe(r[i], r[j])
    {
      if i == 0 {
        assert r[j] == rest[j - 1];
      } else {
        assert r[i] == rest[i - 1] && r[j] == rest[j - 1];
      }
    }
  }

  /** `sorted(xs)`: an insertion sort, which yields ascending order and the same
      elements. */
  function Sort(xs: seq<string>): (r: seq<string>)
    ensures Sorted(r) && multiset(r) == multiset(xs)
  {
    if xs == [] then []
    else
      assert xs == [xs[0]] + xs[1..];
      Insert(xs[0], Sort(xs[1..]))
  }

  /** Sorting keeps the number of elements and the set of elements. */
  lemma SortKeepsElements(xs: seq<string>)
    ensures |Sort(xs)| == |xs|
    ensures forall x :: x in Sort(xs) <==> x in xs
  {
    var r := Sort(xs);
    assert |multiset(r)| == |multiset(xs)|;
    forall x
      ensures x in r <==> x in xs
    {
      assert x in r <==> x in multiset(r);
      assert x in xs <==> x in multiset(xs);
    }
  }

  /** A sorted list whose elements are distinct is strictly ascending. */
  lemma SortedDistinctAscending(xs: seq<string>)
    requires Sorted(xs)
    requires forall i, j :: 0 <= i < j < |xs| ==> xs[i] != xs[j]
    ensures forall i, j :: 0 <= i < j < |xs| ==> StrLess(xs[i], xs[j])
  {
  }

  predicate Distinct(xs: seq<string>)
  {
    forall i, j :: 0 <= i < j < |xs| ==> xs[i] != xs[j]
  }

  lemma {:induction false} DistinctCounts(xs: seq<string>)
    requires Distinct(xs)
    ensures forall x :: multiset(xs)[x] <= 1
  {
    if xs != [] {
      DistinctCounts(xs[1..]);
      assert xs == [xs[0]] + xs[1..];
      assert forall k :: 0 <= k < |xs[1..]| ==> xs[1..][k] == xs[k + 1];
    }
  }

  lemma RepeatCounts(xs: seq<string>, i: nat, j: nat)
    requires i < j < |xs| && xs[i] == xs[j]
    ensures multiset(xs)[xs[i]] >= 2
  {
    assert xs == xs[..j] + xs[j..];
    assert xs[..j][i] == xs[i];
    assert xs[j..][0] == xs[j];
  }

  /** A rearrangement of distinct elements has distinct elements. */
  lemma PermutationKeepsDistinct(xs: seq<string>, ys: seq<string>)
    requires Distinct(xs) && multiset(xs) == multiset(ys)
    ensures Distinct(ys)
  {
    DistinctCounts(xs);
    forall i, j | 0 <= i < j < |ys|
      ensures ys[i] != ys[j]
    {
      if ys[i] == ys[j] {
        RepeatCounts(ys, i, j);
        assert false;
      }
    }
  }
}
