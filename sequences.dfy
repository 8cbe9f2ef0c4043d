/**
 * Generic sequence operations that the analyser builds on: the JavaScript
 * array methods `filter`, `slice(0, n)`, `indexOf`, and `Array.from(new Set(...))`
 * (duplicate removal that keeps first occurrences).
 */
module Sequences {

  /** No element occurs twice. */
  ghost predicate NoDuplicates<T>(s: seq<T>) {
    forall i, j :: 0 <= i < j < |s| ==> s[i] != s[j]
  }

  /** The position of the first occurrence of `x` in `s` (JavaScript `indexOf`). */
  function IndexOf<T(==)>(s: seq<T>, x: T): (i: nat)
    requires x in s
    ensures i < |s| && s[i] == x
    ensures x !in s[..i]
  {
    if s[0] == x then 0 else 1 + IndexOf(s[1..], x)
  }

  /** The position of the last occurrence of `x` in `s` (JavaScript `lastIndexOf`). */
  function LastIndexOf<T(==)>(s: seq<T>, x: T): (i: nat)
    requires x in s
    ensures i < |s| && s[i] == x
    ensures x !in s[i + 1..]
    ensures forall m :: i < m < |s| ==> s[m] != x
  {
    if s[|s| - 1] == x then |s| - 1
    else
      assert x in s[..|s| - 1] by { assert s == s[..|s| - 1] + [s[|s| - 1]]; }
      LastIndexOf(s[..|s| - 1], x)
  }

  /** Every element of `r` occurs in `s`, and the elements of `r` appear in the
      order of their first occurrences in `s`. */
  ghost predicate OrderedBy<T>(r: seq<T>, s: seq<T>) {
    (forall x :: x in r ==> x in s) &&
    forall i, j :: 0 <= i < j < |r| && r[i] in s && r[j] in s ==> IndexOf(s, r[i]) < IndexOf(s, r[j])
  }

  /** JavaScript `filter`: the elements of `s` that satisfy `p`, in order. */
  function Filter<T(!new)>(s: seq<T>, p: T -> bool): (r: seq<T>)
    ensures |r| <= |s|
    ensures forall x :: x in r <==> x in s && p(x)
  {
    if s == [] then []
    else if p(s[0]) then [s[0]] + Filter(s[1..], p)
    else Filter(s[1..], p)
  }

  /** JavaScript `slice(0, n)`: the first `n` elements, or all of them when there are fewer. */
  function Take<T>(s: seq<T>, n: nat): (r: seq<T>)
    ensures |r| == if n < |s| then n else |s|
    ensures forall i :: 0 <= i < |r| ==> r[i] == s[i]
  {
    if n < |s| then s[..n] else s
  }

  /** `Array.from(new Set(s))`: the distinct elements of `s`, each at the place
      of its first occurrence. */
  function Unique<T(==,!new)>(s: seq<T>): (r: seq<T>)
    ensures forall x :: x in r <==> x in s
    ensures NoDuplicates(r)
    ensures |r| <= |s|
    decreases |s|
  {
    if s == [] then []
    else
      var u := Unique(s[..|s| - 1]);
      if s[|s| - 1] in u then u else u + [s[|s| - 1]]
  }

  /** Concatenation of a sequence of sequences. */
  function Flatten<T>(ss: seq<seq<T>>): seq<T> {
    if ss == [] then [] else ss[0] + Flatten(ss[1..])
  }

  lemma IndexOfPrefix<T>(s: seq<T>, k: nat, x: T)
    requires k <= |s| && x in s[..k]
    ensures x in s && IndexOf(s, x) == IndexOf(s[..k], x)
  {
    var i := IndexOf(s[..k], x);
    assert s[..k][..i] == s[..i];
    IndexOfUnique(s, i, x);
  }

  /** The first occurrence is the only index that holds `x` with no `x` before it. */
  lemma IndexOfUnique<T>(s: seq<T>, i: nat, x: T)
    requires i < |s| && s[i] == x && x !in s[..i]
    ensures IndexOf(s, x) == i
  {
    var k := IndexOf(s, x);
    assert forall j :: 0 <= j < i ==> s[..i][j] == s[j];
    assert forall j :: 0 <= j < k ==> s[..k][j] == s[j];
  }

  /** `Unique` keeps the elements in the order of their first occurrence. */
  lemma {:induction false} UniqueOrdered<T(!new)>(s: seq<T>)
    ensures OrderedBy(Unique(s), s)
    decreases |s|
  {
    if s != [] {
      var init := s[..|s| - 1];
      var last := s[|s| - 1];
      var u := Unique(init);
      UniqueOrdered(init);
      forall x | x in u ensures x in s && IndexOf(s, x) == IndexOf(init, x) {
        IndexOfPrefix(s, |s| - 1, x);
      }
      if last !in u {
        IndexOfUnique(s, |s| - 1, last);
        var r := u + [last];
        forall i, j | 0 <= i < j < |r|
          ensures IndexOf(s, r[i]) < IndexOf(s, r[j])
        {
          if j < |u| {
            assert r[i] == u[i] && r[j] == u[j];
          } else {
            assert r[i] == u[i];
          }
        }
      }
    }
  }

  /** A filtered sequence without duplicates keeps the order of its source. */
  lemma {:induction false} FilterOrdered<T(!new)>(s: seq<T>, p: T -> bool)
    requires NoDuplicates(s)
    ensures OrderedBy(Filter(s, p), s)
    decreases |s|
  {
    if s != [] {
      var tail := s[1..];
      assert NoDuplicates(tail) by {
        forall i, j | 0 <= i < j < |tail| ensures tail[i] != tail[j] {
          assert tail[i] == s[i + 1] && tail[j] == s[j + 1];
        }
      }
      FilterOrdered(tail, p);
      if p(s[0]) {
        PrependOrdered(s, Filter(tail, p));
      } else {
        TailOrdered(s, Filter(tail, p));
      }
    }
  }

  /** In a sequence without duplicates, an element of the tail sits one place
      further on than in the tail. */
  lemma IndexOfTail<T>(s: seq<T>, x: T)
    requires s != [] && NoDuplicates(s) && x in s[1..]
    ensures x in s && x != s[0] && IndexOf(s, x) == 1 + IndexOf(s[1..], x)
  {
    var k := IndexOf(s[1..], x);
    assert s[k + 1] == x;
  }

  /** What is ordered by the tail is ordered by the whole sequence. */
  lemma TailOrdered<T>(s: seq<T>, f: seq<T>)
    requires s != [] && NoDuplicates(s) && OrderedBy(f, s[1..])
    ensures OrderedBy(f, s)
  {
    forall x | x in f ensures x in s && IndexOf(s, x) == 1 + IndexOf(s[1..], x) {
      IndexOfTail(s, x);
    }
  }

  /** The head followed by what the tail orders is ordered by the whole. */
  lemma PrependOrdered<T>(s: seq<T>, f: seq<T>)
    requires s != [] && NoDuplicates(s) && OrderedBy(f, s[1..])
    ensures OrderedBy([s[0]] + f, s)
  {
    TailOrdered(s, f);
    var r := [s[0]] + f;
    forall i, j | 0 <= i < j < |r|
      ensures IndexOf(s, r[i]) < IndexOf(s, r[j])
    {
      assert r[j] == f[j - 1];
      IndexOfTail(s, r[j]);
      if i > 0 {
        assert r[i] == f[i - 1];
      }
    }
  }

  lemma FilterNoDuplicates<T(!new)>(s: seq<T>, p: T -> bool)
    requires NoDuplicates(s)
    ensures NoDuplicates(Filter(s, p))
  {
    FilterOrdered(s, p);
    var r := Filter(s, p);
    forall i, j | 0 <= i < j < |r| ensures r[i] != r[j] {
      assert IndexOf(s, r[i]) < IndexOf(s, r[j]);
    }
  }

  /** Order of first occurrence is transitive. */
  lemma OrderedByTransitive<T>(r: seq<T>, u: seq<T>, s: seq<T>)
    requires OrderedBy(r, u) && OrderedBy(u, s)
    ensures OrderedBy(r, s)
  {
    forall i, j | 0 <= i < j < |r|
      ensures IndexOf(s, r[i]) < IndexOf(s, r[j])
    {
      var a, b := IndexOf(u, r[i]), IndexOf(u, r[j]);
      assert u[a] == r[i] && u[b] == r[j];
    }
  }

  lemma TakeOrdered<T>(r: seq<T>, n: nat, s: seq<T>)
    requires OrderedBy(r, s)
    ensures OrderedBy(Take(r, n), s)
  {
    var t := Take(r, n);
    forall x | x in t ensures x in r {
      var i :| 0 <= i < |t| && t[i] == x;
      assert r[i] == x;
    }
    forall i, j | 0 <= i < j < |t|
      ensures IndexOf(s, t[i]) < IndexOf(s, t[j])
    {
      assert t[i] == r[i] && t[j] == r[j];
    }
  }

  /** `slice(0, n)` of an ordered sequence keeps its first elements: an
      element left out comes after the last one kept. */
  lemma TakeFirst<T>(r: seq<T>, n: nat, s: seq<T>, x: T)
    requires OrderedBy(r, s) && 0 < n < |r|
    requires x in r && x !in Take(r, n)
    ensures IndexOf(s, Take(r, n)[n - 1]) < IndexOf(s, x)
  {
    var k := IndexOf(r, x);
    assert x !in r[..n];
    assert n <= k;
    assert Take(r, n)[n - 1] == r[n - 1];
  }

  /** Filtering by a weaker predicate keeps at least as many elements. */
  lemma {:induction false} FilterWeakerKeepsMore<T(!new)>(s: seq<T>, p: T -> bool, q: T -> bool)
    requires forall x :: x in s && q(x) ==> p(x)
    ensures |Filter(s, q)| <= |Filter(s, p)|
    decreases |s|
  {
    if s != [] {
      FilterWeakerKeepsMore(s[1..], p, q);
    }
  }

  lemma {:induction false} FlattenAppend<T>(a: seq<seq<T>>, b: seq<seq<T>>)
    ensures Flatten(a + b) == Flatten(a) + Flatten(b)
    decreases |a|
  {
    if a != [] {
      assert (a + b)[0] == a[0] && (a + b)[1..] == a[1..] + b;
      FlattenAppend(a[1..], b);
    } else {
      assert a + b == b;
    }
  }

  lemma {:induction false} FilterAppend<T(!new)>(a: seq<T>, b: seq<T>, p: T -> bool)
    ensures Filter(a + b, p) == Filter(a, p) + Filter(b, p)
    decreases |a|
  {
    if a != [] {
      assert (a + b)[0] == a[0] && (a + b)[1..] == a[1..] + b;
      FilterAppend(a[1..], b, p);
    } else {
      assert a + b == b;
    }
  }

  lemma {:induction false} FilterKeepsAll<T(!new)>(s: seq<T>, p: T -> bool)
    requires forall i :: 0 <= i < |s| ==> p(s[i])
    ensures Filter(s, p) == s
    decreases |s|
  {
    if s != [] {
      FilterKeepsAll(s[1..], p);
    }
  }

  lemma {:induction false} FilterNone<T(!new)>(s: seq<T>, p: T -> bool)
    requires forall i :: 0 <= i < |s| ==> !p(s[i])
    ensures Filter(s, p) == []
    decreases |s|
  {
    if s != [] {
      FilterNone(s[1..], p);
    }
  }
}
