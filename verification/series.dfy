/** The Series operations the views share: pandas' `unique()`,
    `sort_values(key, ascending=...)`, boolean-mask filtering and `head(n)`. */
module Series {

  predicate InOrder(a: real, b: real, ascending: bool)
  {
    if ascending then a <= b else a >= b
  }

  /** Every earlier element's key comes no later than every later element's key. */
  ghost predicate Sorted<T>(s: seq<T>, key: T -> real, ascending: bool)
  {
    forall i, j :: 0 <= i < j < |s| ==> InOrder(key(s[i]), key(s[j]), ascending)
  }

  ghost predicate NoDuplicates<T>(s: seq<T>)
  {
    forall i, j :: 0 <= i < j < |s| ==> s[i] != s[j]
  }

  /** `unique()`: each value once, in order of first appearance. */
  function Unique<T(==)>(xs: seq<T>): (u: seq<T>)
    ensures forall i :: 0 <= i < |u| ==> u[i] in xs
    ensures forall i :: 0 <= i < |xs| ==> xs[i] in u
    ensures NoDuplicates(u)
  {
    if xs == [] then []
    else
      var init := xs[..|xs| - 1];
      var u := Unique(init);
      var last := xs[|xs| - 1];
      assert xs == init + [last];
      if last in u then u else u + [last]
  }

  /** A sorted sequence stays sorted under a head that is ordered before
      each of its elements. */
  lemma PrependSorted<T>(h: T, rest: seq<T>, key: T -> real, ascending: bool)
    requires Sorted(rest, key, ascending)
    requires forall k :: 0 <= k < |rest| ==> InOrder(key(h), key(rest[k]), ascending)
    ensures Sorted([h] + rest, key, ascending)
  {
    var r := [h] + rest;
    forall i, j | 0 <= i < j < |r| ensures InOrder(key(r[i]), key(r[j]), ascending) {
      assert r[j] == rest[j - 1];
      if i > 0 {
        assert r[i] == rest[i - 1];
      }
    }
  }

  /** Insert x into a sorted sequence, after every element whose key is not
      ordered after x's. */
  function Insert<T(==)>(x: T, s: seq<T>, key: T -> real, ascending: bool): (r: seq<T>)
    requires Sorted(s, key, ascending)
    ensures multiset(r) == multiset(s) + multiset{x}
    ensures Sorted(r, key, ascending)
  {
    if s == [] then [x]
    else if InOrder(key(x), key(s[0]), ascending) then [x] + s
    else
      var rest := Insert(x, s[1..], key, ascending);
      assert s == [s[0]] + s[1..];
      assert forall k :: 0 <= k < |rest| ==> InOrder(key(s[0]), key(rest[k]), ascending) by {
        forall k | 0 <= k < |rest| ensures InOrder(key(s[0]), key(rest[k]), ascending) {
          var y := rest[k];
          assert y in multiset(rest);
          if y != x {
            assert y in multiset(s[1..]);
            var m :| 0 <= m < |s[1..]| && s[1..][m] == y;
            assert s[m + 1] == y;
          }
        }
      }
      PrependSorted(s[0], rest, key, ascending);
      [s[0]] + rest
  }

  /** `sort_values`: the same elements, ordered by key. pandas' default sort
      is not stable, so nothing is promised about the order of equal keys. */
  function SortValues<T(==)>(xs: seq<T>, key: T -> real, ascending: bool): (r: seq<T>)
    ensures multiset(r) == multiset(xs)
    ensures |r| == |xs|
    ensures Sorted(r, key, ascending)
  {
    if xs == [] then []
    else
      assert xs == [xs[0]] + xs[1..];
      Insert(xs[0], SortValues(xs[1..], key, ascending), key, ascending)
  }

  /** A boolean mask: the elements satisfying p, in their original order. */
  function Filter<T>(s: seq<T>, p: T -> bool): (r: seq<T>)
    ensures |r| <= |s|
    ensures forall i :: 0 <= i < |r| ==> r[i] in s && p(r[i])
    ensures forall i :: 0 <= i < |s| && p(s[i]) ==> s[i] in r
  {
    if s == [] then []
    else (if p(s[0]) then [s[0]] else []) + Filter(s[1..], p)
  }

  /** A mask keeps the order of what it keeps. */
  lemma {:induction false} FilterKeepsOrder<T>(s: seq<T>, p: T -> bool, key: T -> real, ascending: bool)
    ensures Sorted(s, key, ascending) ==> Sorted(Filter(s, p), key, ascending)
  {
    if s != [] && Sorted(s, key, ascending) {
      FilterKeepsOrder(s[1..], p, key, ascending);
      var rest := Filter(s[1..], p);
      if p(s[0]) {
        forall i, j | 0 <= i < j < |[s[0]] + rest|
          ensures InOrder(key(([s[0]] + rest)[i]), key(([s[0]] + rest)[j]), ascending)
        {
          if i == 0 {
            assert ([s[0]] + rest)[j] in s[1..];
          }
        }
      }
    }
  }

  /** A mask keeps distinctness. */
  lemma {:induction false} FilterKeepsDistinct<T>(s: seq<T>, p: T -> bool)
    ensures NoDuplicates(s) ==> NoDuplicates(Filter(s, p))
  {
    if s != [] && NoDuplicates(s) {
      FilterKeepsDistinct(s[1..], p);
      var rest := Filter(s[1..], p);
      if p(s[0]) {
        assert s[0] !in s[1..];
        assert s[0] !in rest;
      }
    }
  }

  /** A mask keeps each element at most as often as the series holds it. */
  lemma {:induction false} FilterSubMultiset<T>(s: seq<T>, p: T -> bool)
    ensures multiset(Filter(s, p)) <= multiset(s)
  {
    if s != [] {
      var rest := Filter(s[1..], p);
      FilterSubMultiset(s[1..], p);
      assert multiset(s) == multiset{s[0]} + multiset(s[1..]) by {
        assert s == [s[0]] + s[1..];
      }
      if p(s[0]) {
        assert Filter(s, p) == [s[0]] + rest;
      } else {
        assert Filter(s, p) == rest;
      }
    }
  }

  /** A sequence without duplicates holds each value at most once. */
  lemma {:induction false} DistinctMultiplicity<T>(s: seq<T>, x: T)
    requires NoDuplicates(s)
    ensures multiset(s)[x] <= 1
  {
    if s != [] {
      assert s == [s[0]] + s[1..];
      DistinctMultiplicity(s[1..], x);
      if s[0] == x {
        assert x !in s[1..];
      }
    }
  }

  /** Reordering keeps membership. */
  lemma PermutationKeepsMembers<T>(r: seq<T>, s: seq<T>)
    requires multiset(r) == multiset(s)
    ensures forall i :: 0 <= i < |r| ==> r[i] in s
    ensures forall i :: 0 <= i < |s| ==> s[i] in r
  {
    forall i | 0 <= i < |r| ensures r[i] in s {
      assert r[i] in multiset(r);
    }
    forall i | 0 <= i < |s| ensures s[i] in r {
      assert s[i] in multiset(s);
    }
  }

  /** Reordering keeps distinctness. */
  lemma PermutationKeepsDistinct<T>(r: seq<T>, s: seq<T>)
    requires multiset(r) == multiset(s)
    requires NoDuplicates(s)
    ensures NoDuplicates(r)
  {
    forall i, j | 0 <= i < j < |r| ensures r[i] != r[j] {
      if r[i] == r[j] {
        assert r == r[..j] + r[j..];
        assert r[i] in r[..j] && r[j] in r[j..];
        assert multiset(r)[r[i]] == multiset(r[..j])[r[i]] + multiset(r[j..])[r[i]];
        DistinctMultiplicity(s, r[i]);
        assert false;
      }
    }
  }

  /** `head(n)`: the first n elements, or all of them when there are fewer. */
  function Head<T>(s: seq<T>, n: nat): (r: seq<T>)
    ensures |r| == if |s| < n then |s| else n
    ensures r <= s
  {
    if |s| <= n then s else s[..n]
  }

  /** Taking a prefix keeps order and distinctness. */
  lemma HeadKeeps<T>(s: seq<T>, n: nat, key: T -> real, ascending: bool)
    ensures Sorted(s, key, ascending) ==> Sorted(Head(s, n), key, ascending)
    ensures NoDuplicates(s) ==> NoDuplicates(Head(s, n))
  {
  }
}
