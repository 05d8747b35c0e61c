/** Sorting by an integer key, as `Array.prototype.sort` does with the
    comparator `(a, b) => key(a) - key(b)`. The ECMAScript sort is stable:
    items with equal keys keep their relative order. */
module Sorting {

  ghost predicate SortedBy<T>(xs: seq<T>, key: T -> int) {
    forall i, j :: 0 <= i < j < |xs| ==> key(xs[i]) <= key(xs[j])
  }

  /** The items of `xs` whose key is `v`, in order. */
  function WithKey<T>(xs: seq<T>, key: T -> int, v: int): seq<T> {
    if xs == [] then []
    else WithKey(xs[..|xs| - 1], key, v) + (if key(xs[|xs| - 1]) == v then [xs[|xs| - 1]] else [])
  }

  /** `x` placed after every item of `s` whose key is at most its own. */
  function InsertBy<T>(x: T, s: seq<T>, key: T -> int): seq<T> {
    if s == [] || key(s[|s| - 1]) <= key(x) then s + [x]
    else InsertBy(x, s[..|s| - 1], key) + [s[|s| - 1]]
  }

  /** The stable sort of `xs` by `key`. */
  function SortBy<T>(xs: seq<T>, key: T -> int): seq<T> {
    if xs == [] then [] else InsertBy(xs[|xs| - 1], SortBy(xs[..|xs| - 1], key), key)
  }

  lemma WithKeySnoc<T>(xs: seq<T>, y: T, key: T -> int, v: int)
    ensures WithKey(xs + [y], key, v) == WithKey(xs, key, v) + (if key(y) == v then [y] else [])
  {
    assert (xs + [y])[..|xs|] == xs;
  }

  lemma {:induction false} InsertByElems<T>(x: T, s: seq<T>, key: T -> int)
    ensures multiset(InsertBy(x, s, key)) == multiset(s) + multiset{x}
  {
    if s != [] && key(s[|s| - 1]) > key(x) {
      InsertByElems(x, s[..|s| - 1], key);
      assert s == s[..|s| - 1] + [s[|s| - 1]];
    }
  }

  /** Appending an item whose key bounds every key keeps a sequence sorted. */
  lemma SortedSnoc<T>(xs: seq<T>, y: T, key: T -> int)
    requires SortedBy(xs, key)
    requires forall e :: e in xs ==> key(e) <= key(y)
    ensures SortedBy(xs + [y], key)
  {
    forall i, j | 0 <= i < j < |xs + [y]|
      ensures key((xs + [y])[i]) <= key((xs + [y])[j])
    {
      assert (xs + [y])[i] == xs[i];
      if j == |xs| {
        assert xs[i] in xs;
      }
    }
  }

  lemma {:induction false} InsertBySorted<T>(x: T, s: seq<T>, key: T -> int)
    requires SortedBy(s, key)
    ensures SortedBy(InsertBy(x, s, key), key)
  {
    if s == [] || key(s[|s| - 1]) <= key(x) {
      forall e | e in s
        ensures key(e) <= key(x)
      {
        var i :| 0 <= i < |s| && s[i] == e;
      }
      SortedSnoc(s, x, key);
    } else {
      var prev, last := s[..|s| - 1], s[|s| - 1];
      assert SortedBy(prev, key);
      InsertBySorted(x, prev, key);
      InsertByElems(x, prev, key);
      forall e | e in InsertBy(x, prev, key)
        ensures key(e) <= key(last)
      {
        assert e in multiset(InsertBy(x, prev, key));
        if e != x {
          assert e in prev;
          var i :| 0 <= i < |prev| && prev[i] == e;
          assert s[i] == e;
        }
      }
      SortedSnoc(InsertBy(x, prev, key), last, key);
    }
  }

  /** Inserting `x` puts it last among the items with its key and moves no
      other item relative to those with the same key. */
  lemma {:induction false} InsertByWithKey<T>(x: T, s: seq<T>, key: T -> int, v: int)
    ensures WithKey(InsertBy(x, s, key), key, v) == WithKey(s, key, v) + (if key(x) == v then [x] else [])
  {
    if s == [] || key(s[|s| - 1]) <= key(x) {
      WithKeySnoc(s, x, key, v);
    } else {
      var prev, last := s[..|s| - 1], s[|s| - 1];
      var a := InsertBy(x, prev, key);
      assert s == prev + [last];
      InsertByWithKey(x, prev, key, v);
      WithKeySnoc(a, last, key, v);
      WithKeySnoc(prev, last, key, v);
      var before := WithKey(prev, key, v);
      var mine := if key(x) == v then [x] else [];
      var theirs := if key(last) == v then [last] else [];
      assert mine == [] || theirs == [];
      assert WithKey(InsertBy(x, s, key), key, v) == before + mine + theirs;
      assert WithKey(s, key, v) == before + theirs;
    }
  }

  /** The sort rearranges its input: nothing is lost, nothing added. */
  lemma {:induction false} SortByElems<T>(xs: seq<T>, key: T -> int)
    ensures multiset(SortBy(xs, key)) == multiset(xs)
  {
    if xs != [] {
      SortByElems(xs[..|xs| - 1], key);
      InsertByElems(xs[|xs| - 1], SortBy(xs[..|xs| - 1], key), key);
      assert xs == xs[..|xs| - 1] + [xs[|xs| - 1]];
    }
  }

  /** The sort orders by ascending key. */
  lemma {:induction false} SortBySorted<T>(xs: seq<T>, key: T -> int)
    ensures SortedBy(SortBy(xs, key), key)
  {
    if xs != [] {
      SortBySorted(xs[..|xs| - 1], key);
      InsertBySorted(xs[|xs| - 1], SortBy(xs[..|xs| - 1], key), key);
    }
  }

  /** The sort is stable: the items with any one key come out in their
      input order. */
  lemma {:induction false} SortByStable<T>(xs: seq<T>, key: T -> int, v: int)
    ensures WithKey(SortBy(xs, key), key, v) == WithKey(xs, key, v)
  {
    if xs != [] {
      SortByStable(xs[..|xs| - 1], key, v);
      InsertByWithKey(xs[|xs| - 1], SortBy(xs[..|xs| - 1], key), key, v);
    }
  }
}
