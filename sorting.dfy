/** Ordering by a string key: the `ORDER BY number ASC` of the ticket
    queries and Go's `sort.Strings` over the init-data keys. Both are
    library code; an insertion sort stands in for them and is proved to
    return a sorted permutation of its input. */
module Sorting {
  import opened Text

  ghost predicate SortedBy<T>(s: seq<T>, key: T -> string) {
    forall i, j :: 0 <= i < j < |s| ==> LexLessEq(key(s[i]), key(s[j]))
  }

  function InsertBy<T>(x: T, s: seq<T>, key: T -> string): seq<T>
    decreases |s|
  {
    if s == [] || LexLessEq(key(x), key(s[0])) then [x] + s
    else [s[0]] + InsertBy(x, s[1..], key)
  }

  lemma {:induction false} InsertByPermutes<T>(x: T, s: seq<T>, key: T -> string)
    ensures multiset(InsertBy(x, s, key)) == multiset(s) + multiset{x}
    decreases |s|
  {
    if s != [] && !LexLessEq(key(x), key(s[0])) {
      InsertByPermutes(x, s[1..], key);
      assert s == [s[0]] + s[1..];
    }
  }

  /** A sorted sequence stays sorted under a new head no greater than any
      of its elements. */
  lemma SortedCons<T>(h: T, s: seq<T>, key: T -> string)
    requires SortedBy(s, key)
    requires forall y :: y in s ==> LexLessEq(key(h), key(y))
    ensures SortedBy([h] + s, key)
  {
    var r := [h] + s;
    forall i, j | 0 <= i < j < |r|
      ensures LexLessEq(key(r[i]), key(r[j]))
    {
      if i == 0 {
        assert r[j] in s;
      } else {
        assert r[i] == s[i - 1] && r[j] == s[j - 1];
      }
    }
  }

  lemma {:induction false} InsertBySorted<T>(x: T, s: seq<T>, key: T -> string)
    requires SortedBy(s, key)
    ensures multiset(InsertBy(x, s, key)) == multiset(s) + multiset{x}
    ensures SortedBy(InsertBy(x, s, key), key)
    decreases |s|
  {
    InsertByPermutes(x, s, key);
    if s == [] {
    } else if LexLessEq(key(x), key(s[0])) {
      forall y | y in s
        ensures LexLessEq(key(x), key(y))
      {
        var k :| 0 <= k < |s| && s[k] == y;
        if k > 0 {
          LexLessEqTransitive(key(x), key(s[0]), key(y));
        }
      }
      SortedCons(x, s, key);
    } else {
      LexLessTotal(key(x), key(s[0]));
      var rest := InsertBy(x, s[1..], key);
      InsertBySorted(x, s[1..], key);
      forall y | y in rest
        ensures LexLessEq(key(s[0]), key(y))
      {
        assert y in multiset(rest);
        if y != x {
          assert y in multiset(s[1..]);
          var k :| 0 <= k < |s[1..]| && s[1..][k] == y;
          assert s[k + 1] == y;
        }
      }
      SortedCons(s[0], rest, key);
    }
  }

  /** Insertion sort: a permutation of `s`, ascending by `key`. */
  function SortBy<T>(s: seq<T>, key: T -> string): (r: seq<T>)
    ensures multiset(r) == multiset(s)
    ensures SortedBy(r, key)
    decreases |s|
  {
    if s == [] then []
    else
      var rest := SortBy(s[1..], key);
      InsertBySorted(s[0], rest, key);
      assert s == [s[0]] + s[1..];
      InsertBy(s[0], rest, key)
  }

  // ---------------------------------------------------------------------
  // Sorting distinct strings

  function Identity(s: string): string {
    s
  }

  ghost predicate Distinct<T>(s: seq<T>) {
    forall i, j :: 0 <= i < j < |s| ==> s[i] != s[j]
  }

  /** A sequence without repeats holds each value at most once. */
  lemma {:induction false} DistinctCounts<T>(s: seq<T>, x: T)
    requires Distinct(s)
    ensures multiset(s)[x] <= 1
    decreases |s|
  {
    if s != [] {
      assert s == [s[0]] + s[1..];
      assert Distinct(s[1..]) by {
        forall i, j | 0 <= i < j < |s[1..]|
          ensures s[1..][i] != s[1..][j]
        {
          assert s[1..][i] == s[i + 1] && s[1..][j] == s[j + 1];
        }
      }
      DistinctCounts(s[1..], x);
      forall k | 0 <= k < |s[1..]|
        ensures s[1..][k] != s[0]
      {
        assert s[1..][k] == s[k + 1];
      }
      assert s[0] !in s[1..];
    }
  }

  /** A value held at most once cannot sit at two positions. */
  lemma SingleCountApart<T>(s: seq<T>, i: int, j: int)
    requires 0 <= i < j < |s| && multiset(s)[s[i]] <= 1
    ensures s[i] != s[j]
  {
    assert s == s[..j] + [s[j]] + s[j + 1..];
    assert s[i] in s[..j];
  }

  /** Two reorderings of each other stay so once the last element of
      one is taken out of the other. */
  lemma RemoveMatching<T>(a: seq<T>, b: seq<T>, j: int)
    requires multiset(a) == multiset(b) && a != [] && 0 <= j < |b| && b[j] == a[|a| - 1]
    ensures multiset(a[..|a| - 1]) == multiset(b[..j] + b[j + 1..])
  {
    var x := b[j];
    assert a == a[..|a| - 1] + [x];
    assert b == b[..j] + [x] + b[j + 1..];
    assert multiset(a[..|a| - 1]) == multiset(a) - multiset{x};
    assert multiset(b[..j] + b[j + 1..]) == multiset(b) - multiset{x};
  }

  /** Reordering keeps a sequence free of repeats. */
  lemma DistinctPermutation<T>(a: seq<T>, b: seq<T>)
    requires multiset(a) == multiset(b) && Distinct(a)
    ensures Distinct(b)
  {
    forall i, j | 0 <= i < j < |b|
      ensures b[i] != b[j]
    {
      DistinctCounts(a, b[i]);
      SingleCountApart(b, i, j);
    }
  }

  /** Reordering keeps the keys of distinct positions apart. */
  lemma KeysApartPermutation<T>(a: seq<T>, b: seq<T>, key: T -> string)
    requires multiset(a) == multiset(b)
    requires forall k, l :: 0 <= k < l < |a| ==> key(a[k]) != key(a[l])
    ensures forall k, l :: 0 <= k < l < |b| ==> key(b[k]) != key(b[l])
  {
    DistinctPermutation(a, b);
    forall k, l | 0 <= k < l < |b|
      ensures key(b[k]) != key(b[l])
    {
      assert b[k] in multiset(a) && b[l] in multiset(a);
      var k' :| 0 <= k' < |a| && a[k'] == b[k];
      var l' :| 0 <= l' < |a| && a[l'] == b[l];
      assert k' != l';
    }
  }

  lemma {:induction false} InsertStrict(x: string, s: seq<string>)
    requires StrictlyAscending(s) && x !in s
    ensures StrictlyAscending(InsertBy(x, s, Identity))
    decreases |s|
  {
    if s == [] {
    } else if LexLessEq(x, s[0]) {
      assert x != s[0];
      forall j | 1 <= j < |s|
        ensures LexLess(x, s[j])
      {
        LexLessTransitive(x, s[0], s[j]);
      }
    } else {
      LexLessTotal(x, s[0]);
      assert x !in s[1..];
      InsertStrict(x, s[1..]);
      InsertBySorted(x, s[1..], Identity);
      var rest := InsertBy(x, s[1..], Identity);
      forall j | 0 <= j < |rest|
        ensures LexLess(s[0], rest[j])
      {
        var y := rest[j];
        assert y in multiset(rest);
        if y != x {
          assert y in multiset(s[1..]);
          var k :| 0 <= k < |s[1..]| && s[1..][k] == y;
          assert s[k + 1] == y;
        }
      }
    }
  }

  /** Sorting strings that are pairwise different yields a strictly
      ascending sequence. */
  lemma {:induction false} SortDistinctStrict(s: seq<string>)
    requires Distinct(s)
    ensures StrictlyAscending(SortBy(s, Identity))
    decreases |s|
  {
    if s != [] {
      var rest := SortBy(s[1..], Identity);
      SortDistinctStrict(s[1..]);
      assert s[0] !in s[1..];
      assert s[0] !in multiset(rest);
      InsertStrict(s[0], rest);
    }
  }
}
