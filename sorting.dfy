/** Array.prototype.sort with a numeric comparator `(a, b) => key(a) - key(b)`.
    JavaScript's sort is stable; the model is a stable insertion sort. A
    descending sort (`key(b) - key(a)`) is the same sort on the negated key. */
module Sorting {
  import opened Common

  ghost predicate SortedBy<T>(s: seq<T>, key: T -> int) {
    forall i, j :: 0 <= i < j < |s| ==> key(s[i]) <= key(s[j])
  }

  predicate Ascending(s: seq<int>) {
    forall i, j :: 0 <= i < j < |s| ==> s[i] <= s[j]
  }

  /** Inserts x before the first element whose key is not smaller, so x ends
      up ahead of the elements with an equal key that followed it. */
  function Insert<T>(x: T, s: seq<T>, key: T -> int): (r: seq<T>)
    ensures |r| == |s| + 1
    ensures multiset(r) == multiset(s) + multiset{x}
  {
    if s == [] then [x]
    else if key(x) <= key(s[0]) then [x] + s
    else
      assert s == [s[0]] + s[1..];
      [s[0]] + Insert(x, s[1..], key)
  }

  ghost predicate KeysAtLeast<T>(s: seq<T>, key: T -> int, k: int) {
    forall i :: 0 <= i < |s| ==> k <= key(s[i])
  }

  lemma {:induction false} InsertKeysAtLeast<T>(x: T, s: seq<T>, key: T -> int, k: int)
    requires KeysAtLeast(s, key, k) && k <= key(x)
    ensures KeysAtLeast(Insert(x, s, key), key, k)
  {
    if s != [] && key(x) > key(s[0]) {
      InsertKeysAtLeast(x, s[1..], key, k);
    }
  }

  lemma {:induction false} InsertSorted<T>(x: T, s: seq<T>, key: T -> int)
    requires SortedBy(s, key)
    ensures SortedBy(Insert(x, s, key), key)
  {
    if s != [] && key(x) > key(s[0]) {
      var rest := Insert(x, s[1..], key);
      InsertSorted(x, s[1..], key);
      InsertKeysAtLeast(x, s[1..], key, key(s[0]));
      var r := [s[0]] + rest;
      forall i, j | 0 <= i < j < |r| ensures key(r[i]) <= key(r[j]) {
        assert r[j] == rest[j - 1];
        if i == 0 {
          assert r[i] == s[0];
          assert key(s[0]) <= key(rest[j - 1]);
        } else {
          assert r[i] == rest[i - 1];
          assert key(rest[i - 1]) <= key(rest[j - 1]);
        }
      }
    }
  }

  function SortBy<T>(s: seq<T>, key: T -> int): (r: seq<T>)
    ensures |r| == |s|
    ensures multiset(r) == multiset(s)
    ensures SortedBy(r, key)
  {
    if s == [] then []
    else
      assert s == [s[0]] + s[1..];
      InsertSorted(s[0], SortBy(s[1..], key), key);
      Insert(s[0], SortBy(s[1..], key), key)
  }

  /** Filter on a sequence that starts with a. */
  lemma FilterCons<T>(a: T, t: seq<T>, p: T -> bool)
    ensures Filter([a] + t, p) == (if p(a) then [a] else []) + Filter(t, p)
  {
    assert ([a] + t)[1..] == t;
  }

  /** Passing an element a that p rejects whenever it accepts x leaves the
      p-elements as they were with x in front. */
  lemma PassTie<T>(a: T, x: T, rest: seq<T>, t: seq<T>, p: T -> bool)
    requires Filter(rest, p) == Filter([x] + t, p)
    requires p(x) ==> !p(a)
    ensures Filter([a] + rest, p) == Filter([x] + ([a] + t), p)
  {
    FilterCons(a, rest, p);
    FilterCons(x, t, p);
    FilterCons(x, [a] + t, p);
    FilterCons(a, t, p);
  }

  /** Insert passes only elements with a smaller key, so among the elements
      with any one key, x comes first, ahead of those already in s. */
  lemma {:induction false} InsertKeepsTies<T>(x: T, s: seq<T>, key: T -> int, k: int)
    ensures Filter(Insert(x, s, key), KeyIs(key, k)) == Filter([x] + s, KeyIs(key, k))
  {
    if s != [] && key(x) > key(s[0]) {
      var rest := Insert(x, s[1..], key);
      assert Insert(x, s, key) == [s[0]] + rest;
      InsertKeepsTies(x, s[1..], key, k);
      assert s == [s[0]] + s[1..];
      PassTie(s[0], x, rest, s[1..], KeyIs(key, k));
    }
  }

  /** Stability: the elements sharing any one key appear in the sorted
      sequence in the order they had in the input. */
  lemma {:induction false} SortByStable<T>(s: seq<T>, key: T -> int)
    ensures forall k :: Filter(SortBy(s, key), KeyIs(key, k)) == Filter(s, KeyIs(key, k))
  {
    if s != [] {
      var sorted := SortBy(s[1..], key);
      SortByStable(s[1..], key);
      assert ([s[0]] + sorted)[1..] == sorted;
      forall k ensures Filter(SortBy(s, key), KeyIs(key, k)) == Filter(s, KeyIs(key, k)) {
        InsertKeepsTies(s[0], sorted, key, k);
      }
    }
  }

  /** Sorting keeps the elements. */
  lemma SortByElems<T>(s: seq<T>, key: T -> int)
    ensures forall x :: x in SortBy(s, key) <==> x in s
  {
    var r := SortBy(s, key);
    assert forall x :: x in r <==> x in multiset(r);
    assert forall x :: x in s <==> x in multiset(s);
  }

  /** The first n elements of a sorted sequence, or all of them. */
  function Take<T>(s: seq<T>, n: nat): (r: seq<T>)
    ensures |r| <= n && (|s| <= n ==> r == s)
  {
    if |s| <= n then s else s[..n]
  }

  /** `sort(...).slice(0, n)`: the n elements of smallest key, sorted; an
      element left out has a key no smaller than every one kept. */
  lemma TopFacts<T>(s: seq<T>, key: T -> int, n: nat)
    ensures SortedBy(Take(SortBy(s, key), n), key)
    ensures forall x :: x in Take(SortBy(s, key), n) ==> x in s
    ensures forall x :: x in s ==>
      x in Take(SortBy(s, key), n) ||
      (|Take(SortBy(s, key), n)| == n && forall y :: y in Take(SortBy(s, key), n) ==> key(y) <= key(x))
  {
    var sorted := SortBy(s, key);
    var r := Take(sorted, n);
    SortByElems(s, key);
    assert forall i :: 0 <= i < |r| ==> r[i] == sorted[i];
    forall x | x in s
      ensures x in r || (|r| == n && forall y :: y in r ==> key(y) <= key(x))
    {
      var k :| 0 <= k < |sorted| && sorted[k] == x;
      if k >= n {
        forall y | y in r ensures key(y) <= key(x) {
          var i :| 0 <= i < |r| && r[i] == y;
        }
      } else {
        assert r[k] == x;
      }
    }
  }

  lemma {:induction false} InsertCount<T>(x: T, s: seq<T>, key: T -> int, p: T -> bool)
    ensures Count(Insert(x, s, key), p) == Count(s, p) + (if p(x) then 1 else 0)
  {
    if s != [] && key(x) > key(s[0]) {
      InsertCount(x, s[1..], key, p);
    }
  }

  /** Sorting keeps the number of elements satisfying any predicate. */
  lemma {:induction false} SortByCount<T>(s: seq<T>, key: T -> int, p: T -> bool)
    ensures Count(SortBy(s, key), p) == Count(s, p)
  {
    if s != [] {
      SortByCount(s[1..], key, p);
      InsertCount(s[0], SortBy(s[1..], key), key, p);
    }
  }

  /** No two elements share a value of f. */
  ghost predicate DistinctBy<T, U>(s: seq<T>, f: T -> U) {
    forall i, j :: 0 <= i < j < |s| ==> f(s[i]) != f(s[j])
  }

  /** No element has f-value v. */
  ghost predicate Avoids<T, U>(s: seq<T>, f: T -> U, v: U) {
    forall i :: 0 <= i < |s| ==> f(s[i]) != v
  }

  lemma {:induction false} InsertAvoids<T, U>(x: T, s: seq<T>, key: T -> int, f: T -> U, v: U)
    requires Avoids(s, f, v) && f(x) != v
    ensures Avoids(Insert(x, s, key), f, v)
  {
    if s != [] && key(x) > key(s[0]) {
      InsertAvoids(x, s[1..], key, f, v);
    }
  }

  lemma {:induction false} SortByAvoids<T, U>(s: seq<T>, key: T -> int, f: T -> U, v: U)
    requires Avoids(s, f, v)
    ensures Avoids(SortBy(s, key), f, v)
  {
    if s != [] {
      SortByAvoids(s[1..], key, f, v);
      InsertAvoids(s[0], SortBy(s[1..], key), key, f, v);
    }
  }

  lemma {:induction false} InsertDistinct<T, U>(x: T, s: seq<T>, key: T -> int, f: T -> U)
    requires DistinctBy(s, f) && Avoids(s, f, f(x))
    ensures DistinctBy(Insert(x, s, key), f)
  {
    if s != [] && key(x) > key(s[0]) {
      var rest := Insert(x, s[1..], key);
      InsertDistinct(x, s[1..], key, f);
      InsertAvoids(x, s[1..], key, f, f(s[0]));
      var r := [s[0]] + rest;
      forall i, j | 0 <= i < j < |r| ensures f(r[i]) != f(r[j]) {
        assert r[j] == rest[j - 1];
        if i > 0 {
          assert r[i] == rest[i - 1];
        }
      }
    }
  }

  /** Sorting only moves elements, so it keeps them distinct. */
  lemma {:induction false} SortByDistinct<T, U>(s: seq<T>, key: T -> int, f: T -> U)
    requires DistinctBy(s, f)
    ensures DistinctBy(SortBy(s, key), f)
  {
    if s != [] {
      SortByDistinct(s[1..], key, f);
      SortByAvoids(s[1..], key, f, f(s[0]));
      InsertDistinct(s[0], SortBy(s[1..], key), key, f);
    }
  }

  function Reverse<T>(s: seq<T>): (r: seq<T>)
    ensures |r| == |s|
    ensures forall i :: 0 <= i < |s| ==> r[i] == s[|s| - 1 - i]
  {
    if s == [] then [] else Reverse(s[1..]) + [s[0]]
  }

  /** The keys of a sequence, in order. */
  function Keys<T>(s: seq<T>, key: T -> int): (r: seq<int>)
    ensures |r| == |s|
    ensures forall i :: 0 <= i < |s| ==> r[i] == key(s[i])
  {
    if s == [] then [] else [key(s[0])] + Keys(s[1..], key)
  }

  lemma SortedKeysAscending<T>(s: seq<T>, key: T -> int)
    requires SortedBy(s, key)
    ensures Ascending(Keys(s, key))
  {
  }

  /** Reversing a sequence sorted in descending order gives one sorted in
      ascending order: what `sort((a, b) => b - a).reverse()` computes. */
  lemma ReverseOfDescending(s: seq<int>)
    requires forall i, j :: 0 <= i < j < |s| ==> s[i] >= s[j]
    ensures Ascending(Reverse(s))
  {
  }
}
