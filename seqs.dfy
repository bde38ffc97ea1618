/** The list operations the views are built from: JavaScript's `filter`, `slice(0, n)`
    and the stable `sort` (ECMAScript 2019 and later require Array.prototype.sort to be
    stable). A comparator `(a, b) => key(a) - key(b)` is modelled by its integer key. */
module Seqs {

  /** `s.filter(p)`. */
  function Filter<T>(s: seq<T>, p: T -> bool): (r: seq<T>)
    ensures |r| <= |s|
  {
    if s == [] then []
    else (if p(s[0]) then [s[0]] else []) + Filter(s[1..], p)
  }

  /** What a filter keeps: exactly the elements satisfying p. */
  lemma {:induction false} FilterMembership<T>(s: seq<T>, p: T -> bool)
    ensures forall x :: x in Filter(s, p) <==> x in s && p(x)
  {
    if s != [] {
      FilterMembership(s[1..], p);
      assert s == [s[0]] + s[1..];
    }
  }

  /** `s.map(f)`. */
  function Map<T, U>(s: seq<T>, f: T -> U): (r: seq<U>)
    ensures |r| == |s|
    ensures forall i :: 0 <= i < |s| ==> r[i] == f(s[i])
  {
    if s == [] then [] else [f(s[0])] + Map(s[1..], f)
  }

  /** `s.slice(0, n)`. */
  function Take<T>(s: seq<T>, n: nat): (r: seq<T>)
    ensures |r| == if |s| < n then |s| else n
    ensures r <= s
  {
    if |s| <= n then s else s[..n]
  }

  /** a is obtained from b by deleting elements: b's order is kept. */
  predicate IsSubsequence<T(==)>(a: seq<T>, b: seq<T>)
    decreases |b|
  {
    if a == [] then true
    else if b == [] then false
    else if a[0] == b[0] then IsSubsequence(a[1..], b[1..])
    else IsSubsequence(a, b[1..])
  }

  lemma {:induction false} FilterIsSubsequence<T>(s: seq<T>, p: T -> bool)
    ensures IsSubsequence(Filter(s, p), s)
  {
    if s != [] {
      var rest := Filter(s[1..], p);
      FilterIsSubsequence(s[1..], p);
      if p(s[0]) {
        assert Filter(s, p) == [s[0]] + rest;
        assert ([s[0]] + rest)[1..] == rest;
      } else {
        assert Filter(s, p) == rest;
        SkipHead(rest, s);
      }
    }
  }

  lemma {:induction false} SkipHead<T>(a: seq<T>, b: seq<T>)
    requires b != [] && IsSubsequence(a, b[1..])
    ensures IsSubsequence(a, b)
    decreases |b|, 0
  {
    if a != [] && a[0] == b[0] {
      SubsequenceTail(a, b[1..]);
    }
  }

  lemma {:induction false} SubsequenceTail<T>(a: seq<T>, b: seq<T>)
    requires a != [] && IsSubsequence(a, b)
    ensures IsSubsequence(a[1..], b)
    decreases |b|, 1
  {
    if a[0] == b[0] {
      if a[1..] != [] {
        SkipHead(a[1..], b);
      }
    } else {
      SubsequenceTail(a, b[1..]);
      SkipHead(a[1..], b);
    }
  }

  /** Filtering with a predicate that holds everywhere keeps everything. */
  lemma {:induction false} FilterAll<T>(s: seq<T>, p: T -> bool)
    requires forall x :: p(x)
    ensures Filter(s, p) == s
  {
    if s != [] {
      FilterAll(s[1..], p);
    }
  }

  lemma {:induction false} FilterConcat<T>(a: seq<T>, b: seq<T>, p: T -> bool)
    ensures Filter(a + b, p) == Filter(a, p) + Filter(b, p)
  {
    if a == [] {
      assert a + b == b;
    } else {
      var h := if p(a[0]) then [a[0]] else [];
      assert (a + b)[0] == a[0] && (a + b)[1..] == a[1..] + b;
      FilterConcat(a[1..], b, p);
      calc {
        Filter(a + b, p);
        h + Filter(a[1..] + b, p);
        h + (Filter(a[1..], p) + Filter(b, p));
        (h + Filter(a[1..], p)) + Filter(b, p);
        Filter(a, p) + Filter(b, p);
      }
    }
  }

  /** Two filters that never both hold count, together, what their disjunction counts:
      `filter(p).length + filter(q).length == filter(x => p(x) || q(x)).length`. */
  lemma {:induction false} FilterDisjointCount<T>(s: seq<T>, p: T -> bool, q: T -> bool, either: T -> bool)
    requires forall x :: !(p(x) && q(x))
    requires forall x :: either(x) == (p(x) || q(x))
    ensures |Filter(s, p)| + |Filter(s, q)| == |Filter(s, either)|
  {
    if s != [] {
      FilterDisjointCount(s[1..], p, q, either);
    }
  }

  /** A predicate and its negation split a list: `filter(p).length + filter(!p).length == length`. */
  lemma {:induction false} FilterComplementCount<T>(s: seq<T>, p: T -> bool, notP: T -> bool)
    requires forall x :: notP(x) == !p(x)
    ensures |Filter(s, p)| + |Filter(s, notP)| == |s|
  {
    if s != [] {
      FilterComplementCount(s[1..], p, notP);
    }
  }

  /** Counting with a filter does not depend on the order of the list. */
  lemma {:induction false} FilterCountPermutation<T>(a: seq<T>, b: seq<T>, p: T -> bool)
    requires multiset(a) == multiset(b)
    ensures |Filter(a, p)| == |Filter(b, p)|
    decreases |a|
  {
    if a == [] {
      assert |multiset(b)| == 0;
    } else {
      var x := a[0];
      assert x in multiset(b);
      var k :| 0 <= k < |b| && b[k] == x;
      var rest := b[..k] + b[k + 1..];
      assert b == b[..k] + [x] + b[k + 1..];
      assert a == [x] + a[1..];
      assert multiset(rest) == multiset(b) - multiset{x};
      FilterCountPermutation(a[1..], rest, p);
      FilterRemoveAt(b, k, p);
    }
  }

  /** Removing one element lowers a filter's count by one if the element passes, and
      leaves it otherwise. */
  lemma FilterRemoveAt<T>(b: seq<T>, k: int, p: T -> bool)
    requires 0 <= k < |b|
    ensures |Filter(b, p)| == |Filter(b[..k] + b[k + 1..], p)| + (if p(b[k]) then 1 else 0)
  {
    var left, right := b[..k], b[k + 1..];
    FilterConcat(left, right, p);
    FilterConcat(left, [b[k]] + right, p);
    assert left + ([b[k]] + right) == b;
    assert ([b[k]] + right)[1..] == right;
  }

  // ---------------------------------------------------------------------------
  // Stable sorting by an integer key

  predicate SortedBy<T>(s: seq<T>, key: T -> int) {
    forall i, j :: 0 <= i < j < |s| ==> key(s[i]) <= key(s[j])
  }

  /** The elements of s whose key is k, in the order of s. */
  function WithKey<T>(s: seq<T>, key: T -> int, k: int): seq<T> {
    if s == [] then []
    else (if key(s[0]) == k then [s[0]] else []) + WithKey(s[1..], key, k)
  }

  /** Inserts x before the first element whose key is not smaller. */
  function InsertBy<T>(x: T, s: seq<T>, key: T -> int): (r: seq<T>)
    ensures |r| == |s| + 1
  {
    if s == [] || key(x) <= key(s[0]) then [x] + s
    else [s[0]] + InsertBy(x, s[1..], key)
  }

  /** Insertion sort: `s.sort((a, b) => key(a) - key(b))` on a copy. */
  function SortBy<T>(s: seq<T>, key: T -> int): (r: seq<T>)
    ensures |r| == |s|
  {
    if s == [] then [] else InsertBy(s[0], SortBy(s[1..], key), key)
  }

  lemma {:induction false} InsertByMultiset<T>(x: T, s: seq<T>, key: T -> int)
    ensures multiset(InsertBy(x, s, key)) == multiset(s) + multiset{x}
  {
    if s != [] && key(s[0]) < key(x) {
      InsertByMultiset(x, s[1..], key);
      assert s == [s[0]] + s[1..];
    }
  }

  lemma {:induction false} InsertBySorted<T>(x: T, s: seq<T>, key: T -> int)
    requires SortedBy(s, key)
    ensures SortedBy(InsertBy(x, s, key), key)
  {
    if s != [] && key(s[0]) < key(x) {
      var r := InsertBy(x, s[1..], key);
      InsertBySorted(x, s[1..], key);
      InsertByLowerBound(x, s[1..], key, key(s[0]));
      assert InsertBy(x, s, key) == [s[0]] + r;
    }
  }

  /** A bound below x and below every key of s is below every key after the insertion. */
  lemma {:induction false} InsertByLowerBound<T>(x: T, s: seq<T>, key: T -> int, b: int)
    requires b <= key(x)
    requires forall i :: 0 <= i < |s| ==> b <= key(s[i])
    ensures forall i :: 0 <= i < |InsertBy(x, s, key)| ==> b <= key(InsertBy(x, s, key)[i])
  {
    if s != [] && key(s[0]) < key(x) {
      InsertByLowerBound(x, s[1..], key, b);
      assert InsertBy(x, s, key) == [s[0]] + InsertBy(x, s[1..], key);
    }
  }

  /** The sorted list is a permutation of the input. */
  lemma {:induction false} SortByPermutation<T>(s: seq<T>, key: T -> int)
    ensures multiset(SortBy(s, key)) == multiset(s)
    ensures |SortBy(s, key)| == |s|
  {
    if s != [] {
      SortByPermutation(s[1..], key);
      InsertByMultiset(s[0], SortBy(s[1..], key), key);
      assert s == [s[0]] + s[1..];
    }
    assert |multiset(SortBy(s, key))| == |SortBy(s, key)|;
  }

  /** Every element of the sorted list comes from the input. */
  lemma SortByElements<T>(s: seq<T>, key: T -> int)
    ensures forall i :: 0 <= i < |SortBy(s, key)| ==> SortBy(s, key)[i] in s
  {
    var r := SortBy(s, key);
    SortByPermutation(s, key);
    forall i | 0 <= i < |r|
      ensures r[i] in s
    {
      assert r[i] in multiset(r);
    }
  }

  /** The sorted list is ordered by key. */
  lemma {:induction false} SortBySorted<T>(s: seq<T>, key: T -> int)
    ensures SortedBy(SortBy(s, key), key)
  {
    if s != [] {
      SortBySorted(s[1..], key);
      InsertBySorted(s[0], SortBy(s[1..], key), key);
    }
  }

  lemma {:induction false} InsertByWithKey<T>(x: T, s: seq<T>, key: T -> int, k: int)
    ensures WithKey(InsertBy(x, s, key), key, k)
            == (if key(x) == k then [x] else []) + WithKey(s, key, k)
  {
    if s == [] || key(x) <= key(s[0]) {
      assert InsertBy(x, s, key)[1..] == s;
    } else {
      InsertByWithKey(x, s[1..], key, k);
      assert InsertBy(x, s, key)[1..] == InsertBy(x, s[1..], key);
    }
  }

  /** Stability: the elements sharing any one key keep their original relative order. */
  lemma {:induction false} SortByStable<T>(s: seq<T>, key: T -> int, k: int)
    ensures WithKey(SortBy(s, key), key, k) == WithKey(s, key, k)
  {
    if s != [] {
      SortByStable(s[1..], key, k);
      InsertByWithKey(s[0], SortBy(s[1..], key), key, k);
    }
  }

  /** Sorting a list that is already in key order leaves it unchanged. */
  lemma {:induction false} SortedInputUnchanged<T>(s: seq<T>, key: T -> int)
    requires SortedBy(s, key)
    ensures SortBy(s, key) == s
  {
    if s != [] {
      SortedInputUnchanged(s[1..], key);
      assert SortBy(s[1..], key) == s[1..];
      if s[1..] != [] {
        assert key(s[0]) <= key(s[1]);
      }
    }
  }
}
