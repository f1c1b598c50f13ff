/**
 * `[...xs].sort((a, b) => key(a) - key(b))`: JavaScript's `Array.prototype.sort`
 * is stable, so it is modelled as a stable insertion sort by a numeric key.
 * Used for the violator notification (by tickets) and the summary report
 * (by average tickets).
 */
module Sorting {

  predicate SortedBy<T>(s: seq<T>, key: T -> real)
  {
    forall i, j :: 0 <= i < j < |s| ==> key(s[i]) <= key(s[j])
  }

  /** Inserts `x` after every element whose key is not greater than its own. */
  function Insert<T>(x: T, s: seq<T>, key: T -> real): (r: seq<T>)
    ensures |r| == |s| + 1
    ensures multiset(r) == multiset(s) + multiset{x}
    ensures forall k :: 0 <= k < |r| ==> r[k] == x || r[k] in s
  {
    if s == [] then [x]
    else if key(x) < key(s[0]) then [x] + s
    else
      assert s == [s[0]] + s[1..];
      [s[0]] + Insert(x, s[1..], key)
  }

  /** A sorted sequence stays sorted under a head no greater than any of
      its elements. */
  lemma ConsSorted<T>(h: T, s: seq<T>, key: T -> real)
    requires SortedBy(s, key)
    requires forall k :: 0 <= k < |s| ==> key(h) <= key(s[k])
    ensures SortedBy([h] + s, key)
  {
    var r := [h] + s;
    forall i, j | 0 <= i < j < |r| ensures key(r[i]) <= key(r[j]) {
      assert r[j] == s[j - 1];
      if i > 0 { assert r[i] == s[i - 1]; }
    }
  }

  lemma {:induction false} InsertSorted<T>(x: T, s: seq<T>, key: T -> real)
    requires SortedBy(s, key)
    ensures SortedBy(Insert(x, s, key), key)
  {
    if s == [] {
      assert Insert(x, s, key) == [x];
    } else if key(x) < key(s[0]) {
      ConsSorted(x, s, key);
    } else {
      var rest := s[1..];
      var tail := Insert(x, rest, key);
      assert SortedBy(rest, key) by {
        forall i, j | 0 <= i < j < |rest| ensures key(rest[i]) <= key(rest[j]) {
          assert rest[i] == s[i + 1] && rest[j] == s[j + 1];
        }
      }
      InsertSorted(x, rest, key);
      forall k | 0 <= k < |tail| ensures key(s[0]) <= key(tail[k]) {
        if tail[k] != x {
          var m :| 0 <= m < |rest| && rest[m] == tail[k];
          assert rest[m] == s[m + 1];
        }
      }
      ConsSorted(s[0], tail, key);
      assert Insert(x, s, key) == [s[0]] + tail;
    }
  }

  /** The stable ascending sort of `s` by `key`: sorted, and a permutation. */
  function SortBy<T>(s: seq<T>, key: T -> real): (r: seq<T>)
    ensures |r| == |s|
    ensures multiset(r) == multiset(s)
    ensures SortedBy(r, key)
  {
    if s == [] then []
    else
      assert s == s[..|s| - 1] + [s[|s| - 1]];
      var init := SortBy(s[..|s| - 1], key);
      InsertSorted(s[|s| - 1], init, key);
      Insert(s[|s| - 1], init, key)
  }

  /** `s.reduce((sum, x) => sum + f(x), 0)`. */
  function SumBy<T>(s: seq<T>, f: T -> int): int
  {
    if s == [] then 0 else f(s[0]) + SumBy(s[1..], f)
  }

  lemma {:induction false} SumByAppend<T>(a: seq<T>, b: seq<T>, f: T -> int)
    ensures SumBy(a + b, f) == SumBy(a, f) + SumBy(b, f)
  {
    if a == [] {
      assert a + b == b;
    } else {
      assert (a + b)[1..] == a[1..] + b;
      SumByAppend(a[1..], b, f);
    }
  }

  lemma {:induction false} SumByInsert<T>(x: T, s: seq<T>, key: T -> real, f: T -> int)
    ensures SumBy(Insert(x, s, key), f) == f(x) + SumBy(s, f)
  {
    if s != [] && key(x) >= key(s[0]) {
      SumByInsert(x, s[1..], key, f);
      assert ([s[0]] + Insert(x, s[1..], key))[1..] == Insert(x, s[1..], key);
    }
  }

  /** Sorting does not change a sum over the elements. */
  lemma {:induction false} SumBySort<T>(s: seq<T>, key: T -> real, f: T -> int)
    ensures SumBy(SortBy(s, key), f) == SumBy(s, f)
  {
    if s != [] {
      var init := s[..|s| - 1];
      var last := s[|s| - 1];
      assert init + [last] == s;
      assert SortBy(s, key) == Insert(last, SortBy(init, key), key);
      SumBySort(init, key, f);
      SumByInsert(last, SortBy(init, key), key, f);
      SumByAppend(init, [last], f);
    }
  }

  /** Every term at least `lo` makes the sum at least `lo` times the length. */
  lemma {:induction false} SumByLowerBound<T>(s: seq<T>, f: T -> int, lo: int)
    requires forall k :: 0 <= k < |s| ==> f(s[k]) >= lo
    ensures SumBy(s, f) >= lo * |s|
  {
    if s != [] {
      assert forall k :: 0 <= k < |s[1..]| ==> f(s[1..][k]) >= lo by {
        forall k | 0 <= k < |s[1..]| ensures f(s[1..][k]) >= lo {
          assert s[1..][k] == s[k + 1];
        }
      }
      SumByLowerBound(s[1..], f, lo);
    }
  }

  // ---------------------------------------------------------------------
  // Sums and bags that do not depend on an order

  /** The sum of `f` over a bag, taking its elements in any order. */
  ghost function SumOf<T>(b: multiset<T>, f: T -> int): int
    decreases |b|
  {
    if b == multiset{} then 0
    else
      var x :| x in b;
      f(x) + SumOf(b - multiset{x}, f)
  }

  /** Any element can be taken first. */
  lemma SumOfRemove<T>(b: multiset<T>, f: T -> int, x: T)
    requires x in b
    ensures SumOf(b, f) == f(x) + SumOf(b - multiset{x}, f)
    decreases |b|, 1
  {
    var y :| y in b && SumOf(b, f) == f(y) + SumOf(b - multiset{y}, f);
    if y != x {
      SumOfSwap(b, f, x, y);
    }
  }

  /** Taking `y` then `x` sums like taking `x` then `y`. */
  lemma SumOfSwap<T>(b: multiset<T>, f: T -> int, x: T, y: T)
    requires x in b && y in b && x != y
    ensures f(y) + SumOf(b - multiset{y}, f) == f(x) + SumOf(b - multiset{x}, f)
    decreases |b|, 0
  {
    var rest := b - multiset{x} - multiset{y};
    assert b - multiset{y} - multiset{x} == rest;
    SumOfRemove(b - multiset{y}, f, x);
    SumOfRemove(b - multiset{x}, f, y);
  }

  /** A sum over a sequence is the sum over its bag of elements, whatever
      their order. */
  lemma {:induction false} SumByIsSumOf<T>(s: seq<T>, f: T -> int)
    ensures SumBy(s, f) == SumOf(multiset(s), f)
  {
    if s != [] {
      SumByIsSumOf(s[1..], f);
      assert s == [s[0]] + s[1..];
      assert multiset(s) - multiset{s[0]} == multiset(s[1..]);
      SumOfRemove(multiset(s), f, s[0]);
    }
  }

  /** The values of a map, each as often as keys map to it. */
  ghost function Bag<K, V>(m: map<K, V>): multiset<V>
    decreases m.Keys
  {
    if m.Keys == {} then multiset{}
    else
      var k :| k in m;
      Bag(m - {k}) + multiset{m[k]}
  }

  /** Any key can be taken first. */
  lemma BagRemove<K, V>(m: map<K, V>, k: K)
    requires k in m
    ensures Bag(m) == Bag(m - {k}) + multiset{m[k]}
    decreases m.Keys
  {
    var j :| j in m && Bag(m) == Bag(m - {j}) + multiset{m[j]};
    if j != k {
      var rest := m - {j} - {k};
      assert k in m - {j} && j in m - {k};
      assert m - {k} - {j} == rest;
      BagRemove(m - {j}, k);
      BagRemove(m - {k}, j);
    }
  }

  /** A value is in the bag iff some key maps to it. */
  lemma BagHas<K, V>(m: map<K, V>)
    ensures forall v :: v in Bag(m) <==> exists k :: k in m && m[k] == v
    decreases m.Keys
  {
    if m.Keys != {} {
      var k :| k in m;
      var rest := m - {k};
      BagRemove(m, k);
      BagHas(rest);
      forall v ensures v in Bag(m) <==> exists j :: j in m && m[j] == v {
        if v in Bag(m) && v != m[k] {
          var j :| j in rest && rest[j] == v;
          assert j in m && m[j] == v;
        }
        if v !in Bag(m) {
          forall j | j in m ensures m[j] != v {
            if j != k { assert j in rest && rest[j] == m[j]; }
          }
        }
      }
    }
  }
}
