/**
 * `Array.prototype.sort` with a numeric comparator `(a, b) => key(a) - key(b)`.
 * ECMAScript has required this sort to be stable since its 2019 edition, so
 * elements with equal keys keep their relative order. The model is an
 * insertion sort that inserts each element before every element whose key is
 * not smaller than its own.
 */
module Sorting {
  import opened Seqs

  /** Keys never decrease along `s`. */
  ghost predicate SortedBy<T>(s: seq<T>, key: T -> int) {
    forall i, j :: 0 <= i < j < |s| ==> key(s[i]) <= key(s[j])
  }

  /** The predicate "has key `k`", used to compare the runs of equal keys. */
  function KeyIs<T>(key: T -> int, k: int): T -> bool {
    x => key(x) == k
  }

  /** A contiguous part of a sorted sequence is sorted. */
  lemma SortedSlice<T>(s: seq<T>, key: T -> int, a: nat, b: nat)
    requires SortedBy(s, key) && a <= b <= |s|
    ensures SortedBy(s[a..b], key)
  {
    forall i, j | 0 <= i < j < b - a ensures key(s[a..b][i]) <= key(s[a..b][j]) {
      assert s[a..b][i] == s[a + i] && s[a..b][j] == s[a + j];
    }
  }

  /** The first `n` of the sorted sequence: at most `n` elements of the input, in key order. */
  lemma SortedHead<T>(s: seq<T>, key: T -> int, n: nat)
    ensures var r := JsSlice(SortBy(s, key), 0, n);
            && |r| <= n
            && (forall i :: 0 <= i < |r| ==> r[i] in s)
            && SortedBy(r, key)
  {
    var sorted := SortBy(s, key);
    SortBySorted(s, key);
    SortByElements(s, key);
    SliceFromStart(sorted, n);
    if n < |sorted| {
      SortedSlice(sorted, key, 0, n);
      assert sorted[0..n] == sorted[..n];
    }
  }

  /** Puts `x` in front of the first element of `s` whose key is at least key(x). */
  function Insert<T>(x: T, s: seq<T>, key: T -> int): (r: seq<T>)
    ensures |r| == |s| + 1
    ensures multiset(r) == multiset(s) + multiset{x}
  {
    if s == [] || key(x) <= key(s[0]) then [x] + s
    else
      assert s == [s[0]] + s[1..];
      [s[0]] + Insert(x, s[1..], key)
  }

  /** Sorts `s` by ascending key, stably. */
  function SortBy<T>(s: seq<T>, key: T -> int): (r: seq<T>)
    ensures |r| == |s|
    ensures multiset(r) == multiset(s)
  {
    if s == [] then []
    else
      assert s == [s[0]] + s[1..];
      Insert(s[0], SortBy(s[1..], key), key)
  }

  /** Every element of the sorted sequence comes from the input. */
  lemma SortByElements<T>(s: seq<T>, key: T -> int)
    ensures forall i :: 0 <= i < |SortBy(s, key)| ==> SortBy(s, key)[i] in s
  {
    var r := SortBy(s, key);
    forall i | 0 <= i < |r| ensures r[i] in s {
      assert r[i] in multiset(r);
    }
  }

  /** Every element of `Insert(x, s, key)` is `x` or an element of `s`. */
  lemma InsertElements<T>(x: T, s: seq<T>, key: T -> int)
    ensures forall i :: 0 <= i < |Insert(x, s, key)| ==> Insert(x, s, key)[i] == x || Insert(x, s, key)[i] in s
  {
    var r := Insert(x, s, key);
    forall i | 0 <= i < |r| ensures r[i] == x || r[i] in s {
      assert r[i] in multiset(r);
    }
  }

  /** Inserting into a sorted sequence keeps it sorted. */
  lemma {:induction false} InsertSorted<T>(x: T, s: seq<T>, key: T -> int)
    requires SortedBy(s, key)
    ensures SortedBy(Insert(x, s, key), key)
  {
    if s != [] && key(s[0]) < key(x) {
      var t := Insert(x, s[1..], key);
      InsertSorted(x, s[1..], key);
      InsertElements(x, s[1..], key);
      assert forall i :: 0 <= i < |t| ==> key(s[0]) <= key(t[i]);
    }
  }

  /** `SortBy` sorts. */
  lemma {:induction false} SortBySorted<T>(s: seq<T>, key: T -> int)
    ensures SortedBy(SortBy(s, key), key)
  {
    if s != [] {
      SortBySorted(s[1..], key);
      InsertSorted(s[0], SortBy(s[1..], key), key);
    }
  }

  /** Inserting `x` puts it ahead of every element with the same key. */
  lemma {:induction false} InsertStable<T>(x: T, s: seq<T>, key: T -> int, k: int)
    ensures Filter(Insert(x, s, key), KeyIs(key, k)) == (if key(x) == k then [x] else []) + Filter(s, KeyIs(key, k))
  {
    var p := KeyIs(key, k);
    if s == [] || key(x) <= key(s[0]) {
      assert ([x] + s)[1..] == s;
    } else {
      InsertStable(x, s[1..], key, k);
      assert ([s[0]] + Insert(x, s[1..], key))[1..] == Insert(x, s[1..], key);
    }
  }

  /** Stability: for every key, the elements with that key appear in the same order before and after sorting. */
  lemma {:induction false} SortByStable<T>(s: seq<T>, key: T -> int, k: int)
    ensures Filter(SortBy(s, key), KeyIs(key, k)) == Filter(s, KeyIs(key, k))
  {
    if s != [] {
      SortByStable(s[1..], key, k);
      InsertStable(s[0], SortBy(s[1..], key), key, k);
    }
  }

  /**
   * When `t` is the least key, the sorted sequence starts with the first
   * element of key `t` in input order.
   */
  lemma SortedStartsWithFirstLeast<T>(f: seq<T>, key: T -> int, t: int)
    requires exists i :: 0 <= i < |f| && key(f[i]) == t
    requires forall i :: 0 <= i < |f| ==> t <= key(f[i])
    ensures SortBy(f, key) != []
    ensures Filter(f, KeyIs(key, t)) != [] && Filter(f, KeyIs(key, t))[0] == SortBy(f, key)[0]
  {
    var s := SortBy(f, key);
    SortBySorted(f, key);
    var i :| 0 <= i < |f| && key(f[i]) == t;
    assert f[i] in multiset(s);
    var j :| 0 <= j < |s| && s[j] == f[i];
    assert key(s[0]) == t by {
      assert s[0] in multiset(f);
    }
    SortByStable(f, key, t);
    FilterHead(s, KeyIs(key, t));
  }

  /** The run of the first element's key is never empty. */
  lemma HeadRunNonEmpty<T>(s: seq<T>, key: T -> int)
    requires s != []
    ensures Filter(s, KeyIs(key, key(s[0]))) != []
  {
    assert s[0] in Filter(s, KeyIs(key, key(s[0])));
  }

  /**
   * Sortedness together with stability pins the result down: any sequence
   * that is sorted by `key` and has the same run of elements for every key
   * as `s` is exactly `SortBy(s, key)`.
   */
  lemma {:induction false} SortedRunsDetermine<T>(a: seq<T>, b: seq<T>, key: T -> int)
    requires SortedBy(a, key) && SortedBy(b, key)
    requires forall k :: Filter(a, KeyIs(key, k)) == Filter(b, KeyIs(key, k))
    ensures a == b
    decreases |a| + |b|
  {
    if a == [] || b == [] {
      // a first element on one side would have no partner on the empty side
      if a != [] {
        HeadRunNonEmpty(a, key);
        assert false;
      } else if b != [] {
        HeadRunNonEmpty(b, key);
        assert false;
      }
    } else {
      var ka, kb := key(a[0]), key(b[0]);
      // the smallest key of a occurs in b, so kb <= ka, and symmetrically
      assert a[0] in Filter(a, KeyIs(key, ka));
      assert a[0] in Filter(b, KeyIs(key, ka));
      assert b[0] in Filter(a, KeyIs(key, kb));
      assert ka == kb;
      assert Filter(a, KeyIs(key, ka))[0] == a[0];
      assert Filter(b, KeyIs(key, ka))[0] == b[0];
      assert a[0] == b[0];
      forall k ensures Filter(a[1..], KeyIs(key, k)) == Filter(b[1..], KeyIs(key, k)) {
        var fa, fb := Filter(a, KeyIs(key, k)), Filter(b, KeyIs(key, k));
        assert fa == fb;
        FilterCons(a, KeyIs(key, k));
        FilterCons(b, KeyIs(key, k));
        if key(a[0]) == k {
          assert Filter(a[1..], KeyIs(key, k)) == fa[1..];
          assert Filter(b[1..], KeyIs(key, k)) == fb[1..];
        }
      }
      SortedRunsDetermine(a[1..], b[1..], key);
      assert a == [a[0]] + a[1..];
      assert b == [b[0]] + b[1..];
    }
  }
}
