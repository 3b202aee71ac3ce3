/**
 * The array operations of ECMAScript that the chat code chains together
 * (`filter`, `find`, `findIndex`, `slice`), as functions over sequences.
 */
module Seqs {
  import opened Wrappers

  /** `a` is `b` with some elements left out and the rest kept in order. */
  ghost predicate IsSubsequence<T>(a: seq<T>, b: seq<T>)
    decreases |b|
  {
    && |a| <= |b|
    && (a == [] || (b != [] && ((a[0] == b[0] && IsSubsequence(a[1..], b[1..])) || IsSubsequence(a, b[1..]))))
  }

  /** `Array.prototype.filter`: the elements of `s` that satisfy `p`, in their original order. */
  function Filter<T>(s: seq<T>, p: T -> bool): (r: seq<T>)
    ensures |r| <= |s|
    ensures forall i :: 0 <= i < |r| ==> r[i] in s && p(r[i])
    ensures forall i :: 0 <= i < |s| && p(s[i]) ==> s[i] in r
  {
    if s == [] then []
    else if p(s[0]) then [s[0]] + Filter(s[1..], p)
    else Filter(s[1..], p)
  }

  /** A filter keeps the elements it keeps in their order. */
  lemma {:induction false} FilterIsSubsequence<T>(s: seq<T>, p: T -> bool)
    ensures IsSubsequence(Filter(s, p), s)
  {
    if s != [] {
      FilterIsSubsequence(s[1..], p);
    }
  }

  /** Filtering a concatenation filters each part. */
  lemma {:induction false} FilterConcat<T>(a: seq<T>, b: seq<T>, p: T -> bool)
    ensures Filter(a + b, p) == Filter(a, p) + Filter(b, p)
  {
    if a == [] {
      assert a + b == b;
    } else {
      assert (a + b)[0] == a[0];
      assert (a + b)[1..] == a[1..] + b;
      FilterConcat(a[1..], b, p);
    }
  }

  /** The prefix one element longer. */
  lemma PrefixSnoc<T>(s: seq<T>, i: nat)
    requires i < |s|
    ensures s[..i + 1] == s[..i] + [s[i]]
  {
  }

  /** Filtering a non-empty sequence: its first element if it passes, then the filter of the rest. */
  lemma FilterCons<T>(s: seq<T>, p: T -> bool)
    requires s != []
    ensures Filter(s, p) == (if p(s[0]) then [s[0]] else []) + Filter(s[1..], p)
  {
  }

  /** Filtering a sequence with one more element at the end. */
  lemma FilterSnoc<T>(s: seq<T>, x: T, p: T -> bool)
    ensures Filter(s + [x], p) == Filter(s, p) + (if p(x) then [x] else [])
  {
    FilterConcat(s, [x], p);
  }

  /** A filter that every element passes returns the sequence itself. */
  lemma {:induction false} FilterKeepsAll<T>(s: seq<T>, p: T -> bool)
    requires forall i :: 0 <= i < |s| ==> p(s[i])
    ensures Filter(s, p) == s
  {
    if s != [] {
      FilterKeepsAll(s[1..], p);
    }
  }

  /** A filter that exactly the elements at positions a..b-1 pass returns that block. */
  lemma {:induction false} FilterBlock<T>(s: seq<T>, p: T -> bool, a: nat, b: nat)
    requires a <= b <= |s|
    requires forall i :: 0 <= i < |s| ==> (p(s[i]) <==> a <= i < b)
    ensures Filter(s, p) == s[a..b]
    decreases |s|
  {
    if s != [] {
      var rest := s[1..];
      var a', b' := if a > 0 then a - 1 else 0, if b > 0 then b - 1 else 0;
      forall i | 0 <= i < |rest| ensures p(rest[i]) <==> a' <= i < b' {
        assert rest[i] == s[i + 1];
      }
      FilterBlock(rest, p, a', b');
      if p(s[0]) {
        assert Filter(s, p) == [s[0]] + Filter(rest, p);
        TailSlice(s, a, b);
      } else if a < b {
        assert Filter(s, p) == Filter(rest, p);
        TailSlice(s, a, b);
      }
    }
  }

  /** A block of `s` seen from its tail: the block one position further left. */
  lemma TailSlice<T>(s: seq<T>, a: nat, b: nat)
    requires a <= b <= |s| && a < b
    ensures a == 0 ==> s[a..b] == [s[0]] + s[1..][0..b - 1]
    ensures a > 0 ==> s[a..b] == s[1..][a - 1..b - 1]
  {
    if a == 0 {
      assert s[1..][0..b - 1] == s[1..b];
    } else {
      assert s[1..][a - 1..b - 1] == s[a..b];
    }
  }

  /** A filter that no element passes returns nothing. */
  lemma {:induction false} FilterNone<T>(s: seq<T>, p: T -> bool)
    requires forall i :: 0 <= i < |s| ==> !p(s[i])
    ensures Filter(s, p) == []
  {
    if s != [] {
      FilterNone(s[1..], p);
    }
  }

  /** When the first element passes, it is the first element of the filter. */
  lemma FilterHead<T>(s: seq<T>, p: T -> bool)
    requires s != [] && p(s[0])
    ensures Filter(s, p) != [] && Filter(s, p)[0] == s[0]
  {
  }

  /** Filtering twice with the same predicate is filtering once. */
  lemma FilterIdempotent<T>(s: seq<T>, p: T -> bool)
    ensures Filter(Filter(s, p), p) == Filter(s, p)
  {
    FilterKeepsAll(Filter(s, p), p);
  }

  /** The number of elements of `s` that satisfy `p`. */
  function Count<T>(s: seq<T>, p: T -> bool): (n: nat)
    ensures n <= |s|
    ensures n == 0 <==> forall i :: 0 <= i < |s| ==> !p(s[i])
  {
    if s == [] then 0
    else (if p(s[0]) then 1 else 0) + Count(s[1..], p)
  }

  /** Counting over a sequence with one more element at the end. */
  lemma {:induction false} CountSnoc<T>(s: seq<T>, x: T, p: T -> bool)
    ensures Count(s + [x], p) == Count(s, p) + (if p(x) then 1 else 0)
  {
    if s == [] {
      assert s + [x] == [x];
    } else {
      assert (s + [x])[1..] == s[1..] + [x];
      CountSnoc(s[1..], x, p);
    }
  }

  /** A count is the length of the corresponding filter. */
  lemma {:induction false} CountIsFilterLength<T>(s: seq<T>, p: T -> bool)
    ensures Count(s, p) == |Filter(s, p)|
  {
    if s != [] {
      CountIsFilterLength(s[1..], p);
    }
  }

  /** `Array.prototype.findIndex`, with `None` for -1: the first index whose element satisfies `p`. */
  function FindIndex<T>(s: seq<T>, p: T -> bool): (r: Option<nat>)
    ensures r.Some? ==> r.value < |s| && p(s[r.value])
    ensures r.Some? ==> forall j :: 0 <= j < r.value ==> !p(s[j])
    ensures r.None? <==> forall j :: 0 <= j < |s| ==> !p(s[j])
  {
    if s == [] then None
    else if p(s[0]) then Some(0)
    else match FindIndex(s[1..], p)
      case None => None
      case Some(i) => Some(i + 1)
  }

  /** `Array.prototype.find`: the first element that satisfies `p`, `None` for `undefined`. */
  function Find<T>(s: seq<T>, p: T -> bool): (r: Option<T>)
    ensures r.Some? ==> r.value in s && p(r.value)
    ensures r.Some? ==> exists k :: FirstMatch(s, p, k) && r.value == s[k]
    ensures r.None? <==> forall j :: 0 <= j < |s| ==> !p(s[j])
  {
    match FindIndex(s, p)
    case None => None
    case Some(i) => Some(s[i])
  }

  /** `i` is the index `findIndex` returns: the first element that satisfies `p`. */
  predicate FirstMatch<T>(s: seq<T>, p: T -> bool, i: int) {
    0 <= i < |s| && p(s[i]) && forall j :: 0 <= j < i ==> !p(s[j])
  }

  /**
   * `find` followed by an in-place update of the element found: the first
   * element that satisfies `p` becomes `f` of itself, every other element is
   * kept, and nothing changes when no element satisfies `p`.
   */
  function UpdateFirst<T>(s: seq<T>, p: T -> bool, f: T -> T): (r: seq<T>)
    ensures |r| == |s|
    ensures forall i :: 0 <= i < |s| ==> r[i] == if FirstMatch(s, p, i) then f(s[i]) else s[i]
    ensures (forall i :: 0 <= i < |s| ==> !p(s[i])) ==> r == s
  {
    match FindIndex(s, p)
    case None => s
    case Some(k) => s[k := f(s[k])]
  }

  /**
   * `map(x => p(x) ? f(x) : x)`: every element that satisfies `p` becomes `f`
   * of itself, the others are kept.
   */
  function MapWhere<T>(s: seq<T>, p: T -> bool, f: T -> T): (r: seq<T>)
    ensures |r| == |s|
    ensures forall i :: 0 <= i < |s| ==> r[i] == if p(s[i]) then f(s[i]) else s[i]
    ensures (forall i :: 0 <= i < |s| ==> !p(s[i])) ==> r == s
  {
    seq(|s|, i requires 0 <= i < |s| => if p(s[i]) then f(s[i]) else s[i])
  }

  /**
   * On a sequence where at most one element satisfies `p` (a list whose ids
   * are unique, mapped by id), `map` and `find`-then-update agree.
   */
  lemma MapWhereOnUniqueIsUpdateFirst<T>(s: seq<T>, p: T -> bool, f: T -> T)
    requires forall i, j :: 0 <= i < |s| && 0 <= j < |s| && p(s[i]) && p(s[j]) ==> i == j
    ensures MapWhere(s, p, f) == UpdateFirst(s, p, f)
  {
    var m, u := MapWhere(s, p, f), UpdateFirst(s, p, f);
    forall i | 0 <= i < |s| ensures m[i] == u[i] {
      if p(s[i]) {
        assert FirstMatch(s, p, i);
      }
    }
  }

  /**
   * `s.some(y => key(y) === key(x)) ? s.map(y => key(y) === key(x) ? x : y) : [...s, x]`:
   * `x` takes the place of every element with its key, or is appended when none has it.
   */
  function Upsert<T, K(==)>(s: seq<T>, x: T, key: T -> K): (r: seq<T>)
    ensures x in r
    ensures (exists i :: 0 <= i < |s| && key(s[i]) == key(x)) ==> |r| == |s|
    ensures (exists i :: 0 <= i < |s| && key(s[i]) == key(x)) ==>
              forall i :: 0 <= i < |s| ==> r[i] == if key(s[i]) == key(x) then x else s[i]
    ensures (forall i :: 0 <= i < |s| ==> key(s[i]) != key(x)) ==> r == s + [x]
  {
    if exists i :: 0 <= i < |s| && key(s[i]) == key(x) then
      var r := MapWhere(s, (y: T) => key(y) == key(x), (_: T) => x);
      var i :| 0 <= i < |s| && key(s[i]) == key(x);
      assert r[i] == x;
      r
    else s + [x]
  }

  /** No two elements have the same key. */
  predicate UniqueBy<T, K(==)>(s: seq<T>, key: T -> K) {
    forall i, j :: 0 <= i < j < |s| ==> key(s[i]) != key(s[j])
  }

  /** Upserting keeps keys unique: the new element either replaces the one with its key or brings a new key. */
  lemma UpsertKeepsUnique<T, K>(s: seq<T>, x: T, key: T -> K)
    requires UniqueBy(s, key)
    ensures UniqueBy(Upsert(s, x, key), key)
  {
    var r := Upsert(s, x, key);
    if forall i :: 0 <= i < |s| ==> key(s[i]) != key(x) {
      assert forall i :: 0 <= i < |s| ==> r[i] == s[i];
      assert r[|s|] == x;
    } else {
      assert forall i :: 0 <= i < |s| ==> key(r[i]) == key(s[i]);
    }
  }

  /**
   * A relative position of `Array.prototype.slice` turned into an index:
   * a negative position counts back from the end, and the result is clamped to [0, len].
   */
  function SliceBound(pos: int, len: nat): (k: nat)
    ensures k <= len
    ensures 0 <= pos ==> k == (if pos < len then pos else len)
    ensures pos < 0 ==> k == (if len + pos < 0 then 0 else len + pos)
  {
    if pos < 0 then (if len + pos < 0 then 0 else len + pos)
    else if pos < len then pos
    else len
  }

  /** `Array.prototype.slice(start, end)` on integer arguments. */
  function JsSlice<T>(s: seq<T>, start: int, end: int): (r: seq<T>)
    ensures forall i :: 0 <= i < |r| ==> r[i] in s
    ensures 0 <= start <= end ==> |r| <= end - start
    ensures 0 <= start ==> forall i :: 0 <= i < |r| ==> start + i < |s| && r[i] == s[start + i]
    ensures 0 <= start <= |s| && start <= end ==> |r| == (if end < |s| then end else |s|) - start
    ensures SliceBound(start, |s|) + |r| <= |s|
    ensures r == s[SliceBound(start, |s|)..SliceBound(start, |s|) + |r|]
    ensures |r| == if SliceBound(start, |s|) < SliceBound(end, |s|) then SliceBound(end, |s|) - SliceBound(start, |s|) else 0
  {
    var a := SliceBound(start, |s|);
    var b := SliceBound(end, |s|);
    if a < b then s[a..b] else []
  }

  /** On non-negative positions, the end not before the start, `slice` is the infix between them, each cut at the length. */
  lemma SliceInRange<T>(s: seq<T>, start: int, end: int)
    ensures 0 <= start <= end ==>
      JsSlice(s, start, end) == s[(if start < |s| then start else |s|)..(if end < |s| then end else |s|)]
  {
  }

  /** A slice from 0 to a non-negative end is the prefix of that length, or everything. */
  lemma SliceFromStart<T>(s: seq<T>, n: nat)
    ensures JsSlice(s, 0, n) == if n < |s| then s[..n] else s
  {
    assert SliceBound(0, |s|) == 0;
  }

  /** The slice from 0 to 1 of a non-empty sequence is its first element. */
  lemma SliceHead<T>(s: seq<T>)
    requires s != []
    ensures JsSlice(s, 0, 1) == [s[0]]
  {
    assert SliceBound(1, |s|) == 1;
  }

  /**
   * A negative start counts back from the end: `slice(-n)` (end at the
   * length) is the last `n` elements, or everything when `n` exceeds the length.
   */
  lemma SliceFromEnd<T>(s: seq<T>, n: nat)
    requires n > 0
    ensures JsSlice(s, -(n as int), |s|) == if n <= |s| then s[|s| - n..] else s
  {
  }

  /** A slice that ends at position 0 (where `slice` puts NaN) is empty. */
  lemma SliceToZeroEmpty<T>(s: seq<T>, start: int)
    ensures JsSlice(s, start, 0) == []
  {
    assert SliceBound(0, |s|) == 0;
  }
}
