/**
 * Sequences split by a key, as a JavaScript object used as a dictionary
 * builds them: the keys appear in the order they are first met, and each key
 * collects the elements that carry it.
 */
module Keyed {
  import opened Seqs

  /** The elements whose key is `k`. */
  function HasKey<T, K(==,!new)>(key: T -> K, k: K): T -> bool {
    (x: T) => key(x) == k
  }

  /** The keys of the elements, each once, in the order of their first occurrence. */
  function DistinctKeys<T, K(==,!new)>(s: seq<T>, key: T -> K): (r: seq<K>)
    ensures forall k :: k in r <==> exists i :: 0 <= i < |s| && key(s[i]) == k
    ensures forall a, b :: 0 <= a < b < |r| ==> r[a] != r[b]
    decreases |s|
  {
    if s == [] then []
    else
      var init := DistinctKeys(s[..|s| - 1], key);
      assert forall i :: 0 <= i < |s| - 1 ==> s[..|s| - 1][i] == s[i];
      if key(s[|s| - 1]) in init then init else init + [key(s[|s| - 1])]
  }

  /** Extending the sequence by one element extends its keys by that element's key, if new. */
  lemma DistinctKeysSnoc<T, K(!new)>(s: seq<T>, x: T, key: T -> K)
    ensures DistinctKeys(s + [x], key) ==
            if key(x) in DistinctKeys(s, key) then DistinctKeys(s, key) else DistinctKeys(s, key) + [key(x)]
  {
    assert (s + [x])[..|s + [x]| - 1] == s;
  }

  /** A key that no element carries selects nothing. */
  lemma AbsentKeyEmpty<T, K(!new)>(s: seq<T>, key: T -> K, k: K)
    requires k !in DistinctKeys(s, key)
    ensures Filter(s, HasKey(key, k)) == []
  {
  }

  /**
   * `keys` and `counts` are the key order and the record of a tally of `s`:
   * each key present, in the order of its first occurrence, with the number
   * of elements that carry it.
   */
  ghost predicate Tallied<T, K(!new)>(keys: seq<K>, counts: map<K, nat>, s: seq<T>, key: T -> K) {
    && keys == DistinctKeys(s, key)
    && (forall k :: k in counts <==> k in keys)
    && (forall k :: k in counts ==> counts[k] == Count(s, HasKey(key, k)))
  }

  /**
   * One step of a tally `acc[key(x)] = (acc[key(x)] || 0) + 1`, whose key
   * order gains the key when it is new; `keys2` and `counts2` are the tally
   * after the step.
   */
  lemma TallyStep<T, K(!new)>(keys: seq<K>, counts: map<K, nat>, s: seq<T>, x: T, key: T -> K, e: K,
                              keys2: seq<K>, counts2: map<K, nat>)
    requires Tallied(keys, counts, s, key)
    requires e == key(x)
    requires keys2 == if e in counts then keys else keys + [e]
    requires counts2 == counts[e := (if e in counts then counts[e] else 0) + 1]
    ensures Tallied(keys2, counts2, s + [x], key)
  {
    KeyOrderStep(keys, counts, s, x, key, keys2, counts2);
    CountsStep(counts, s, x, key, e, counts2);
  }

  /**
   * The key part of a dictionary-building step: when the dictionary gains the
   * new element's key, its keys stay those of the key order, which a new key
   * joins at the end.
   */
  lemma KeyOrderStep<T, K(!new), V>(keys: seq<K>, dict: map<K, V>, s: seq<T>, x: T, key: T -> K,
                                    keys2: seq<K>, dict2: map<K, V>)
    requires keys == DistinctKeys(s, key)
    requires forall k :: k in dict <==> k in keys
    requires keys2 == if key(x) in dict then keys else keys + [key(x)]
    requires dict2.Keys == dict.Keys + {key(x)}
    ensures keys2 == DistinctKeys(s + [x], key)
    ensures forall k :: k in dict2 <==> k in keys2
  {
    DistinctKeysSnoc(s, x, key);
  }

  /** The record part of a tally step: only the count of the new element's key grows, by one. */
  lemma CountsStep<T, K(!new)>(counts: map<K, nat>, s: seq<T>, x: T, key: T -> K, e: K, counts2: map<K, nat>)
    requires forall k :: k in counts <==> k in DistinctKeys(s, key)
    requires forall k :: k in counts ==> counts[k] == Count(s, HasKey(key, k))
    requires e == key(x)
    requires counts2 == counts[e := (if e in counts then counts[e] else 0) + 1]
    ensures forall k :: k in counts2 ==> counts2[k] == Count(s + [x], HasKey(key, k))
  {
    if e !in counts {
      AbsentKeyEmpty(s, key, e);
      CountIsFilterLength(s, HasKey(key, e));
    }
    forall k | k in counts2 ensures counts2[k] == Count(s + [x], HasKey(key, k)) {
      CountSnoc(s, x, HasKey(key, k));
      if k != e {
        assert counts2[k] == counts[k];
      }
    }
  }

  /** A tally holds exactly the keys present, each with a count of at least one. */
  lemma TalliedMeaning<T, K(!new)>(keys: seq<K>, counts: map<K, nat>, s: seq<T>, key: T -> K)
    requires Tallied(keys, counts, s, key)
    ensures forall k :: k in counts <==> exists i :: 0 <= i < |s| && key(s[i]) == k
    ensures forall k :: k in counts ==> counts[k] >= 1
  {
    forall k | k in counts ensures counts[k] >= 1 {
      var i :| 0 <= i < |s| && key(s[i]) == k;
      assert HasKey(key, k)(s[i]);
    }
  }

  /** The total of the counts of the keys in `ks`. */
  function CountSum<T, K(==,!new)>(s: seq<T>, key: T -> K, ks: seq<K>): nat
    decreases |ks|
  {
    if ks == [] then 0 else Count(s, HasKey(key, ks[0])) + CountSum(s, key, ks[1..])
  }

  /** One more element raises the total over distinct keys by one when its key is among them. */
  lemma {:induction false} CountSumSnoc<T, K(!new)>(s: seq<T>, x: T, key: T -> K, ks: seq<K>)
    requires forall a, b :: 0 <= a < b < |ks| ==> ks[a] != ks[b]
    ensures CountSum(s + [x], key, ks) == CountSum(s, key, ks) + (if key(x) in ks then 1 else 0)
    decreases |ks|
  {
    if ks != [] {
      CountSnoc(s, x, HasKey(key, ks[0]));
      CountSumSnoc(s, x, key, ks[1..]);
      assert key(x) in ks <==> key(x) == ks[0] || key(x) in ks[1..];
      assert key(x) == ks[0] ==> key(x) !in ks[1..];
    }
  }

  /** The total over keys with one more key at the end. */
  lemma {:induction false} CountSumAppend<T, K(!new)>(s: seq<T>, key: T -> K, ks: seq<K>, k: K)
    ensures CountSum(s, key, ks + [k]) == CountSum(s, key, ks) + Count(s, HasKey(key, k))
    decreases |ks|
  {
    if ks == [] {
      assert ks + [k] == [k];
    } else {
      assert (ks + [k])[1..] == ks[1..] + [k];
      CountSumAppend(s, key, ks[1..], k);
    }
  }

  /** The counts of the distinct keys add up to the length: every element is counted under exactly one key. */
  lemma {:induction false} CountsSumToLength<T, K(!new)>(s: seq<T>, key: T -> K)
    ensures CountSum(s, key, DistinctKeys(s, key)) == |s|
    decreases |s|
  {
    if s != [] {
      var init, x := s[..|s| - 1], s[|s| - 1];
      assert s == init + [x];
      var ks := DistinctKeys(init, key);
      CountsSumToLength(init, key);
      DistinctKeysSnoc(init, x, key);
      CountSumSnoc(init, x, key, ks);
      if key(x) !in ks {
        CountSumAppend(s, key, ks, key(x));
        assert Count(init, HasKey(key, key(x))) == 0;
        CountSnoc(init, x, HasKey(key, key(x)));
      }
    }
  }
}
