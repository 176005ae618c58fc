/** First-occurrence deduplication by a key, the policy every scanner
    variant applies with a Python set of keys it has already seen: walk the
    items in order, keep an item when its key is not yet in the set, then add
    the key. Sequences are built from the back (`s[..|s| - 1]` and the last
    item) so that a loop over a prefix can be tied to them step by step. */
module Dedup {

  /** The set of keys of the items of s. */
  function KeysOf<T, K(==)>(s: seq<T>, key: T -> K): set<K>
  {
    if |s| == 0 then {} else KeysOf(s[..|s| - 1], key) + {key(s[|s| - 1])}
  }

  /** No two items of s share a key. */
  predicate Distinct<T, K(==)>(s: seq<T>, key: T -> K)
  {
    forall i, j :: 0 <= i < j < |s| ==> key(s[i]) != key(s[j])
  }

  /** The items of s whose key has not occurred earlier in s, in order. */
  function UniqueBy<T, K(==)>(s: seq<T>, key: T -> K): seq<T>
  {
    if |s| == 0 then []
    else if key(s[|s| - 1]) in KeysOf(s[..|s| - 1], key) then UniqueBy(s[..|s| - 1], key)
    else UniqueBy(s[..|s| - 1], key) + [s[|s| - 1]]
  }

  /** The position of the first item of s whose key is k. */
  function FirstIndex<T, K(==)>(s: seq<T>, key: T -> K, k: K): (i: nat)
    requires k in KeysOf(s, key)
    ensures i < |s| && key(s[i]) == k
    ensures k !in KeysOf(s[..i], key)
  {
    var n := |s| - 1;
    if k in KeysOf(s[..n], key) then
      var i := FirstIndex(s[..n], key, k);
      assert s[..n][..i] == s[..i];
      i
    else
      assert s[..n] == s[..n];
      n
  }

  lemma KeysOfSnoc<T, K>(s: seq<T>, x: T, key: T -> K)
    ensures KeysOf(s + [x], key) == KeysOf(s, key) + {key(x)}
  {
    assert (s + [x])[..|s|] == s;
  }

  lemma UniqueBySnoc<T, K>(s: seq<T>, x: T, key: T -> K)
    ensures UniqueBy(s + [x], key) ==
      if key(x) in KeysOf(s, key) then UniqueBy(s, key) else UniqueBy(s, key) + [x]
  {
    assert (s + [x])[..|s|] == s;
  }

  /** One step of a loop over s: the prefix up to i + 1 against the prefix up to i. */
  lemma PrefixStep<T, K>(s: seq<T>, i: nat, key: T -> K)
    requires i < |s|
    ensures KeysOf(s[..i + 1], key) == KeysOf(s[..i], key) + {key(s[i])}
    ensures UniqueBy(s[..i + 1], key) ==
      if key(s[i]) in KeysOf(s[..i], key) then UniqueBy(s[..i], key) else UniqueBy(s[..i], key) + [s[i]]
  {
    assert s[..i + 1] == s[..i] + [s[i]];
    KeysOfSnoc(s[..i], s[i], key);
    UniqueBySnoc(s[..i], s[i], key);
  }

  lemma FirstIndexSnoc<T, K>(s: seq<T>, x: T, key: T -> K, k: K)
    requires k in KeysOf(s, key)
    ensures k in KeysOf(s + [x], key)
    ensures FirstIndex(s + [x], key, k) == FirstIndex(s, key, k)
  {
    KeysOfSnoc(s, x, key);
    assert (s + [x])[..|s|] == s;
  }

  /** Every key of an item of s is in KeysOf(s). */
  lemma {:induction false} KeysOfContains<T, K>(s: seq<T>, key: T -> K, i: nat)
    requires i < |s|
    ensures key(s[i]) in KeysOf(s, key)
  {
    if i < |s| - 1 {
      KeysOfContains(s[..|s| - 1], key, i);
    }
  }

  /** UniqueBy keeps one item per key of s, and no two with the same key. */
  lemma {:induction false} UniqueByKeys<T, K>(s: seq<T>, key: T -> K)
    ensures Distinct(UniqueBy(s, key), key)
    ensures KeysOf(UniqueBy(s, key), key) == KeysOf(s, key)
  {
    if |s| > 0 {
      var n := |s| - 1;
      var p, x := s[..n], s[n];
      assert s == p + [x];
      UniqueByKeys(p, key);
      var u := UniqueBy(p, key);
      KeysOfSnoc(p, x, key);
      KeysOfSnoc(u, x, key);
      UniqueBySnoc(p, x, key);
      if key(x) !in KeysOf(p, key) {
        DistinctSnoc(u, x, key);
      }
    }
  }

  /** Each item UniqueBy keeps is the first item of s with its key. */
  lemma {:induction false} UniqueByFirst<T, K>(s: seq<T>, key: T -> K)
    ensures forall i :: 0 <= i < |UniqueBy(s, key)| ==>
              key(UniqueBy(s, key)[i]) in KeysOf(s, key) &&
              UniqueBy(s, key)[i] == s[FirstIndex(s, key, key(UniqueBy(s, key)[i]))]
  {
    if |s| > 0 {
      var n := |s| - 1;
      var p, x := s[..n], s[n];
      assert s == p + [x];
      UniqueByFirst(p, key);
      var u := UniqueBy(p, key);
      KeysOfSnoc(p, x, key);
      UniqueBySnoc(p, x, key);
      var r := UniqueBy(s, key);
      forall i | 0 <= i < |r|
        ensures key(r[i]) in KeysOf(s, key) && r[i] == s[FirstIndex(s, key, key(r[i]))]
      {
        if i < |u| {
          assert r[i] == u[i];
          FirstIndexSnoc(p, x, key, key(u[i]));
          assert s[FirstIndex(p, key, key(u[i]))] == p[FirstIndex(p, key, key(u[i]))];
        } else {
          assert r[i] == x && key(x) !in KeysOf(p, key);
          assert FirstIndex(s, key, key(x)) == n;
        }
      }
    }
  }

  /** UniqueBy lists the keys in the order of their first occurrence in s. */
  lemma {:induction false} UniqueByOrder<T, K>(s: seq<T>, key: T -> K)
    ensures forall i, j :: 0 <= i < j < |UniqueBy(s, key)| ==>
              key(UniqueBy(s, key)[i]) in KeysOf(s, key) &&
              key(UniqueBy(s, key)[j]) in KeysOf(s, key) &&
              FirstIndex(s, key, key(UniqueBy(s, key)[i])) < FirstIndex(s, key, key(UniqueBy(s, key)[j]))
  {
    if |s| > 0 {
      var n := |s| - 1;
      var p, x := s[..n], s[n];
      assert s == p + [x];
      UniqueByOrder(p, key);
      UniqueByFirst(p, key);
      var u := UniqueBy(p, key);
      KeysOfSnoc(p, x, key);
      UniqueBySnoc(p, x, key);
      var r := UniqueBy(s, key);
      forall i, j | 0 <= i < j < |r|
        ensures key(r[i]) in KeysOf(s, key) && key(r[j]) in KeysOf(s, key) &&
                FirstIndex(s, key, key(r[i])) < FirstIndex(s, key, key(r[j]))
      {
        assert r[i] == u[i];
        FirstIndexSnoc(p, x, key, key(u[i]));
        if j < |u| {
          assert r[j] == u[j];
          FirstIndexSnoc(p, x, key, key(u[j]));
        } else {
          assert r[j] == x && key(x) !in KeysOf(p, key);
          assert FirstIndex(s, key, key(x)) == n;
        }
      }
    } else {
      assert UniqueBy(s, key) == [];
    }
  }

  /** The intra-frame and per-run deduplication policy: UniqueBy keeps
      exactly one item per key of s, namely the first one, in the order in
      which the keys first occur in s. */
  lemma UniqueByFirstOccurrences<T, K>(s: seq<T>, key: T -> K)
    ensures Distinct(UniqueBy(s, key), key)
    ensures KeysOf(UniqueBy(s, key), key) == KeysOf(s, key)
    ensures forall i :: 0 <= i < |UniqueBy(s, key)| ==>
              key(UniqueBy(s, key)[i]) in KeysOf(s, key) &&
              UniqueBy(s, key)[i] == s[FirstIndex(s, key, key(UniqueBy(s, key)[i]))]
    ensures forall i, j :: 0 <= i < j < |UniqueBy(s, key)| ==>
              key(UniqueBy(s, key)[i]) in KeysOf(s, key) &&
              key(UniqueBy(s, key)[j]) in KeysOf(s, key) &&
              FirstIndex(s, key, key(UniqueBy(s, key)[i])) < FirstIndex(s, key, key(UniqueBy(s, key)[j]))
  {
    UniqueByKeys(s, key);
    UniqueByFirst(s, key);
    UniqueByOrder(s, key);
  }

  /** Appending an item with a new key keeps the keys distinct. */
  lemma DistinctSnoc<T, K>(s: seq<T>, x: T, key: T -> K)
    requires Distinct(s, key) && key(x) !in KeysOf(s, key)
    ensures Distinct(s + [x], key)
  {
    forall i | 0 <= i < |s| ensures key(s[i]) != key(x) {
      KeysOfContains(s, key, i);
    }
  }

  /** A sequence whose keys are distinct has as many keys as items. */
  lemma {:induction false} DistinctKeysCount<T, K>(s: seq<T>, key: T -> K)
    requires Distinct(s, key)
    ensures |KeysOf(s, key)| == |s|
  {
    if |s| > 0 {
      var p := s[..|s| - 1];
      DistinctKeysCount(p, key);
      if key(s[|s| - 1]) in KeysOf(p, key) {
        var i := FirstIndex(p, key, key(s[|s| - 1]));
        assert false;
      }
    }
  }

  /** The number of items UniqueBy keeps is the number of distinct keys. */
  lemma UniqueByCount<T, K>(s: seq<T>, key: T -> K)
    ensures |UniqueBy(s, key)| == |KeysOf(s, key)|
  {
    UniqueByFirstOccurrences(s, key);
    DistinctKeysCount(UniqueBy(s, key), key);
  }

  /** Deduplicating a sequence that already has distinct keys changes nothing. */
  lemma {:induction false} UniqueByDistinct<T, K>(s: seq<T>, key: T -> K)
    requires Distinct(s, key)
    ensures UniqueBy(s, key) == s
  {
    if |s| > 0 {
      var p := s[..|s| - 1];
      UniqueByDistinct(p, key);
      if key(s[|s| - 1]) in KeysOf(p, key) {
        var i := FirstIndex(p, key, key(s[|s| - 1]));
        assert false;
      }
      assert p + [s[|s| - 1]] == s;
    }
  }

  lemma {:induction false} KeysOfAppend<T, K>(a: seq<T>, b: seq<T>, key: T -> K)
    ensures KeysOf(a + b, key) == KeysOf(a, key) + KeysOf(b, key)
    decreases |b|
  {
    if |b| > 0 {
      var p := b[..|b| - 1];
      assert a + b == (a + p) + [b[|b| - 1]];
      KeysOfSnoc(a + p, b[|b| - 1], key);
      KeysOfAppend(a, p, key);
    } else {
      assert a + b == a;
    }
  }
}
