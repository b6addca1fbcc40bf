/** A bounded least-recently-used map, as the caching shaper uses it for its
    font cache and its shape cache. The cache is a value: the shaper keeps it
    in a field and replaces it on every access. `order` lists the keys from
    the least recently used to the most recently used. */
module Lru {
  import opened Wrappers

  datatype Cache<K(!new), V> = Cache(capacity: nat, entries: map<K, V>, order: seq<K>)
  {
    /** The recency order lists every key exactly once and never more keys
        than the capacity allows. */
    ghost predicate Valid() {
      && capacity > 0
      && |order| <= capacity
      && Distinct(order)
      && (forall k :: k in entries <==> k in order)
    }
  }

  ghost predicate Distinct<K>(s: seq<K>) {
    forall i, j :: 0 <= i < j < |s| ==> s[i] != s[j]
  }

  /** `s` with `k` taken out and the other keys in their order. */
  function Without<K(==, !new)>(s: seq<K>, k: K): (r: seq<K>)
    ensures forall x :: x in r <==> x in s && x != k
    ensures Distinct(s) ==> Distinct(r)
    ensures Distinct(s) && k in s ==> |r| == |s| - 1
    ensures k !in s ==> r == s
  {
    if s == [] then []
    else if s[0] == k then Without(s[1..], k)
    else
      var rest := Without(s[1..], k);
      assert Distinct(s) ==> s[0] !in rest by {
        assert Distinct(s) ==> s[0] !in s[1..];
      }
      [s[0]] + rest
  }

  lemma {:induction false} DistinctCardinality<K>(s: seq<K>)
    requires Distinct(s)
    ensures |set x | x in s| == |s|
  {
    if s != [] {
      DistinctCardinality(s[1..]);
      assert (set x | x in s) == (set x | x in s[1..]) + {s[0]};
      assert s[0] !in s[1..];
    }
  }

  /** A valid cache holds exactly as many entries as its recency order lists,
      hence never more than its capacity. */
  lemma SizeIsOrderLength<K(!new), V>(c: Cache<K, V>)
    requires c.Valid()
    ensures |c.entries| == |c.order| <= c.capacity
  {
    assert c.entries.Keys == set x | x in c.order;
    DistinctCardinality(c.order);
  }

  /** `LruCache::new(capacity)`: an empty cache. */
  function New<K(!new), V>(capacity: nat): (c: Cache<K, V>)
    requires capacity > 0
    ensures c.Valid() && c.capacity == capacity && |c.entries| == 0
  {
    Cache(capacity, map[], [])
  }

  /** `LruCache::contains`: membership, without touching the recency order. */
  function Contains<K(!new), V>(c: Cache<K, V>, k: K): bool
  {
    k in c.entries
  }

  /** `LruCache::get`: the stored value, if any; a hit makes `k` the most
      recently used key and changes nothing else. */
  function Get<K(!new), V>(c: Cache<K, V>, k: K): (r: (Option<V>, Cache<K, V>))
    requires c.Valid()
    ensures r.1.Valid() && r.1.capacity == c.capacity && r.1.entries == c.entries
    ensures k in c.entries ==> r.0 == Some(c.entries[k])
    ensures k in c.entries ==> |r.1.order| == |c.order| && r.1.order[|r.1.order| - 1] == k
    ensures k in c.entries ==> r.1.order[..|r.1.order| - 1] == Without(c.order, k)
    ensures k !in c.entries ==> r.0 == None && r.1 == c
  {
    if k in c.entries then
      var order := Without(c.order, k) + [k];
      assert order[..|order| - 1] == Without(c.order, k);
      (Some(c.entries[k]), Cache(c.capacity, c.entries, order))
    else
      (None, c)
  }

  /** `LruCache::put`: stores `v` under `k` as the most recently used entry.
      A new key that finds the cache full evicts the least recently used key,
      `c.order[0]`, and only that one. */
  function Put<K(!new), V>(c: Cache<K, V>, k: K, v: V): (r: Cache<K, V>)
    requires c.Valid()
    ensures r.Valid() && r.capacity == c.capacity && |r.entries| <= r.capacity
    ensures k in r.entries && r.entries[k] == v
    ensures r.order[|r.order| - 1] == k
    ensures k in c.entries ==> r.entries.Keys == c.entries.Keys
    ensures k !in c.entries && |c.entries| < c.capacity ==> r.entries.Keys == c.entries.Keys + {k}
    ensures k !in c.entries && |c.entries| == c.capacity ==>
              r.entries.Keys == c.entries.Keys - {c.order[0]} + {k}
    ensures forall j :: j in r.entries && j != k ==> j in c.entries && r.entries[j] == c.entries[j]
    ensures k in c.entries ==> r.order == Without(c.order, k) + [k]
    ensures k !in c.entries && |c.entries| < c.capacity ==> r.order == c.order + [k]
    ensures k !in c.entries && |c.entries| == c.capacity ==> r.order == c.order[1..] + [k]
  {
    SizeIsOrderLength(c);
    if k in c.entries then
      var r := Cache(c.capacity, c.entries[k := v], Without(c.order, k) + [k]);
      PutExistingValid(c, k, v);
      SizeIsOrderLength(r);
      r
    else if |c.order| < c.capacity then
      var r := Cache(c.capacity, c.entries[k := v], c.order + [k]);
      PutNewValid(c, k, v);
      SizeIsOrderLength(r);
      r
    else
      var r := Cache(c.capacity, (c.entries - {c.order[0]})[k := v], c.order[1..] + [k]);
      PutEvictingValid(c, k, v);
      SizeIsOrderLength(r);
      r
  }

  lemma PutExistingValid<K(!new), V>(c: Cache<K, V>, k: K, v: V)
    requires c.Valid() && k in c.entries
    ensures Cache(c.capacity, c.entries[k := v], Without(c.order, k) + [k]).Valid()
  {
    var order := Without(c.order, k) + [k];
    assert Distinct(order) by {
      assert k !in Without(c.order, k);
    }
  }

  lemma PutNewValid<K(!new), V>(c: Cache<K, V>, k: K, v: V)
    requires c.Valid() && k !in c.entries && |c.order| < c.capacity
    ensures Cache(c.capacity, c.entries[k := v], c.order + [k]).Valid()
  {
    var order := c.order + [k];
    assert Distinct(order) by {
      assert k !in c.order;
    }
  }

  lemma PutEvictingValid<K(!new), V>(c: Cache<K, V>, k: K, v: V)
    requires c.Valid() && k !in c.entries && |c.order| == c.capacity
    ensures Cache(c.capacity, (c.entries - {c.order[0]})[k := v], c.order[1..] + [k]).Valid()
  {
    var order := c.order[1..] + [k];
    assert c.order[0] !in c.order[1..];
    assert Distinct(order) by {
      assert k !in c.order[1..];
    }
  }

  /** `LruCache::clear`: every entry is dropped; the capacity stays. */
  function Clear<K(!new), V>(c: Cache<K, V>): (r: Cache<K, V>)
    requires c.Valid()
    ensures r.Valid() && r.capacity == c.capacity
    ensures forall k :: k in c.entries ==> !Contains(r, k)
    ensures r.entries == map[] && r.order == []
  {
    Cache(c.capacity, map[], [])
  }

  /** Reading a key right after storing it returns the stored value and
      leaves the cache as the store left it. */
  lemma GetAfterPut<K(!new), V>(c: Cache<K, V>, k: K, v: V)
    requires c.Valid()
    ensures Get(Put(c, k, v), k) == (Some(v), Put(c, k, v))
  {
    GetMostRecent(Put(c, k, v), k);
  }

  /** Reading the most recently used key changes nothing. */
  lemma GetMostRecent<K(!new), V>(c: Cache<K, V>, k: K)
    requires c.Valid() && c.order != [] && c.order[|c.order| - 1] == k
    ensures Get(c, k) == (Some(c.entries[k]), c)
  {
    var prefix := c.order[..|c.order| - 1];
    assert c.order == prefix + [k];
    assert k !in prefix;
    assert Without(c.order, k) == prefix by {
      WithoutLast(prefix, k);
    }
  }

  lemma {:induction false} WithoutLast<K(!new)>(s: seq<K>, k: K)
    ensures Without(s + [k], k) == Without(s, k)
  {
    if s == [] {
      assert Without([k], k) == Without([k][1..], k);
    } else {
      assert (s + [k])[1..] == s[1..] + [k];
      WithoutLast(s[1..], k);
    }
  }

  /** A key that was just read is not the one that the next insertion of a
      new key evicts, as long as the cache has room for two keys. */
  lemma {:induction false} RecentlyUsedSurvivesEviction<K(!new), V>(c: Cache<K, V>, k: K, j: K, v: V)
    requires c.Valid() && k in c.entries && j !in c.entries && c.capacity >= 2
    ensures k in Put(Get(c, k).1, j, v).entries
  {
    var g := Get(c, k).1;
    SizeIsOrderLength(g);
    if |g.entries| == g.capacity {
      assert g.order[0] != k by {
        assert g.order[|g.order| - 1] == k;
        assert Distinct(g.order);
      }
    }
  }
}
