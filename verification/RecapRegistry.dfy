/** The completed-recap cache and the failure cache: two independent LRU maps. */
module RecapRegistry {
  import opened Wrappers
  import opened OrderedDict

  function Stored<K(==,!new), V(!new)>(cache: seq<Item<K, V>>, k: K, v: V, limit: nat): seq<Item<K, V>> {
    Newest(PutLast(cache, k, v), limit)
  }

  /** Is the failure of `k` inside its time to live? An expired failure is forgotten. */
  function Recent<K(==,!new)>(failed: seq<Item<K, real>>, k: K, ttl: real, now: real): bool {
    Get(failed, k).Some? && now - Get(failed, k).value < ttl
  }

  function AfterRecent<K(==,!new)>(failed: seq<Item<K, real>>, k: K, ttl: real, now: real): seq<Item<K, real>> {
    if Recent(failed, k, ttl, now) then Touch(failed, k) else Without(failed, k)
  }

  class Registry<K(==, !new), V(==, !new)> {
    const maxEntries: nat
    const maxFailures: nat
    var cache: seq<Item<K, V>>
    var failed: seq<Item<K, real>>

    ghost predicate Valid()
      reads this
    {
      DistinctKeys(cache) && DistinctKeys(failed) && |cache| <= maxEntries && |failed| <= maxFailures
    }

    constructor (maxEntries: nat, maxFailures: nat)
      requires maxEntries >= 1 && maxFailures >= 1
      ensures Valid() && cache == [] && failed == []
      ensures this.maxEntries == maxEntries && this.maxFailures == maxFailures
    {
      this.maxEntries, this.maxFailures := maxEntries, maxFailures;
      cache, failed := [], [];
    }

    method Lookup(k: K) returns (v: Option<V>)
      requires Valid()
      modifies this`cache
      ensures Valid() && cache == Touch(old(cache), k)
      ensures v == Get(old(cache), k)
    {
      v := Get(cache, k);
      TouchFacts(cache, k);
      if v.Some? { cache := Touch(cache, k); }
    }

    method Store(k: K, v: V)
      requires Valid()
      modifies this`cache
      ensures Valid() && cache == Stored(old(cache), k, v, maxEntries)
    {
      PutLastFacts(cache, k, v);
      NewestFacts(PutLast(cache, k, v), maxEntries);
      var put := PutLast(cache, k, v);
      cache := Trim(put, maxEntries);
    }

    method FailureRecent(k: K, ttl: real, now: real) returns (recent: bool)
      requires Valid()
      modifies this`failed
      ensures Valid() && recent == Recent(old(failed), k, ttl, now)
      ensures failed == AfterRecent(old(failed), k, ttl, now)
    {
      TouchFacts(failed, k);
      WithoutFacts(failed, k);
      var at := Get(failed, k);
      if at.None? { return false; }
      if now - at.value >= ttl {
        failed := Without(failed, k);
        return false;
      }
      failed := Touch(failed, k);
      return true;
    }

    method MarkFailed(k: K, at: real)
      requires Valid()
      modifies this`failed
      ensures Valid() && failed == Stored(old(failed), k, at, maxFailures)
    {
      PutLastFacts(failed, k, at);
      NewestFacts(PutLast(failed, k, at), maxFailures);
      var put := PutLast(failed, k, at);
      failed := Trim(put, maxFailures);
    }

    method ClearFailed(k: K)
      requires Valid()
      modifies this`failed
      ensures Valid() && failed == Without(old(failed), k)
    {
      WithoutFacts(failed, k);
      failed := Without(failed, k);
    }

    /** `invalidate_book` drops every key of one book from both maps. */
    method Invalidate(keep: K -> bool)
      requires Valid()
      modifies this
      ensures Valid() && cache == Keep(old(cache), keep) && failed == Keep(old(failed), keep)
    {
      KeepDistinct(cache, keep);
      KeepDistinct(failed, keep);
      cache, failed := Keep(cache, keep), Keep(failed, keep);
    }
  }

  /**
   Eviction is least-recently-used: storing a key keeps it, and evicts another only when the map is full,
   and then the one untouched for longest.
   */
  lemma StoredKeepsNewest<K(!new), V(!new)>(cache: seq<Item<K, V>>, k: K, v: V, limit: nat)
    requires DistinctKeys(cache) && 1 <= limit && |cache| <= limit
    ensures Get(Stored(cache, k, v, limit), k) == Some(v)
    ensures forall x :: x in cache && x.key != k && x !in Stored(cache, k, v, limit) ==>
              |cache| == limit && !Has(cache, k) && x == cache[0]
  {
    var put := PutLast(cache, k, v);
    PutLastFacts(cache, k, v);
    NewestFacts(put, limit);
    GetIsMember(Stored(cache, k, v, limit), k, v);
    assert Stored(cache, k, v, limit)[|Stored(cache, k, v, limit)| - 1] == Item(k, v);
    if |put| > limit {
      assert put == cache + [Item(k, v)] && Stored(cache, k, v, limit) == put[1..];
      forall x | x in cache && x != cache[0] ensures x in put[1..] {
        var j :| 0 <= j < |cache| && cache[j] == x;
        assert put[1..][j - 1] == x;
      }
    }
  }
}
