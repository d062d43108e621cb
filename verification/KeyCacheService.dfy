/** The cache object of the API-key service; each method is one region under its cache lock. */
module KeyCacheService {
  import opened OrderedDict
  import opened KeyCache

  datatype Answer<T> = Miss | Hit(value: T)

  class ApiKeyCaches {
    var epoch: nat
    var auth: Dict<CacheKey, Entry>
    var policies: Dict<KeyId, PolicyEntry>

    /** Serves a live record, which becomes the youngest and stays with all others, and drops a dead one alone. */
    method CachedRecord(key: CacheKey, now: real) returns (r: Answer<Record>)
      requires Valid(auth)
      modifies this`auth
      ensures auth == Touch(old(auth), key, now)
      ensures r.Hit? <==> key in old(auth).items && old(auth).items[key].expires > now
      ensures r.Hit? ==> r.value == old(auth).items[key].record
      ensures auth.items == if r.Hit? then old(auth).items else old(auth).items - {key}
      ensures r.Hit? ==> auth.order != [] && auth.order[|auth.order| - 1] == key
      ensures SameOthers(old(auth).order, auth.order, key)
    {
      LookupIs(auth, key, key in auth.items && auth.items[key].expires > now);
      if key !in auth.items { return Miss; }
      var e := auth.items[key];
      if e.expires > now {
        auth := MoveToEnd(auth, key);
        return Hit(e.record);
      }
      auth := Pop(auth, key);
      return Miss;
    }

    method CachedUsagePolicy(id: KeyId, now: real) returns (r: Answer<Policy>)
      requires Valid(policies)
      modifies this`policies
      ensures policies == TouchPolicy(old(policies), id, now)
      ensures r.Hit? <==> id in old(policies).items && old(policies).items[id].expires > now
      ensures r.Hit? ==> r.value == old(policies).items[id].policy
      ensures policies.items == if r.Hit? then old(policies).items else old(policies).items - {id}
      ensures r.Hit? ==> policies.order != [] && policies.order[|policies.order| - 1] == id
      ensures SameOthers(old(policies).order, policies.order, id)
    {
      LookupIs(policies, id, id in policies.items && policies.items[id].expires > now);
      if id !in policies.items { return Miss; }
      var e := policies.items[id];
      if e.expires > now {
        policies := MoveToEnd(policies, id);
        return Hit(e.policy);
      }
      policies := Pop(policies, id);
      return Miss;
    }

    /** Drops the oldest records down to the bound; the youngest 4096 stay as they are. */
    method EvictAuth()
      requires Valid(auth)
      modifies this`auth
      ensures auth == Shrink(old(auth), MAX_ENTRIES)
      ensures auth.order == if |old(auth).order| <= 4096 then old(auth).order else old(auth).order[|old(auth).order| - 4096..]
      ensures forall k :: k in auth.items <==> k in auth.order
      ensures forall k :: k in auth.items ==> k in old(auth).items && auth.items[k] == old(auth).items[k]
    {
      ShrinkIs(auth, MAX_ENTRIES);
      ShrinkItems(auth, MAX_ENTRIES);
      while |auth.order| > MAX_ENTRIES
        invariant Shrink(auth, MAX_ENTRIES) == Shrink(old(auth), MAX_ENTRIES)
        decreases |auth.order|
      {
        auth := PopFirst(auth);
      }
    }

    method EvictPolicies()
      modifies this`policies
      ensures policies == Shrink(old(policies), MAX_ENTRIES)
    {
      while |policies.order| > MAX_ENTRIES
        invariant Shrink(policies, MAX_ENTRIES) == Shrink(old(policies), MAX_ENTRIES)
        decreases |policies.order|
      {
        policies := PopFirst(policies);
      }
    }

    /** Bumps the epoch and removes everything cached for the key, and nothing else. */
    method InvalidateKey(id: KeyId)
      requires Valid(auth)
      modifies this
      ensures epoch == old(epoch) + 1
      ensures auth == RemoveAll(old(auth), KeysOf(old(auth), id))
      ensures policies == Pop(old(policies), id)
      ensures forall k :: k in auth.items <==> k in old(auth).items && old(auth).items[k].record.id != id
      ensures forall k :: k in auth.items ==> auth.items[k] == old(auth).items[k]
      ensures policies.items == old(policies).items - {id}
    {
      epoch := epoch + 1;
      var stale := StaleKeys(id);
      PopAll(stale);
      assert SetOf(stale) == KeysOf(old(auth), id);
      policies := Pop(policies, id);
    }

    method PopAll(stale: seq<CacheKey>)
      modifies this`auth
      ensures auth == RemoveAll(old(auth), SetOf(stale))
    {
      ghost var was, done := auth, {};
      RemoveNothing(was);
      var i := 0;
      while i < |stale|
        invariant 0 <= i <= |stale|
        invariant done == SetOf(stale[..i])
        invariant auth == RemoveAll(was, done)
      {
        PopAfterRemove(was, done, stale[i]);
        auth := Pop(auth, stale[i]);
        assert stale[..i + 1] == stale[..i] + [stale[i]];
        done := done + {stale[i]};
        i := i + 1;
      }
      assert stale[..i] == stale;
    }

    method StaleKeys(id: KeyId) returns (stale: seq<CacheKey>)
      requires Valid(auth)
      ensures forall k :: k in stale <==> k in KeysOf(auth, id)
    {
      stale := [];
      for i := 0 to |auth.order|
        invariant forall k :: k in stale <==> k in auth.order[..i] && auth.items[k].record.id == id
      {
        var k := auth.order[i];
        assert auth.order[..i + 1] == auth.order[..i] + [k];
        if auth.items[k].record.id == id { stale := stale + [k]; }
      }
      assert auth.order[..|auth.order|] == auth.order;
    }

    method ExpiredPolicies(now: real) returns (stale: seq<KeyId>)
      requires Valid(policies)
      ensures forall k :: k in stale <==> k in ExpiredBy(policies, now)
    {
      stale := [];
      for i := 0 to |policies.order|
        invariant forall k :: k in stale <==> k in policies.order[..i] && policies.items[k].expires <= now
      {
        var k := policies.order[i];
        assert policies.order[..i + 1] == policies.order[..i] + [k];
        if policies.items[k].expires <= now { stale := stale + [k]; }
      }
      assert policies.order[..|policies.order|] == policies.order;
    }

    method PopPolicies(stale: seq<KeyId>)
      modifies this`policies
      ensures policies == RemoveAll(old(policies), SetOf(stale))
    {
      ghost var was, done := policies, {};
      RemoveNothing(was);
      hide RemoveAll, Pop;
      var i := 0;
      while i < |stale|
        invariant 0 <= i <= |stale|
        invariant done == SetOf(stale[..i])
        invariant policies == RemoveAll(was, done)
      {
        PopAfterRemove(was, done, stale[i]);
        policies := Pop(policies, stale[i]);
        assert stale[..i + 1] == stale[..i] + [stale[i]];
        done := done + {stale[i]};
        i := i + 1;
      }
      assert stale[..i] == stale;
    }

    /** What a load that began at `start` read is cached, unless an invalidation struck since it noted the epoch. */
    method StoreAuthentication(key: CacheKey, record: Record, start: real, expectedEpoch: nat)
      requires Valid(auth) && Valid(policies)
      modifies this
      ensures epoch == old(epoch)
      ensures expectedEpoch != epoch ==> auth == old(auth) && policies == old(policies)
      ensures expectedEpoch == epoch ==>
                && auth == StoredAuth(old(auth), key, record, start)
                && policies == StoredPolicies(old(policies), record, start)
    {
      hide Valid, Shrink, RemoveAll, PutLast;
      if expectedEpoch != epoch { return; }
      if !record.head.mode.SelectedDomains? {
        PutLastValid(auth, key, Entry(start + TTL, record));
        auth := PutLast(auth, key, Entry(start + TTL, record));
        EvictAuth();
      }
      var stale := ExpiredPolicies(start);
      assert SetOf(stale) == ExpiredBy(policies, start);
      hide ExpiredBy;
      PopPolicies(stale);
      policies := PutLast(policies, record.id, PolicyEntry(start + TTL, record.head.policy));
      EvictPolicies();
    }

    /** Stores the result of a policy load for two seconds unless an invalidation struck since it began. */
    method StoreUsagePolicy(id: KeyId, policy: Policy, expectedEpoch: nat, now: real)
      requires Bounded(policies)
      modifies this`policies
      ensures policies == if expectedEpoch != epoch then old(policies)
                          else Shrink(PutLast(old(policies), id, PolicyEntry(now + TTL, policy)), MAX_ENTRIES)
      ensures expectedEpoch == epoch ==> Youngest(policies, id, PolicyEntry(now + 2.0, policy))
    {
      if expectedEpoch != epoch { return; }
      PutIsYoungest(policies, id, PolicyEntry(now + TTL, policy));
      policies := PutLast(policies, id, PolicyEntry(now + TTL, policy));
      EvictPolicies();
    }
  }
}
