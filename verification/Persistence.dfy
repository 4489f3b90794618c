/** object_database/persistence.py: the key-value store behind the server, kept in memory or in
    Redis behind a cache. Plain values and sets live under keys of different types, so the
    model keeps them in two maps. */
module Persistence {
  import opened Common
  import opened OrderedSets

  /** Keys of plain values: a field of an object, or the index value the object is filed under. */
  datatype DataKey = FieldValue(key: ObjectFieldId) | ReverseIndex(key: ObjectFieldId)

  /** Keys of sets: the objects having an index value, or the values an index field has objects for. */
  datatype SetKey = IndexMembers(index: IndexId) | IndexValues(fieldId: FieldId)

  datatype SetValue = Identity(objId: ObjectId) | Value(bytes: Bytes)

  type Data = map<DataKey, Bytes>
  type Sets = map<SetKey, set<SetValue>>

  /** What `setSeveral` returns: the sets that came into being and those that became empty. */
  datatype Changed = Changed(newSets: set<SetKey>, droppedSets: set<SetKey>)

  function Members(sets: Sets, k: SetKey): set<SetValue> {
    if k in sets then sets[k] else {}
  }

  function MembersAfter(sets: Sets, adds: Sets, removes: Sets, k: SetKey): set<SetValue> {
    Members(sets, k) + Members(adds, k) - Members(removes, k)
  }

  /** The sets after the adds and then the removes; empty sets are not kept. */
  function SetsAfter(sets: Sets, adds: Sets, removes: Sets): (after: Sets)
    ensures forall k :: Members(after, k) == MembersAfter(sets, adds, removes, k)
    ensures NoEmpty(after)
  {
    map k | k in sets.Keys + adds.Keys && MembersAfter(sets, adds, removes, k) != {} ::
      MembersAfter(sets, adds, removes, k)
  }

  predicate NoEmpty(sets: Sets) {
    forall k :: k in sets ==> sets[k] != {}
  }

  ghost predicate AddsAreNew(sets: Sets, adds: Sets) {
    forall k :: k in adds ==> adds[k] !! Members(sets, k)
  }

  ghost predicate RemovesArePresent(sets: Sets, adds: Sets, removes: Sets) {
    forall k :: k in removes ==> removes[k] <= Members(sets, k) + Members(adds, k)
  }

  lemma {:induction false} SameMembersSameSets(a: Sets, b: Sets)
    requires NoEmpty(a) && NoEmpty(b) && forall k :: Members(a, k) == Members(b, k)
    ensures a == b
  {
    assert forall k :: k in a <==> Members(a, k) != {};
    assert forall k :: k in b <==> Members(b, k) != {};
    forall k
      ensures k in a <==> k in b
      ensures k in a ==> a[k] == b[k]
    {
      assert Members(a, k) == Members(b, k);
    }
  }

  /** The in-memory store reports any listed key that was absent before, or is absent after. */
  function InMemoryChanged(before: Sets, adds: Sets, removes: Sets, after: Sets): Changed {
    Changed(set k | k in adds && k !in before, set k | k in removes && k !in after)
  }

  /** The Redis store skips keys listed with nothing to add or to remove. */
  function RedisChanged(before: Sets, adds: Sets, removes: Sets, after: Sets): Changed {
    Changed(set k | k in adds && adds[k] != {} && k !in before, set k | k in removes && removes[k] != {} && k !in after)
  }

  /** The two stores report the same changes exactly when no empty list names an absent set. */
  lemma StoresReportTheSame(before: Sets, adds: Sets, removes: Sets, after: Sets)
    ensures InMemoryChanged(before, adds, removes, after) == RedisChanged(before, adds, removes, after)
            <==> && (forall k :: k in adds && adds[k] == {} ==> k in before)
                 && (forall k :: k in removes && removes[k] == {} ==> k in after)
  {
    var m, r := InMemoryChanged(before, adds, removes, after), RedisChanged(before, adds, removes, after);
    if m == r {
      forall k | k in adds && adds[k] == {}
        ensures k in before
      {
        assert k !in r.newSets;
      }
      forall k | k in removes && removes[k] == {}
        ensures k in after
      {
        assert k !in r.droppedSets;
      }
    }
  }

  class InMemoryPersistence {
    var data: Data
    var sets: Sets

    ghost predicate Valid()
      reads this
    {
      NoEmpty(sets)
    }

    constructor ()
      ensures Valid() && data == map[] && sets == map[]
    {
      data, sets := map[], map[];
    }

    method Get(k: DataKey) returns (r: Option<Bytes>)
      ensures r == Lookup(data, k)
    {
      r := Lookup(data, k);
    }

    method GetSetMembers(k: SetKey) returns (r: set<SetValue>)
      ensures r == Members(sets, k)
    {
      r := Members(sets, k);
    }

    method Set(k: DataKey, value: Option<Bytes>)
      modifies this`data
      ensures forall j :: Lookup(data, j) == if j == k then value else old(Lookup(data, j))
    {
      match value
      case None => data := data - {k};
      case Some(v) => data := data[k := v];
    }

    /** Store values, then add to and remove from sets. Adding a member twice or removing an absent one fails
        an assertion. By then the values are stored, and the sets are anywhere on the way. */
    method SetSeveral(kvs: map<DataKey, Option<Bytes>>, adds: Sets, removes: Sets) returns (r: Result<Changed>)
      requires Valid()
      modifies this
      ensures r.Ok? <==> AddsAreNew(old(sets), adds) && RemovesArePresent(old(sets), adds, removes)
      ensures Valid() && data == Updated(old(data), kvs)
      ensures r.Ok? ==> sets == SetsAfter(old(sets), adds, removes)
      ensures forall k :: Members(sets, k) <= MembersAfter(old(sets), adds, map[], k)
      ensures forall k :: MembersAfter(old(sets), map[], removes, k) <= Members(sets, k)
      ensures AddsAreNew(old(sets), adds) ==> forall k :: MembersAfter(old(sets), adds, removes, k) <= Members(sets, k)
      ensures r.Ok? ==> r.value == InMemoryChanged(old(sets), adds, removes, sets)
    {
      SetAll(kvs);
      var newSets := set k | k in adds && k !in sets;
      var added := AddAll(adds);
      if !added {
        return Thrown;
      }
      var removed := RemoveAll(removes);
      if !removed {
        return Thrown;
      }
      SameMembersSameSets(sets, SetsAfter(old(sets), adds, removes));
      r := Ok(Changed(newSets, set k | k in removes && k !in sets));
    }

    method SetAll(kvs: map<DataKey, Option<Bytes>>)
      modifies this`data
      ensures data == Updated(old(data), kvs)
    {
      var todo := kvs.Keys;
      while todo != {}
        invariant todo <= kvs.Keys
        invariant forall j :: Lookup(data, j) == if j in kvs && j !in todo then kvs[j] else old(Lookup(data, j))
        decreases todo
      {
        ghost var some := AnElement(todo);
        var k :| k in todo;
        Set(k, kvs[k]);
        todo := todo - {k};
      }
      var after := Updated(old(data), kvs);
      assert forall j :: Lookup(data, j) == Lookup(after, j);
      assert forall j :: j in data <==> Lookup(data, j).Some?;
      assert forall j :: j in after <==> Lookup(after, j).Some?;
      assert forall j :: j in data ==> data[j] == Lookup(data, j).value == Lookup(after, j).value == after[j];
    }

    method AddAll(adds: Sets) returns (ok: bool)
      requires Valid()
      modifies this`sets
      ensures Valid() && (ok <==> AddsAreNew(old(sets), adds))
      ensures ok ==> forall k :: Members(sets, k) == old(Members(sets, k)) + Members(adds, k)
      ensures forall k :: old(Members(sets, k)) <= Members(sets, k) <= old(Members(sets, k)) + Members(adds, k)
    {
      var todo := adds.Keys;
      while todo != {}
        invariant todo <= adds.Keys && Valid()
        invariant forall k :: k in adds && k !in todo ==> adds[k] !! old(Members(sets, k))
        invariant forall k :: Members(sets, k) == old(Members(sets, k)) + (if k in todo then {} else Members(adds, k))
        decreases todo
      {
        ghost var some := AnElement(todo);
        var k :| k in todo;
        // the assertion that no value is a member yet
        if adds[k] * Members(sets, k) != {} {
          return false;
        }
        if adds[k] != {} {
          sets := sets[k := Members(sets, k) + adds[k]];
        }
        todo := todo - {k};
      }
      ok := true;
    }

    method RemoveAll(removes: Sets) returns (ok: bool)
      requires Valid()
      modifies this`sets
      ensures Valid() && (ok <==> forall k :: k in removes ==> removes[k] <= old(Members(sets, k)))
      ensures ok ==> forall k :: Members(sets, k) == old(Members(sets, k)) - Members(removes, k)
      ensures forall k :: old(Members(sets, k)) - Members(removes, k) <= Members(sets, k) <= old(Members(sets, k))
    {
      var todo := removes.Keys;
      while todo != {}
        invariant todo <= removes.Keys && Valid()
        invariant forall k :: k in removes && k !in todo ==> removes[k] <= old(Members(sets, k))
        invariant forall k ::
                    Members(sets, k) == old(Members(sets, k)) - (if k in todo then {} else Members(removes, k))
        decreases todo
      {
        ghost var some := AnElement(todo);
        var k :| k in todo;
        // the assertion that every value is a member
        if !(removes[k] <= Members(sets, k)) {
          return false;
        }
        var left := Members(sets, k) - removes[k];
        if left == {} {
          sets := sets - {k};
        } else {
          sets := sets[k := left];
        }
        todo := todo - {k};
      }
      ok := true;
    }
  }

  /** The Redis store: the server's keys as abstract maps, and the cache kept in front of them. */
  class RedisPersistence {
    var redisData: Data
    var redisSets: Sets
    var cacheData: Data
    var cacheSets: Sets

    ghost predicate Valid()
      reads this
    {
      && (forall k :: k in cacheData ==> Lookup(redisData, k) == Some(cacheData[k]))
      && CacheOf(redisSets, cacheSets, {})
    }

    constructor ()
      ensures Valid() && redisData == map[] && redisSets == map[]
    {
      redisData, redisSets, cacheData, cacheSets := map[], map[], map[], map[];
    }

    method Get(k: DataKey) returns (r: Option<Bytes>)
      requires Valid()
      modifies this`cacheData
      ensures Valid() && r == Lookup(redisData, k) && (r.Some? ==> k in cacheData)
    {
      if k in cacheData {
        return Some(cacheData[k]);
      }
      r := Lookup(redisData, k);
      if r.Some? {
        cacheData := cacheData[k := r.value];
      }
    }

    method GetSetMembers(k: SetKey) returns (r: set<SetValue>)
      requires Valid()
      modifies this`cacheSets
      ensures Valid() && r == Members(redisSets, k)
      ensures forall keys :: CacheOf(redisSets, old(cacheSets), keys) ==> CacheOf(redisSets, cacheSets, keys + {k})
    {
      if k in cacheSets {
        return cacheSets[k];
      }
      r := Members(redisSets, k);
      if r != {} {
        cacheSets := cacheSets[k := r];
      }
    }

    /** Send the whole update to Redis as one pipeline, then repeat it on the cache. Redis itself accepts
        any update; the cache rejects the removal of an absent member. */
    method SetSeveral(kvs: map<DataKey, Option<Bytes>>, adds: Sets, removes: Sets) returns (r: Result<Changed>)
      requires Valid()
      modifies this
      ensures redisData == Updated(old(redisData), kvs) && redisSets == SetsAfter(old(redisSets), adds, removes)
      ensures r.Ok? <==> RemovesArePresent(old(redisSets), adds, removes)
      ensures r.Ok? ==> Valid() && r.value == RedisChanged(old(redisSets), adds, removes, redisSets)
    {
      hide CacheOf, SetsAfter, RedisChanged, RemovesArePresent;
      CacheAll(adds.Keys + removes.Keys);
      ghost var before := redisSets;
      redisData := Updated(redisData, kvs);
      redisSets := SetsAfter(redisSets, adds, removes);
      UpdateCacheData(kvs);
      r := UpdateCacheSets(before, adds, removes);
    }

    method UpdateCacheSets(ghost before: Sets, adds: Sets, removes: Sets) returns (r: Result<Changed>)
      requires CacheOf(before, cacheSets, adds.Keys + removes.Keys) && redisSets == SetsAfter(before, adds, removes)
      modifies this`cacheSets
      ensures r.Ok? <==> RemovesArePresent(before, adds, removes)
      ensures r.Ok? ==> CacheOf(redisSets, cacheSets, {}) && r.value == RedisChanged(before, adds, removes, redisSets)
    {
      hide SetsAfter, RedisChanged, RemovesArePresent;
      ghost var cached := cacheSets;
      CacheMissesRemoval(before, cached, adds, removes);
      assert NoEmpty(cacheSets);
      hide CacheOf;
      var newSets := set k | k in adds && adds[k] != {} && k !in cacheSets;
      AddToCache(adds);
      var removed := RemoveFromCache(removes);
      if !removed {
        return Thrown;
      }
      CacheFollows(before, cached, adds, removes, cacheSets);
      r := Ok(Changed(newSets, set k | k in removes && removes[k] != {} && k !in cacheSets));
    }

    method UpdateCacheData(kvs: map<DataKey, Option<Bytes>>)
      modifies this`cacheData
      ensures cacheData == Updated(old(cacheData), kvs)
    {
      cacheData := Updated(cacheData, kvs);
    }

    method CacheAll(keys: set<SetKey>)
      requires Valid()
      modifies this`cacheSets
      ensures CacheOf(redisSets, cacheSets, keys)
    {
      var todo := keys;
      while todo != {}
        invariant todo <= keys && Valid() && CacheOf(redisSets, cacheSets, keys - todo)
        decreases todo
      {
        ghost var some := AnElement(todo);
        var k :| k in todo;
        var members := GetSetMembers(k);
        todo := todo - {k};
      }
    }

    method AddToCache(adds: Sets)
      requires NoEmpty(cacheSets)
      modifies this`cacheSets
      ensures NoEmpty(cacheSets)
      ensures forall k :: Members(cacheSets, k) == old(Members(cacheSets, k)) + Members(adds, k)
    {
      var todo := adds.Keys;
      while todo != {}
        invariant todo <= adds.Keys && NoEmpty(cacheSets)
        invariant forall k ::
                    Members(cacheSets, k) == old(Members(cacheSets, k)) + (if k in todo then {} else Members(adds, k))
        decreases todo
      {
        ghost var some := AnElement(todo);
        var k :| k in todo;
        if adds[k] != {} {
          cacheSets := cacheSets[k := Members(cacheSets, k) + adds[k]];
        }
        todo := todo - {k};
      }
    }

    method RemoveFromCache(removes: Sets) returns (ok: bool)
      requires NoEmpty(cacheSets)
      modifies this`cacheSets
      ensures ok <==> forall k :: k in removes ==> removes[k] <= old(Members(cacheSets, k))
      ensures ok ==> NoEmpty(cacheSets)
      ensures ok ==> forall k :: Members(cacheSets, k) == old(Members(cacheSets, k)) - Members(removes, k)
    {
      var todo := removes.Keys;
      while todo != {}
        invariant todo <= removes.Keys && NoEmpty(cacheSets)
        invariant forall k :: k in removes && k !in todo ==> removes[k] <= old(Members(cacheSets, k))
        invariant forall k ::
                    Members(cacheSets, k)
                    == old(Members(cacheSets, k)) - (if k in todo then {} else Members(removes, k))
        decreases todo
      {
        ghost var some := AnElement(todo);
        var k :| k in todo;
        if removes[k] != {} {
          if !(removes[k] <= Members(cacheSets, k)) {
            return false;
          }
          var left := Members(cacheSets, k) - removes[k];
          if left == {} {
            cacheSets := cacheSets - {k};
          } else {
            cacheSets := cacheSets[k := left];
          }
        }
        todo := todo - {k};
      }
      ok := true;
    }
  }

  /** `cache` holds true copies only, and all there is to hold of `keys`. */
  ghost predicate CacheOf(sets: Sets, cache: Sets, keys: set<SetKey>) {
    && NoEmpty(sets) && NoEmpty(cache)
    && (forall k :: k in cache ==> k in sets && sets[k] == cache[k])
    && (forall k :: k in keys ==> Members(cache, k) == Members(sets, k))
  }

  /** A cache holding every set touched, updated the same way, still agrees with the sets and reports
      the same changes. */
  lemma CacheFollows(before: Sets, cached: Sets, adds: Sets, removes: Sets, cache: Sets)
    requires CacheOf(before, cached, adds.Keys + removes.Keys) && NoEmpty(cache)
    requires forall k :: Members(cache, k) == Members(cached, k) + Members(adds, k) - Members(removes, k)
    ensures var after := SetsAfter(before, adds, removes);
            && CacheOf(after, cache, {})
            && Changed(set k | k in adds && adds[k] != {} && k !in cached,
                       set k | k in removes && removes[k] != {} && k !in cache)
               == RedisChanged(before, adds, removes, after)
  {
    hide Members, MembersAfter, SetsAfter;
    var after := SetsAfter(before, adds, removes);
    forall k
      ensures k in adds.Keys + removes.Keys ==> (k in cache <==> k in after) && (k in cached <==> k in before)
      ensures k in cache ==> k in after && after[k] == cache[k]
    {
      CacheFollowsAt(before, cached, adds, removes, cache, k);
    }
  }

  lemma CacheFollowsAt(before: Sets, cached: Sets, adds: Sets, removes: Sets, cache: Sets, k: SetKey)
    requires CacheOf(before, cached, adds.Keys + removes.Keys) && NoEmpty(cache)
    requires Members(cache, k) == Members(cached, k) + Members(adds, k) - Members(removes, k)
    ensures var after := SetsAfter(before, adds, removes);
            && (k in adds.Keys + removes.Keys ==> (k in cache <==> k in after) && (k in cached <==> k in before))
            && (k in cache ==> k in after && after[k] == cache[k])
  {
  }

  lemma CacheMissesRemoval(before: Sets, cached: Sets, adds: Sets, removes: Sets)
    requires CacheOf(before, cached, adds.Keys + removes.Keys)
    ensures RemovesArePresent(before, adds, removes)
            <==> forall k :: k in removes ==> removes[k] <= Members(cached, k) + Members(adds, k)
  {
  }
}
