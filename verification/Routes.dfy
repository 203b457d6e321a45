/** Routes.Route and Routes.CachedRoute on pooled Result objects (pkg/route/route.go, pkg/route/result.go). */
module RouteObjects {
  import opened Prelude
  import opened CacheKeys
  import opened Caches
  import opened Results
  import opened StringSets
  import opened Uris
  import R = Routing

  /** resultPool: a bag of reset results; Get hands out any of them, or a new one. */
  class ResultPool {
    var items: set<Result>
    ghost var Repr: set<object>

    ghost predicate Valid()
      reads this, Repr
    {
      && this in Repr
      && (forall r :: r in items ==> r in Repr && r.Repr <= Repr && this !in r.Repr && r.Valid() && r.Value() == EMPTY)
      && (forall r, r' :: r in items && r' in items && r != r' ==> r.Repr !! r'.Repr)
    }

    constructor ()
      ensures Valid() && fresh(Repr) && items == {}
    {
      items, Repr := {}, {this};
    }

    /** AcquireResult */
    method Acquire() returns (r: Result)
      requires Valid()
      modifies this
      ensures Valid() && r.Valid() && r.Value() == EMPTY
      ensures r.Repr !! Repr && Repr <= old(Repr) && fresh(r.Repr - old(Repr))
    {
      if * {
        r := new Result();
      } else if items != {} {
        r :| r in items;
        items := items - {r};
        Repr := Repr - r.Repr;
      } else {
        r := new Result();
      }
    }

    method Put(r: Result)
      requires Valid() && r.Valid() && r.Repr !! Repr && r.Value() == EMPTY
      modifies this
      ensures Valid() && Repr == old(Repr) + r.Repr && items == old(items) + {r}
    {
      assert forall x :: x in items ==> x.Repr !! r.Repr;
      items := items + {r};
      Repr := Repr + r.Repr;
    }

    /** Result.Release */
    method Release(r: Result)
      requires Valid() && r.Valid() && r.Repr !! Repr
      modifies this, r.Repr
      ensures Valid() && Repr == old(Repr) + old(r.Repr) && items == old(items) + {r}
    {
      r.Reset();
      Put(r);
    }
  }

  /** One iteration of the loop in Routes.Route, written into the result. */
  method ExamineInto(result: Result, rt: R.Route, i: nat, verb: Bytes, path: Bytes) returns (decided: bool, next: Bytes)
    requires result.Valid()
    modifies result.Repr
    ensures result.Valid() && fresh(result.Repr - old(result.Repr))
    ensures var s := R.Examine(rt, i, verb, old(result.Value()), path);
            && decided == s.Decided? && result.Value() == s.r
            && (s.Undecided? ==> next == s.path)
  {
    next := path;
    if !rt.Match(verb, path) {
      return false, path;
    }
    var uri := rt.Rewrite(path);
    MatchInto(result, rt, i);
    if |uri| > 0 {
      result.SetScalars(result.statusCode, rt.rewriteAppendQueryString, result.handler, result.routeIndex);
      if IsHttpOrHttps(uri) || IsHttpStatusRedirect(result.statusCode) {
        result.AppendRedirectUri(uri);
        return true, path;
      }
      result.SetRewriteUri(uri);
      next := PathOf(uri);
    }
    decided := result.statusCode > 0 || result.handler != "";
  }

  /** What a matching route writes before its rewrite is looked at. */
  method MatchInto(result: Result, rt: R.Route, i: nat)
    requires result.Valid()
    modifies result.Repr
    ensures result.Valid() && fresh(result.Repr - old(result.Repr))
    ensures var v := old(result.Value());
            result.Value() == v.(filters := AppendNew(v.filters, rt.filters), routeIndex := i, statusCode := rt.statusCode,
                                 statusMessage := rt.statusMessage, handler := rt.handler)
  {
    if |rt.filters| > 0 {
      var names := StringSets.Append(result.filters.data[..result.filters.len], rt.filters);
      result.SetFilters(names);
    }
    result.SetScalars(rt.statusCode, result.appendQueryString, rt.handler, i);
    result.SetStatusMessage(rt.statusMessage);
  }

  class Routes {
    const table: seq<R.Route>
    const pool: ResultPool
    const cache: Cache?<Result>

    /** A stored result answers every query that has its key. */
    ghost predicate Answers(k: CacheKey, v: ResultValue) {
      forall verb: Bytes, path: Bytes, off: nat ::
        (|verb| < UINT32 && |path| < UINT32 && off < UINT32 && QueryKey(verb, path, off) == k) ==>
          v == R.RouteValue(table, verb, path, off)
    }

    /** Result r shares nothing with the pool and the cache object. */
    ghost predicate Apart(r: Result)
      reads pool, r
    {
      r.Repr !! pool.Repr && cache !in r.Repr && pool !in r.Repr
    }

    ghost function Stored(): set<Result>
      reads cache
    {
      if cache == null then {} else set k | k in cache.store :: cache.store[k].value
    }

    ghost predicate Valid()
      reads pool, pool.Repr, cache, Stored(), set r, o | r in Stored() && o in r.Repr :: o
    {
      && pool.Valid()
      && cache !in pool.Repr
      && (cache != null ==> StoreOk(cache.store))
    }

    ghost predicate StoreOk(store: map<CacheKey, Entry<Result>>)
      reads pool, set k | k in store :: store[k].value, set k, o | k in store && o in store[k].value.Repr :: o
    {
      forall k :: k in store ==> StoredOk(k, store[k].value)
    }

    /** r may be stored at k. */
    ghost predicate StoredOk(k: CacheKey, r: Result)
      reads pool, r, r.Repr
    {
      r.Valid() && Apart(r) && Answers(k, r.Value())
    }

    /** store' arises by removing and touching entries, and by putting routed at key. */
    ghost predicate ComesFrom(store: map<CacheKey, Entry<Result>>, store': map<CacheKey, Entry<Result>>, key: CacheKey, routed: Option<Result>) {
      forall k :: k in store' ==>
        (k in store && store'[k].value == store[k].value) || (k == key && routed == Some(store'[k].value))
    }

    lemma GetComesFrom(before: CacheState<Result>, key: CacheKey, now: int)
      ensures ComesFrom(before.store, AfterGet(before, key, now).store, key, None)
    {
      GetKeepsAll(before, key, now);
    }

    lemma SetComesFrom(before: CacheState<Result>, key: CacheKey, routed: Result, now: int)
      ensures ComesFrom(before.store, AfterSet(before, key, routed, now).store, key, Some(routed))
    {
      SetKeepsAll(before, key, routed, now);
    }

    lemma StoreStaysOk(store: map<CacheKey, Entry<Result>>, store': map<CacheKey, Entry<Result>>, key: CacheKey, routed: Option<Result>)
      requires StoreOk(store) && (routed.Some? ==> StoredOk(key, routed.value))
      requires ComesFrom(store, store', key, routed)
      ensures StoreOk(store')
    {
      forall k | k in store'
        ensures StoredOk(k, store'[k].value)
      {
        if k in store && store'[k].value == store[k].value {
          assert StoredOk(k, store[k].value);
        }
      }
    }

    constructor (table: seq<R.Route>, pool: ResultPool, cache: Cache?<Result>)
      requires pool.Valid() && cache !in pool.Repr
      requires cache != null ==> cache.store == map[]
      ensures Valid() && this.table == table && this.pool == pool && this.cache == cache
    {
      this.table, this.pool, this.cache := table, pool, cache;
    }

    /** The search of Routes.Route, filling an acquired result. */
    method Search(result: Result, verb: Bytes, path: Bytes, off: nat)
      requires result.Valid() && result.Value() == EMPTY
      modifies result.Repr
      ensures result.Valid() && fresh(result.Repr - old(result.Repr))
      ensures result.Value() == R.RouteValue(table, verb, path, off)
    {
      if off >= |table| {
        result.SetScalars(R.STATUS_NOT_FOUND, result.appendQueryString, result.handler, result.routeIndex);
        return;
      }
      ghost var whole := R.Resolve(table[off..], 0, verb, EMPTY, path);
      assert R.RouteValue(table, verb, path, off) == R.Answer(whole);
      var p, i := path, off;
      while i < |table|
        modifies old(result.Repr)
        invariant off <= i <= |table|
        invariant result.Valid() && fresh(result.Repr - old(result.Repr))
        invariant whole == R.Resolve(table[i..], i - off, verb, result.Value(), p)
      {
        R.ResolveTurn(table, off, i, verb, result.Value(), p);
        var decided, next := ExamineInto(result, table[i], i - off, verb, p);
        if decided {
          return;
        }
        p, i := next, i + 1;
      }
      result.SetScalars(R.STATUS_NOT_FOUND, result.appendQueryString, result.handler, result.routeIndex);
    }

    /** The key of a lookup, built field by field. */
    method KeyOf(verb: Bytes, path: Bytes, off: nat) returns (key: CacheKey)
      ensures key == QueryKey(verb, path, off)
    {
      var kb := new CacheKeyBuilder();
      kb.Write(LE32(off));
      kb.Write(verb);
      kb.Write(path);
      key := kb.Sum();
      assert kb.fields == [LE32(off), verb, path];
    }

    /** A result nothing else refers to: neither the pool, nor the cache, nor any stored result. */
    ghost predicate Private(r: Result)
      reads pool, cache, r, Stored()
    {
      Apart(r) && forall x :: x in Stored() ==> x.Repr !! r.Repr
    }

    method AcquirePrivate() returns (r: Result)
      requires Valid()
      modifies pool
      ensures Valid() && r.Valid() && r.Value() == EMPTY && Private(r)
      ensures pool.Repr <= old(pool.Repr) && fresh(r.Repr - old(pool.Repr))
    {
      r := pool.Acquire();
      if cache != null {
        forall k | k in cache.store
          ensures StoredOk(k, cache.store[k].value) && cache.store[k].value.Repr !! r.Repr
        {
          assert old(StoredOk(k, cache.store[k].value));
        }
      }
    }

    /** result.CopyTo(AcquireResult()) */
    method CopyOut(src: Result) returns (result: Result)
      requires Valid() && src.Valid() && Apart(src)
      modifies pool, pool.Repr
      ensures Valid() && src.Valid() && Apart(src) && src.Value() == old(src.Value())
      ensures result.Valid() && result.Value() == src.Value() && Private(result)
    {
      result := AcquirePrivate();
      assert src.Valid() && src.Value() == old(src.Value()) && src.Repr !! result.Repr;
      CopyPrivate(src, result);
    }

    /** A copy into a private result disturbs nothing. */
    method CopyPrivate(src: Result, result: Result)
      requires Valid() && src.Valid() && Apart(src)
      requires result.Valid() && Private(result) && src.Repr !! result.Repr
      modifies result.Repr
      ensures Valid() && src.Valid() && Apart(src) && src.Value() == old(src.Value())
      ensures result.Valid() && result.Value() == src.Value() && Private(result)
    {
      src.CopyTo(result);
      assert pool.Valid();
      if cache != null {
        forall k | k in cache.store
          ensures StoredOk(k, cache.store[k].value) && cache.store[k].value.Repr !! result.Repr
        {
          assert old(StoredOk(k, cache.store[k].value) && cache.store[k].value.Repr !! result.Repr);
        }
      }
    }

    /** Routes.Route: the answer, in a result acquired from the pool. */
    method Route(verb: Bytes, path: Bytes, off: nat) returns (result: Result)
      requires Valid()
      modifies pool, pool.Repr
      ensures Valid() && pool.Repr <= old(pool.Repr)
      ensures result.Valid() && Private(result)
      ensures result.Value() == R.RouteValue(table, verb, path, off)
    {
      result := AcquirePrivate();
      Search(result, verb, path, off);
    }

    method Fetch(key: CacheKey, now: int) returns (hit: Option<Result>)
      requires Valid() && cache != null
      modifies cache
      ensures Valid()
      ensures cache.State() == AfterGet(old(cache.State()), key, now)
      ensures hit.Some? <==> key in old(cache.store)
      ensures hit.Some? ==> hit.value.Valid() && Apart(hit.value) && Answers(key, hit.value.Value())
    {
      ghost var before := cache.State();
      hit := cache.Get(key, now);
      GetComesFrom(before, key, now);
      assert StoreOk(before.store);
      StoreStaysOk(before.store, cache.store, key, None);
    }

    method Keep(key: CacheKey, routed: Result, now: int)
      requires Valid() && cache != null
      requires routed.Valid() && Apart(routed) && Answers(key, routed.Value())
      modifies cache
      ensures Valid()
      ensures cache.State() == AfterSet(old(cache.State()), key, routed, now)
    {
      ghost var before := cache.State();
      cache.Set(key, routed, now);
      SetComesFrom(before, key, routed, now);
      assert StoreOk(before.store) && StoredOk(key, routed);
      StoreStaysOk(before.store, cache.store, key, Some(routed));
    }

    /**
     * CachedRoute, for a caller that is not interrupted: the answer of Route, in an object of the caller's own. A stored
     * answer is used and refreshed; otherwise the answer is offered to the cache. now1 and now2 are the clock readings of
     * Get and Set.
     */
    method CachedRoute(verb: Bytes, path: Bytes, off: nat, now1: int, now2: int) returns (result: Result)
      requires Valid() && |verb| < UINT32 && |path| < UINT32 && off < UINT32
      modifies pool, pool.Repr, cache
      ensures Valid()
      ensures result.Valid() && Private(result)
      ensures result.Value() == R.RouteValue(table, verb, path, off)
      ensures cache != null && QueryKey(verb, path, off) in old(cache.store) ==>
                cache.State() == AfterGet(old(cache.State()), QueryKey(verb, path, off), now1)
      ensures cache != null && QueryKey(verb, path, off) !in old(cache.store) ==>
                exists stored :: cache.State() == AfterSet(old(cache.State()), QueryKey(verb, path, off), stored, now2)
    {
      if cache == null {
        result := Route(verb, path, off);
        return;
      }
      var key := KeyOf(verb, path, off);
      var hit := Fetch(key, now1);
      if hit.Some? {
        result := CopyOut(hit.value);
        return;
      }
      result := RouteAndStore(key, verb, path, off, now2);
    }

    /** The part of CachedRoute after a miss. */
    method RouteAndStore(key: CacheKey, verb: Bytes, path: Bytes, off: nat, now: int) returns (result: Result)
      requires Valid() && cache != null && |verb| < UINT32 && |path| < UINT32 && off < UINT32
      requires key == QueryKey(verb, path, off)
      modifies pool, pool.Repr, cache
      ensures Valid()
      ensures result.Valid() && Private(result)
      ensures result.Value() == R.RouteValue(table, verb, path, off)
      ensures exists stored :: cache.State() == AfterSet(old(cache.State()), key, stored, now)
    {
      var routed := Route(verb, path, off);
      KeyAnswers(key, verb, path, off, routed.Value());
      Keep(key, routed, now);
      result := CopyOut(routed);
    }

    lemma KeyAnswers(key: CacheKey, verb: Bytes, path: Bytes, off: nat, v: ResultValue)
      requires |verb| < UINT32 && |path| < UINT32 && off < UINT32
      requires key == QueryKey(verb, path, off) && v == R.RouteValue(table, verb, path, off)
      ensures Answers(key, v)
    {
      forall verb': Bytes, path': Bytes, off': nat |
        |verb'| < UINT32 && |path'| < UINT32 && off' < UINT32 && QueryKey(verb', path', off') == key
        ensures v == R.RouteValue(table, verb', path', off')
      {
        SameKeySameLookup(verb, path, off, verb', path', off');
      }
    }
  }
}
