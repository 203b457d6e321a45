/** Routes.CachedRoute over a route table: what the interleavings guarantee, and where the guarantee ends. */
module RouteCache {
  import opened Prelude
  import opened CacheKeys
  import opened Caches
  import opened Results
  import opened Interleaving
  import R = Routing

  /** Routes.Route on an acquired result, starting from whatever that result holds. */
  function FillFrom(table: seq<R.Route>, x: ResultValue, q: Query): ResultValue {
    if q.off >= |table| then x.(statusCode := R.STATUS_NOT_FOUND)
    else R.Answer(R.Resolve(table[q.off..], 0, q.verb, x, q.path))
  }

  function TableParams(table: seq<R.Route>): Params {
    Params((x, q) => FillFrom(table, x, q), (q: Query) => QueryKey(q.verb, q.path, q.off))
  }

  lemma TableKeysDistinct(table: seq<R.Route>)
    ensures KeysDistinct(TableParams(table))
  {
    var P := TableParams(table);
    forall q, q' | Encodable(q) && Encodable(q') && P.key(q) == P.key(q')
      ensures q == q'
    {
      SameKeySameLookup(q.verb, q.path, q.off, q'.verb, q'.path, q'.off);
    }
  }

  /**
   * In every reachable state of cache and pool -- hits, misses, concurrent double misses, drops at the cap, evictions --
   * what CachedRoute returns within the lease is what Route answers, in all fields.
   */
  lemma CachedRouteIsRoute(table: seq<R.Route>, run: seq<Action>, s: State, c: nat)
    requires Reaches(TableParams(table), run, s)
    requires c in s.calls && s.calls[c].Returned?
    requires InTime(s.calls[c].since, s.cache.expire, s.calls[c].at)
    ensures var call := s.calls[c];
            call.dst in s.heap && s.heap[call.dst] == R.RouteValue(table, call.q.verb, call.q.path, call.q.off)
  {
    TableKeysDistinct(table);
    CopiesAreAnswers(TableParams(table), run, s, c);
  }

  /** The copy is the caller's alone: no other call, no cache entry and no pool slot refers to it. */
  lemma CachedRouteIsFresh(table: seq<R.Route>, run: seq<Action>, s: State, c: nat, p: Place)
    requires Reaches(TableParams(table), run, s)
    requires c in s.calls && s.calls[c].Returned? && p != CopyOf(c)
    ensures !At(s, s.calls[c].dst, p)
  {
    TableKeysDistinct(table);
    OneOwner(TableParams(table), run, s);
    assert At(s, s.calls[c].dst, CopyOf(c));
  }

  // ----- Beyond the lease -----

  lemma Then(P: Params, s: State, run: seq<Action>, a: Action) returns (run': seq<Action>)
    requires Enabled(Exec(P, s, run), a)
    ensures run' == run + [a] && Exec(P, s, run') == Next(P, Exec(P, s, run), a)
  {
    run' := run + [a];
    assert Front(run') == run;
  }

  /** Call c looks up and misses. */
  lemma MissFirst(P: Params, s0: State, run: seq<Action>, c: nat, q: Query) returns (run': seq<Action>)
    requires var s := Exec(P, s0, run); c !in s.calls && Encodable(q) && P.key(q) !in s.cache.store
    ensures var s := Exec(P, s0, run); Exec(P, s0, run') == s.(calls := s.calls[c := Missed(q)])
  {
    run' := Then(P, s0, run, Begin(c, q));
    run' := Then(P, s0, run', Action.Lookup(c));
  }

  /** Call c misses and routes its query into the new result r. */
  lemma MissAndRoute(P: Params, s0: State, run: seq<Action>, c: nat, q: Query, r: Ref) returns (run': seq<Action>)
    requires var s := Exec(P, s0, run);
             c !in s.calls && Encodable(q) && P.key(q) !in s.cache.store && s.pool == multiset{} && r !in s.heap
    ensures var s := Exec(P, s0, run);
            Exec(P, s0, run') == s.(calls := s.calls[c := Routed(q, r)], heap := s.heap[r := P.Answer(q)])
  {
    run' := MissFirst(P, s0, run, c, q);
    run' := Then(P, s0, run', Action.Route(c, r));
  }

  /** ... and offers it to the cache. */
  lemma MissAndStore(P: Params, s0: State, run: seq<Action>, c: nat, q: Query, r: Ref) returns (run': seq<Action>)
    requires var s := Exec(P, s0, run);
             && c !in s.calls && Encodable(q) && P.key(q) !in s.cache.store && s.pool == multiset{} && r !in s.heap
    ensures var s := Exec(P, s0, run);
            Exec(P, s0, run') == s.(
              calls := s.calls[c := Fetched(q, r, if Drops(s.cache, P.key(q)) then None else Some(s.now))],
              heap := s.heap[r := P.Answer(q)],
              cache := AfterSet(s.cache, P.key(q), r, s.now))
  {
    run' := MissAndRoute(P, s0, run, c, q, r);
    run' := Then(P, s0, run', Store(c));
  }

  /** Call c, reading from an emptied source, copies it into a new result and returns that. */
  lemma {:induction false} CopyEmpty(P: Params, s0: State, run: seq<Action>, c: nat) returns (run': seq<Action>)
    requires var s := Exec(P, s0, run);
             && c in s.calls && s.calls[c].Copying? && s.calls[c].done <= STEPS
             && s.calls[c].src in s.heap && s.calls[c].dst in s.heap && s.calls[c].src != s.calls[c].dst
             && s.heap[s.calls[c].src] == EMPTY && s.heap[s.calls[c].dst] == EMPTY
    ensures var s, s' := Exec(P, s0, run), Exec(P, s0, run');
            var k := s.calls[c];
            && c in s'.calls && s'.calls[c] == Returned(k.q, k.dst, k.since, s.now)
            && k.dst in s'.heap && s'.heap[k.dst] == EMPTY
    decreases STEPS - Exec(P, s0, run).calls[c].done
  {
    var s := Exec(P, s0, run);
    if s.calls[c].done == STEPS {
      run' := Then(P, s0, run, Action.Return(c));
    } else {
      run' := Then(P, s0, run, Action.Copy(c));
      run' := CopyEmpty(P, s0, run', c);
    }
  }

  /** When to fetch so that d later a first pass is due: as early as possible, but not before interval - d. */
  function FetchTime(c: CacheState<Ref>, now: int, d: int): int {
    if d > c.interval then now else now + c.interval - d
  }

  /** The first call stores its result, and no pass is launched yet. */
  lemma FetchFirst(P: Params, s0: State, q: Query, t: int) returns (run: seq<Action>)
    requires s0.cache.store == map[] && s0.calls == map[] && s0.heap == map[] && s0.pool == multiset{}
    requires Encodable(q) && s0.now <= t < s0.cache.next
    ensures Exec(P, s0, run) == s0.(now := t, calls := map[0 := Fetched(q, 0, Some(t))], heap := map[0 := P.Answer(q)],
                                    cache := s0.cache.(store := map[P.key(q) := Entry(0, t)]))
  {
    run := Then(P, s0, [], Tick(t));
    run := MissAndStore(P, s0, run, 0, q, 0);
  }

  /** A second call at time t, stored or dropped, launches a pass. */
  lemma LaunchPass(P: Params, s0: State, run: seq<Action>, q: Query, other: Query, t0: int, t: int) returns (run': seq<Action>)
    requires KeysDistinct(P) && Encodable(q) && Encodable(other) && q != other
    requires Exec(P, s0, run) == s0.(now := t0, calls := map[0 := Fetched(q, 0, Some(t0))], heap := map[0 := P.Answer(q)],
                                     cache := s0.cache.(store := map[P.key(q) := Entry(0, t0)]))
    requires s0.cache.passes == multiset{} && s0.cache.expire > 0 && s0.pool == multiset{}
    requires t0 <= t && t >= s0.cache.next && t - t0 > s0.cache.expire
    ensures var s := Exec(P, s0, run');
            && s.now == t && s.pool == multiset{} && s.cache.notifies == s0.cache.notifies && s.cache.callbacks == s0.cache.callbacks
            && s.cache.passes == multiset{t} && Stale(s.cache, t) == {P.key(q)}
            && P.key(q) in s.cache.store && s.cache.store[P.key(q)].value == 0
            && s.heap == map[0 := P.Answer(q), 1 := P.Answer(other)]
            && 0 in s.calls && s.calls[0] == Fetched(q, 0, Some(t0))
  {
    run' := Then(P, s0, run, Tick(t));
    run' := MissAndStore(P, s0, run', 1, other, 1);
    var s := Exec(P, s0, run');
    assert s.cache.passes == multiset{} + multiset{t};
    assert s.cache.store == map[P.key(q) := Entry(0, t0)] || s.cache.store == map[P.key(q) := Entry(0, t0), P.key(other) := Entry(1, t)];
  }

  /**
   * The lease is necessary. A reader that takes longer than `expire` can find its source emptied: for every such delay d,
   * whatever the cache's configuration, some run hands out an empty result instead of the answer, d after its fetch.
   */
  lemma LateReaderMayReadEmpty(P: Params, expire: int, interval: int, max: int, now: int, q: Query, other: Query, d: int)
    returns (run: seq<Action>)
    requires d > Start(expire, interval, max, now).cache.expire
    requires KeysDistinct(P) && Encodable(q) && Encodable(other) && q != other
    ensures var s0 := Start(expire, interval, max, now);
            var s, t := Exec(P, s0, run), FetchTime(s0.cache, now, d);
            && 0 in s.calls && s.calls[0] == Returned(q, 2, Some(t), t + d)
            && 2 in s.heap && s.heap[2] == EMPTY
  {
    var s0 := Start(expire, interval, max, now);
    var t := FetchTime(s0.cache, now, d);
    run := FetchFirst(P, s0, q, t);
    run := LaunchPass(P, s0, run, q, other, t, t + d);
    run := EvictFirst(P, s0, run, P.key(q), t + d);
    run := Then(P, s0, run, Action.Acquire(0, 2));
    run := CopyEmpty(P, s0, run, 0);
  }

  /** A pass at time t evicts the entry at k, and its callback empties result 0. */
  lemma EvictFirst(P: Params, s0: State, run: seq<Action>, k: CacheKey, t: int) returns (run': seq<Action>)
    requires var s := Exec(P, s0, run);
             && t in s.cache.passes && s.cache.notifies && s.cache.callbacks == multiset{}
             && k in s.cache.store && s.cache.store[k].value == 0 && Stale(s.cache, t) == {k}
    ensures var s, s' := Exec(P, s0, run), Exec(P, s0, run');
            s'.heap == s.heap[0 := EMPTY] && s'.calls == s.calls && s'.pool == s.pool && s'.now == s.now
  {
    var s := Exec(P, s0, run);
    assert (set x | x in {k} :: (x, s.cache.store[x].value)) == {(k, 0)};
    run' := Then(P, s0, run, Action.Pass(t));
    assert Exec(P, s0, run').cache.callbacks == multiset{(k, 0)};
    run' := Then(P, s0, run', Callback(k, 0));
  }

  /** For a route table an empty result is never a correct answer. */
  lemma EmptyIsNoAnswer(table: seq<R.Route>, q: Query)
    ensures R.RouteValue(table, q.verb, q.path, q.off) != EMPTY
  {
    R.AnswerNotEmpty(table, q.verb, q.path, q.off);
  }

  /** The copy that call c has returned, when it was completed within d of its fetch, is the answer. */
  ghost predicate CopyIsAnswer(P: Params, s: State, c: nat, d: int) {
    c in s.calls && s.calls[c].Returned? && InTime(s.calls[c].since, d, s.calls[c].at) ==>
      s.calls[c].dst in s.heap && s.heap[s.calls[c].dst] == P.Answer(s.calls[c].q)
  }

  /** In every run from this start all copies completed within d of their fetch are answers. */
  ghost predicate SafeWithin(table: seq<R.Route>, s0: State, d: int) {
    forall run: seq<Action>, c: nat :: CopyIsAnswer(TableParams(table), Exec(TableParams(table), s0, run), c, d)
  }

  /** The lease is exactly `expire`: copies completed within d of their fetch are answers in every run if and only if d <= expire. */
  lemma LeaseExactly(table: seq<R.Route>, expire: int, interval: int, max: int, now: int, d: int)
    ensures var s0 := Start(expire, interval, max, now); SafeWithin(table, s0, d) <==> d <= s0.cache.expire
  {
    var s0 := Start(expire, interval, max, now);
    if d <= s0.cache.expire {
      forall run: seq<Action>, c: nat
        ensures CopyIsAnswer(TableParams(table), Exec(TableParams(table), s0, run), c, d)
      {
        PromptCopy(table, expire, interval, max, now, run, c, d);
      }
    } else {
      LateCopy(table, expire, interval, max, now, d);
    }
  }

  lemma {:induction false} ExpireStays(P: Params, s0: State, run: seq<Action>)
    ensures Exec(P, s0, run).cache.expire == s0.cache.expire
  {
    if run != [] {
      ExpireStays(P, s0, Front(run));
    }
  }

  lemma PromptCopy(table: seq<R.Route>, expire: int, interval: int, max: int, now: int, run: seq<Action>, c: nat, d: int)
    requires d <= Start(expire, interval, max, now).cache.expire
    ensures CopyIsAnswer(TableParams(table), Exec(TableParams(table), Start(expire, interval, max, now), run), c, d)
  {
    var P := TableParams(table);
    var s := Exec(P, Start(expire, interval, max, now), run);
    ExpireStays(P, Start(expire, interval, max, now), run);
    if c in s.calls && s.calls[c].Returned? && InTime(s.calls[c].since, d, s.calls[c].at) {
      TableKeysDistinct(table);
      CopiesAreAnswers(P, run, s, c);
    }
  }

  lemma LateCopy(table: seq<R.Route>, expire: int, interval: int, max: int, now: int, d: int)
    requires d > Start(expire, interval, max, now).cache.expire
    ensures !SafeWithin(table, Start(expire, interval, max, now), d)
  {
    var P, q, other := TableParams(table), Query("", "", 0), Query("", "", 1);
    TableKeysDistinct(table);
    var run := LateReaderMayReadEmpty(P, expire, interval, max, now, q, other, d);
    EmptyIsNoAnswer(table, q);
    assert P.Answer(q) == R.RouteValue(table, q.verb, q.path, q.off);
    assert !CopyIsAnswer(P, Exec(P, Start(expire, interval, max, now), run), 0, d);
  }
}
