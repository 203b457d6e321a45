/** The expiring cache (pkg/util/cache.go). */
module Caches {
  import opened Prelude
  import opened CacheKeys

  const DEFAULT_EXPIRE: int := 5 * 60 * 1000
  const DEFAULT_INTERVAL: int := 60 * 1000

  /** A stored value and the time of its last Get or Set. */
  datatype Entry<V> = Entry(value: V, peek: int)

  /**
   * Everything the mutex protects, and the goroutines launched so far: eviction passes that have not run yet, with
   * their timestamps, and release callbacks.
   */
  datatype CacheState<V(==)> = CacheState(
    store: map<CacheKey, Entry<V>>,
    expire: int,
    interval: int,
    next: int,
    max: int,
    notifies: bool,
    passes: multiset<int>,
    callbacks: multiset<(CacheKey, V)>)

  // ----- The atomic operations as functions of the state -----

  predicate Due<V(==)>(c: CacheState<V>, now: int) {
    now >= c.next
  }

  function ScheduleEvict<V(==)>(c: CacheState<V>, now: int): CacheState<V> {
    if Due(c, now) then c.(next := now + c.interval, passes := c.passes + multiset{now}) else c
  }

  function Lookup<V(==)>(c: CacheState<V>, key: CacheKey): Option<V> {
    if key in c.store then Some(c.store[key].value) else None
  }

  /** Get refreshes the entry; whether it is stale plays no role. */
  function AfterGet<V(==)>(c: CacheState<V>, key: CacheKey, now: int): CacheState<V> {
    if key !in c.store then c
    else ScheduleEvict(c.(store := c.store[key := Entry(c.store[key].value, now)]), now)
  }

  /** Set on a new key is dropped when the cache is full. */
  predicate Drops<V(==)>(c: CacheState<V>, key: CacheKey) {
    c.max > 0 && |c.store| >= c.max && key !in c.store
  }

  function AfterSet<V(==)>(c: CacheState<V>, key: CacheKey, value: V, now: int): CacheState<V> {
    ScheduleEvict(if Drops(c, key) then c else c.(store := c.store[key := Entry(value, now)]), now)
  }

  function AfterDel<V(==)>(c: CacheState<V>, key: CacheKey): CacheState<V> {
    if key !in c.store then c
    else
      c.(store := c.store - {key},
         callbacks := c.callbacks + if c.notifies then multiset{(key, c.store[key].value)} else multiset{})
  }

  function Stale<V(==)>(c: CacheState<V>, t: int): set<CacheKey> {
    set k | k in c.store && t - c.store[k].peek > c.expire
  }

  /** The entries at the given keys. */
  function Pairs<V(==)>(store: map<CacheKey, Entry<V>>, keys: set<CacheKey>): multiset<(CacheKey, V)>
    requires keys <= store.Keys
  {
    multiset(set k | k in keys :: (k, store[k].value))
  }

  /** The eviction pass launched at time t, whenever it runs. */
  function AfterPass<V(==)>(c: CacheState<V>, t: int): CacheState<V> {
    c.(store := c.store - Stale(c, t),
       passes := c.passes - multiset{t},
       callbacks := c.callbacks + if c.notifies then Pairs(c.store, Stale(c, t)) else multiset{})
  }

  function NewState<V(==)>(expire: int, interval: int, max: int, now: int): CacheState<V> {
    var gap := if interval <= 0 then DEFAULT_INTERVAL else interval;
    CacheState(map[], if expire <= 0 then DEFAULT_EXPIRE else expire, gap, now + gap, max, false, multiset{}, multiset{})
  }

  /** Get changes no value. */
  lemma GetKeepsValues<V>(c: CacheState<V>, key: CacheKey, now: int, k: CacheKey)
    requires k in AfterGet(c, key, now).store
    ensures k in c.store && AfterGet(c, key, now).store[k].value == c.store[k].value
  {
  }

  /** Set changes no value but its own. */
  lemma SetKeepsValues<V>(c: CacheState<V>, key: CacheKey, value: V, now: int, k: CacheKey)
    requires k in AfterSet(c, key, value, now).store
    ensures var v := AfterSet(c, key, value, now).store[k].value;
            (k == key && v == value) || (k in c.store && v == c.store[k].value)
  {
  }

  /** Every value after a Get was there before, under its key. */
  lemma GetKeepsAll<V>(c: CacheState<V>, key: CacheKey, now: int)
    ensures forall k :: k in AfterGet(c, key, now).store ==> k in c.store && AfterGet(c, key, now).store[k].value == c.store[k].value
  {
    forall k | k in AfterGet(c, key, now).store
      ensures k in c.store && AfterGet(c, key, now).store[k].value == c.store[k].value
    {
      GetKeepsValues(c, key, now, k);
    }
  }

  /** Every value after a Set was there before, under its key, or is the one set. */
  lemma SetKeepsAll<V>(c: CacheState<V>, key: CacheKey, value: V, now: int)
    ensures forall k :: k in AfterSet(c, key, value, now).store ==>
              var v := AfterSet(c, key, value, now).store[k].value;
              (k in c.store && v == c.store[k].value) || (k == key && v == value)
  {
    forall k | k in AfterSet(c, key, value, now).store
      ensures var v := AfterSet(c, key, value, now).store[k].value;
              (k in c.store && v == c.store[k].value) || (k == key && v == value)
    {
      SetKeepsValues(c, key, value, now, k);
    }
  }

  // ----- The cache object -----

  class Cache<V(==)> {
    var store: map<CacheKey, Entry<V>>
    var expire: int
    var interval: int
    var next: int
    var max: int
    var notifies: bool
    var passes: multiset<int>
    var callbacks: multiset<(CacheKey, V)>

    ghost function State(): CacheState<V>
      reads this
    {
      CacheState(store, expire, interval, next, max, notifies, passes, callbacks)
    }

    constructor (cfgExpire: int, cfgInterval: int, maxEntries: int, now: int)
      ensures State() == NewState(cfgExpire, cfgInterval, maxEntries, now)
      ensures store == map[] && max == maxEntries && !notifies && passes == multiset{} && callbacks == multiset{}
      ensures expire == (if cfgExpire > 0 then cfgExpire else 300000) && interval == (if cfgInterval > 0 then cfgInterval else 60000)
      ensures next == now + interval
    {
      store := map[];
      expire, interval, max := cfgExpire, cfgInterval, maxEntries;
      notifies, passes, callbacks := false, multiset{}, multiset{};
      if cfgExpire <= 0 {
        expire := DEFAULT_EXPIRE;
      }
      if cfgInterval <= 0 {
        interval := DEFAULT_INTERVAL;
      }
      next := now + (if cfgInterval <= 0 then DEFAULT_INTERVAL else cfgInterval);
    }

    method Get(key: CacheKey, now: int) returns (v: Option<V>)
      modifies this
      ensures v == Lookup(old(State()), key)
      ensures State() == AfterGet(old(State()), key, now)
    {
      if key !in store {
        return None;
      }
      var value := store[key].value;
      store := store[key := Entry(value, now)];
      ScheduleEvictLocked(now);
      v := Some(value);
    }

    method Set(key: CacheKey, value: V, now: int)
      modifies this
      ensures State() == AfterSet(old(State()), key, value, now)
    {
      if max > 0 && |store| >= max {
        if key !in store {
          ScheduleEvictLocked(now);
          return;
        }
      }
      store := store[key := Entry(value, now)];
      ScheduleEvictLocked(now);
    }

    method Del(key: CacheKey)
      modifies this
      ensures State() == AfterDel(old(State()), key)
    {
      if key !in store {
        return;
      }
      var v := store[key];
      store := store - {key};
      if notifies {
        callbacks := callbacks + multiset{(key, v.value)};
      }
    }

    method OnRelease(on: bool)
      modifies this
      ensures State() == old(State()).(notifies := on)
    {
      notifies := on;
    }

    method ScheduleEvictLocked(now: int)
      modifies this
      ensures State() == ScheduleEvict(old(State()), now)
    {
      if now < next {
        return;
      }
      next := now + interval;
      passes := passes + multiset{now};
    }

    /** The body of a launched pass: walks the store, deletes stale entries, then dispatches their callbacks. */
    method Evict(t: int)
      requires t in passes
      modifies this
      ensures State() == AfterPass(old(State()), t)
    {
      ghost var before := State();
      passes := passes - multiset{t};
      var toRelease: multiset<(CacheKey, V)> := multiset{};
      var rest := store.Keys;
      ghost var gone: set<CacheKey> := {};
      while rest != {}
        invariant rest <= store.Keys && rest !! gone
        invariant gone <= before.store.Keys
        invariant forall k :: k in before.store && k !in rest ==> (k in gone <==> t - before.store[k].peek > expire)
        invariant store == before.store - gone
        invariant toRelease == if notifies then Pairs(before.store, gone) else multiset{}
        invariant expire == before.expire && interval == before.interval && next == before.next && max == before.max
        invariant notifies == before.notifies && callbacks == before.callbacks && passes == before.passes - multiset{t}
      {
        var k :| k in rest;
        var v := store[k];
        rest := rest - {k};
        if t - v.peek > expire {
          PairsGrow(before.store, gone, k);
          store := store - {k};
          gone := gone + {k};
          if notifies {
            toRelease := toRelease + multiset{(k, v.value)};
          }
        }
      }
      assert gone == Stale(before, t);
      callbacks := callbacks + toRelease;
    }
  }

  lemma PairsGrow<V>(store: map<CacheKey, Entry<V>>, keys: set<CacheKey>, k: CacheKey)
    requires keys <= store.Keys && k in store && k !in keys
    ensures Pairs(store, keys + {k}) == Pairs(store, keys) + multiset{(k, store[k].value)}
  {
    var a, b := (set x | x in keys :: (x, store[x].value)), (set x | x in keys + {k} :: (x, store[x].value));
    assert b == a + {(k, store[k].value)};
    assert (k, store[k].value) !in a;
  }

  // ----- Runs -----

  /** One step of a run: a locked operation with the clock reading it makes, or a launched pass getting its turn. */
  datatype Op<V(==)> =
    | Get(key: CacheKey, now: int)
    | Set(key: CacheKey, value: V, now: int)
    | Del(key: CacheKey)
    | Pass(t: int)
    | OnRelease(on: bool)

  function Apply<V(==)>(c: CacheState<V>, op: Op<V>): CacheState<V> {
    match op
    case Get(k, now) => AfterGet(c, k, now)
    case Set(k, v, now) => AfterSet(c, k, v, now)
    case Del(k) => AfterDel(c, k)
    case Pass(t) => AfterPass(c, t)
    case OnRelease(on) => c.(notifies := on)
  }

  function Front<T>(s: seq<T>): seq<T>
    requires s != []
  {
    s[..|s| - 1]
  }

  function Last<T>(s: seq<T>): T
    requires s != []
  {
    s[|s| - 1]
  }

  function Run<V(==)>(c: CacheState<V>, ops: seq<Op<V>>): CacheState<V> {
    if ops == [] then c else Apply(Run(c, Front(ops)), Last(ops))
  }

  /** Only launched passes run. */
  predicate Legal<V(==)>(c: CacheState<V>, ops: seq<Op<V>>) {
    ops == [] || (Legal(c, Front(ops)) && (Last(ops).Pass? ==> Last(ops).t in Run(c, Front(ops)).passes))
  }

  predicate WithinCap<V(==)>(c: CacheState<V>) {
    c.max > 0 ==> |c.store| <= c.max
  }

  /** The store never exceeds a positive cap. */
  lemma {:induction false} CapKept<V>(c: CacheState<V>, ops: seq<Op<V>>)
    requires WithinCap(c)
    ensures WithinCap(Run(c, ops)) && Run(c, ops).max == c.max
  {
    if ops != [] {
      CapKept(c, Front(ops));
      var s, s' := Run(c, Front(ops)), Run(c, ops);
      match Last(ops)
      case Get(k, _) =>
        if k in s.store {
          assert s'.store.Keys == s.store.Keys;
          assert |s'.store| == |s'.store.Keys|;
        }
      case Set(k, _, _) =>
        if k in s.store {
          assert s'.store.Keys == s.store.Keys;
          assert |s'.store| == |s'.store.Keys|;
        }
      case Del(k) => FewerKeys(s.store, s'.store);
      case Pass(_) => FewerKeys(s.store, s'.store);
      case OnRelease(_) =>
    }
  }

  lemma {:induction false} FewerKeys<K, W>(m: map<K, W>, m': map<K, W>)
    requires m'.Keys <= m.Keys
    ensures |m'| <= |m|
  {
    if k :| k in m && k !in m' {
      FewerKeys(m - {k}, m');
      assert |m - {k}| == |m| - 1;
    } else {
      assert m'.Keys == m.Keys;
      assert |m| == |m.Keys| && |m'| == |m'.Keys|;
    }
  }

  /** The timestamp of the pass an operation launches, if it launches one. */
  function LaunchOf<V(==)>(c: CacheState<V>, op: Op<V>): seq<int> {
    if (op.Set? || (op.Get? && op.key in c.store)) && Due(c, op.now) then [op.now] else []
  }

  /** The timestamps of the passes a run launches, in order. */
  function Launched<V(==)>(c: CacheState<V>, ops: seq<Op<V>>): seq<int> {
    if ops == [] then [] else Launched(c, Front(ops)) + LaunchOf(Run(c, Front(ops)), Last(ops))
  }

  lemma LaunchStep<V>(c: CacheState<V>, op: Op<V>)
    ensures var c', l := Apply(c, op), LaunchOf(c, op);
            && c'.interval == c.interval
            && (l == [] ==> c'.next == c.next)
            && (l != [] ==> l == [op.now] && op.now >= c.next && c'.next == op.now + c.interval)
            && c'.passes + (if op.Pass? && op.t in c.passes then multiset{op.t} else multiset{}) == c.passes + multiset(l)
  {
  }

  /** Timestamps that start at `first` or later and are a gap apart; the next one is due at `next`. */
  predicate Spaced(ts: seq<int>, first: int, gap: int, next: int) {
    && (forall i :: 0 < i < |ts| ==> ts[i] - ts[i - 1] >= gap)
    && (|ts| > 0 ==> ts[0] >= first)
    && next == (if |ts| == 0 then first else ts[|ts| - 1] + gap)
  }

  lemma SpacedMore(ts: seq<int>, first: int, gap: int, next: int, t: int)
    requires Spaced(ts, first, gap, next) && t >= next
    ensures Spaced(ts + [t], first, gap, t + gap)
  {
  }

  /** Launched passes are at least `interval` apart, whatever the clock does. */
  lemma {:induction false} LaunchesSpaced<V>(c: CacheState<V>, ops: seq<Op<V>>)
    ensures Run(c, ops).interval == c.interval && Spaced(Launched(c, ops), c.next, c.interval, Run(c, ops).next)
  {
    if ops != [] {
      LaunchesSpaced(c, Front(ops));
      var s, op := Run(c, Front(ops)), Last(ops);
      LaunchStep(s, op);
      if LaunchOf(s, op) == [] {
        assert Launched(c, Front(ops)) + [] == Launched(c, Front(ops));
      } else {
        SpacedMore(Launched(c, Front(ops)), c.next, c.interval, s.next, op.now);
      }
    }
  }

  /** The passes that have run. */
  function Passed<V(==)>(ops: seq<Op<V>>): multiset<int> {
    if ops == [] then multiset{}
    else Passed(Front(ops)) + if Last(ops).Pass? then multiset{Last(ops).t} else multiset{}
  }

  /** Every launched pass is pending or has run, and nothing else runs. */
  lemma {:induction false} PassesAccounted<V>(c: CacheState<V>, ops: seq<Op<V>>)
    requires Legal(c, ops)
    ensures Run(c, ops).passes + Passed(ops) == c.passes + multiset(Launched(c, ops))
  {
    if ops != [] {
      PassesAccounted(c, Front(ops));
      var s, op := Run(c, Front(ops)), Last(ops);
      LaunchStep(s, op);
      assert multiset(Launched(c, ops)) == multiset(Launched(c, Front(ops))) + multiset(LaunchOf(s, op));
      var ran := if op.Pass? then multiset{op.t} else multiset{};
      assert Passed(ops) == Passed(Front(ops)) + ran;
      Exchange(Apply(s, op).passes, ran, s.passes, multiset(LaunchOf(s, op)), Passed(Front(ops)),
               c.passes, multiset(Launched(c, Front(ops))));
    }
  }

  lemma Exchange<T>(p': multiset<T>, ran: multiset<T>, p: multiset<T>, l: multiset<T>, done: multiset<T>,
                    p0: multiset<T>, launched: multiset<T>)
    requires p' + ran == p + l && p + done == p0 + launched
    ensures p' + (done + ran) == p0 + (launched + l)
  {
    forall x
      ensures (p' + (done + ran))[x] == (p0 + (launched + l))[x]
    {
      assert (p' + ran)[x] == (p + l)[x] && (p + done)[x] == (p0 + launched)[x];
    }
  }

  /** The time of the last Get or Set on key, read off the operations alone. */
  function LastTouch<V(==)>(ops: seq<Op<V>>, key: CacheKey): Option<int> {
    if ops == [] then None
    else if (Last(ops).Get? || Last(ops).Set?) && Last(ops).key == key then Some(Last(ops).now)
    else LastTouch(Front(ops), key)
  }

  lemma TouchStep<V>(c: CacheState<V>, op: Op<V>, key: CacheKey)
    requires key in Apply(c, op).store
    ensures if (op.Get? || op.Set?) && op.key == key then Apply(c, op).store[key].peek == op.now
            else key in c.store && Apply(c, op).store[key] == c.store[key]
  {
  }

  lemma {:induction false} PeekIsLastTouch<V>(c: CacheState<V>, ops: seq<Op<V>>, key: CacheKey)
    requires c.store == map[] && key in Run(c, ops).store
    ensures LastTouch(ops, key) == Some(Run(c, ops).store[key].peek)
  {
    TouchStep(Run(c, Front(ops)), Last(ops), key);
    if !((Last(ops).Get? || Last(ops).Set?) && Last(ops).key == key) {
      PeekIsLastTouch(c, Front(ops), key);
    }
  }

  lemma {:induction false} ExpireKept<V>(c: CacheState<V>, ops: seq<Op<V>>)
    ensures Run(c, ops).expire == c.expire
  {
    if ops != [] {
      ExpireKept(c, Front(ops));
    }
  }

  lemma LeavingStep<V>(c: CacheState<V>, op: Op<V>, key: CacheKey)
    requires key in c.store
    ensures key !in Apply(c, op).store <==> op == Del(key) || (op.Pass? && op.t - c.store[key].peek > c.expire)
  {
  }

  lemma RunSnoc<V>(c: CacheState<V>, ops: seq<Op<V>>, op: Op<V>)
    ensures Run(c, ops + [op]) == Apply(Run(c, ops), op)
  {
    assert Front(ops + [op]) == ops;
  }

  /**
   * An entry leaves exactly through Del, or through a pass whose timestamp exceeds the time of the entry's last Get or
   * Set by more than `expire`.
   */
  lemma LeavesOnlyWhenStale<V>(c: CacheState<V>, ops: seq<Op<V>>, op: Op<V>, key: CacheKey)
    requires c.store == map[] && key in Run(c, ops).store
    ensures LastTouch(ops, key).Some?
    ensures key !in Run(c, ops + [op]).store <==>
            op == Del(key) || (op.Pass? && op.t - LastTouch(ops, key).value > c.expire)
  {
    PeekIsLastTouch(c, ops, key);
    ExpireKept(c, ops);
    RunSnoc(c, ops, op);
    LeavingStep(Run(c, ops), op, key);
  }

  // ----- What one operation does after any run -----

  /** A pass with this time is launched if one is due, and the next one put off by an interval. */
  ghost predicate LaunchedIfDue<V>(c: CacheState<V>, now: int, c': CacheState<V>) {
    if now < c.next then c'.next == c.next && c'.passes == c.passes
    else c'.next == now + c.interval && c'.passes == c.passes + multiset{now}
  }

  /** A Set stores its value unless the key is new and a positive cap is reached; a Get right behind it finds the value. */
  lemma SetStoresExactly<V>(c: CacheState<V>, ops: seq<Op<V>>, key: CacheKey, value: V, now: int, later: int)
    ensures var s, s' := Run(c, ops), Run(c, ops + [Set(key, value, now)]);
            && (key in s'.store <==> key in s.store || c.max <= 0 || |s.store| < c.max)
            && s'.store == (if key in s.store || c.max <= 0 || |s.store| < c.max then s.store[key := Entry(value, now)] else s.store)
            && s'.callbacks == s.callbacks && LaunchedIfDue(s, now, s')
            && (key in s'.store ==> Lookup(s', key) == Some(value)
                                    && var s'' := Run(c, ops + [Set(key, value, now), Get(key, later)]);
                                       key in s''.store && s''.store[key] == Entry(value, later))
  {
    var s := Run(c, ops);
    MaxKept(c, ops);
    RunSnoc(c, ops, Set(key, value, now));
    RunSnoc(c, ops + [Set(key, value, now)], Get(key, later));
    assert ops + [Set(key, value, now), Get(key, later)] == ops + [Set(key, value, now)] + [Get(key, later)];
  }

  /** A Get finds what is stored, fresh or stale, and puts its time on the entry; without an entry it changes nothing. */
  lemma GetRefreshesExactly<V>(c: CacheState<V>, ops: seq<Op<V>>, key: CacheKey, now: int)
    ensures var s, s' := Run(c, ops), Run(c, ops + [Get(key, now)]);
            && (Lookup(s, key).Some? <==> key in s.store)
            && (key !in s.store ==> s' == s)
            && (key in s.store ==> Lookup(s, key).value == s.store[key].value
                                   && s'.store == s.store[key := Entry(s.store[key].value, now)]
                                   && s'.callbacks == s.callbacks && LaunchedIfDue(s, now, s'))
  {
    RunSnoc(c, ops, Get(key, now));
  }

  /** Del and eviction passes change no entry they leave, and launch nothing. */
  lemma RemovalsKeepRest<V>(c: CacheState<V>, ops: seq<Op<V>>, op: Op<V>, key: CacheKey)
    requires op.Del? || op.Pass?
    ensures var s, s' := Run(c, ops), Run(c, ops + [op]);
            && s'.next == s.next
            && (key in s'.store <==> key in s.store && !(op == Del(key)) && !(op.Pass? && op.t - s.store[key].peek > s.expire))
            && (key in s'.store ==> s'.store[key] == s.store[key])
  {
    RunSnoc(c, ops, op);
  }

  lemma {:induction false} MaxKept<V>(c: CacheState<V>, ops: seq<Op<V>>)
    ensures Run(c, ops).max == c.max
  {
    if ops != [] {
      MaxKept(c, Front(ops));
    }
  }

  // ----- Callbacks: conservation of values -----

  function Live<V(==)>(c: CacheState<V>): multiset<(CacheKey, V)> {
    Pairs(c.store, c.store.Keys)
  }

  function InsertedBy<V(==)>(c: CacheState<V>, op: Op<V>): multiset<(CacheKey, V)> {
    if op.Set? && !Drops(c, op.key) then multiset{(op.key, op.value)} else multiset{}
  }

  /** The value a Set on a present key overwrites; no callback is made for it. */
  function ReplacedBy<V(==)>(c: CacheState<V>, op: Op<V>): multiset<(CacheKey, V)> {
    if op.Set? && op.key in c.store then multiset{(op.key, c.store[op.key].value)} else multiset{}
  }

  /** What is removed while no callback is registered. */
  function SilentBy<V(==)>(c: CacheState<V>, op: Op<V>): multiset<(CacheKey, V)> {
    if c.notifies then multiset{}
    else if op.Del? && op.key in c.store then multiset{(op.key, c.store[op.key].value)}
    else if op.Pass? then Pairs(c.store, Stale(c, op.t))
    else multiset{}
  }

  function Silent<V(==)>(c: CacheState<V>, ops: seq<Op<V>>): multiset<(CacheKey, V)> {
    if ops == [] then multiset{}
    else Silent(c, Front(ops)) + SilentBy(Run(c, Front(ops)), Last(ops))
  }

  function Inserted<V(==)>(c: CacheState<V>, ops: seq<Op<V>>): multiset<(CacheKey, V)> {
    if ops == [] then multiset{}
    else Inserted(c, Front(ops)) + InsertedBy(Run(c, Front(ops)), Last(ops))
  }

  function Replaced<V(==)>(c: CacheState<V>, ops: seq<Op<V>>): multiset<(CacheKey, V)> {
    if ops == [] then multiset{}
    else Replaced(c, Front(ops)) + ReplacedBy(Run(c, Front(ops)), Last(ops))
  }

  lemma LiveAfterUpdate<V>(store: map<CacheKey, Entry<V>>, k: CacheKey, e: Entry<V>)
    ensures var store' := store[k := e];
            Pairs(store', store'.Keys) + (if k in store then multiset{(k, store[k].value)} else multiset{})
            == Pairs(store, store.Keys) + multiset{(k, e.value)}
  {
    var store' := store[k := e];
    var rest := store.Keys - {k};
    PairsGrow(store', rest, k);
    assert rest + {k} == store'.Keys;
    PairsAgree(store, store', rest);
    if k in store {
      PairsGrow(store, rest, k);
      assert rest + {k} == store.Keys;
    } else {
      assert rest == store.Keys;
    }
  }

  lemma PairsAgree<V>(a: map<CacheKey, Entry<V>>, b: map<CacheKey, Entry<V>>, keys: set<CacheKey>)
    requires keys <= a.Keys && keys <= b.Keys
    requires forall k :: k in keys ==> a[k].value == b[k].value
    ensures Pairs(a, keys) == Pairs(b, keys)
  {
    assert (set k | k in keys :: (k, a[k].value)) == (set k | k in keys :: (k, b[k].value));
  }

  lemma {:induction false} LiveAfterRemoval<V>(store: map<CacheKey, Entry<V>>, keys: set<CacheKey>)
    requires keys <= store.Keys
    ensures var rest := store - keys;
            Pairs(rest, rest.Keys) + Pairs(store, keys) == Pairs(store, store.Keys)
    decreases keys
  {
    var rest := store - keys;
    PairsAgree(rest, store, rest.Keys);
    PairsUnion(store, rest.Keys, keys);
    assert rest.Keys + keys == store.Keys;
  }

  lemma PairsUnion<V>(store: map<CacheKey, Entry<V>>, a: set<CacheKey>, b: set<CacheKey>)
    requires a !! b && a + b <= store.Keys
    ensures Pairs(store, a + b) == Pairs(store, a) + Pairs(store, b)
  {
    var sa, sb := (set k | k in a :: (k, store[k].value)), (set k | k in b :: (k, store[k].value));
    assert (set k | k in a + b :: (k, store[k].value)) == sa + sb;
    assert sa !! sb;
  }

  /** Where the values of one step go. */
  ghost predicate Balanced<V>(c: CacheState<V>, op: Op<V>) {
    Live(Apply(c, op)) + ReplacedBy(c, op) + SilentBy(c, op) + Apply(c, op).callbacks
    == Live(c) + InsertedBy(c, op) + c.callbacks
  }

  /** A step that inserts and replaces nothing only has to account for what it removes. */
  lemma BalancedByRemoval<V>(c: CacheState<V>, op: Op<V>)
    requires !op.Set?
    requires Live(Apply(c, op)) + SilentBy(c, op) + Apply(c, op).callbacks == Live(c) + c.callbacks
    ensures Balanced(c, op)
  {
    assert ReplacedBy(c, op) == multiset{} && InsertedBy(c, op) == multiset{};
    assert Live(Apply(c, op)) + multiset{} == Live(Apply(c, op)) && Live(c) + multiset{} == Live(c);
  }

  lemma SetBalanced<V>(c: CacheState<V>, k: CacheKey, v: V, now: int)
    ensures Balanced(c, Set(k, v, now))
  {
    if !Drops(c, k) {
      LiveAfterUpdate(c.store, k, Entry(v, now));
    }
    assert SilentBy(c, Set(k, v, now)) == multiset{};
  }

  lemma DelBalanced<V>(c: CacheState<V>, k: CacheKey)
    ensures Balanced(c, Del(k))
  {
    if k in c.store {
      LiveAfterRemoval(c.store, {k});
      assert (set x | x in {k} :: (x, c.store[x].value)) == {(k, c.store[k].value)};
    }
    BalancedByRemoval(c, Del(k));
  }

  lemma PassBalanced<V>(c: CacheState<V>, t: int)
    ensures Balanced(c, Pass(t))
  {
    LiveAfterRemoval(c.store, Stale(c, t));
    BalancedByRemoval(c, Pass(t));
  }

  lemma GetBalanced<V>(c: CacheState<V>, k: CacheKey, now: int)
    ensures Balanced(c, Get(k, now))
  {
    if k in c.store {
      PairsAgree(AfterGet(c, k, now).store, c.store, c.store.Keys);
      assert AfterGet(c, k, now).store.Keys == c.store.Keys;
    }
    BalancedByRemoval(c, Get(k, now));
  }

  lemma StepConserves<V>(c: CacheState<V>, op: Op<V>)
    ensures Balanced(c, op)
  {
    match op
    case Get(k, now) => GetBalanced(c, k, now);
    case Set(k, v, now) => SetBalanced(c, k, v, now);
    case Del(k) => DelBalanced(c, k);
    case Pass(t) => PassBalanced(c, t);
    case OnRelease(_) => BalancedByRemoval(c, op);
  }

  /** One more step: what it replaces, removes silently and inserts is added up. */
  lemma Regroup<T>(l: multiset<T>, r: multiset<T>, u: multiset<T>, cb: multiset<T>, all: multiset<T>,
                   l': multiset<T>, r': multiset<T>, u': multiset<T>, cb': multiset<T>, i': multiset<T>)
    requires l + r + u + cb == all && l' + r' + u' + cb' == l + i' + cb
    ensures l' + (r + r') + (u + u') + cb' == all + i'
  {
    forall x
      ensures (l' + (r + r') + (u + u') + cb')[x] == (all + i')[x]
    {
      assert (l + r + u + cb)[x] == all[x] && (l' + r' + u' + cb')[x] == (l + i' + cb)[x];
    }
  }

  /** Where the values are after a run. */
  ghost predicate Conserved<V>(c: CacheState<V>, ops: seq<Op<V>>) {
    Live(Run(c, ops)) + Replaced(c, ops) + Silent(c, ops) + Run(c, ops).callbacks
    == Live(c) + c.callbacks + Inserted(c, ops)
  }

  /**
   * In every run, every value that was there or is stored is still in the cache, was overwritten by a later Set, was
   * removed while no callback was registered, or has had its callback scheduled -- each exactly once.
   */
  lemma {:induction false} CallbacksConserve<V>(c: CacheState<V>, ops: seq<Op<V>>)
    ensures Conserved(c, ops)
  {
    if ops != [] {
      CallbacksConserve(c, Front(ops));
      ConserveMore(c, ops);
    }
  }

  lemma ConserveMore<V>(c: CacheState<V>, ops: seq<Op<V>>)
    requires ops != [] && Conserved(c, Front(ops))
    ensures Conserved(c, ops)
  {
    var s, op := Run(c, Front(ops)), Last(ops);
    var s' := Apply(s, op);
    StepConserves(s, op);
    Regroup(Live(s), Replaced(c, Front(ops)), Silent(c, Front(ops)), s.callbacks, Live(c) + c.callbacks + Inserted(c, Front(ops)),
            Live(s'), ReplacedBy(s, op), SilentBy(s, op), s'.callbacks, InsertedBy(s, op));
    assert Live(c) + c.callbacks + Inserted(c, Front(ops)) + InsertedBy(s, op) == Live(c) + c.callbacks + Inserted(c, ops);
  }

  /** The callback stays registered throughout. */
  predicate AlwaysNotified<V(==)>(ops: seq<Op<V>>) {
    ops == [] || (AlwaysNotified(Front(ops)) && (Last(ops).OnRelease? ==> Last(ops).on))
  }

  /** Then nothing is removed silently. */
  lemma {:induction false} NothingSilent<V>(c: CacheState<V>, ops: seq<Op<V>>)
    requires c.notifies && AlwaysNotified(ops)
    ensures Run(c, ops).notifies && Silent(c, ops) == multiset{}
  {
    if ops != [] {
      NothingSilent(c, Front(ops));
    }
  }
}
