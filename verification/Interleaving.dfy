/**
 * Concurrent CachedRoute calls, delayed eviction passes, release callbacks and the result pool
 * (pkg/route/route.go, pkg/route/result.go, pkg/util/cache.go) as interleaved atomic steps under a monotone clock.
 */
module Interleaving {
  import opened Prelude
  import opened CacheKeys
  import opened Caches
  import opened Results

  datatype Query = Query(verb: Bytes, path: Bytes, off: nat)

  /** Lengths and offsets that fit the 4-byte prefixes of the cache key. */
  predicate Encodable(q: Query) {
    |q.verb| < UINT32 && |q.path| < UINT32 && q.off < UINT32
  }

  /** The identity of a Result object. */
  type Ref = nat

  /** How Route fills a result it acquired (starting from what that result holds), and the key of a query. */
  datatype Params = Params(fill: (ResultValue, Query) -> ResultValue, key: Query -> CacheKey)
  {
    function Answer(q: Query): ResultValue {
      fill(EMPTY, q)
    }
  }

  ghost predicate KeysDistinct(P: Params) {
    forall q, q' :: Encodable(q) && Encodable(q') && P.key(q) == P.key(q') ==> q == q'
  }

  /**
   * The progress of one CachedRoute call. `since` is the time of the cache operation that shared the source with the
   * cache; None means the source was never stored and belongs to the call alone.
   */
  datatype Call =
    | Looking(q: Query)
    | Missed(q: Query)
    | Routed(q: Query, src: Ref)
    | Fetched(q: Query, src: Ref, since: Option<int>)
    | Copying(q: Query, src: Ref, since: Option<int>, dst: Ref, done: nat)
    | Returned(q: Query, dst: Ref, since: Option<int>, at: int)

  datatype State = State(
    cache: CacheState<Ref>,
    heap: map<Ref, ResultValue>,
    pool: multiset<Ref>,
    puts: multiset<Ref>,
    calls: map<nat, Call>,
    now: int)

  datatype Action =
    | Tick(t: int)                    // the clock moves on
    | Begin(c: nat, q: Query)         // a call arrives
    | Lookup(c: nat)                  // cache.Get
    | Route(c: nat, r: Ref)           // rs.Route, filling the acquired result r
    | Store(c: nat)                   // cache.Set
    | Acquire(c: nat, r: Ref)         // AcquireResult for the copy
    | Copy(c: nat)                    // one assignment of CopyTo
    | Return(c: nat)                  // the copy is handed to the caller
    | Release(c: nat)                 // the caller's Release: Reset
    | Pass(t: int)                    // a launched eviction pass takes the lock
    | Callback(k: CacheKey, r: Ref)   // onResultReleased: Reset
    | Put(r: Ref)                     // the Put that follows a Reset
    | Drop(r: Ref)                    // the pool forgets an item

  const STEPS: nat := 9

  /** The n-th assignment of CopyTo: first Reset, then the eight fields in order. */
  function CopyStep(dst: ResultValue, src: ResultValue, n: nat): ResultValue {
    if n == 0 then EMPTY
    else if n == 1 then dst.(statusCode := src.statusCode)
    else if n == 2 then dst.(statusMessage := src.statusMessage)
    else if n == 3 then dst.(rewriteUri := src.rewriteUri)
    else if n == 4 then dst.(redirectUri := dst.redirectUri + src.redirectUri)
    else if n == 5 then dst.(appendQueryString := src.appendQueryString)
    else if n == 6 then dst.(handler := src.handler)
    else if n == 7 then dst.(filters := src.filters)
    else dst.(routeIndex := src.routeIndex)
  }

  /** An undisturbed copy of v after n assignments. */
  function Partial(v: ResultValue, n: nat): ResultValue {
    if n == 0 then EMPTY else CopyStep(Partial(v, n - 1), v, n - 1)
  }

  lemma PartialComplete(v: ResultValue)
    ensures Partial(v, STEPS) == v
  {
    assert Partial(v, 1) == EMPTY;
    assert Partial(v, 2) == EMPTY.(statusCode := v.statusCode);
    assert Partial(v, 3) == EMPTY.(statusCode := v.statusCode, statusMessage := v.statusMessage);
    assert Partial(v, 4) == EMPTY.(statusCode := v.statusCode, statusMessage := v.statusMessage, rewriteUri := v.rewriteUri);
    assert Partial(v, 5) == v.(appendQueryString := false, handler := "", filters := [], routeIndex := 0);
    assert Partial(v, 6) == v.(handler := "", filters := [], routeIndex := 0);
    assert Partial(v, 7) == v.(filters := [], routeIndex := 0);
    assert Partial(v, 8) == v.(routeIndex := 0);
  }

  /** AcquireResult may hand out any pooled result, or a new one. */
  predicate CanAcquire(s: State, r: Ref) {
    r in s.pool || r !in s.heap
  }

  function Acquired(s: State, r: Ref): State {
    if r in s.pool then s.(pool := s.pool - multiset{r}) else s.(heap := s.heap[r := EMPTY])
  }

  predicate Enabled(s: State, a: Action) {
    match a
    case Tick(t) => t >= s.now
    case Begin(c, q) => c !in s.calls && Encodable(q)
    case Lookup(c) => CanLookup(s, c)
    case Route(c, r) => CanRoute(s, c, r)
    case Store(c) => CanStore(s, c)
    case Acquire(c, r) => CanCopyInto(s, c, r)
    case Copy(c) => CanCopy(s, c)
    case Return(c) => CanReturn(s, c)
    case Release(c) => CanRelease(s, c)
    case Pass(t) => t in s.cache.passes
    case Callback(k, r) => (k, r) in s.cache.callbacks
    case Put(r) => r in s.puts
    case Drop(r) => r in s.pool
  }

  function Next(P: Params, s: State, a: Action): State
    requires Enabled(s, a)
  {
    match a
    case Tick(t) => s.(now := t)
    case Begin(c, q) => s.(calls := s.calls[c := Looking(q)])
    case Lookup(c) => AfterLookup(P, s, c)
    case Route(c, r) => AfterRoute(P, s, c, r)
    case Store(c) => AfterStore(P, s, c)
    case Acquire(c, r) => AfterAcquire(s, c, r)
    case Copy(c) => AfterCopy(s, c)
    case Return(c) => AfterReturn(s, c)
    case Release(c) => AfterRelease(s, c)
    case Pass(t) => s.(cache := AfterPass(s.cache, t))
    case Callback(k, r) => AfterCallback(s, k, r)
    case Put(r) => s.(puts := s.puts - multiset{r}, pool := s.pool + multiset{r})
    case Drop(r) => s.(pool := s.pool - multiset{r})
  }

  predicate CanLookup(s: State, c: nat) {
    c in s.calls && s.calls[c].Looking?
  }

  function AfterLookup(P: Params, s: State, c: nat): State
    requires CanLookup(s, c)
  {
    var q := s.calls[c].q;
    var hit := Caches.Lookup(s.cache, P.key(q));
    s.(cache := AfterGet(s.cache, P.key(q), s.now),
       calls := s.calls[c := if hit.Some? then Fetched(q, hit.value, Some(s.now)) else Missed(q)])
  }

  predicate CanRoute(s: State, c: nat, r: Ref) {
    c in s.calls && s.calls[c].Missed? && CanAcquire(s, r) && r in Acquired(s, r).heap
  }

  function AfterRoute(P: Params, s: State, c: nat, r: Ref): State
    requires CanRoute(s, c, r)
  {
    var s1, q := Acquired(s, r), s.calls[c].q;
    s1.(heap := s1.heap[r := P.fill(s1.heap[r], q)], calls := s.calls[c := Routed(q, r)])
  }

  predicate CanStore(s: State, c: nat) {
    c in s.calls && s.calls[c].Routed?
  }

  function AfterStore(P: Params, s: State, c: nat): State
    requires CanStore(s, c)
  {
    var q, src := s.calls[c].q, s.calls[c].src;
    var since := if Drops(s.cache, P.key(q)) then None else Some(s.now);
    s.(cache := AfterSet(s.cache, P.key(q), src, s.now), calls := s.calls[c := Fetched(q, src, since)])
  }

  predicate CanCopyInto(s: State, c: nat, r: Ref) {
    c in s.calls && s.calls[c].Fetched? && CanAcquire(s, r) && r in Acquired(s, r).heap
  }

  function AfterAcquire(s: State, c: nat, r: Ref): State
    requires CanCopyInto(s, c, r)
  {
    var f := s.calls[c];
    Acquired(s, r).(calls := s.calls[c := Copying(f.q, f.src, f.since, r, 0)])
  }

  predicate CanCopy(s: State, c: nat) {
    && c in s.calls && s.calls[c].Copying? && s.calls[c].done < STEPS
    && s.calls[c].src in s.heap && s.calls[c].dst in s.heap
  }

  function AfterCopy(s: State, c: nat): State
    requires CanCopy(s, c)
  {
    var k := s.calls[c];
    s.(heap := s.heap[k.dst := CopyStep(s.heap[k.dst], s.heap[k.src], k.done)],
       calls := s.calls[c := k.(done := k.done + 1)])
  }

  predicate CanReturn(s: State, c: nat) {
    c in s.calls && s.calls[c].Copying? && s.calls[c].done == STEPS
  }

  function AfterReturn(s: State, c: nat): State
    requires CanReturn(s, c)
  {
    var k := s.calls[c];
    s.(calls := s.calls[c := Returned(k.q, k.dst, k.since, s.now)])
  }

  predicate CanRelease(s: State, c: nat) {
    c in s.calls && s.calls[c].Returned?
  }

  function AfterRelease(s: State, c: nat): State
    requires CanRelease(s, c)
  {
    var r := s.calls[c].dst;
    s.(heap := s.heap[r := EMPTY], puts := s.puts + multiset{r}, calls := s.calls - {c})
  }

  function AfterCallback(s: State, k: CacheKey, r: Ref): State {
    s.(heap := s.heap[r := EMPTY], puts := s.puts + multiset{r},
       cache := s.cache.(callbacks := s.cache.callbacks - multiset{(k, r)}))
  }

  /** Before the first request: an empty cache with the release callback registered, an empty pool. */
  function Start(expire: int, interval: int, max: int, now: int): State {
    State(NewState<Ref>(expire, interval, max, now).(notifies := true), map[], multiset{}, multiset{}, map[], now)
  }

  /** A run: actions that are not possible when their turn comes do nothing. */
  function Exec(P: Params, s: State, run: seq<Action>): State {
    if run == [] then s
    else
      var s1 := Exec(P, s, Front(run));
      if Enabled(s1, Last(run)) then Next(P, s1, Last(run)) else s1
  }

  // ----- Who holds a result -----

  datatype Place =
    | Stored(k: CacheKey) | Pooled | AwaitingCallback(k: CacheKey) | AwaitingPut
    | Source(c: nat) | CopyOf(c: nat) | Lost | Forgotten

  /** The call alone holds r as the result it routed. */
  predicate HoldsSource(call: Call, r: Ref) {
    || (call.Routed? && call.src == r)
    || ((call.Fetched? || call.Copying?) && call.since.None? && call.src == r)
  }

  /** The call, or the caller it returned to, holds r as its copy. */
  predicate HoldsCopy(call: Call, r: Ref) {
    (call.Copying? || call.Returned?) && call.dst == r
  }

  predicate At(s: State, r: Ref, p: Place) {
    match p
    case Stored(k) => k in s.cache.store && s.cache.store[k].value == r
    case Pooled => r in s.pool
    case AwaitingCallback(k) => (k, r) in s.cache.callbacks
    case AwaitingPut => r in s.puts
    case Source(c) => c in s.calls && HoldsSource(s.calls[c], r)
    case CopyOf(c) => c in s.calls && HoldsCopy(s.calls[c], r)
    case Lost => false
    case Forgotten => false
  }

  /** A result is in at most one place, and at most once there. */
  ghost predicate Exclusive(s: State) {
    && (forall r, p, p' :: At(s, r, p) && At(s, r, p') ==> p == p')
    && (forall r :: s.pool[r] <= 1 && s.puts[r] <= 1)
    && (forall x :: s.cache.callbacks[x] <= 1)
  }

  /** The reader is still within its lease at time t. */
  predicate InTime(since: Option<int>, expire: int, t: int) {
    since.None? || t <= since.value + expire
  }

  // ----- The invariant -----

  ghost predicate Owned(s: State, own: map<Ref, Place>) {
    && own.Keys == s.heap.Keys
    && (forall r, p :: At(s, r, p) ==> r in own && own[r] == p)
    && (forall r :: r in own && !own[r].Lost? && !own[r].Forgotten? ==> At(s, r, own[r]))
    && (forall r :: s.pool[r] <= 1 && s.puts[r] <= 1)
    && (forall x :: s.cache.callbacks[x] <= 1)
  }

  ghost predicate CacheOk(P: Params, s: State) {
    && s.cache.notifies
    && (forall t :: t in s.cache.passes ==> t <= s.now)
    && (forall r :: r in s.pool || r in s.puts ==> r in s.heap && s.heap[r] == EMPTY)
    && (forall k :: k in s.cache.store ==> EntryOk(P, s, k))
  }

  ghost predicate EntryOk(P: Params, s: State, k: CacheKey)
    requires k in s.cache.store
  {
    var e := s.cache.store[k];
    && e.peek <= s.now && e.value in s.heap
    && forall q :: Encodable(q) && P.key(q) == k ==> s.heap[e.value] == P.Answer(q)
  }

  /** A source fetched at time t is intact during its lease: still stored, or overwritten by a later Set and then lost. */
  ghost predicate Leased(P: Params, s: State, own: map<Ref, Place>, q: Query, src: Ref, t: int) {
    && src in s.heap && src in own && t <= s.now
    && (s.now <= t + s.cache.expire ==>
          && s.heap[src] == P.Answer(q)
          && (own[src].Lost? ||
              (P.key(q) in s.cache.store && s.cache.store[P.key(q)].value == src && s.cache.store[P.key(q)].peek >= t)))
  }

  ghost predicate SourceOk(P: Params, s: State, own: map<Ref, Place>, q: Query, src: Ref, since: Option<int>) {
    if since.None? then src in s.heap && s.heap[src] == P.Answer(q) else Leased(P, s, own, q, src, since.value)
  }

  ghost predicate CallOk(P: Params, s: State, own: map<Ref, Place>, call: Call) {
    Encodable(call.q) &&
    match call
    case Looking(_) => true
    case Missed(_) => true
    case Routed(q, src) => SourceOk(P, s, own, q, src, None)
    case Fetched(q, src, since) => SourceOk(P, s, own, q, src, since)
    case Copying(q, src, since, dst, done) =>
      && SourceOk(P, s, own, q, src, since)
      && done <= STEPS && dst in s.heap
      && (InTime(since, s.cache.expire, s.now) ==> s.heap[dst] == Partial(P.Answer(q), done))
    case Returned(q, dst, since, at) =>
      && dst in s.heap && at <= s.now
      && (InTime(since, s.cache.expire, at) ==> s.heap[dst] == P.Answer(q))
  }

  ghost predicate Inv(P: Params, s: State, own: map<Ref, Place>) {
    && Owned(s, own)
    && CacheOk(P, s)
    && CallsOk(P, s, own)
  }

  ghost predicate CallsOk(P: Params, s: State, own: map<Ref, Place>) {
    forall c :: c in s.calls ==> CallOk(P, s, own, s.calls[c])
  }

  // ----- Every action keeps the invariant -----

  lemma KeepTick(P: Params, s: State, own: map<Ref, Place>, t: int)
    requires Inv(P, s, own) && t >= s.now
    ensures Inv(P, s.(now := t), own)
  {
    var s' := s.(now := t);
    assert forall r, p :: At(s', r, p) <==> At(s, r, p);
    forall c | c in s'.calls
      ensures CallOk(P, s', own, s'.calls[c])
    {
      assert CallOk(P, s, own, s.calls[c]);
    }
    forall k | k in s'.cache.store
      ensures EntryOk(P, s', k)
    {
      assert EntryOk(P, s, k);
    }
  }

  lemma KeepBegin(P: Params, s: State, own: map<Ref, Place>, c: nat, q: Query)
    requires Inv(P, s, own) && c !in s.calls && Encodable(q)
    ensures Inv(P, s.(calls := s.calls[c := Looking(q)]), own)
  {
    var s' := s.(calls := s.calls[c := Looking(q)]);
    assert forall r, p :: At(s', r, p) <==> At(s, r, p);
    forall d | d in s'.calls
      ensures CallOk(P, s', own, s'.calls[d])
    {
      if d != c {
        assert CallOk(P, s, own, s.calls[d]);
      }
    }
    forall k | k in s'.cache.store
      ensures EntryOk(P, s', k)
    {
      assert EntryOk(P, s, k);
    }
  }

  /** Refreshing an entry and arming a pass change neither the entries' values nor anything else. */
  lemma LookupCache(c: CacheState<Ref>, k: CacheKey, now: int)
    ensures var c' := AfterGet(c, k, now);
            && c'.store.Keys == c.store.Keys && c'.callbacks == c.callbacks && c'.expire == c.expire && c'.notifies == c.notifies
            && (forall x :: x in c.store ==> c'.store[x].value == c.store[x].value)
            && (forall x :: x in c.store ==> c'.store[x].peek == if x == k then now else c.store[x].peek)
            && (forall t :: t in c'.passes ==> t in c.passes || t == now)
  {
  }

  lemma KeepLookup(P: Params, s: State, own: map<Ref, Place>, c: nat)
    requires KeysDistinct(P) && Inv(P, s, own) && CanLookup(s, c)
    ensures Inv(P, AfterLookup(P, s, c), own)
  {
    var s' := AfterLookup(P, s, c);
    var q := s.calls[c].q;
    var k := P.key(q);
    assert CallOk(P, s, own, s.calls[c]);
    LookupCache(s.cache, k, s.now);
    LookupPlaces(P, s, c);
    forall x | x in s'.cache.store
      ensures EntryOk(P, s', x)
    {
      assert EntryOk(P, s, x);
    }
    forall d | d in s'.calls
      ensures CallOk(P, s', own, s'.calls[d])
    {
      if d != c {
        assert CallOk(P, s, own, s.calls[d]);
        RefreshKeepsCall(P, s, own, s', s.calls[d]);
      } else if k in s.cache.store {
        assert EntryOk(P, s, k);
        assert At(s, s.cache.store[k].value, Stored(k));
      }
    }
  }

  lemma LookupPlaces(P: Params, s: State, c: nat)
    requires CanLookup(s, c)
    ensures forall r, p :: At(AfterLookup(P, s, c), r, p) <==> At(s, r, p)
  {
    LookupCache(s.cache, P.key(s.calls[c].q), s.now);
  }

  lemma RefreshKeepsCall(P: Params, s: State, own: map<Ref, Place>, s': State, call: Call)
    requires CallOk(P, s, own, call)
    requires s'.heap == s.heap && s'.now == s.now && s'.cache.expire == s.cache.expire
    requires s'.cache.store.Keys == s.cache.store.Keys
    requires forall k :: k in s.cache.store ==> s'.cache.store[k].value == s.cache.store[k].value
    requires forall k :: k in s.cache.store ==> s'.cache.store[k].peek >= s.cache.store[k].peek || s'.cache.store[k].peek == s.now
    ensures CallOk(P, s', own, call)
  {
  }

  /** An acquired result was pooled or did not exist: nobody holds it, and no lease is on it. */
  lemma AcquiredUnheld(s: State, own: map<Ref, Place>, r: Ref)
    requires Owned(s, own) && CanAcquire(s, r)
    ensures forall p :: At(s, r, p) ==> p == Pooled
    ensures r in own ==> own[r] == Pooled
    ensures forall p :: !At(Acquired(s, r), r, p)
    ensures forall x, p :: x != r ==> (At(Acquired(s, r), x, p) <==> At(s, x, p))
  {
    if r in s.pool {
      assert At(s, r, Pooled);
      assert r !in s.pool - multiset{r};
    } else {
      assert r !in own;
    }
    forall p
      ensures !At(Acquired(s, r), r, p)
    {
      assert p != Pooled ==> !At(s, r, p);
    }
  }

  /** A step that only touches result r, which call d neither holds nor reads, leaves call d as it was. */
  lemma OtherCallKept(P: Params, s: State, own: map<Ref, Place>, s': State, own': map<Ref, Place>, d: nat, r: Ref)
    requires Owned(s, own) && d in s.calls && CallOk(P, s, own, s.calls[d])
    requires s'.cache.store == s.cache.store && s'.cache.expire == s.cache.expire && s'.now == s.now
    requires forall x :: x in s.heap && x != r ==> x in s'.heap && s'.heap[x] == s.heap[x]
    requires r in s.heap ==> r in s'.heap
    requires forall x :: x in own && x != r ==> x in own' && own'[x] == own[x]
    requires r in own ==> r in own'
    requires !HoldsSource(s.calls[d], r) && !HoldsCopy(s.calls[d], r)
    requires forall k :: !At(s, r, Stored(k))
    requires r in own ==> !own[r].Lost?
    ensures CallOk(P, s', own', s.calls[d])
  {
    var call := s.calls[d];
    if (call.Fetched? || call.Copying?) && call.since.Some? {
      assert !At(s, r, Stored(P.key(call.q)));
    }
  }

  /** So it leaves all calls when nobody holds or stores r. */
  lemma UnheldKept(P: Params, s: State, own: map<Ref, Place>, s': State, own': map<Ref, Place>, r: Ref)
    requires Inv(P, s, own)
    requires s'.cache.store == s.cache.store && s'.cache.expire == s.cache.expire && s'.now == s.now && s'.calls == s.calls
    requires forall x :: x in s.heap && x != r ==> x in s'.heap && s'.heap[x] == s.heap[x]
    requires r in s.heap ==> r in s'.heap
    requires forall x :: x in own && x != r ==> x in own' && own'[x] == own[x]
    requires r in own' && r in own && (own[r].AwaitingCallback? || own[r].AwaitingPut? || own[r].Pooled?)
    ensures CallsOk(P, s', own')
  {
    forall d | d in s.calls
      ensures CallOk(P, s', own', s.calls[d])
    {
      assert !At(s, r, Source(d)) && !At(s, r, CopyOf(d));
      OtherCallKept(P, s, own, s', own', d, r);
    }
  }

  /** So it leaves all calls but c, when nobody but c holds r. */
  lemma OthersKept(P: Params, s: State, own: map<Ref, Place>, s': State, own': map<Ref, Place>, c: nat, r: Ref)
    requires Inv(P, s, own)
    requires s'.cache.store == s.cache.store && s'.cache.expire == s.cache.expire && s'.now == s.now
    requires forall x :: x in s.heap && x != r ==> x in s'.heap && s'.heap[x] == s.heap[x]
    requires r in s.heap ==> r in s'.heap
    requires forall x :: x in own && x != r ==> x in own' && own'[x] == own[x]
    requires r in own ==> r in own' && !own[r].Lost? && !own[r].Stored?
    requires forall d :: d != c ==> !At(s, r, Source(d)) && !At(s, r, CopyOf(d))
    ensures forall d :: d in s.calls && d != c ==> CallOk(P, s', own', s.calls[d])
  {
    forall d | d in s.calls && d != c
      ensures CallOk(P, s', own', s.calls[d])
    {
      assert !At(s, r, Source(d)) && !At(s, r, CopyOf(d));
      OtherCallKept(P, s, own, s', own', d, r);
    }
  }

  /** Acquiring and writing r does not disturb the other calls. */
  lemma AcquiringKeepsOthers(P: Params, s: State, own: map<Ref, Place>, s': State, c: nat, r: Ref, p: Place)
    requires Inv(P, s, own) && CanAcquire(s, r)
    requires s'.cache == s.cache && s'.now == s.now
    requires forall x :: x in s.heap && x != r ==> x in s'.heap && s'.heap[x] == s.heap[x]
    requires r in s'.heap
    ensures forall d :: d in s.calls && d != c ==> CallOk(P, s', own[r := p], s.calls[d])
  {
    AcquiredUnheld(s, own, r);
    OthersKept(P, s, own, s', own[r := p], c, r);
  }

  /** Stored results that are not touched keep their content. */
  lemma EntriesKept(P: Params, s: State, s': State, r: Ref)
    requires CacheOk(P, s) && s'.cache.store == s.cache.store && s'.now == s.now
    requires forall x :: x in s.heap && x != r ==> x in s'.heap && s'.heap[x] == s.heap[x]
    requires forall k :: !At(s, r, Stored(k))
    ensures forall k :: k in s'.cache.store ==> EntryOk(P, s', k)
  {
    forall k | k in s'.cache.store
      ensures EntryOk(P, s', k)
    {
      assert EntryOk(P, s, k) && !At(s, r, Stored(k));
    }
  }

  /** So do pooled results, and those about to be put back. */
  lemma CacheKept(P: Params, s: State, s': State, r: Ref)
    requires CacheOk(P, s) && s'.cache == s.cache && s'.now == s.now
    requires forall x :: x in s.heap && x != r ==> x in s'.heap && s'.heap[x] == s.heap[x]
    requires forall k :: !At(s, r, Stored(k))
    requires forall x :: x in s'.pool || x in s'.puts ==> x != r && (x in s.pool || x in s.puts)
    ensures CacheOk(P, s')
  {
    EntriesKept(P, s, s', r);
  }

  lemma RouteOwned(P: Params, s: State, own: map<Ref, Place>, c: nat, r: Ref)
    requires Owned(s, own) && CanRoute(s, c, r)
    ensures Owned(AfterRoute(P, s, c, r), own[r := Source(c)])
  {
    var s', own' := AfterRoute(P, s, c, r), own[r := Source(c)];
    AcquiredUnheld(s, own, r);
    var s1 := Acquired(s, r);
    assert forall x, p :: At(s', x, p) <==> At(s1, x, p) || (x == r && p == Source(c));
    assert forall x, p :: At(s', x, p) <==> (x != r && At(s, x, p)) || (x == r && p == Source(c));
  }

  lemma RoutedOk(P: Params, s: State, own: map<Ref, Place>, c: nat, r: Ref)
    requires CanRoute(s, c, r) && CallOk(P, s, own, s.calls[c]) && Acquired(s, r).heap[r] == EMPTY
    ensures var s' := AfterRoute(P, s, c, r); CallOk(P, s', own[r := Source(c)], s'.calls[c])
  {
  }

  lemma RouteCallsOk(P: Params, s: State, own: map<Ref, Place>, c: nat, r: Ref)
    requires Inv(P, s, own) && CanRoute(s, c, r) && Acquired(s, r).heap[r] == EMPTY
    ensures CallsOk(P, AfterRoute(P, s, c, r), own[r := Source(c)])
  {
    RoutedOk(P, s, own, c, r);
    AcquiringKeepsOthers(P, s, own, AfterRoute(P, s, c, r), c, r, Source(c));
  }

  lemma KeepRoute(P: Params, s: State, own: map<Ref, Place>, c: nat, r: Ref)
    requires Inv(P, s, own) && CanRoute(s, c, r)
    ensures Inv(P, AfterRoute(P, s, c, r), own[r := Source(c)])
  {
    RouteOwned(P, s, own, c, r);
    RouteCacheOk(P, s, own, c, r);
    RouteCallsOk(P, s, own, c, r);
  }

  lemma RouteCacheOk(P: Params, s: State, own: map<Ref, Place>, c: nat, r: Ref)
    requires Owned(s, own) && CacheOk(P, s) && CanRoute(s, c, r)
    ensures CacheOk(P, AfterRoute(P, s, c, r))
    ensures Acquired(s, r).heap[r] == EMPTY
  {
    AcquiredUnheld(s, own, r);
    var s1 := Acquired(s, r);
    assert !At(s1, r, Pooled) && !At(s1, r, AwaitingPut);
    CacheKept(P, s, AfterRoute(P, s, c, r), r);
  }

  lemma AcquireOwned(P: Params, s: State, own: map<Ref, Place>, c: nat, r: Ref)
    requires Owned(s, own) && CanCopyInto(s, c, r)
    ensures Owned(AfterAcquire(s, c, r), own[r := CopyOf(c)])
  {
    var s', own' := AfterAcquire(s, c, r), own[r := CopyOf(c)];
    AcquiredUnheld(s, own, r);
    var s1 := Acquired(s, r);
    assert forall x, p :: At(s', x, p) <==> At(s1, x, p) || (x == r && p == CopyOf(c));
    assert forall x, p :: At(s', x, p) <==> (x != r && At(s, x, p)) || (x == r && p == CopyOf(c));
  }

  lemma AcquireCallsOk(P: Params, s: State, own: map<Ref, Place>, c: nat, r: Ref)
    requires Inv(P, s, own) && CanCopyInto(s, c, r) && AfterAcquire(s, c, r).heap[r] == EMPTY
    ensures CallsOk(P, AfterAcquire(s, c, r), own[r := CopyOf(c)])
  {
    AcquiringKeepsOthers(P, s, own, AfterAcquire(s, c, r), c, r, CopyOf(c));
    AcquireSourceOk(P, s, own, c, r);
  }

  lemma KeepAcquire(P: Params, s: State, own: map<Ref, Place>, c: nat, r: Ref)
    requires Inv(P, s, own) && CanCopyInto(s, c, r)
    ensures Inv(P, AfterAcquire(s, c, r), own[r := CopyOf(c)])
  {
    AcquireOwned(P, s, own, c, r);
    AcquireCacheOk(P, s, own, c, r);
    AcquireCallsOk(P, s, own, c, r);
  }

  lemma AcquireSourceOk(P: Params, s: State, own: map<Ref, Place>, c: nat, r: Ref)
    requires Inv(P, s, own) && CanCopyInto(s, c, r)
    ensures var s' := AfterAcquire(s, c, r);
            s'.heap[r] == EMPTY ==> CallOk(P, s', own[r := CopyOf(c)], s'.calls[c])
  {
    var call := s.calls[c];
    AcquiredUnheld(s, own, r);
    assert CallOk(P, s, own, call);
    assert !At(s, r, Source(c)) && !At(s, r, Stored(P.key(call.q)));
  }

  lemma AcquireCacheOk(P: Params, s: State, own: map<Ref, Place>, c: nat, r: Ref)
    requires Owned(s, own) && CacheOk(P, s) && CanCopyInto(s, c, r)
    ensures CacheOk(P, AfterAcquire(s, c, r))
    ensures AfterAcquire(s, c, r).heap[r] == EMPTY
  {
    AcquiredUnheld(s, own, r);
    var s1 := Acquired(s, r);
    assert !At(s1, r, Pooled) && !At(s1, r, AwaitingPut);
    CacheKept(P, s, AfterAcquire(s, c, r), r);
  }

  lemma KeepCopy(P: Params, s: State, own: map<Ref, Place>, c: nat)
    requires Inv(P, s, own) && CanCopy(s, c)
    ensures Inv(P, AfterCopy(s, c), own)
  {
    var s' := AfterCopy(s, c);
    var call := s.calls[c];
    assert CallOk(P, s, own, call);
    assert At(s, call.dst, CopyOf(c));
    SamePlaces(s, s');
    assert !At(s, call.dst, Pooled) && !At(s, call.dst, AwaitingPut);
    CacheKept(P, s, s', call.dst);
    OthersKept(P, s, own, s', own, c, call.dst);
    CopyStepOk(P, s, own, c);
  }

  lemma CopyStepOk(P: Params, s: State, own: map<Ref, Place>, c: nat)
    requires Owned(s, own) && CanCopy(s, c) && CallOk(P, s, own, s.calls[c])
    ensures var s' := AfterCopy(s, c); CallOk(P, s', own, s'.calls[c])
  {
    var call := s.calls[c];
    assert At(s, call.dst, CopyOf(c));
    assert !At(s, call.dst, Source(c)) && !At(s, call.dst, Stored(P.key(call.q)));
  }

  lemma SamePlaces(s: State, s': State)
    requires s'.cache.callbacks == s.cache.callbacks && s'.cache.store == s.cache.store
    requires s'.pool == s.pool && s'.puts == s.puts && s'.calls.Keys == s.calls.Keys
    requires forall c, r :: c in s.calls ==> (HoldsSource(s'.calls[c], r) <==> HoldsSource(s.calls[c], r))
    requires forall c, r :: c in s.calls ==> (HoldsCopy(s'.calls[c], r) <==> HoldsCopy(s.calls[c], r))
    ensures forall r, p :: At(s', r, p) <==> At(s, r, p)
  {
  }

  lemma KeepReturn(P: Params, s: State, own: map<Ref, Place>, c: nat)
    requires Inv(P, s, own) && CanReturn(s, c)
    ensures Inv(P, AfterReturn(s, c), if s.calls[c].since.None? then own[s.calls[c].src := Lost] else own)
  {
    var s', call := AfterReturn(s, c), s.calls[c];
    var own' := if call.since.None? then own[call.src := Lost] else own;
    assert CallOk(P, s, own, call);
    assert Owned(s', own') by {
      ReturnOwned(P, s, own, c);
    }
    EntriesUntouched(P, s, s');
    PartialComplete(P.Answer(call.q));
    forall d | d in s'.calls
      ensures CallOk(P, s', own', s'.calls[d])
    {
      assert CallOk(P, s, own, s.calls[d]);
    }
  }

  lemma ReturnOwned(P: Params, s: State, own: map<Ref, Place>, c: nat)
    requires Owned(s, own) && CanReturn(s, c)
    ensures Owned(AfterReturn(s, c), if s.calls[c].since.None? then own[s.calls[c].src := Lost] else own)
  {
    var s', call := AfterReturn(s, c), s.calls[c];
    if call.since.None? {
      assert At(s, call.src, Source(c));
    }
    forall r, p
      ensures At(s', r, p) <==> At(s, r, p) && p != Source(c)
    {
    }
  }

  lemma EntriesUntouched(P: Params, s: State, s': State)
    requires CacheOk(P, s) && s'.cache.store == s.cache.store && s'.heap == s.heap && s'.now == s.now
    ensures forall k :: k in s'.cache.store ==> EntryOk(P, s', k)
  {
    forall k | k in s'.cache.store
      ensures EntryOk(P, s', k)
    {
      assert EntryOk(P, s, k);
    }
  }

  lemma ReleaseOwned(s: State, own: map<Ref, Place>, c: nat)
    requires Owned(s, own) && CanRelease(s, c)
    ensures Owned(AfterRelease(s, c), own[s.calls[c].dst := AwaitingPut])
  {
    var s', dst := AfterRelease(s, c), s.calls[c].dst;
    assert At(s, dst, CopyOf(c));
    assert !At(s, dst, AwaitingPut);
    forall r, p
      ensures At(s', r, p) <==> (r != dst && At(s, r, p)) || (r == dst && p == AwaitingPut)
    {
      assert r == dst && p != CopyOf(c) ==> !At(s, r, p);
    }
  }

  lemma KeepRelease(P: Params, s: State, own: map<Ref, Place>, c: nat)
    requires Inv(P, s, own) && CanRelease(s, c)
    ensures Inv(P, AfterRelease(s, c), own[s.calls[c].dst := AwaitingPut])
  {
    var s', dst := AfterRelease(s, c), s.calls[c].dst;
    var own' := own[dst := AwaitingPut];
    ReleaseOwned(s, own, c);
    assert At(s, dst, CopyOf(c));
    EntriesKept(P, s, s', dst);
    OthersKept(P, s, own, s', own', c, dst);
  }

  lemma CallbackOwned(s: State, own: map<Ref, Place>, k: CacheKey, r: Ref)
    requires Owned(s, own) && (k, r) in s.cache.callbacks
    ensures Owned(AfterCallback(s, k, r), own[r := AwaitingPut])
  {
    var s' := AfterCallback(s, k, r);
    assert At(s, r, AwaitingCallback(k));
    assert !At(s, r, AwaitingPut);
    forall x, p
      ensures At(s', x, p) <==> (x != r && At(s, x, p)) || (x == r && p == AwaitingPut)
    {
      assert x == r && p != AwaitingCallback(k) ==> !At(s, x, p);
    }
  }

  lemma KeepCallback(P: Params, s: State, own: map<Ref, Place>, k: CacheKey, r: Ref)
    requires Inv(P, s, own) && (k, r) in s.cache.callbacks
    ensures Inv(P, AfterCallback(s, k, r), own[r := AwaitingPut])
  {
    var s', own' := AfterCallback(s, k, r), own[r := AwaitingPut];
    CallbackOwned(s, own, k, r);
    assert At(s, r, AwaitingCallback(k));
    EntriesKept(P, s, s', r);
    UnheldKept(P, s, own, s', own', r);
  }

  lemma KeepPut(P: Params, s: State, own: map<Ref, Place>, r: Ref)
    requires Inv(P, s, own) && r in s.puts
    ensures Inv(P, s.(puts := s.puts - multiset{r}, pool := s.pool + multiset{r}), own[r := Pooled])
  {
    var s', own' := s.(puts := s.puts - multiset{r}, pool := s.pool + multiset{r}), own[r := Pooled];
    assert At(s, r, AwaitingPut);
    assert !At(s, r, Pooled);
    forall x, p
      ensures At(s', x, p) <==> (x != r && At(s, x, p)) || (x == r && p == Pooled)
    {
      assert x == r && p != AwaitingPut ==> !At(s, x, p);
    }
    EntriesUntouched(P, s, s');
    UnheldKept(P, s, own, s', own', r);
  }

  lemma KeepDrop(P: Params, s: State, own: map<Ref, Place>, r: Ref)
    requires Inv(P, s, own) && r in s.pool
    ensures Inv(P, s.(pool := s.pool - multiset{r}), own[r := Forgotten])
  {
    var s', own' := s.(pool := s.pool - multiset{r}), own[r := Forgotten];
    assert At(s, r, Pooled);
    forall x, p
      ensures At(s', x, p) <==> x != r && At(s, x, p)
    {
      assert x == r && p != Pooled ==> !At(s, x, p);
    }
    EntriesUntouched(P, s, s');
    UnheldKept(P, s, own, s', own', r);
  }

  /** Set, seen from the outside: the entry is there unless the cache was full, and at most one pass is armed. */
  lemma StoreCache(c: CacheState<Ref>, k: CacheKey, src: Ref, now: int)
    ensures var c' := AfterSet(c, k, src, now);
            && c'.store == (if Drops(c, k) then c.store else c.store[k := Entry(src, now)])
            && c'.callbacks == c.callbacks && c'.expire == c.expire && c'.notifies == c.notifies
            && (forall t :: t in c'.passes ==> t in c.passes || t == now)
  {
  }

  lemma KeepDroppedStore(P: Params, s: State, own: map<Ref, Place>, c: nat)
    requires Inv(P, s, own) && CanStore(s, c) && Drops(s.cache, P.key(s.calls[c].q))
    ensures Inv(P, AfterStore(P, s, c), own)
  {
    var s', call := AfterStore(P, s, c), s.calls[c];
    StoreCache(s.cache, P.key(call.q), call.src, s.now);
    assert CallOk(P, s, own, call);
    SamePlaces(s, s');
    EntriesUntouched(P, s, s');
    forall d | d in s'.calls
      ensures CallOk(P, s', own, s'.calls[d])
    {
      assert CallOk(P, s, own, s.calls[d]);
    }
  }

  /** Where results are after a successful Set: the routed one is stored, and the one it replaces is lost. */
  ghost function Stores(s: State, own: map<Ref, Place>, k: CacheKey, src: Ref): map<Ref, Place> {
    (if k in s.cache.store then own[s.cache.store[k].value := Lost] else own)[src := Stored(k)]
  }

  lemma StoreOwned(P: Params, s: State, own: map<Ref, Place>, c: nat)
    requires Owned(s, own) && CanStore(s, c) && !Drops(s.cache, P.key(s.calls[c].q))
    ensures Owned(AfterStore(P, s, c), Stores(s, own, P.key(s.calls[c].q), s.calls[c].src))
  {
    var s', src, k := AfterStore(P, s, c), s.calls[c].src, P.key(s.calls[c].q);
    StoreCache(s.cache, k, src, s.now);
    assert At(s, src, Source(c)) && !At(s, src, Stored(k));
    forall x, p
      ensures At(s', x, p) <==> (x != src && p != Stored(k) && At(s, x, p)) || (x == src && p == Stored(k))
    {
      assert x == src && p != Source(c) ==> !At(s, x, p);
    }
    assert k in s.cache.store ==> At(s, s.cache.store[k].value, Stored(k));
  }

  lemma StoreEntriesOk(P: Params, s: State, own: map<Ref, Place>, c: nat)
    requires KeysDistinct(P) && Inv(P, s, own) && CanStore(s, c) && !Drops(s.cache, P.key(s.calls[c].q))
    ensures CacheOk(P, AfterStore(P, s, c))
  {
    var s', call := AfterStore(P, s, c), s.calls[c];
    StoreCache(s.cache, P.key(call.q), call.src, s.now);
    assert CallOk(P, s, own, call);
    forall x | x in s'.cache.store
      ensures EntryOk(P, s', x)
    {
      if x != P.key(call.q) {
        assert EntryOk(P, s, x);
      }
    }
  }

  lemma StoreCallsOk(P: Params, s: State, own: map<Ref, Place>, c: nat)
    requires Inv(P, s, own) && CanStore(s, c) && !Drops(s.cache, P.key(s.calls[c].q))
    ensures CallsOk(P, AfterStore(P, s, c), Stores(s, own, P.key(s.calls[c].q), s.calls[c].src))
  {
    var s', src, k := AfterStore(P, s, c), s.calls[c].src, P.key(s.calls[c].q);
    var own' := Stores(s, own, k, src);
    StoreCache(s.cache, k, src, s.now);
    assert CallOk(P, s, own, s.calls[c]);
    assert At(s, src, Source(c));
    forall d | d in s'.calls
      ensures CallOk(P, s', own', s'.calls[d])
    {
      if d != c {
        StoreKeepsCall(P, s, own, s', k, src, s.calls[d]);
      }
    }
  }

  lemma StoreKeepsCall(P: Params, s: State, own: map<Ref, Place>, s': State, k: CacheKey, src: Ref, call: Call)
    requires Owned(s, own) && CallOk(P, s, own, call)
    requires src in own && own[src].Source?
    requires s'.cache.store == s.cache.store[k := Entry(src, s.now)] && s'.cache.expire == s.cache.expire
    requires s'.heap == s.heap && s'.now == s.now
    ensures CallOk(P, s', Stores(s, own, k, src), call)
  {
    if k in s.cache.store {
      assert At(s, s.cache.store[k].value, Stored(k));
    }
    if (call.Fetched? || call.Copying?) && call.since.Some? {
      assert !At(s, src, Stored(P.key(call.q)));
    }
  }

  lemma KeepStore(P: Params, s: State, own: map<Ref, Place>, c: nat)
    requires KeysDistinct(P) && Inv(P, s, own) && CanStore(s, c)
    ensures Inv(P, AfterStore(P, s, c),
                if Drops(s.cache, P.key(s.calls[c].q)) then own else Stores(s, own, P.key(s.calls[c].q), s.calls[c].src))
  {
    if Drops(s.cache, P.key(s.calls[c].q)) {
      KeepDroppedStore(P, s, own, c);
    } else {
      StoreOwned(P, s, own, c);
      StoreEntriesOk(P, s, own, c);
      StoreCallsOk(P, s, own, c);
    }
  }

  /** Where results are after a pass: the evicted ones wait for their callback. */
  ghost function Evicts(s: State, own: map<Ref, Place>, t: int): map<Ref, Place> {
    map r | r in own :: if own[r].Stored? && own[r].k in Stale(s.cache, t) then AwaitingCallback(own[r].k) else own[r]
  }

  lemma PassCallbacks(c: CacheState<Ref>, t: int)
    requires c.notifies
    ensures forall k, r :: AfterPass(c, t).callbacks[(k, r)] ==
                           c.callbacks[(k, r)] + if k in Stale(c, t) && c.store[k].value == r then 1 else 0
  {
  }

  lemma PassPlaces(s: State, t: int)
    requires s.cache.notifies
    ensures forall r, p :: At(s.(cache := AfterPass(s.cache, t)), r, p) <==>
              || (At(s, r, p) && !(p.Stored? && p.k in Stale(s.cache, t)))
              || (p.AwaitingCallback? && p.k in Stale(s.cache, t) && At(s, r, Stored(p.k)))
  {
    PassCallbacks(s.cache, t);
  }

  lemma PassCounts(s: State, own: map<Ref, Place>, t: int)
    requires Owned(s, own) && s.cache.notifies
    ensures forall x :: AfterPass(s.cache, t).callbacks[x] <= 1
  {
    PassCallbacks(s.cache, t);
    forall k, r
      ensures AfterPass(s.cache, t).callbacks[(k, r)] <= 1
    {
      if k in Stale(s.cache, t) && s.cache.store[k].value == r {
        assert At(s, r, Stored(k));
        assert !At(s, r, AwaitingCallback(k));
      }
    }
  }

  lemma PassOwned(s: State, own: map<Ref, Place>, t: int)
    requires Owned(s, own) && s.cache.notifies
    ensures Owned(s.(cache := AfterPass(s.cache, t)), Evicts(s, own, t))
  {
    var s', own', stale := s.(cache := AfterPass(s.cache, t)), Evicts(s, own, t), Stale(s.cache, t);
    PassPlaces(s, t);
    PassCounts(s, own, t);
    forall r, p | At(s', r, p)
      ensures r in own' && own'[r] == p
    {
      if p.AwaitingCallback? && p.k in stale && At(s, r, Stored(p.k)) {
        assert own[r] == Stored(p.k);
      } else {
        assert At(s, r, p);
      }
    }
    forall r | r in own' && !own'[r].Lost? && !own'[r].Forgotten?
      ensures At(s', r, own'[r])
    {
      assert At(s, r, own[r]);
    }
  }

  lemma PassCallsOk(P: Params, s: State, own: map<Ref, Place>, t: int)
    requires Inv(P, s, own) && t in s.cache.passes
    ensures CallsOk(P, s.(cache := AfterPass(s.cache, t)), Evicts(s, own, t))
  {
    var s', own' := s.(cache := AfterPass(s.cache, t)), Evicts(s, own, t);
    forall d | d in s'.calls
      ensures CallOk(P, s', own', s'.calls[d])
    {
      assert CallOk(P, s, own, s.calls[d]);
    }
  }

  lemma KeepPass(P: Params, s: State, own: map<Ref, Place>, t: int)
    requires Inv(P, s, own) && t in s.cache.passes
    ensures Inv(P, s.(cache := AfterPass(s.cache, t)), Evicts(s, own, t))
  {
    PassOwned(s, own, t);
    PassCallsOk(P, s, own, t);
    var s' := s.(cache := AfterPass(s.cache, t));
    forall k | k in s'.cache.store
      ensures EntryOk(P, s', k)
    {
      assert EntryOk(P, s, k);
    }
  }

  // ----- Whole runs -----

  /** How an action moves results between places. */
  ghost function Moved(P: Params, s: State, own: map<Ref, Place>, a: Action): map<Ref, Place>
    requires Enabled(s, a)
  {
    match a
    case Tick(_) => own
    case Begin(_, _) => own
    case Lookup(_) => own
    case Route(c, r) => own[r := Source(c)]
    case Store(c) =>
      if Drops(s.cache, P.key(s.calls[c].q)) then own else Stores(s, own, P.key(s.calls[c].q), s.calls[c].src)
    case Acquire(c, r) => own[r := CopyOf(c)]
    case Copy(_) => own
    case Return(c) => if s.calls[c].since.None? then own[s.calls[c].src := Lost] else own
    case Release(c) => own[s.calls[c].dst := AwaitingPut]
    case Pass(t) => Evicts(s, own, t)
    case Callback(_, r) => own[r := AwaitingPut]
    case Put(r) => own[r := Pooled]
    case Drop(r) => own[r := Forgotten]
  }

  lemma KeepInv(P: Params, s: State, own: map<Ref, Place>, a: Action)
    requires KeysDistinct(P) && Inv(P, s, own) && Enabled(s, a)
    ensures Inv(P, Next(P, s, a), Moved(P, s, own, a))
  {
    match a
    case Tick(t) => KeepTick(P, s, own, t);
    case Begin(c, q) => KeepBegin(P, s, own, c, q);
    case Lookup(c) => KeepLookup(P, s, own, c);
    case Route(c, r) => KeepRoute(P, s, own, c, r);
    case Store(c) => KeepStore(P, s, own, c);
    case Acquire(c, r) => KeepAcquire(P, s, own, c, r);
    case Copy(c) => KeepCopy(P, s, own, c);
    case Return(c) => KeepReturn(P, s, own, c);
    case Release(c) => KeepRelease(P, s, own, c);
    case Pass(t) => KeepPass(P, s, own, t);
    case Callback(k, r) => KeepCallback(P, s, own, k, r);
    case Put(r) => KeepPut(P, s, own, r);
    case Drop(r) => KeepDrop(P, s, own, r);
  }

  ghost function Places(P: Params, s: State, own: map<Ref, Place>, run: seq<Action>): map<Ref, Place> {
    if run == [] then own
    else
      var s1, own1 := Exec(P, s, Front(run)), Places(P, s, own, Front(run));
      if Enabled(s1, Last(run)) then Moved(P, s1, own1, Last(run)) else own1
  }

  lemma {:induction false} RunKeepsInv(P: Params, s: State, own: map<Ref, Place>, run: seq<Action>)
    requires KeysDistinct(P) && Inv(P, s, own)
    ensures Inv(P, Exec(P, s, run), Places(P, s, own, run))
  {
    if run != [] {
      RunKeepsInv(P, s, own, Front(run));
      var s1, own1 := Exec(P, s, Front(run)), Places(P, s, own, Front(run));
      if Enabled(s1, Last(run)) {
        KeepInv(P, s1, own1, Last(run));
      }
    }
  }

  /** The state reached from the start by a run. */
  ghost predicate Reaches(P: Params, run: seq<Action>, s: State) {
    exists expire, interval, max, now :: s == Exec(P, Start(expire, interval, max, now), run)
  }

  lemma ReachableInv(P: Params, run: seq<Action>, s: State) returns (own: map<Ref, Place>)
    requires KeysDistinct(P) && Reaches(P, run, s)
    ensures Inv(P, s, own)
  {
    var expire, interval, max, now :| s == Exec(P, Start(expire, interval, max, now), run);
    var s0 := Start(expire, interval, max, now);
    assert Inv(P, s0, map[]);
    RunKeepsInv(P, s0, map[], run);
    own := Places(P, s0, map[], run);
  }

  /**
   * Ownership: in every interleaving, a result is in at most one of the store, the pool, a pending callback, a pending
   * Put, and the hands of one call -- and at most once there.
   */
  lemma OneOwner(P: Params, run: seq<Action>, s: State)
    requires KeysDistinct(P) && Reaches(P, run, s)
    ensures Exclusive(s)
  {
    var own := ReachableInv(P, run, s);
  }

  /** Refinement: a copy completed within the lease equals the route answer in all fields; later it depends on nobody else. */
  lemma CopiesAreAnswers(P: Params, run: seq<Action>, s: State, c: nat)
    requires KeysDistinct(P) && Reaches(P, run, s)
    requires c in s.calls && s.calls[c].Returned?
    requires InTime(s.calls[c].since, s.cache.expire, s.calls[c].at)
    ensures s.calls[c].dst in s.heap && s.heap[s.calls[c].dst] == P.Answer(s.calls[c].q)
  {
    var own := ReachableInv(P, run, s);
    assert CallOk(P, s, own, s.calls[c]);
  }

  /** The call is reading its source: it has fetched it and not yet finished copying. */
  predicate Reading(call: Call) {
    call.Fetched? || call.Copying?
  }

  ghost predicate Unwritable(own: map<Ref, Place>, r: Ref) {
    r in own && (own[r].Source? || own[r].Stored? || own[r].Lost?)
  }

  /** No action writes to a result that is stored, lost, or still the source of its call. */
  lemma WritesElsewhere(P: Params, s: State, own: map<Ref, Place>, a: Action, r: Ref)
    requires Owned(s, own) && Unwritable(own, r) && Enabled(s, a)
    ensures r in s.heap && r in Next(P, s, a).heap && Next(P, s, a).heap[r] == s.heap[r]
  {
    ReleasesHeld(s, own, a);
    if a.Route? || a.Acquire? {
      AcquiredUnheld(s, own, a.r);
    } else if a.Copy? {
      assert At(s, s.calls[a.c].dst, CopyOf(a.c));
    }
  }

  lemma ReadersSource(P: Params, s: State, own: map<Ref, Place>, c: nat)
    requires Inv(P, s, own)
    requires c in s.calls && Reading(s.calls[c]) && InTime(s.calls[c].since, s.cache.expire, s.now)
    ensures var src := s.calls[c].src;
            Unwritable(own, src) && src in s.heap && s.heap[src] == P.Answer(s.calls[c].q)
  {
    var call := s.calls[c];
    assert CallOk(P, s, own, call);
    if call.since.None? {
      assert At(s, call.src, Source(c));
    } else if !own[call.src].Lost? {
      assert At(s, call.src, Stored(P.key(call.q)));
    }
  }

  /** Lease: while a reader is within its lease no possible action changes what it reads, and what it reads is the answer. */
  lemma LeaseProtects(P: Params, run: seq<Action>, s: State, c: nat, a: Action)
    requires KeysDistinct(P) && Reaches(P, run, s)
    requires c in s.calls && Reading(s.calls[c]) && InTime(s.calls[c].since, s.cache.expire, s.now)
    requires Enabled(s, a)
    ensures var src := s.calls[c].src;
            && src in s.heap && src in Next(P, s, a).heap
            && s.heap[src] == Next(P, s, a).heap[src] == P.Answer(s.calls[c].q)
  {
    var own := ReachableInv(P, run, s);
    ReadersSource(P, s, own, c);
    WritesElsewhere(P, s, own, a, s.calls[c].src);
  }

  // ----- Each acquisition is released at most once -----

  function AcquiredBy(s: State, a: Action, r: Ref): nat {
    if Enabled(s, a) && (a.Route? || a.Acquire?) && a.r == r then 1 else 0
  }

  /** Release is called on r, by the caller holding it or by the cache's callback. */
  function ReleasedBy(s: State, a: Action, r: Ref): nat {
    if Enabled(s, a) && ((a.Release? && s.calls[a.c].dst == r) || (a.Callback? && a.r == r)) then 1 else 0
  }

  function Acquisitions(P: Params, s: State, run: seq<Action>, r: Ref): nat {
    if run == [] then 0
    else Acquisitions(P, s, Front(run), r) + AcquiredBy(Exec(P, s, Front(run)), Last(run), r)
  }

  function Releases(P: Params, s: State, run: seq<Action>, r: Ref): nat {
    if run == [] then 0
    else Releases(P, s, Front(run), r) + ReleasedBy(Exec(P, s, Front(run)), Last(run), r)
  }

  /** r has been acquired and not been released since. */
  ghost function Outstanding(own: map<Ref, Place>, r: Ref): nat {
    if r in own && !own[r].AwaitingPut? && !own[r].Pooled? && !own[r].Forgotten? then 1 else 0
  }

  lemma PassBalances(s: State, own: map<Ref, Place>, t: int, r: Ref)
    ensures Outstanding(Evicts(s, own, t), r) == Outstanding(own, r)
  {
  }

  lemma StoreBalances(P: Params, s: State, own: map<Ref, Place>, c: nat, r: Ref)
    requires Owned(s, own) && CanStore(s, c)
    ensures Outstanding(Stores(s, own, P.key(s.calls[c].q), s.calls[c].src), r) == Outstanding(own, r)
  {
    var k := P.key(s.calls[c].q);
    assert At(s, s.calls[c].src, Source(c));
    assert k in s.cache.store ==> At(s, s.cache.store[k].value, Stored(k));
  }

  /** The result an action releases is held until then. */
  lemma ReleasesHeld(s: State, own: map<Ref, Place>, a: Action)
    requires Owned(s, own) && Enabled(s, a)
    ensures a.Release? ==> s.calls[a.c].dst in own && own[s.calls[a.c].dst] == CopyOf(a.c)
    ensures a.Return? && s.calls[a.c].since.None? ==> s.calls[a.c].src in own && own[s.calls[a.c].src] == Source(a.c)
    ensures a.Callback? ==> a.r in own && own[a.r] == AwaitingCallback(a.k)
    ensures a.Put? ==> a.r in own && own[a.r] == AwaitingPut
    ensures a.Drop? ==> a.r in own && own[a.r] == Pooled
  {
    if a.Release? {
      assert At(s, s.calls[a.c].dst, CopyOf(a.c));
    } else if a.Return? && s.calls[a.c].since.None? {
      assert At(s, s.calls[a.c].src, Source(a.c));
    } else if a.Callback? {
      assert At(s, a.r, AwaitingCallback(a.k));
    } else if a.Put? {
      assert At(s, a.r, AwaitingPut);
    } else if a.Drop? {
      assert At(s, a.r, Pooled);
    }
  }

  lemma StepBalances(P: Params, s: State, own: map<Ref, Place>, a: Action, r: Ref)
    requires Owned(s, own) && Enabled(s, a)
    ensures Outstanding(own, r) + AcquiredBy(s, a, r) == Outstanding(Moved(P, s, own, a), r) + ReleasedBy(s, a, r)
  {
    ReleasesHeld(s, own, a);
    if a.Route? || a.Acquire? {
      AcquiredUnheld(s, own, a.r);
    } else if a.Store? {
      StoreBalances(P, s, own, a.c, r);
    } else if a.Pass? {
      PassBalances(s, own, a.t, r);
    }
  }

  lemma {:induction false} AcquiredThenReleased(P: Params, s: State, own: map<Ref, Place>, run: seq<Action>, r: Ref)
    requires KeysDistinct(P) && Inv(P, s, own)
    ensures Outstanding(own, r) + Acquisitions(P, s, run, r) == Outstanding(Places(P, s, own, run), r) + Releases(P, s, run, r)
  {
    if run != [] {
      AcquiredThenReleased(P, s, own, Front(run), r);
      RunKeepsInv(P, s, own, Front(run));
      var s1, own1 := Exec(P, s, Front(run)), Places(P, s, own, Front(run));
      if Enabled(s1, Last(run)) {
        StepBalances(P, s1, own1, Last(run), r);
      }
    }
  }

  /** In every run and at every moment, a result has been released as often as acquired, or once less. */
  lemma ReleasedAtMostOnce(P: Params, expire: int, interval: int, max: int, now: int, run: seq<Action>, r: Ref)
    requires KeysDistinct(P)
    ensures var s := Start(expire, interval, max, now);
            Releases(P, s, run, r) <= Acquisitions(P, s, run, r) <= Releases(P, s, run, r) + 1
  {
    var s := Start(expire, interval, max, now);
    assert Inv(P, s, map[]);
    AcquiredThenReleased(P, s, map[], run, r);
  }
}
