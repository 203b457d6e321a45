/** The proxy's load balancer (pkg/handler/proxy.go). */
module Balancers {
  import opened Arithmetic
  import opened Prelude

  const U64: nat := 0x1_0000_0000_0000_0000

  /** The backend looked at in step i of a scan: both the sum and the counter are 64-bit. */
  function Index(start: nat, i: nat, n: nat): (k: nat)
    requires n > 0
    ensures k < n
  {
    (start + i) % U64 % n
  }

  /** The scan of pick from step i on: the first backend seen alive. */
  function Scan(alive: seq<bool>, start: nat, i: nat): (r: Option<nat>)
    requires i <= |alive|
    ensures r.Some? ==> r.value < |alive| && alive[r.value]
    decreases |alive| - i
  {
    if i == |alive| then None
    else
      var k := Index(start, i, |alive|);
      if alive[k] then Some(k) else Scan(alive, start, i + 1)
  }

  /** Where a scan starts; random draws and client hashes are given numbers. */
  datatype Algorithm = RoundRobin | Random(draw: nat) | IPHash(hash: nat)

  function Start(algorithm: Algorithm, counter: nat, n: nat): nat
    requires n > 0
  {
    match algorithm
    case RoundRobin => counter
    case Random(draw) => draw % n
    case IPHash(hash) => hash % n
  }

  /** counter.Add(1) */
  function NextCounter(counter: nat): nat {
    (counter + 1) % U64
  }

  /** One pick: nil, here None, without backends or when no backend is seen alive; and the counter afterwards. */
  function PickStep(alive: seq<bool>, algorithm: Algorithm, counter: nat): (Option<nat>, nat) {
    if |alive| == 0 then (None, counter)
    else (Scan(alive, Start(algorithm, counter, |alive|), 0), if algorithm.RoundRobin? then NextCounter(counter) else counter)
  }

  datatype SetupError = NoUrl | UnknownAlgorithm(name: string) | BadUrl(url: string)

  const ALGORITHMS: set<string> := {"round-robin", "random", "ip-hash"}

  /** newProxyBalancer: what is wrong with the configuration first of all, or one living backend for each URL. */
  method NewProxyBalancer(urls: seq<string>, algorithm: string, parses: string -> bool) returns (r: Outcome<ProxyBalancer, SetupError>)
    ensures r.Ok? <==> && urls != [] && algorithm in {"round-robin", "random", "ip-hash"}
                       && forall i :: 0 <= i < |urls| ==> parses(urls[i])
    ensures r.Ok? ==> r.value.Valid() && r.value.counter == 0 && r.value.alive[..] == Repeat(true, |urls|)
    ensures r == Err(NoUrl) <==> urls == []
    ensures r.Err? && r.error.UnknownAlgorithm? <==> urls != [] && algorithm !in {"round-robin", "random", "ip-hash"}
    ensures r.Err? && r.error.BadUrl? ==> exists i :: 0 <= i < |urls| && urls[i] == r.error.url && !parses(urls[i])
                                                      && forall j :: 0 <= j < i ==> parses(urls[j])
  {
    if |urls| == 0 {
      return Err(NoUrl);
    }
    if algorithm !in ALGORITHMS {
      return Err(UnknownAlgorithm(algorithm));
    }
    for i := 0 to |urls|
      invariant forall j :: 0 <= j < i ==> parses(urls[j])
    {
      if !parses(urls[i]) {
        return Err(BadUrl(urls[i]));
      }
    }
    var balancer := new ProxyBalancer(|urls|);
    r := Ok(balancer);
  }

  class ProxyBalancer {
    const alive: array<bool>
    var counter: nat

    ghost predicate Valid()
      reads this
    {
      counter < U64
    }

    constructor (n: nat)
      ensures Valid() && fresh(alive) && counter == 0
      ensures alive[..] == Repeat(true, n)
    {
      alive := new bool[n](_ => true);
      counter := 0;
    }

    /** pick */
    method Pick(algorithm: Algorithm) returns (r: Option<nat>)
      requires Valid()
      modifies this
      ensures Valid() && (r, counter) == PickStep(alive[..], algorithm, old(counter))
    {
      var n := alive.Length;
      if n == 0 {
        return None;
      }
      var start := Start(algorithm, counter, n);
      if algorithm.RoundRobin? {
        counter := (counter + 1) % U64;
      }
      for i := 0 to n
        invariant Scan(alive[..], start, 0) == Scan(alive[..], start, i)
      {
        var k := Index(start, i, n);
        if alive[k] {
          return Some(k);
        }
      }
      r := None;
    }

    /** One tick of the health check: every backend takes the outcome of its own request. */
    method CheckHealth(answered: seq<bool>)
      requires |answered| == alive.Length
      modifies alive
      ensures alive[..] == answered
    {
      for i := 0 to alive.Length
        invariant alive[..i] == answered[..i]
      {
        alive[i] := answered[i];
      }
    }
  }

  // ----- Distances on the circle of backends -----

  /** How many steps after s backend b comes up. */
  function Distance(s: int, b: nat, n: nat): (d: nat)
    requires n > 0
    ensures d < n
  {
    (b - s) % n
  }

  /** Step i of a scan from s looks at the backend that precedes b by Distance(s, b) - i. */
  lemma StepPlace(s: nat, b: nat, n: nat, i: int)
    requires b < n
    ensures (s + i) % n == (b - (Distance(s, b, n) - i)) % n
  {
    var d := Distance(s, b, n);
    assert (b - s) % n == d % n;
    ModAdd(b - s, d, s + i - d, n);
  }

  /** b is reached at step Distance(s, b). */
  lemma ReachedAt(s: nat, b: nat, n: nat)
    requires b < n
    ensures (s + Distance(s, b, n)) % n == b
  {
    var d := Distance(s, b, n);
    StepPlace(s, b, n, d);
    assert (b - (d - d)) % n == b % n == b;
  }

  /** Less than n places before b lies another backend. */
  lemma PlacesDiffer(b: nat, d: nat, n: nat)
    requires b < n && 0 < d < n
    ensures (b - d) % n != b
  {
    if b >= d {
      ModUnique(b - d, n, 0, b - d);
    } else {
      ModUnique(b - d, n, -1, b - d + n);
    }
  }

  /** No earlier step of the same scan looks at b. */
  lemma NotReachedBefore(s: nat, b: nat, n: nat, i: nat)
    requires b < n && i < Distance(s, b, n)
    ensures (s + i) % n != b
  {
    StepPlace(s, b, n, i);
    PlacesDiffer(b, Distance(s, b, n) - i, n);
  }

  // ----- Which backend a start leads to, with liveness fixed -----

  predicate DeadBefore(alive: seq<bool>, b: nat, j: nat)
    requires |alive| > 0
  {
    !alive[(b - j) % |alive|]
  }

  /** The number of dead backends just before b, going round; at most all others. */
  function DeadRun(alive: seq<bool>, b: nat, d: nat): (run: nat)
    requires b < |alive| && d < |alive|
    requires forall j :: 1 <= j <= d ==> DeadBefore(alive, b, j)
    ensures run < |alive| && forall j :: 1 <= j <= run ==> DeadBefore(alive, b, j)
    ensures run < |alive| - 1 ==> !DeadBefore(alive, b, run + 1)
    decreases |alive| - d
  {
    if d == |alive| - 1 || !DeadBefore(alive, b, d + 1) then d else DeadRun(alive, b, d + 1)
  }

  /** No sum in the scan reaches 2^64. */
  predicate Unwrapped(start: nat, n: nat) {
    start + n <= U64
  }

  /** The steps of the scan look at consecutive backends: no sum wraps, or wrapping does not show. */
  predicate Consecutive(start: nat, n: nat)
    requires n > 0
  {
    Unwrapped(start, n) || U64 % n == 0
  }

  /** Step i of a consecutive scan from start sees a living backend. */
  predicate Sees(alive: seq<bool>, start: nat, i: nat)
    requires |alive| > 0
  {
    alive[(start + i) % |alive|]
  }

  lemma UnwrappedIndex(start: nat, i: nat, n: nat)
    requires i < n && Unwrapped(start, n)
    ensures Index(start, i, n) == (start + i) % n
  {
    ModUnique(start + i, U64, 0, start + i);
  }

  lemma DivisorIndex(start: nat, i: nat, n: nat)
    requires n > 0 && U64 % n == 0
    ensures Index(start, i, n) == (start + i) % n
  {
    WrapUnseen(start + i, n);
  }

  /** Taking out multiples of 2^64 does not change the remainder of a divisor. */
  lemma WrapUnseen(x: nat, n: nat)
    requires n > 0 && U64 % n == 0
    ensures x % U64 % n == x % n
  {
    assert x == U64 * (x / U64) + x % U64;
    assert U64 == n * (U64 / n);
    var k := (U64 / n) * (x / U64);
    assert U64 * (x / U64) == k * n by {
      assert n * (U64 / n) * (x / U64) == k * n;
    }
    ModShift(x % U64, k, n);
  }

  lemma ConsecutiveIndex(start: nat, i: nat, n: nat)
    requires i < n && Consecutive(start, n)
    ensures Index(start, i, n) == (start + i) % n
  {
    if Unwrapped(start, n) {
      UnwrappedIndex(start, i, n);
    } else {
      DivisorIndex(start, i, n);
    }
  }

  /** The scan skips dead backends: when step d is the first alive one, it is the answer. */
  lemma {:induction false} ScanTo(alive: seq<bool>, start: nat, i: nat, d: nat)
    requires i <= d < |alive| && Consecutive(start, |alive|)
    requires Sees(alive, start, d) && forall j :: i <= j < d ==> !Sees(alive, start, j)
    ensures Scan(alive, start, i) == Some((start + d) % |alive|)
    decreases d - i
  {
    ConsecutiveIndex(start, i, |alive|);
    if i < d {
      assert !Sees(alive, start, i);
      ScanTo(alive, start, i + 1, d);
    }
  }

  /** A scan that could stop at step i stops there or before. */
  lemma StopsBy(alive: seq<bool>, start: nat, i: nat) returns (j: nat)
    requires i < |alive| && Consecutive(start, |alive|) && Sees(alive, start, i)
    ensures j <= i && Scan(alive, start, 0) == Some((start + j) % |alive|)
  {
    j := 0;
    while !Sees(alive, start, j)
      invariant j <= i && forall m :: 0 <= m < j ==> !Sees(alive, start, m)
      decreases i - j
    {
      j := j + 1;
    }
    ScanTo(alive, start, 0, j);
  }

  lemma ChosenNear(alive: seq<bool>, start: nat, b: nat)
    requires b < |alive| && alive[b] && Consecutive(start, |alive|)
    requires Distance(start, b, |alive|) <= DeadRun(alive, b, 0)
    ensures Scan(alive, start, 0) == Some(b)
  {
    var n, d := |alive|, Distance(start, b, |alive|);
    forall j | 0 <= j < d
      ensures !Sees(alive, start, j)
    {
      StepPlace(start, b, n, j);
      assert DeadBefore(alive, b, d - j);
    }
    ReachedAt(start, b, n);
    ScanTo(alive, start, 0, d);
  }

  lemma NotChosenFar(alive: seq<bool>, start: nat, b: nat)
    requires b < |alive| && alive[b] && Consecutive(start, |alive|)
    requires Distance(start, b, |alive|) > DeadRun(alive, b, 0)
    ensures Scan(alive, start, 0) != Some(b)
  {
    var n, run := |alive|, DeadRun(alive, b, 0);
    var i := Distance(start, b, n) - run - 1;
    StepPlace(start, b, n, i);
    assert !DeadBefore(alive, b, run + 1);
    assert Sees(alive, start, i);
    var j := StopsBy(alive, start, i);
    NotReachedBefore(start, b, n, j);
  }

  /** An alive backend is chosen from exactly those starts that lie in its dead run or on itself. */
  lemma ChosenFrom(alive: seq<bool>, start: nat, b: nat)
    requires b < |alive| && alive[b] && Consecutive(start, |alive|)
    ensures Scan(alive, start, 0) == Some(b) <==> Distance(start, b, |alive|) <= DeadRun(alive, b, 0)
  {
    if Distance(start, b, |alive|) <= DeadRun(alive, b, 0) {
      ChosenNear(alive, start, b);
    } else {
      NotChosenFar(alive, start, b);
    }
  }

  /** A consecutive scan looks at every backend: nil exactly when none is alive. */
  lemma NilWhenAllDead(alive: seq<bool>, start: nat)
    requires |alive| > 0 && Consecutive(start, |alive|)
    ensures Scan(alive, start, 0) == None <==> forall b :: 0 <= b < |alive| ==> !alive[b]
  {
    if b: nat :| b < |alive| && alive[b] {
      ReachedAt(start, b, |alive|);
      assert Sees(alive, start, Distance(start, b, |alive|));
      var j := StopsBy(alive, start, Distance(start, b, |alive|));
    }
  }

  // ----- Round robin over n consecutive picks -----

  /** What k round-robin picks one after the other answer. */
  function Picks(alive: seq<bool>, counter: nat, k: nat): seq<Option<nat>>
    decreases k
  {
    if k == 0 then []
    else
      var (r, counter') := PickStep(alive, RoundRobin, counter);
      [r] + Picks(alive, counter', k - 1)
  }

  /** The counter after k picks. */
  function CounterAfter(c: nat, k: nat): nat {
    if k == 0 then c else NextCounter(CounterAfter(c, k - 1))
  }

  lemma {:induction false} CounterAfterNext(c: nat, k: nat)
    ensures CounterAfter(NextCounter(c), k) == CounterAfter(c, k + 1)
  {
    if k == 0 {
      assert CounterAfter(c, 1) == NextCounter(CounterAfter(c, 0));
    } else {
      CounterAfterNext(c, k - 1);
    }
  }

  lemma {:induction false} CounterAfterIs(c: nat, k: nat)
    requires c < U64
    ensures CounterAfter(c, k) == (c + k) % U64
  {
    if k == 0 {
      ModUnique(c, U64, 0, c);
    } else {
      CounterAfterIs(c, k - 1);
      ModUnique((c + k - 1) % U64, U64, 0, (c + k - 1) % U64);
      ModAdd((c + k - 1) % U64, c + k - 1, 1, U64);
    }
  }

  /** The last pick starts its scan where the counter stands by then. */
  lemma {:induction false} PicksSnoc(alive: seq<bool>, c: nat, k: nat)
    requires k > 0 && |alive| > 0
    ensures Picks(alive, c, k) == Picks(alive, c, k - 1) + [Scan(alive, CounterAfter(c, k - 1), 0)]
    decreases k
  {
    var c', first := NextCounter(c), Scan(alive, c, 0);
    if k == 1 {
      assert Picks(alive, c', 0) == [];
    } else {
      PicksSnoc(alive, c', k - 1);
      CounterAfterNext(c, k - 2);
      assert [first] + (Picks(alive, c', k - 2) + [Scan(alive, CounterAfter(c, k - 1), 0)])
          == [first] + Picks(alive, c', k - 2) + [Scan(alive, CounterAfter(c, k - 1), 0)];
    }
  }

  /** How often backend b is chosen by scans from the k counter values that begin with c. */
  function Chosen(alive: seq<bool>, c: nat, k: nat, b: nat): nat {
    if k == 0 then 0
    else Chosen(alive, c, k - 1, b) + if Scan(alive, CounterAfter(c, k - 1), 0) == Some(b) then 1 else 0
  }

  lemma {:induction false} PicksChoose(alive: seq<bool>, c: nat, k: nat, b: nat)
    requires |alive| > 0
    ensures multiset(Picks(alive, c, k))[Some(b)] == Chosen(alive, c, k, b)
  {
    if k > 0 {
      var last := Scan(alive, CounterAfter(c, k - 1), 0);
      PicksChoose(alive, c, k - 1, b);
      PicksSnoc(alive, c, k);
      CountSnoc(Picks(alive, c, k - 1), last, Some(b));
    }
  }

  lemma CountSnoc(xs: seq<Option<nat>>, x: Option<nat>, y: Option<nat>)
    ensures multiset(xs + [x])[y] == multiset(xs)[y] + if x == y then 1 else 0
  {
    assert multiset(xs + [x]) == multiset(xs) + multiset{x};
  }

  /** The number of starts among c, ..., c + k - 1 from which b comes up within `run` steps. */
  function Near(c: int, k: nat, b: nat, n: nat, run: nat): nat
    requires n > 0
  {
    if k == 0 then 0 else Near(c, k - 1, b, n, run) + if Distance(c + k - 1, b, n) <= run then 1 else 0
  }

  /** In a window of k starts every scan is consecutive. */
  predicate Steadily(c: nat, k: nat, n: nat)
    requires n > 0
  {
    k == 0 || Unwrapped(c + k - 1, n) || U64 % n == 0
  }

  lemma WrappedDistance(x: nat, b: nat, n: nat)
    requires n > 0 && (x < U64 || U64 % n == 0)
    ensures Distance(x % U64, b, n) == Distance(x, b, n)
  {
    if x >= U64 {
      assert x == U64 * (x / U64) + x % U64;
      assert U64 == n * (U64 / n);
      var k := (U64 / n) * (x / U64);
      assert U64 * (x / U64) == k * n by {
        assert n * (U64 / n) * (x / U64) == k * n;
      }
      ModShift(b - x, k, n);
    }
  }

  lemma {:induction false} ChosenIsNear(alive: seq<bool>, c: nat, k: nat, b: nat)
    requires b < |alive| && alive[b] && c < U64 && Steadily(c, k, |alive|)
    ensures Chosen(alive, c, k, b) == Near(c, k, b, |alive|, DeadRun(alive, b, 0))
  {
    if k > 0 {
      ChosenIsNear(alive, c, k - 1, b);
      CounterAfterIs(c, k - 1);
      ChosenSteadily(alive, c + k - 1, b);
    }
  }

  /** ChosenFrom for a counter that may have wrapped. */
  lemma ChosenSteadily(alive: seq<bool>, x: nat, b: nat)
    requires b < |alive| && alive[b] && Steadily(x, 1, |alive|)
    ensures Scan(alive, x % U64, 0) == Some(b) <==> Distance(x, b, |alive|) <= DeadRun(alive, b, 0)
  {
    if U64 % |alive| != 0 {
      ModUnique(x, U64, 0, x);
    }
    WrappedDistance(x, b, |alive|);
    ChosenFrom(alive, x % U64, b);
  }

  /** Moving a window by one drops its first start and adds the next. */
  lemma {:induction false} NearShift(c: int, k: nat, b: nat, n: nat, run: nat)
    requires n > 0
    ensures Near(c, k, b, n, run) + (if Distance(c + k, b, n) <= run then 1 else 0)
         == Near(c + 1, k, b, n, run) + (if Distance(c, b, n) <= run then 1 else 0)
  {
    if k > 0 {
      NearShift(c, k - 1, b, n, run);
      assert c + 1 + (k - 1) == c + k;
    }
  }

  /** Any n consecutive starts see the same. */
  lemma {:induction false} NearPeriodic(c: int, m: nat, b: nat, n: nat, run: nat)
    requires n > 0
    ensures Near(c, n, b, n, run) == Near(c + m, n, b, n, run)
    decreases m
  {
    if m > 0 {
      NearPeriodic(c, m - 1, b, n, run);
      NearShift(c + m - 1, n, b, n, run);
      ModShift(b - (c + m - 1), -1, n);
      assert c + m - 1 + 1 == c + m;
    }
  }

  /** The n starts that end at b itself: exactly the last run + 1 of them are near. */
  lemma {:induction false} NearFromNext(b: nat, k: nat, n: nat, run: nat)
    requires b < n && run < n && k <= n
    ensures Near(b + 1, k, b, n, run) == if k < n - run then 0 else k - (n - 1 - run)
  {
    if k > 0 {
      NearFromNext(b, k - 1, n, run);
      ModUnique(b - (b + k), n, -1, n - k);
    }
  }

  /**
   * Round robin is fair up to dead runs: with liveness fixed, any n consecutive picks choose an alive backend exactly once
   * more than there are dead backends just before it, as long as no sum reaches 2^64, or for ever when n divides 2^64.
   */
  lemma FairShare(alive: seq<bool>, c: nat, b: nat)
    requires b < |alive| && alive[b] && c < U64 && Steadily(c, |alive|, |alive|)
    ensures multiset(Picks(alive, c, |alive|))[Some(b)] == 1 + DeadRun(alive, b, 0)
  {
    PicksChoose(alive, c, |alive|, b);
    ChosenIsNear(alive, c, |alive|, b);
    FullWindow(c, b, |alive|, DeadRun(alive, b, 0));
  }

  lemma FullWindow(c: nat, b: nat, n: nat, run: nat)
    requires b < n && run < n
    ensures Near(c, n, b, n, run) == 1 + run
  {
    NearFromNext(b, n, n, run);
    if c <= b + 1 {
      NearPeriodic(c, b + 1 - c, b, n, run);
    } else {
      NearPeriodic(b + 1, c - (b + 1), b, n, run);
    }
  }

  // ----- Wrap-around -----

  /** A scan answers nil only when every backend is dead. */
  ghost predicate CoversAll(n: nat, start: nat) {
    forall alive: seq<bool> :: |alive| == n && Scan(alive, start, 0) == None ==> forall b :: 0 <= b < n ==> !alive[b]
  }

  /** A backend that the scan from this start does not look at, when it wraps and n does not divide 2^64. */
  function Missed(start: nat, n: nat): int
    requires n > 0
  {
    var r, m := U64 % n, U64 - start;
    if r >= n - m then r else n - m
  }

  /** Before the wrap the scan stays below U64 % n or goes on behind Missed. */
  lemma MissedBefore(start: nat, n: nat, i: nat)
    requires 0 < n && start < U64 && !Consecutive(start, n) && i < n && start + i < U64
    ensures Index(start, i, n) != Missed(start, n)
  {
    var r, k := U64 % n, U64 - start - i;
    assert (start + i) % U64 == U64 - k;
    assert U64 == (U64 / n) * n + r;
    if k <= r {
      ModUnique(U64 - k, n, U64 / n, r - k);
    } else {
      ModUnique(U64 - k, n, U64 / n - 1, r - k + n);
    }
  }

  /** After the wrap it starts again from 0 and does not get far enough. */
  lemma MissedAfter(start: nat, n: nat, i: nat)
    requires 0 < n && start < U64 && !Consecutive(start, n) && i < n && start + i >= U64
    ensures Index(start, i, n) != Missed(start, n)
  {
    var x := (start + i) % U64;
    if n <= U64 {
      ModUnique(start + i, U64, 1, start + i - U64);
    } else {
      ModUnique(U64, n, 0, U64);
    }
    ModUnique(x, n, 0, x);
  }

  /** Only backend b is alive. */
  function Lonely(n: nat, b: int): (alive: seq<bool>)
    ensures |alive| == n && forall i :: 0 <= i < n ==> (alive[i] <==> i == b)
  {
    seq(n, i => i == b)
  }

  lemma {:induction false} LonelyUnseen(n: nat, start: nat, i: nat)
    requires 0 < n && start < U64 && !Consecutive(start, n) && i <= n
    ensures Scan(Lonely(n, Missed(start, n)), start, i) == None
    decreases n - i
  {
    if i < n {
      if start + i < U64 {
        MissedBefore(start, n, i);
      } else {
        MissedAfter(start, n, i);
      }
      LonelyUnseen(n, start, i + 1);
    }
  }

  lemma MissedIsBackend(start: nat, n: nat)
    requires 0 < n && start < U64 && !Consecutive(start, n)
    ensures 0 <= Missed(start, n) < n
  {
  }

  /** A scan from this start covers all backends exactly when no sum wraps or their number divides 2^64. */
  lemma CoverageExactly(n: nat, start: nat)
    requires 0 < n && start < U64
    ensures CoversAll(n, start) <==> Consecutive(start, n)
  {
    if Consecutive(start, n) {
      forall alive: seq<bool> | |alive| == n && Scan(alive, start, 0) == None
        ensures forall b :: 0 <= b < n ==> !alive[b]
      {
        NilWhenAllDead(alive, start);
      }
    } else {
      LonelyUnseen(n, start, 0);
      MissedIsBackend(start, n);
      assert Lonely(n, Missed(start, n))[Missed(start, n)];
    }
  }

  /** So scans cover all backends at every counter value exactly when their number divides 2^64. */
  lemma CoverageIffDivisor(n: nat)
    requires n > 0
    ensures (forall start :: 0 <= start < U64 ==> CoversAll(n, start)) <==> U64 % n == 0
  {
    forall start | 0 <= start < U64
      ensures CoversAll(n, start) <==> Consecutive(start, n)
    {
      CoverageExactly(n, start);
    }
    if U64 % n != 0 {
      assert n > 1 && !Consecutive(U64 - 1, n);
    }
  }

  // ----- Where each algorithm begins -----

  /** The number an algorithm starts from: the counter, or what it is given. */
  ghost predicate StartsFrom(algorithm: Algorithm, counter: nat, x: nat) {
    match algorithm
    case RoundRobin => x == counter
    case Random(draw) => x == draw
    case IPHash(hash) => x == hash
  }

  /** A place d behind the number's remainder. */
  lemma PlaceBehind(x: nat, d: nat, n: nat)
    requires n > 0
    ensures (x % n + d) % n == (x + d) % n
  {
    ModUnique(x % n, n, 0, x % n);
    ModAdd(x % n, x, d, n);
  }

  /**
   * A pick chooses the first living backend from number x on, counted round: x is the counter in round robin, the client's
   * hash and the random draw otherwise. Two requests of a client meet the same backend while liveness stays. The number of
   * backends is a slice's length, below 2^63; the counter has not come near 2^64.
   */
  lemma PickChooses(alive: seq<bool>, algorithm: Algorithm, counter: nat, x: nat, d: nat)
    requires 0 < |alive| <= U64 / 2 && StartsFrom(algorithm, counter, x) && d < |alive|
    requires algorithm.RoundRobin? ==> counter + |alive| <= U64
    requires Sees(alive, x, d) && forall e :: 0 <= e < d ==> !Sees(alive, x, e)
    ensures PickStep(alive, algorithm, counter).0 == Some((x + d) % |alive|)
  {
    if algorithm.RoundRobin? {
      ScanTo(alive, x, 0, d);
    } else {
      ScanFromRemainder(alive, x, d);
    }
  }

  lemma ScanFromRemainder(alive: seq<bool>, x: nat, d: nat)
    requires 0 < |alive| <= U64 / 2 && d < |alive|
    requires Sees(alive, x, d) && forall e :: 0 <= e < d ==> !Sees(alive, x, e)
    ensures Scan(alive, x % |alive|, 0) == Some((x + d) % |alive|)
  {
    var start := x % |alive|;
    forall e | 0 <= e <= d
      ensures Sees(alive, start, e) <==> Sees(alive, x, e)
    {
      PlaceBehind(x, e, |alive|);
    }
    PlaceBehind(x, d, |alive|);
    ScanTo(alive, start, 0, d);
  }

  /** With all backends alive: hash h gets backend h modulo their number, and equal hashes the same one. */
  lemma HashPicks(n: nat, hash: nat, counter: nat)
    requires 0 < n <= U64 / 2
    ensures PickStep(Repeat(true, n), IPHash(hash), counter) == (Some(hash % n), counter)
  {
    assert Sees(Repeat(true, n), hash, 0);
    PickChooses(Repeat(true, n), IPHash(hash), counter, hash, 0);
  }

  /** The k-th round-robin pick of a new balancer, counted from 0, gets backend k modulo their number. */
  lemma RoundRobinPicks(n: nat, k: nat)
    requires n > 0 && k + n <= U64
    ensures Picks(Repeat(true, n), 0, k + 1) == Picks(Repeat(true, n), 0, k) + [Some(k % n)]
  {
    var alive := Repeat(true, n);
    PicksSnoc(alive, 0, k + 1);
    CounterAfterIs(0, k);
    ModUnique(k, U64, 0, k);
    assert CounterAfter(0, k) == k;
    assert Sees(alive, k, 0);
    ScanTo(alive, k, 0, 0);
  }
}
