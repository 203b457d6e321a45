/**
 * When the retry loop as written ends: its runs are the walks of a graph that the requests for a table span
 * (pkg/handler/server.go).
 */
module RetryWalks {
  import opened Arithmetic
  import opened Prelude
  import opened Results
  import opened StringSets
  import opened Routing
  import opened Http
  import opened ErrorPage
  import opened Server

  // ----- Hops -----

  datatype Request = Request(verb: Bytes, uri: Bytes)

  /**
   * Searching the table from off for this request, route off + i decides and its answer may become a 404: it is none
   * itself, and it involves a filter, or else a handler and no redirect. The flag the loop then looks at is that of
   * route i.
   */
  ghost predicate HopFor(lib: Lib, table: seq<Route>, off: nat, i: nat, q: Request) {
    var path := lib.pathOf(q.uri);
    && off < |table| && i < |table| - off
    && table[i].nextIfNotFound
    && FirstDecider(table[off..], q.verb, path, i)
    && table[off + i].statusCode != STATUS_NOT_FOUND
    && (|| MatchedFilters(table[off..], q.verb, path, i + 1) != []
        || (!table[off + i].Redirects(PathAt(table[off..], q.verb, path, i)) && table[off + i].statusCode <= 0))
  }

  /** Some request can make the loop go from offset off to offset i + 1. */
  ghost predicate Hop(lib: Lib, table: seq<Route>, off: nat, i: nat) {
    exists q :: HopFor(lib, table, off, i, q)
  }

  /** What a hop says about the answer. */
  lemma HopAnswer(table: seq<Route>, off: nat, i: nat, verb: Bytes, path: Bytes)
    requires off < |table| && i < |table| - off && FirstDecider(table[off..], verb, path, i)
    requires table[off + i].statusCode != STATUS_NOT_FOUND
    ensures var r := RouteValue(table, verb, path, off);
            && r.routeIndex == i && r.statusCode == table[off + i].statusCode
            && (r.filters == [] <==> MatchedFilters(table[off..], verb, path, i + 1) == [])
            && (r.redirectUri == "" <==> !table[off + i].Redirects(PathAt(table[off..], verb, path, i)))
  {
    RouteMeaning(table, verb, path, off);
    var names := MatchedFilters(table[off..], verb, path, i + 1);
    assert names != [] ==> names[0] in FirstOccurrences(names);
  }

  /** A redirect without filter is no 404. */
  lemma PlainRedirectStays(env: Env, r: ResultValue, w: World)
    requires Real(env.lib) && Resolvable(env, r) && r.filters == [] && r.redirectUri != ""
    ensures HandleResult(env, r, w).0.ctx.response.status != STATUS_NOT_FOUND
  {
    assert AskFilters(env, [], Rewritten(env, r, w.ctx)).ok;
  }

  /** A positive status answered without filter and redirect is the final status. */
  lemma PlainStatusStays(env: Env, r: ResultValue, w: World)
    requires Resolvable(env, r) && r.filters == [] && r.redirectUri == "" && r.statusCode > 0
    ensures HandleResult(env, r, w).0.ctx.response.status == r.statusCode
  {
    var w' := w.(ctx := AskFilters(env, [], Rewritten(env, r, w.ctx)).ctx);
    PagesKeepStatus(env, w'.(ctx := Act(env, r, w'.ctx).0));
  }

  /** Every retry of the loop as written is a hop. */
  lemma RetryIsHop(env: Env, off: nat, w: World)
    requires Ready(env) && Real(env.lib) && Retries(env, Try(env, AsWritten, off, w))
    ensures HopFor(env.lib, env.table, off, Try(env, AsWritten, off, w).index, Request(w.ctx.verb, w.ctx.uri))
  {
    var a, verb, path := Try(env, AsWritten, off, w), w.ctx.verb, env.lib.pathOf(w.ctx.uri);
    RetryIndex(env, AsWritten, off, w);
    AnswerResolvable(env, verb, path, off);
    DeciderStatus(env.table, off, a.index, verb, path);
    HopAnswer(env.table, off, a.index, verb, path);
    if a.result.filters == [] && a.result.redirectUri != "" {
      PlainRedirectStays(env, a.result, w);
    } else if a.result.filters == [] && a.result.statusCode > 0 {
      PlainStatusStays(env, a.result, w);
    }
  }

  lemma DeciderStatus(table: seq<Route>, off: nat, i: nat, verb: Bytes, path: Bytes)
    requires off < |table| && i < |table| - off && FirstDecider(table[off..], verb, path, i)
    ensures RouteValue(table, verb, path, off).statusCode == table[off + i].statusCode
  {
    RouteMeaning(table, verb, path, off);
  }

  // ----- Walks of hops -----

  /** A request and the index of the route that answers it. */
  datatype Leg = Leg(q: Request, i: nat)

  /** The offset before step n of a walk, which starts at 0. */
  function OffAt(walk: seq<Leg>, n: nat): nat
    requires n <= |walk|
  {
    if n == 0 then 0 else walk[n - 1].i + 1
  }

  ghost predicate HopAt(lib: Lib, table: seq<Route>, walk: seq<Leg>, n: nat)
    requires n < |walk|
  {
    HopFor(lib, table, OffAt(walk, n), walk[n].i, walk[n].q)
  }

  ghost predicate IsWalk(lib: Lib, table: seq<Route>, walk: seq<Leg>) {
    forall n :: 0 <= n < |walk| ==> HopAt(lib, table, walk, n)
  }

  ghost predicate HasWalk(lib: Lib, table: seq<Route>, n: nat) {
    exists walk :: |walk| == n && IsWalk(lib, table, walk)
  }

  /** A run is a walk followed by one more attempt. */
  function WalkOf(run: seq<Attempt>): (walk: seq<Leg>)
    ensures |walk| == if run == [] then 0 else |run| - 1
  {
    seq(if run == [] then 0 else |run| - 1, n requires 0 <= n < |run| =>
      Leg(Request(run[n].before.ctx.verb, run[n].before.ctx.uri), run[n].index))
  }

  lemma RetriedIsHop(env: Env, w: World, run: seq<Attempt>, n: nat)
    requires Ready(env) && Real(env.lib) && IsRun(env, AsWritten, w, run) && n < |run| - 1
    ensures HopFor(env.lib, env.table, run[n].off, run[n].index, Request(run[n].before.ctx.verb, run[n].before.ctx.uri))
    ensures run[n].off == if n == 0 then 0 else run[n - 1].index + 1
  {
    AttemptIsTry(env, AsWritten, w, run, n);
    AttemptFields(env, AsWritten, w, run, n);
    AttemptFields(env, AsWritten, w, run, n + 1);
    RetryIsHop(env, run[n].off, run[n].before);
  }

  lemma RunIsWalk(env: Env, w: World, run: seq<Attempt>)
    requires Ready(env) && Real(env.lib) && IsRun(env, AsWritten, w, run)
    ensures IsWalk(env.lib, env.table, WalkOf(run))
  {
    var walk := WalkOf(run);
    forall n | 0 <= n < |walk|
      ensures HopAt(env.lib, env.table, walk, n)
    {
      RetriedIsHop(env, w, run, n);
    }
  }

  // ----- An environment that makes given hops happen -----

  /** An endless walk. */
  type Script = nat -> Leg

  function ScriptOff(script: Script, n: nat): nat {
    if n == 0 then 0 else script(n - 1).i + 1
  }

  ghost predicate ScriptHop(lib: Lib, table: seq<Route>, script: Script, n: nat) {
    HopFor(lib, table, ScriptOff(script, n), script(n).i, script(n).q)
  }

  const STEP := "step"

  function StepOf(c: Ctx): nat {
    if STEP in c.headers then |c.headers[STEP]| else 0
  }

  /** The context before attempt n: its request, and n as the length of a header. */
  function Scripted(script: Script, n: nat, response: Response): Ctx {
    Ctx(script(n).q.verb, script(n).q.uri, map[STEP := Repeat('x', n)], response)
  }

  /** Filters and handlers answer 404 and turn the request into the script's next one. */
  function Trick(script: Script, c: Ctx): Ctx {
    Scripted(script, StepOf(c) + 1, FRESH.(status := STATUS_NOT_FOUND))
  }

  function FilterNames(table: seq<Route>): set<string> {
    set i, f | 0 <= i < |table| && f in table[i].filters :: f
  }

  function HandlerNames(table: seq<Route>): set<string> {
    set i | 0 <= i < |table| :: table[i].handler
  }

  function ScriptEnv(lib: Lib, table: seq<Route>, script: Script): Env {
    Env(table,
        map f | f in FilterNames(table) :: Filter((c: Ctx) => (Trick(script, c), false), (c: Ctx) => (c, true)),
        map h | h in HandlerNames(table) :: (c: Ctx) => Trick(script, c),
        Setup(map[], None, _ => ""), lib)
  }

  function ScriptWorld(script: Script, n: nat): World {
    World(seq(200, _ => None), Scripted(script, n, FRESH))
  }

  lemma ScriptEnvReady(lib: Lib, table: seq<Route>, script: Script)
    ensures Ready(ScriptEnv(lib, table, script))
  {
  }

  /** The outcome of an attempt that the trick has turned into a 404. */
  ghost predicate Tricked(script: Script, w: World, n: nat) {
    w.ctx.response.status == STATUS_NOT_FOUND && Again(w) == ScriptWorld(script, n + 1)
  }

  lemma PagesKeepTrick(lib: Lib, table: seq<Route>, script: Script, n: nat, c: Ctx)
    requires StepOf(c) == n
    ensures Tricked(script, ApplyPages(ScriptEnv(lib, table, script), World(seq(200, _ => None), Trick(script, c))), n)
    ensures Tricked(script, World(seq(200, _ => None), Trick(script, c)), n)
  {
    var w := World(seq(200, _ => None), Trick(script, c));
    PagesKeepStatus(ScriptEnv(lib, table, script), w);
    assert ApplyPages(ScriptEnv(lib, table, script), w).pages == w.pages;
  }

  lemma TrickedByFilter(lib: Lib, table: seq<Route>, script: Script, r: ResultValue, n: nat)
    requires Resolvable(ScriptEnv(lib, table, script), r) && r.filters != []
    ensures Tricked(script, HandleResult(ScriptEnv(lib, table, script), r, ScriptWorld(script, n)).0, n)
  {
    PagesKeepTrick(lib, table, script, n, Rewritten(ScriptEnv(lib, table, script), r, ScriptWorld(script, n).ctx));
  }

  lemma TrickedByHandler(lib: Lib, table: seq<Route>, script: Script, r: ResultValue, n: nat)
    requires Resolvable(ScriptEnv(lib, table, script), r) && Actionable(r)
    requires r.filters == [] && r.redirectUri == "" && r.statusCode <= 0
    ensures Tricked(script, HandleResult(ScriptEnv(lib, table, script), r, ScriptWorld(script, n)).0, n)
  {
    PagesKeepTrick(lib, table, script, n, Rewritten(ScriptEnv(lib, table, script), r, ScriptWorld(script, n).ctx));
  }

  /** From this offset and world the loop goes on at that offset and world. */
  ghost predicate LeadsTo(env: Env, off: nat, w: World, off': nat, w': World)
    requires Ready(env)
  {
    var a := Try(env, AsWritten, off, w);
    Retries(env, a) && a.index + 1 == off' && Again(a.after) == w'
  }

  /** The attempts from given offsets and worlds. */
  function Tries(env: Env, offs: nat -> nat, ws: nat -> World, n: nat): (run: seq<Attempt>)
    requires Ready(env)
    ensures |run| == n
  {
    seq(n, (m: nat) => Try(env, AsWritten, offs(m), ws(m)))
  }

  ghost predicate LeadsOn(env: Env, offs: nat -> nat, ws: nat -> World, m: nat)
    requires Ready(env)
  {
    LeadsTo(env, offs(m), ws(m), offs(m + 1), ws(m + 1))
  }

  lemma TriesFollow(env: Env, offs: nat -> nat, ws: nat -> World, n: nat, m: nat)
    requires Ready(env) && offs(0) == 0 && m < n && (m > 0 ==> LeadsOn(env, offs, ws, m - 1))
    ensures Follows(env, AsWritten, ws(0), Tries(env, offs, ws, n), m)
  {
  }

  /** They are a run when each leads to the next. */
  lemma TriesAreRun(env: Env, offs: nat -> nat, ws: nat -> World, n: nat)
    requires Ready(env) && offs(0) == 0 && forall m: nat :: m + 1 < n ==> LeadsOn(env, offs, ws, m)
    ensures IsRun(env, AsWritten, ws(0), Tries(env, offs, ws, n))
  {
    var run := Tries(env, offs, ws, n);
    forall m | 0 <= m < |run|
      ensures Follows(env, AsWritten, ws(0), run, m)
    {
      TriesFollow(env, offs, ws, n, m);
    }
  }

  /** The answer in step n of the script. */
  function ScriptAnswer(lib: Lib, table: seq<Route>, script: Script, n: nat): ResultValue {
    RouteValue(table, script(n).q.verb, lib.pathOf(script(n).q.uri), ScriptOff(script, n))
  }

  lemma ScriptedOutcome(lib: Lib, table: seq<Route>, script: Script, n: nat)
    requires ScriptHop(lib, table, script, n) && Ready(ScriptEnv(lib, table, script))
    ensures var env, r := ScriptEnv(lib, table, script), ScriptAnswer(lib, table, script, n);
            && r.routeIndex == script(n).i && r.statusCode != STATUS_NOT_FOUND
            && Resolvable(env, r) && Tricked(script, HandleResult(env, r, ScriptWorld(script, n)).0, n)
  {
    var q, off, r := script(n).q, ScriptOff(script, n), ScriptAnswer(lib, table, script, n);
    HopAnswer(table, off, script(n).i, q.verb, lib.pathOf(q.uri));
    AnswerResolvable(ScriptEnv(lib, table, script), q.verb, lib.pathOf(q.uri), off);
    if r.filters != [] {
      TrickedByFilter(lib, table, script, r, n);
    } else {
      TrickedByHandler(lib, table, script, r, n);
    }
  }

  lemma ScriptedAttempt(lib: Lib, table: seq<Route>, script: Script, n: nat)
    requires ScriptHop(lib, table, script, n) && Ready(ScriptEnv(lib, table, script))
    ensures LeadsTo(ScriptEnv(lib, table, script), ScriptOff(script, n), ScriptWorld(script, n), ScriptOff(script, n + 1),
                    ScriptWorld(script, n + 1))
  {
    ScriptedOutcome(lib, table, script, n);
    assert table[script(n).i].nextIfNotFound;
  }

  /** A script whose first n steps are hops has a run of n + 1 attempts. */
  lemma ScriptedRun(lib: Lib, table: seq<Route>, script: Script, n: nat)
    requires forall m: nat :: m < n ==> ScriptHop(lib, table, script, m)
    ensures Ready(ScriptEnv(lib, table, script))
    ensures HasRun(ScriptEnv(lib, table, script), AsWritten, ScriptWorld(script, 0), n + 1)
  {
    ScriptEnvReady(lib, table, script);
    var env := ScriptEnv(lib, table, script);
    var offs, ws := (m: nat) => ScriptOff(script, m), (m: nat) => ScriptWorld(script, m);
    forall m: nat | m + 1 < n + 1
      ensures LeadsOn(env, offs, ws, m)
    {
      ScriptedAttempt(lib, table, script, m);
    }
    TriesAreRun(env, offs, ws, n + 1);
  }

  /** A walk as the beginning of a script. */
  function ScriptOf(walk: seq<Leg>): Script {
    (n: nat) => if n < |walk| then walk[n] else Leg(Request("", ""), 0)
  }

  lemma ScriptOfHops(lib: Lib, table: seq<Route>, walk: seq<Leg>, m: nat)
    requires IsWalk(lib, table, walk) && m < |walk|
    ensures ScriptHop(lib, table, ScriptOf(walk), m)
  {
    assert HopAt(lib, table, walk, m);
    assert ScriptOff(ScriptOf(walk), m) == OffAt(walk, m);
  }

  /** Every walk is followed by the run of some environment and request. */
  lemma WalkHasRun(lib: Lib, table: seq<Route>, walk: seq<Leg>) returns (env: Env, w: World, run: seq<Attempt>)
    requires IsWalk(lib, table, walk)
    ensures AllowsRun(lib, table, env, w, run) && |run| == |walk| + 1
  {
    var script := ScriptOf(walk);
    env, w := ScriptEnv(lib, table, script), ScriptWorld(script, 0);
    forall m: nat | m < |walk|
      ensures ScriptHop(lib, table, script, m)
    {
      ScriptOfHops(lib, table, walk, m);
    }
    ScriptedRun(lib, table, script, |walk|);
    run :| IsRun(env, AsWritten, w, run) && |run| == |walk| + 1;
  }

  /** A run as written of some environment with this library and this table. */
  ghost predicate AllowsRun(lib: Lib, table: seq<Route>, env: Env, w: World, run: seq<Attempt>) {
    Ready(env) && env.lib == lib && env.table == table && IsRun(env, AsWritten, w, run)
  }

  /** As written, a table allows runs of n + 1 attempts exactly when it has a walk of n hops. */
  lemma AsWrittenRunsAreWalks(lib: Lib, table: seq<Route>, n: nat)
    requires Real(lib)
    ensures (exists env, w, run :: AllowsRun(lib, table, env, w, run) && |run| == n + 1) <==> HasWalk(lib, table, n)
  {
    if env, w, run :| AllowsRun(lib, table, env, w, run) && |run| == n + 1 {
      RunIsWalk(env, w, run);
    }
    if HasWalk(lib, table, n) {
      var walk :| |walk| == n && IsWalk(lib, table, walk);
      var env, w, run := WalkHasRun(lib, table, walk);
      assert AllowsRun(lib, table, env, w, run);
    }
  }

  // ----- The bound of two attempts -----

  /** A hop from the start is followed by another. */
  ghost predicate HopsTwice(lib: Lib, table: seq<Route>, k: nat, i: nat) {
    Hop(lib, table, 0, k) && Hop(lib, table, k + 1, i)
  }

  lemma TwoHops(lib: Lib, table: seq<Route>, k: nat, i: nat) returns (walk: seq<Leg>)
    requires HopsTwice(lib, table, k, i)
    ensures |walk| == 2 && IsWalk(lib, table, walk)
  {
    var q0 :| HopFor(lib, table, 0, k, q0);
    var q1 :| HopFor(lib, table, k + 1, i, q1);
    walk := [Leg(q0, k), Leg(q1, i)];
  }

  lemma LongRunHopsTwice(lib: Lib, table: seq<Route>, env: Env, w: World, run: seq<Attempt>)
    requires Real(lib) && AllowsRun(lib, table, env, w, run) && |run| > 2
    ensures HopsTwice(lib, table, run[0].index, run[1].index)
  {
    RetriedIsHop(env, w, run, 0);
    RetriedIsHop(env, w, run, 1);
  }

  /**
   * As written, the loop makes at most two attempts for a table, whatever its filters, handlers and requests, if and only
   * if no hop from the start is followed by another.
   */
  lemma AsWrittenTerminatesExactly(lib: Lib, table: seq<Route>)
    requires Real(lib)
    ensures (forall env, w, run :: AllowsRun(lib, table, env, w, run) ==> |run| <= 2) <==> !exists k, i :: HopsTwice(lib, table, k, i)
  {
    if k, i :| HopsTwice(lib, table, k, i) {
      var walk := TwoHops(lib, table, k, i);
      var env, w, run := WalkHasRun(lib, table, walk);
      assert |run| == 3;
    }
    forall env: Env, w: World, run: seq<Attempt> | AllowsRun(lib, table, env, w, run) && |run| > 2
      ensures HopsTwice(lib, table, run[0].index, run[1].index)
    {
      LongRunHopsTwice(lib, table, env, w, run);
    }
  }

  // ----- Runs that never end -----

  /** A walk of the table comes back to an offset it has left. */
  ghost predicate ComesBack(lib: Lib, table: seq<Route>, walk: seq<Leg>, a: nat, b: nat) {
    IsWalk(lib, table, walk) && a < b <= |walk| && OffAt(walk, a) == OffAt(walk, b)
  }

  ghost predicate Cyclic(lib: Lib, table: seq<Route>) {
    exists walk, a, b :: ComesBack(lib, table, walk, a, b)
  }

  lemma {:induction false} Pigeonhole(xs: seq<nat>, bound: nat) returns (a: nat, b: nat)
    requires |xs| > bound && forall n :: 0 <= n < |xs| ==> xs[n] < bound
    ensures a < b < |xs| && xs[a] == xs[b]
    decreases bound
  {
    var last := |xs| - 1;
    if n :| 0 <= n < last && xs[n] == xs[last] {
      a, b := n, last;
    } else {
      // the largest pigeonhole is given to whoever uses the last one's
      var ys := seq(last, n requires 0 <= n < last => if xs[n] == bound - 1 then xs[last] else xs[n]);
      a, b := Pigeonhole(ys, bound - 1);
    }
  }

  /** A walk longer than the table comes back. */
  lemma LongWalkComesBack(lib: Lib, table: seq<Route>, walk: seq<Leg>) returns (a: nat, b: nat)
    requires IsWalk(lib, table, walk) && |walk| > |table|
    ensures ComesBack(lib, table, walk, a, b)
  {
    var xs: seq<nat> := seq(|walk|, n requires 0 <= n < |walk| => walk[n].i);
    forall n | 0 <= n < |xs|
      ensures xs[n] < |table|
    {
      assert HopAt(lib, table, walk, n);
    }
    a, b := Pigeonhole(xs, |table|);
    a, b := a + 1, b + 1;
  }

  /** Going round the cycle for ever. */
  function Lasso(walk: seq<Leg>, a: nat, b: nat): Script
    requires a < b <= |walk|
  {
    (n: nat) => walk[if n < b then n else a + (n - a) % (b - a)]
  }

  /** Position n of the lasso, as long as it is behind the entry, moves on by one or back to the entry. */
  lemma LassoMoves(a: nat, b: nat, n: nat)
    requires a < b <= n
    ensures var at, prev := a + (n - a) % (b - a), if n - 1 < b then n - 1 else a + (n - 1 - a) % (b - a);
            if at == a then prev == b - 1 else prev == at - 1
  {
    var d, x := b - a, n - a;
    assert x == d * (x / d) + x % d;
    if x % d == 0 {
      ModUnique(x - 1, d, x / d - 1, d - 1);
    } else {
      ModUnique(x - 1, d, x / d, x % d - 1);
    }
  }

  /** A step of the script that is one of the walk, behind the same offset, is a hop. */
  lemma SameHop(lib: Lib, table: seq<Route>, walk: seq<Leg>, script: Script, n: nat, at: nat)
    requires IsWalk(lib, table, walk) && at < |walk|
    requires script(n) == walk[at] && ScriptOff(script, n) == OffAt(walk, at)
    ensures ScriptHop(lib, table, script, n)
  {
    assert HopAt(lib, table, walk, at);
  }

  lemma LassoOffset(walk: seq<Leg>, a: nat, b: nat, n: nat)
    requires a < b <= |walk| && b <= n && OffAt(walk, a) == OffAt(walk, b)
    ensures ScriptOff(Lasso(walk, a, b), n) == OffAt(walk, a + (n - a) % (b - a))
  {
    LassoMoves(a, b, n);
  }

  lemma LassoHops(lib: Lib, table: seq<Route>, walk: seq<Leg>, a: nat, b: nat, n: nat)
    requires ComesBack(lib, table, walk, a, b)
    ensures ScriptHop(lib, table, Lasso(walk, a, b), n)
  {
    if n < b {
      SameHop(lib, table, walk, Lasso(walk, a, b), n, n);
    } else {
      LassoOffset(walk, a, b, n);
      SameHop(lib, table, walk, Lasso(walk, a, b), n, a + (n - a) % (b - a));
    }
  }

  /** The loop as written never ends for this environment and request. */
  ghost predicate NeverEnds(lib: Lib, table: seq<Route>, env: Env, w: World) {
    Ready(env) && env.lib == lib && env.table == table && forall n: nat :: HasRun(env, AsWritten, w, n)
  }

  lemma CyclicNeverEnds(lib: Lib, table: seq<Route>, walk: seq<Leg>, a: nat, b: nat) returns (env: Env, w: World)
    requires ComesBack(lib, table, walk, a, b)
    ensures NeverEnds(lib, table, env, w)
  {
    var script := Lasso(walk, a, b);
    env, w := ScriptEnv(lib, table, script), ScriptWorld(script, 0);
    ScriptEnvReady(lib, table, script);
    forall n: nat
      ensures HasRun(env, AsWritten, w, n)
    {
      if n == 0 {
        assert IsRun(env, AsWritten, w, []);
      } else {
        forall m: nat | m < n - 1
          ensures ScriptHop(lib, table, script, m)
        {
          LassoHops(lib, table, walk, a, b, m);
        }
        ScriptedRun(lib, table, script, n - 1);
      }
    }
  }

  /** Without a cycle of hops every run ends, after at most one attempt more than there are routes. */
  lemma AcyclicEnds(lib: Lib, table: seq<Route>, env: Env, w: World, run: seq<Attempt>)
    requires Real(lib) && AllowsRun(lib, table, env, w, run) && !Cyclic(lib, table)
    ensures |run| <= |table| + 1
  {
    if |run| > |table| + 1 {
      RunIsWalk(env, w, run);
      var a, b := LongWalkComesBack(lib, table, WalkOf(run));
    }
  }

  /** As written, the loop ends for every environment and request with this table if and only if no walk of hops comes back. */
  lemma AsWrittenEndsExactly(lib: Lib, table: seq<Route>)
    requires Real(lib)
    ensures (exists env, w :: NeverEnds(lib, table, env, w)) <==> Cyclic(lib, table)
  {
    if Cyclic(lib, table) {
      var walk, a, b :| ComesBack(lib, table, walk, a, b);
      var env, w := CyclicNeverEnds(lib, table, walk, a, b);
    }
    if env, w :| NeverEnds(lib, table, env, w) {
      assert HasRun(env, AsWritten, w, |table| + 2);
      var run :| IsRun(env, AsWritten, w, run) && |run| == |table| + 2;
      if !Cyclic(lib, table) {
        AcyclicEnds(lib, table, env, w, run);
      }
    }
  }

  // ----- How many turns are enough -----

  /** With so many turns the loop ends, whatever the filters, handlers and requests. */
  ghost predicate Enough(lib: Lib, table: seq<Route>, mode: Indexing, limit: nat) {
    if mode.FromStart? then limit > |table| else limit > 0 && !HasWalk(lib, table, limit)
  }

  lemma NoRetryAfterEnough(env: Env, mode: Indexing, w: World, run: seq<Attempt>)
    requires Ready(env) && IsRun(env, mode, w, run) && run != []
    requires (mode.FromStart? || Real(env.lib)) && Enough(env.lib, env.table, mode, |run|)
    ensures !Retries(env, run[|run| - 1])
  {
    var last := run[|run| - 1];
    if Retries(env, last) {
      RunGrows(env, mode, w, run);
      var longer := run + [Try(env, mode, last.index + 1, Again(last.after))];
      if mode.FromStart? {
        FromStartTerminates(env, w, longer);
      } else {
        RunIsWalk(env, w, longer);
      }
    }
  }

  /** Fewer turns can always turn out too few. */
  lemma EnoughExactly(lib: Lib, table: seq<Route>, limit: nat)
    requires Real(lib) && limit > 0
    ensures Enough(lib, table, AsWritten, limit) <==>
            forall env, w, run :: AllowsRun(lib, table, env, w, run) && |run| == limit ==> !Retries(env, run[limit - 1])
  {
    if HasWalk(lib, table, limit) {
      var walk :| |walk| == limit && IsWalk(lib, table, walk);
      var env, w, longer := WalkHasRun(lib, table, walk);
      var run := longer[..limit];
      forall i | 0 <= i < |run|
        ensures Follows(env, AsWritten, w, run, i)
      {
        assert Follows(env, AsWritten, w, longer, i);
      }
      assert AllowsRun(lib, table, env, w, run) && Follows(env, AsWritten, w, longer, limit);
    } else {
      forall env: Env, w: World, run: seq<Attempt> | AllowsRun(lib, table, env, w, run) && |run| == limit
        ensures !Retries(env, run[limit - 1])
      {
        NoRetryAfterEnough(env, AsWritten, w, run);
      }
    }
  }

  /** Some number of turns is enough if and only if no walk of hops comes back; then one more than there are routes is. */
  lemma EnoughWhenAcyclic(lib: Lib, table: seq<Route>)
    requires Real(lib)
    ensures (exists limit :: Enough(lib, table, AsWritten, limit)) <==> !Cyclic(lib, table)
    ensures !Cyclic(lib, table) ==> forall limit :: limit > |table| ==> Enough(lib, table, AsWritten, limit)
  {
    if Cyclic(lib, table) {
      var walk, a, b :| ComesBack(lib, table, walk, a, b);
      forall limit: nat
        ensures !Enough(lib, table, AsWritten, limit)
      {
        EndlessWalk(lib, table, walk, a, b, limit);
      }
    } else {
      forall limit: nat | limit > |table|
        ensures Enough(lib, table, AsWritten, limit)
      {
        if walk: seq<Leg> :| |walk| == limit && IsWalk(lib, table, walk) {
          var a, b := LongWalkComesBack(lib, table, walk);
        }
      }
      assert Enough(lib, table, AsWritten, |table| + 1);
    }
  }

  /** A walk that comes back can be made as long as one likes. */
  lemma EndlessWalk(lib: Lib, table: seq<Route>, walk: seq<Leg>, a: nat, b: nat, n: nat)
    requires ComesBack(lib, table, walk, a, b)
    ensures HasWalk(lib, table, n)
  {
    var script := Lasso(walk, a, b);
    var longer := seq(n, (m: nat) => script(m));
    forall m | 0 <= m < n
      ensures HopAt(lib, table, longer, m)
    {
      LassoHops(lib, table, walk, a, b, m);
      assert ScriptOff(script, m) == OffAt(longer, m);
    }
    assert IsWalk(lib, table, longer);
  }

  /** Two turns are enough if and only if no hop from the start is followed by another, as when no flag is early. */
  lemma TwoEnough(lib: Lib, table: seq<Route>)
    ensures Enough(lib, table, AsWritten, 2) <==> !exists k, i :: HopsTwice(lib, table, k, i)
    ensures OnlyLateFlags(Flags(table)) ==> Enough(lib, table, AsWritten, 2)
  {
    if walk: seq<Leg> :| |walk| == 2 && IsWalk(lib, table, walk) {
      assert HopAt(lib, table, walk, 0) && HopAt(lib, table, walk, 1);
      assert HopsTwice(lib, table, walk[0].i, walk[1].i);
      assert Flags(table)[walk[0].i] && Flags(table)[walk[1].i];
    }
    if k, i :| HopsTwice(lib, table, k, i) {
      var walk := TwoHops(lib, table, k, i);
    }
  }
}
