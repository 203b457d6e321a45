/** The per-request run: routing, filters, handlers, error pages and the retry after a 404 (pkg/handler/server.go). */
module Server {
  import opened Prelude
  import opened Results
  import opened StringSets
  import opened Uris
  import opened Routing
  import opened Http
  import opened ErrorPage

  /** A filter's two sides: the context it leaves behind and whether processing goes on. */
  datatype Filter = Filter(request: Ctx -> (Ctx, bool), response: Ctx -> (Ctx, bool))

  type Handler = Ctx -> Ctx

  /** The HTTP library's reading of URIs and its redirect. */
  datatype Lib = Lib(pathOf: Bytes -> Bytes, queryOf: Bytes -> Bytes, redirect: (Ctx, Bytes, int) -> Ctx)

  /** What is known of the library: paths begin with a slash, and a redirect is never a 404. */
  ghost predicate Real(lib: Lib) {
    && (forall uri: Bytes :: HasPrefix(lib.pathOf(uri), "/"))
    && (forall c: Ctx, uri: Bytes, status: int :: lib.redirect(c, uri, status).response.status != STATUS_NOT_FOUND)
  }

  /** What init sets up, and the library. */
  datatype Env = Env(
    table: seq<Route>,
    filters: map<string, Filter>,
    handlers: map<string, Handler>,
    errors: Setup,
    lib: Lib)

  /** Every name in the table is a key of the maps. */
  ghost predicate Ready(env: Env) {
    Known(env.table, env.filters.Keys, env.handlers.Keys)
  }

  // ----- Setting up (init) -----

  /** Instances by name: built exactly when every configured one can be built, and then under exactly those names. */
  method MakeAll<A, B>(configured: map<string, A>, make: A -> Option<B>) returns (built: Option<map<string, B>>)
    ensures built.Some? <==> forall name :: name in configured ==> make(configured[name]).Some?
    ensures built.Some? ==> built.value.Keys == configured.Keys
                            && forall name :: name in configured ==> make(configured[name]) == Some(built.value[name])
  {
    var left, done := configured.Keys, map[];
    while left != {}
      invariant left <= configured.Keys && done.Keys == configured.Keys - left
      invariant forall name :: name in done ==> make(configured[name]) == Some(done[name])
      decreases left
    {
      var name :| name in left;
      var one := make(configured[name]);
      if one.None? {
        return None;
      }
      done := done[name := one.value];
      left := left - {name};
    }
    built := Some(done);
  }

  /** init: after it every lookup by a name from the table finds its filter or handler. */
  method Init<A, B>(lib: Library, filters: map<string, A>, newFilter: A -> Option<Filter>, handlers: map<string, B>,
                    newHandler: B -> Option<Handler>, routes: seq<RouteConfig>, rest: Env) returns (env: Option<Env>)
    ensures env.Some? ==> Ready(env.value) && |env.value.table| == |routes|
                          && env.value.filters.Keys == filters.Keys && env.value.handlers.Keys == handlers.Keys
    ensures env.Some? <==> && (forall name :: name in filters ==> newFilter(filters[name]).Some?)
                           && (forall name :: name in handlers ==> newHandler(handlers[name]).Some?)
                           && (forall i :: 0 <= i < |routes| ==> NewRoute(lib, routes[i]).Ok?)
                           && (forall i :: 0 <= i < |routes| ==> NamesKnown(Config(filters.Keys, handlers.Keys, routes), routes[i]))
  {
    var fs := MakeAll(filters, newFilter);
    if fs.None? {
      return None;
    }
    var hs := MakeAll(handlers, newHandler);
    if hs.None? {
      return None;
    }
    var table := NewRoutes(lib, Config(filters.Keys, handlers.Keys, routes));
    if table.Err? {
      return None;
    }
    env := Some(rest.(table := table.value, filters := fs.value, handlers := hs.value));
  }

  // ----- One routing result -----

  /** What happens to a request, in order. */
  datatype Event =
    | FilterAsked(name: string, ok: bool)
    | Redirected(uri: Bytes, status: int)
    | StatusSet(status: int)
    | HandlerCalled(name: string)
    | NotActionable
    | PagesApplied
    | FilterAnswered(name: string, ok: bool)

  type Pages = t: Table | |t| == STATUS_UNTIL - STATUS_OFFSET witness seq(200, _ => None)

  /** The memo table of the error pages and the request context. */
  datatype World = World(pages: Pages, ctx: Ctx)

  /** RewriteURIWithQueryString and RedirectURIWithQueryString */
  function WithQuery(env: Env, r: ResultValue, uri: Bytes, ctx: Ctx): Bytes {
    if r.appendQueryString && |uri| > 0 then AppendQueryString(uri, env.lib.queryOf(ctx.uri)) else uri
  }

  /** The request URI after a rewrite. */
  function Rewritten(env: Env, r: ResultValue, ctx: Ctx): Ctx {
    var uri := WithQuery(env, r, r.rewriteUri, ctx);
    if |uri| > 0 then ctx.(uri := uri) else ctx
  }

  datatype Verdict = Verdict(ctx: Ctx, events: seq<Event>, ok: bool)

  predicate AllIn(names: seq<string>, filters: map<string, Filter>) {
    forall i :: 0 <= i < |names| ==> names[i] in filters
  }

  /** The request side of the filters, up to the first refusal. */
  function AskFilters(env: Env, names: seq<string>, ctx: Ctx): Verdict
    requires AllIn(names, env.filters)
  {
    if names == [] then Verdict(ctx, [], true)
    else
      var (c, ok) := env.filters[names[0]].request(ctx);
      if !ok then Verdict(c, [FilterAsked(names[0], false)], false)
      else
        var rest := AskFilters(env, names[1..], c);
        rest.(events := [FilterAsked(names[0], true)] + rest.events)
  }

  /** The response side of the filters, up to the first refusal. */
  function AnswerFilters(env: Env, names: seq<string>, ctx: Ctx): Verdict
    requires AllIn(names, env.filters)
  {
    if names == [] then Verdict(ctx, [], true)
    else
      var (c, ok) := env.filters[names[0]].response(ctx);
      if !ok then Verdict(c, [FilterAnswered(names[0], false)], false)
      else
        var rest := AnswerFilters(env, names[1..], c);
        rest.(events := [FilterAnswered(names[0], true)] + rest.events)
  }

  predicate Resolvable(env: Env, r: ResultValue) {
    AllIn(r.filters, env.filters) && (r.handler != "" ==> r.handler in env.handlers)
  }

  /** The status or handler step. */
  function Act(env: Env, r: ResultValue, ctx: Ctx): (Ctx, Event)
    requires Resolvable(env, r)
  {
    if r.statusCode > 0 then
      (ctx.(response := FRESH.(status := r.statusCode, message := r.statusMessage)), StatusSet(r.statusCode))
    else if r.handler != "" then (env.handlers[r.handler](ctx), HandlerCalled(r.handler))
    else (ctx.(response := ctx.response.(status := STATUS_NOT_FOUND)), NotActionable)
  }

  /** errorPages.Handle */
  function ApplyPages(env: Env, w: World): World {
    var (t, r) := HandleStep(env.errors, w.pages, w.ctx);
    World(t, w.ctx.(response := r))
  }

  /** handleRouteResult after the filters have accepted. */
  function Accepted(env: Env, r: ResultValue, w: World): (World, seq<Event>)
    requires Resolvable(env, r)
  {
    var uri := WithQuery(env, r, r.redirectUri, w.ctx);
    if |uri| > 0 then (w.(ctx := env.lib.redirect(w.ctx, uri, r.statusCode)), [Redirected(uri, r.statusCode)])
    else
      var (c, e) := Act(env, r, w.ctx);
      var w' := ApplyPages(env, w.(ctx := c));
      var answered := AnswerFilters(env, r.filters, w'.ctx);
      (w'.(ctx := answered.ctx), [e, PagesApplied] + answered.events)
  }

  /** handleRouteResult */
  function HandleResult(env: Env, r: ResultValue, w: World): (World, seq<Event>)
    requires Resolvable(env, r)
  {
    var asked := AskFilters(env, r.filters, Rewritten(env, r, w.ctx));
    var w' := w.(ctx := asked.ctx);
    if !asked.ok then (ApplyPages(env, w'), asked.events + [PagesApplied])
    else
      var (w'', events) := Accepted(env, r, w');
      (w'', asked.events + events)
  }

  // ----- What the order of events guarantees -----

  predicate Main(e: Event) {
    e.Redirected? || e.StatusSet? || e.HandlerCalled? || e.NotActionable?
  }

  /** One filter's verdict, on the request side or on the response side. */
  function Said(request: bool, name: string, ok: bool): Event {
    if request then FilterAsked(name, ok) else FilterAnswered(name, ok)
  }

  /** The filters' verdicts in order: every one is a yes, except that the last one is the refusal when not ok. */
  ghost predicate UpToRefusal(request: bool, names: seq<string>, events: seq<Event>, ok: bool) {
    && |events| <= |names|
    && (if ok then |events| == |names| else events != [])
    && forall i :: 0 <= i < |events| ==> events[i] == Said(request, names[i], ok || i < |events| - 1)
  }

  lemma UpToRefusalGrows(request: bool, names: seq<string>, events: seq<Event>, ok: bool)
    requires names != [] && UpToRefusal(request, names[1..], events, ok)
    ensures UpToRefusal(request, names, [Said(request, names[0], true)] + events, ok)
  {
  }

  lemma {:induction false} AskFiltersInOrder(env: Env, names: seq<string>, ctx: Ctx)
    requires AllIn(names, env.filters)
    ensures var v := AskFilters(env, names, ctx); UpToRefusal(true, names, v.events, v.ok)
  {
    if names != [] {
      var (c, ok) := env.filters[names[0]].request(ctx);
      if ok {
        AskFiltersInOrder(env, names[1..], c);
        var rest := AskFilters(env, names[1..], c);
        UpToRefusalGrows(true, names, rest.events, rest.ok);
      }
    }
  }

  lemma {:induction false} AnswerFiltersInOrder(env: Env, names: seq<string>, ctx: Ctx)
    requires AllIn(names, env.filters)
    ensures var v := AnswerFilters(env, names, ctx); UpToRefusal(false, names, v.events, v.ok)
  {
    if names != [] {
      var (c, ok) := env.filters[names[0]].response(ctx);
      if ok {
        AnswerFiltersInOrder(env, names[1..], c);
        var rest := AnswerFilters(env, names[1..], c);
        UpToRefusalGrows(false, names, rest.events, rest.ok);
      }
    }
  }

  /**
   * Event q comes after event p only in the order filters asked, one main step, error pages, filters answered; nothing
   * but the error pages follows a refused request, and nothing follows a refused response.
   */
  predicate MayFollow(p: Event, q: Event) {
    match p
    case FilterAsked(_, ok) => ok || q == PagesApplied
    case Redirected(_, _) => false
    case StatusSet(_) => q == PagesApplied || q.FilterAnswered?
    case HandlerCalled(_) => q == PagesApplied || q.FilterAnswered?
    case NotActionable => q == PagesApplied || q.FilterAnswered?
    case PagesApplied => q.FilterAnswered?
    case FilterAnswered(_, ok) => ok && q.FilterAnswered?
  }

  ghost predicate InOrder(events: seq<Event>) {
    forall p, q :: 0 <= p < q < |events| ==> MayFollow(events[p], events[q])
  }

  /** Filters are asked and answered in the given order, all are asked before the main step, and it precedes all answers. */
  ghost predicate InPlace(names: seq<string>, events: seq<Event>) {
    var n := |names|;
    && (forall i :: 0 <= i < |events| && events[i].FilterAsked? ==> i < n && events[i].name == names[i])
    && (forall i :: 0 <= i < |events| && Main(events[i]) ==> i == n)
    && (forall i :: 0 <= i < |events| && events[i].FilterAnswered? ==>
                      n + 2 <= i < 2 * n + 2 && events[i].name == names[i - n - 2] && Main(events[n]))
  }

  /** Nothing is cut short: a run that does not end in a refusal or a redirect asks and answers every filter. */
  ghost predicate Complete(names: seq<string>, events: seq<Event>) {
    || (|events| == 2 * |names| + 2 && Main(events[|names|]))
    || (|events| >= |names| + 3 && events[|events| - 1].FilterAnswered? && !events[|events| - 1].ok)
    || (|events| == |names| + 1 && events[|names|].Redirected?)
    || (|events| >= 2 && events[|events| - 1] == PagesApplied && events[|events| - 2].FilterAsked? && !events[|events| - 2].ok)
  }

  lemma EventsInOrder(env: Env, r: ResultValue, w: World)
    requires Resolvable(env, r)
    ensures var events := HandleResult(env, r, w).1;
            InOrder(events) && InPlace(r.filters, events) && Complete(r.filters, events)
  {
    var events := HandleResult(env, r, w).1;
    var asked := AskFilters(env, r.filters, Rewritten(env, r, w.ctx));
    AskFiltersInOrder(env, r.filters, Rewritten(env, r, w.ctx));
    if !asked.ok {
      RefusedInOrder(r.filters, asked.events);
    } else {
      var w' := w.(ctx := asked.ctx);
      var uri := WithQuery(env, r, r.redirectUri, w'.ctx);
      var rest := Accepted(env, r, w').1;
      assert events == asked.events + rest;
      if |uri| > 0 {
        AcceptedInOrder(r.filters, asked.events, Redirected(uri, r.statusCode), [], true);
      } else {
        var (c, e) := Act(env, r, w'.ctx);
        var c' := ApplyPages(env, w'.(ctx := c)).ctx;
        AnswerFiltersInOrder(env, r.filters, c');
        var answered := AnswerFilters(env, r.filters, c');
        AcceptedInOrder(r.filters, asked.events, e, answered.events, answered.ok);
      }
    }
  }

  lemma RefusedInOrder(names: seq<string>, asked: seq<Event>)
    requires UpToRefusal(true, names, asked, false)
    ensures var events := asked + [PagesApplied];
            InOrder(events) && InPlace(names, events) && Complete(names, events)
  {
  }

  lemma AcceptedInOrder(names: seq<string>, asked: seq<Event>, e: Event, answered: seq<Event>, ok: bool)
    requires UpToRefusal(true, names, asked, true) && Main(e)
    requires if e.Redirected? then answered == [] else UpToRefusal(false, names, answered, ok)
    ensures var events := asked + (if e.Redirected? then [e] else [e, PagesApplied] + answered);
            InOrder(events) && InPlace(names, events) && Complete(names, events)
  {
  }

  // ----- The retry loop of Handle -----

  /** How the loop reads the index of the answering route: as the offset into the slice it is, or counted from the table's start. */
  datatype Indexing = AsWritten | FromStart

  /** One turn of the loop: index is what it puts into off, events what happened. */
  datatype Attempt = Attempt(off: nat, before: World, result: ResultValue, after: World, events: seq<Event>, index: nat)

  function Try(env: Env, mode: Indexing, off: nat, w: World): Attempt
    requires Ready(env)
  {
    var path := env.lib.pathOf(w.ctx.uri);
    var r := RouteValue(env.table, w.ctx.verb, path, off);
    AnswerResolvable(env, w.ctx.verb, path, off);
    IndexIsPosition(env.table, w.ctx.verb, path, off);
    var (w', events) := HandleResult(env, r, w);
    Attempt(off, w, r, w', events, if mode.AsWritten? then r.routeIndex else off + r.routeIndex)
  }

  lemma AnswerResolvable(env: Env, verb: Bytes, path: Bytes, off: nat)
    requires Ready(env)
    ensures Resolvable(env, RouteValue(env.table, verb, path, off)) && Actionable(RouteValue(env.table, verb, path, off))
  {
    AnswersAreActionable(env.table, verb, path, off, env.filters.Keys, env.handlers.Keys);
    var r := RouteValue(env.table, verb, path, off);
    assert forall i :: 0 <= i < |r.filters| ==> r.filters[i] in r.filters;
  }

  lemma IndexIsPosition(table: seq<Route>, verb: Bytes, path: Bytes, off: nat)
    ensures RouteValue(table, verb, path, off).routeIndex >= 0
  {
    if off < |table| {
      RouteMeaning(table, verb, path, off);
      var d := FindDecider(table[off..], verb, path, |table| - off);
    }
  }

  /** The loop goes round again. */
  predicate Retries(env: Env, a: Attempt) {
    && a.result.statusCode != STATUS_NOT_FOUND
    && a.after.ctx.response.status == STATUS_NOT_FOUND
    && IsNextIfNotFound(env.table, a.index)
  }

  /** ctx.Response.Reset() */
  function Again(w: World): World {
    w.(ctx := w.ctx.(response := FRESH))
  }

  /** Attempt i of a run is what the loop does after the attempts before it. */
  ghost predicate Follows(env: Env, mode: Indexing, w: World, run: seq<Attempt>, i: nat)
    requires Ready(env) && i < |run|
  {
    if i == 0 then run[0] == Try(env, mode, 0, w)
    else Retries(env, run[i - 1]) && run[i] == Try(env, mode, run[i - 1].index + 1, Again(run[i - 1].after))
  }

  /** A run of the loop, or the first part of one. */
  ghost predicate IsRun(env: Env, mode: Indexing, w: World, run: seq<Attempt>)
    requires Ready(env)
  {
    forall i :: 0 <= i < |run| ==> Follows(env, mode, w, run, i)
  }

  lemma SameNext(env: Env, mode: Indexing, w: World, a: seq<Attempt>, b: seq<Attempt>, i: nat)
    requires Ready(env) && i < |a| && i < |b| && (i > 0 ==> a[i - 1] == b[i - 1])
    requires Follows(env, mode, w, a, i) && Follows(env, mode, w, b, i)
    ensures a[i] == b[i]
  {
  }

  /** The request decides the run: two runs agree as far as both go. */
  lemma {:induction false} RunsAgree(env: Env, mode: Indexing, w: World, a: seq<Attempt>, b: seq<Attempt>, i: nat)
    requires Ready(env) && IsRun(env, mode, w, a) && IsRun(env, mode, w, b) && i < |a| && i < |b|
    ensures a[i] == b[i]
  {
    if i > 0 {
      RunsAgree(env, mode, w, a, b, i - 1);
    }
    SameNext(env, mode, w, a, b, i);
  }

  lemma RunGrows(env: Env, mode: Indexing, w: World, run: seq<Attempt>)
    requires Ready(env) && IsRun(env, mode, w, run) && run != [] && Retries(env, run[|run| - 1])
    ensures var last := run[|run| - 1];
            IsRun(env, mode, w, run + [Try(env, mode, last.index + 1, Again(last.after))])
  {
    var last := run[|run| - 1];
    var longer := run + [Try(env, mode, last.index + 1, Again(last.after))];
    forall i | 0 <= i < |longer|
      ensures Follows(env, mode, w, longer, i)
    {
      assert i < |run| ==> Follows(env, mode, w, run, i);
    }
  }

  /** The attempt after the ones in run begins at off, in the world w. */
  ghost predicate GoesOnAt(env: Env, mode: Indexing, w0: World, run: seq<Attempt>, off: nat, w: World) {
    && Ready(env)
    && IsRun(env, mode, w0, run)
    && if run == [] then off == 0 && w == w0
       else var last := run[|run| - 1]; Retries(env, last) && off == last.index + 1 && w == Again(last.after)
  }

  lemma RunGoesOn(env: Env, mode: Indexing, w0: World, run: seq<Attempt>, off: nat, w: World)
    requires GoesOnAt(env, mode, w0, run, off, w)
    ensures IsRun(env, mode, w0, run + [Try(env, mode, off, w)])
  {
    if run == [] {
      assert Follows(env, mode, w0, [Try(env, mode, off, w)], 0);
    } else {
      RunGrows(env, mode, w0, run);
    }
  }

  /** An attempt handles the route answer for its request and offset, and takes its index from there. */
  ghost predicate Answered(env: Env, mode: Indexing, a: Attempt) {
    && a.result == RouteValue(env.table, a.before.ctx.verb, env.lib.pathOf(a.before.ctx.uri), a.off)
    && a.index == (if mode.AsWritten? then 0 else a.off) + a.result.routeIndex
  }

  lemma TryAnswered(env: Env, mode: Indexing, off: nat, w: World)
    requires Ready(env)
    ensures var a := Try(env, mode, off, w); Answered(env, mode, a) && a.off == off && a.before == w
  {
  }

  lemma AttemptFields(env: Env, mode: Indexing, w: World, run: seq<Attempt>, i: nat)
    requires Ready(env) && IsRun(env, mode, w, run) && i < |run|
    ensures Answered(env, mode, run[i])
    ensures if i == 0 then run[i].off == 0 else Retries(env, run[i - 1]) && run[i].off == run[i - 1].index + 1
  {
    assert Follows(env, mode, w, run, i);
    if i == 0 {
      TryAnswered(env, mode, 0, w);
    } else {
      TryAnswered(env, mode, run[i - 1].index + 1, Again(run[i - 1].after));
    }
  }

  lemma FirstAttempt(env: Env, mode: Indexing, w: World, run: seq<Attempt>)
    requires Ready(env) && IsRun(env, mode, w, run) && run != []
    ensures run[0].before == w && run[0].off == 0
  {
    assert Follows(env, mode, w, run, 0);
    TryAnswered(env, mode, 0, w);
  }

  // ----- Termination -----

  lemma RetriedIndex(env: Env, mode: Indexing, a: Attempt)
    requires Answered(env, mode, a) && Retries(env, a)
    ensures var i := a.result.routeIndex;
            && 0 <= i < |env.table| - a.off
            && FirstDecider(env.table[a.off..], a.before.ctx.verb, env.lib.pathOf(a.before.ctx.uri), i)
  {
    AnswerIndex(env.table, a.before.ctx.verb, env.lib.pathOf(a.before.ctx.uri), a.off);
  }

  lemma RetryIndex(env: Env, mode: Indexing, off: nat, w: World)
    requires Ready(env) && Retries(env, Try(env, mode, off, w))
    ensures var a := Try(env, mode, off, w);
            var i := a.result.routeIndex;
            && 0 <= i < |env.table| - off
            && FirstDecider(env.table[off..], w.ctx.verb, env.lib.pathOf(w.ctx.uri), i)
  {
    TryAnswered(env, mode, off, w);
    RetriedIndex(env, mode, Try(env, mode, off, w));
  }

  /** Attempt i resumes right behind the route that answered attempt i - 1, and never again at or before it. */
  ghost predicate Resumes(env: Env, run: seq<Attempt>, i: nat)
    requires 0 < i < |run|
  {
    var a := run[i - 1];
    && 0 <= a.result.routeIndex < |env.table| - a.off
    && run[i].off == a.off + a.result.routeIndex + 1
    && FirstDecider(env.table[a.off..], a.before.ctx.verb, env.lib.pathOf(a.before.ctx.uri), a.result.routeIndex)
    && env.table[a.off + a.result.routeIndex].nextIfNotFound
  }

  lemma ResumesBehind(env: Env, w: World, run: seq<Attempt>, i: nat)
    requires Ready(env) && IsRun(env, FromStart, w, run) && 0 < i < |run|
    ensures Resumes(env, run, i)
  {
    AttemptFields(env, FromStart, w, run, i - 1);
    AttemptFields(env, FromStart, w, run, i);
    RetriedIndex(env, FromStart, run[i - 1]);
  }

  lemma {:induction false} OffsetsGrow(env: Env, w: World, run: seq<Attempt>, i: nat)
    requires Ready(env) && IsRun(env, FromStart, w, run) && i < |run|
    ensures i <= run[i].off <= |env.table|
  {
    if i == 0 {
      AttemptFields(env, FromStart, w, run, 0);
    } else {
      OffsetsGrow(env, w, run, i - 1);
      ResumesBehind(env, w, run, i);
    }
  }

  /** Counted from the table's start, the loop moves forward through the table and makes at most one attempt more than there are routes. */
  lemma FromStartTerminates(env: Env, w: World, run: seq<Attempt>)
    requires Ready(env) && IsRun(env, FromStart, w, run)
    ensures forall i :: 0 < i < |run| ==> Resumes(env, run, i)
    ensures |run| <= |env.table| + 1
  {
    forall i | 0 < i < |run|
      ensures Resumes(env, run, i)
    {
      ResumesBehind(env, w, run, i);
    }
    if run != [] {
      OffsetsGrow(env, w, run, |run| - 1);
    }
  }

  /** The nextIfNotFound flags of a table. */
  function Flags(table: seq<Route>): seq<bool> {
    seq(|table|, i requires 0 <= i < |table| => table[i].nextIfNotFound)
  }

  /** No route of the first half of the table passes 404 answers on. */
  predicate OnlyLateFlags(flags: seq<bool>) {
    forall k :: 0 <= k < |flags| && flags[k] ==> |flags| <= 2 * k + 1
  }

  /** A retry as the code is written: the flag looked at is the one at the index counted from off. */
  lemma AsWrittenRetry(env: Env, off: nat, w: World)
    requires Ready(env) && Retries(env, Try(env, AsWritten, off, w))
    ensures var i := Try(env, AsWritten, off, w).index; i < |env.table| - off && Flags(env.table)[i]
  {
    RetryIndex(env, AsWritten, off, w);
  }

  lemma AsWrittenStopsAfterTwo(env: Env, w: World, run: seq<Attempt>)
    requires Ready(env) && OnlyLateFlags(Flags(env.table)) && IsRun(env, AsWritten, w, run)
    ensures |run| <= 2
  {
    if |run| > 2 {
      assert Follows(env, AsWritten, w, run, 0) && Follows(env, AsWritten, w, run, 1) && Follows(env, AsWritten, w, run, 2);
      AsWrittenRetry(env, 0, w);
      AsWrittenRetry(env, run[1].off, run[1].before);
    }
  }

  /** Only routes k and 2k + 1 match, and they answer 404. */
  function LoopRoute(i: nat, k: nat, flag: bool): Route {
    Route([], [], "", false, "h", 0, "", if i == k || i == 2 * k + 1 then MatchPrefix("/") else MatchEqual("-"), flag)
  }

  function LoopEnv(lib: Lib, flags: seq<bool>, k: nat): Env {
    Env(seq(|flags|, i requires 0 <= i < |flags| => LoopRoute(i, k, flags[i])), map[],
        map["h" := (c: Ctx) => c.(response := FRESH.(status := STATUS_NOT_FOUND))],
        Setup(map[], None, _ => ""), lib)
  }

  /** The first d routes do not match and the next one answers by its handler alone. */
  lemma {:induction false} FirstMatchAnswers(table: seq<Route>, i: nat, d: nat, verb: Bytes, path: Bytes)
    requires d < |table| && forall j :: 0 <= j < d ==> !table[j].Match(verb, path)
    requires table[d].Match(verb, path)
    requires table[d].filters == [] && table[d].rewriteUri == "" && table[d].matcher.MatchPrefix?
    requires table[d].statusCode == 0 && table[d].statusMessage == "" && table[d].handler != ""
    ensures Resolve(table, i, verb, EMPTY, path) == Decided(EMPTY.(handler := table[d].handler, routeIndex := i + d))
  {
    if d == 0 {
      assert AppendNew([], table[0].filters) == [];
    } else {
      FirstMatchAnswers(table[1..], i + 1, d - 1, verb, path);
    }
  }

  lemma LoopEnvReady(lib: Lib, flags: seq<bool>, k: nat)
    ensures Ready(LoopEnv(lib, flags, k)) && Flags(LoopEnv(lib, flags, k).table) == flags
  {
  }

  /** The request for "/" with a fresh response. */
  function LoopStart(): World {
    World(seq(200, _ => None), Ctx("GET", "/", map[], FRESH))
  }

  /** The same for a whole lookup, by positions in the table. */
  lemma FirstMatchRoute(table: seq<Route>, off: nat, d: nat, verb: Bytes, path: Bytes)
    requires off + d < |table| && forall j :: off <= j < off + d ==> !table[j].Match(verb, path)
    requires table[off + d].Match(verb, path)
    requires table[off + d].filters == [] && table[off + d].rewriteUri == "" && table[off + d].matcher.MatchPrefix?
    requires table[off + d].statusCode == 0 && table[off + d].statusMessage == "" && table[off + d].handler != ""
    ensures RouteValue(table, verb, path, off) == EMPTY.(handler := table[off + d].handler, routeIndex := d)
  {
    var rest := table[off..];
    assert forall j :: 0 <= j < |rest| ==> rest[j] == table[off + j];
    FirstMatchAnswers(rest, 0, d, verb, path);
  }

  lemma LoopAnswer(lib: Lib, flags: seq<bool>, k: nat, off: nat)
    requires Real(lib) && 2 * k + 2 <= |flags| && (off == 0 || off == k + 1)
    ensures RouteValue(LoopEnv(lib, flags, k).table, "GET", lib.pathOf("/"), off) == EMPTY.(handler := "h", routeIndex := k)
  {
    var table := LoopEnv(lib, flags, k).table;
    assert table[off + k] == LoopRoute(off + k, k, flags[off + k]);
    assert HasPrefix(lib.pathOf("/"), "/") && lib.pathOf("/")[0] == '/' && "-"[0] == '-';
    assert forall j :: off <= j < off + k ==> table[j] == LoopRoute(j, k, flags[j]);
    FirstMatchRoute(table, off, k, "GET", lib.pathOf("/"));
  }

  lemma LoopAttempt(lib: Lib, flags: seq<bool>, k: nat, off: nat)
    requires Real(lib) && 2 * k + 2 <= |flags| && flags[k] && (off == 0 || off == k + 1)
    requires Ready(LoopEnv(lib, flags, k))
    ensures var env := LoopEnv(lib, flags, k);
            var a := Try(env, AsWritten, off, LoopStart());
            Retries(env, a) && a.index == k && Again(a.after) == LoopStart()
  {
    LoopAnswer(lib, flags, k, off);
  }

  /** A run of any length n whose attempts all start over behind route k. */
  function LoopRun(lib: Lib, flags: seq<bool>, k: nat, n: nat): seq<Attempt>
    requires Ready(LoopEnv(lib, flags, k))
  {
    seq(n, i => Try(LoopEnv(lib, flags, k), AsWritten, if i == 0 then 0 else k + 1, LoopStart()))
  }

  lemma AsWrittenMayRepeat(lib: Lib, flags: seq<bool>, k: nat, n: nat)
    requires Real(lib) && 2 * k + 2 <= |flags| && flags[k]
    ensures var env := LoopEnv(lib, flags, k);
            && Ready(env) && Flags(env.table) == flags
            && IsRun(env, AsWritten, LoopStart(), LoopRun(lib, flags, k, n))
  {
    LoopEnvReady(lib, flags, k);
    LoopAttempt(lib, flags, k, 0);
    LoopAttempt(lib, flags, k, k + 1);
  }

  ghost predicate HasRun(env: Env, mode: Indexing, w: World, n: nat)
    requires Ready(env)
  {
    exists run :: IsRun(env, mode, w, run) && |run| == n
  }

  /**
   * With any library, for tables with these flags the bound of two attempts, for every request, holds exactly when no flag is in the first
   * half; otherwise one of these tables has handlers and a request for which the loop never ends.
   */
  lemma FlagsBoundAsWritten(lib: Lib, flags: seq<bool>)
    requires Real(lib)
    ensures OnlyLateFlags(flags) <==>
            forall env: Env, w: World, run: seq<Attempt> ::
              Ready(env) && env.lib == lib && Flags(env.table) == flags && IsRun(env, AsWritten, w, run) ==> |run| <= 2
    ensures !OnlyLateFlags(flags) ==>
            exists k :: 0 <= k < |flags| && Ready(LoopEnv(lib, flags, k)) && Flags(LoopEnv(lib, flags, k).table) == flags
                        && forall n: nat :: HasRun(LoopEnv(lib, flags, k), AsWritten, LoopStart(), n)
  {
    forall env: Env, w: World, run: seq<Attempt> |
      OnlyLateFlags(flags) && Ready(env) && env.lib == lib && Flags(env.table) == flags && IsRun(env, AsWritten, w, run)
      ensures |run| <= 2
    {
      AsWrittenStopsAfterTwo(env, w, run);
    }
    if !OnlyLateFlags(flags) {
      var k :| 0 <= k < |flags| && flags[k] && !(|flags| <= 2 * k + 1);
      var env := LoopEnv(lib, flags, k);
      LoopEnvReady(lib, flags, k);
      forall n: nat
        ensures HasRun(env, AsWritten, LoopStart(), n)
      {
        AsWrittenMayRepeat(lib, flags, k, n);
      }
      AsWrittenMayRepeat(lib, flags, k, 3);
    }
  }

  // ----- Safety of whole runs -----

  /** Every filter of the result has been asked and has accepted, in order. */
  ghost predicate AllAccepted(a: Attempt) {
    && |a.result.filters| <= |a.events|
    && forall i :: 0 <= i < |a.result.filters| ==> a.events[i] == FilterAsked(a.result.filters[i], true)
  }

  /** The route at off + routeIndex answered, in all fields; the filters are those of all routes matched up to it. */
  ghost predicate AnsweredByRoute(env: Env, a: Attempt) {
    var i, verb, path := a.result.routeIndex, a.before.ctx.verb, env.lib.pathOf(a.before.ctx.uri);
    && a.off < |env.table| && 0 <= i < |env.table| - a.off
    && FirstDecider(env.table[a.off..], verb, path, i)
    && AnswersAt(env.table[a.off..], verb, path, i, a.result)
  }

  /** Some filter refused and left the status 404. */
  predicate RefusedWith404(env: Env, a: Attempt)
    requires AllIn(a.result.filters, env.filters)
  {
    var v := AskFilters(env, a.result.filters, Rewritten(env, a.result, a.before.ctx));
    !v.ok && v.ctx.response.status == STATUS_NOT_FOUND
  }

  lemma AttemptAnswered(env: Env, mode: Indexing, a: Attempt)
    requires Answered(env, mode, a) && a.result.statusCode != STATUS_NOT_FOUND
    ensures AnsweredByRoute(env, a) && a.result.handler == env.table[a.off + a.result.routeIndex].handler
  {
    var i, verb, path := a.result.routeIndex, a.before.ctx.verb, env.lib.pathOf(a.before.ctx.uri);
    AnswerIndex(env.table, verb, path, a.off);
  }

  lemma PagesKeepStatus(env: Env, w: World)
    ensures ApplyPages(env, w).ctx.response.status == w.ctx.response.status
    ensures ApplyPages(env, w).ctx == w.ctx.(response := ApplyPages(env, w).ctx.response)
  {
  }

  /** After a refusal the loop goes round again exactly when the filter left 404 and the route passes 404 answers on. */
  lemma RefusalRetried(env: Env, mode: Indexing, off: nat, w: World)
    requires Ready(env)
    ensures var a := Try(env, mode, off, w);
            && AllIn(a.result.filters, env.filters)
            && (RefusedWith404(env, a) ==> !AllAccepted(a))
            && (!AllAccepted(a) ==>
                  (Retries(env, a) <==> RefusedWith404(env, a) && a.result.statusCode != STATUS_NOT_FOUND
                                        && IsNextIfNotFound(env.table, a.index)))
  {
    var a := Try(env, mode, off, w);
    var c := Rewritten(env, a.result, w.ctx);
    AnswerResolvable(env, w.ctx.verb, env.lib.pathOf(w.ctx.uri), off);
    var v := AskFilters(env, a.result.filters, c);
    AskFiltersInOrder(env, a.result.filters, c);
    if !v.ok {
      PagesKeepStatus(env, w.(ctx := v.ctx));
      assert a.events[|v.events| - 1] == v.events[|v.events| - 1];
    } else {
      assert a.events[..|v.events|] == v.events;
    }
  }

  /** Where a handler is called within an attempt. */
  lemma HandlerPosition(env: Env, mode: Indexing, off: nat, w: World, p: nat)
    requires Ready(env) && p < |Try(env, mode, off, w).events| && Try(env, mode, off, w).events[p].HandlerCalled?
    ensures var a := Try(env, mode, off, w);
            && AllAccepted(a) && p == |a.result.filters| && a.events[p] == HandlerCalled(a.result.handler)
            && a.result.statusCode <= 0
  {
    var a := Try(env, mode, off, w);
    AnswerResolvable(env, w.ctx.verb, env.lib.pathOf(w.ctx.uri), off);
    EventsInOrder(env, a.result, w);
    AskFiltersInOrder(env, a.result.filters, Rewritten(env, a.result, w.ctx));
  }

  /**
   * A handler is called only by a route that answered, and only after every filter of every route matched in that
   * attempt has accepted, in order. The same holds of all attempts before it exactly when none of them was refused by a
   * filter that left the status 404.
   */
  lemma HandlersAreGuarded(env: Env, mode: Indexing, w: World, run: seq<Attempt>, n: nat, p: nat)
    requires Ready(env) && IsRun(env, mode, w, run) && n < |run|
    requires p < |run[n].events| && run[n].events[p].HandlerCalled?
    ensures AllAccepted(run[n]) && AnsweredByRoute(env, run[n]) && p == |run[n].result.filters|
    ensures run[n].events[p].name == env.table[run[n].off + run[n].result.routeIndex].handler
    ensures forall j :: 0 <= j < n ==> AllIn(run[j].result.filters, env.filters) && AnsweredByRoute(env, run[j])
    ensures (forall j :: 0 <= j < n ==> AllAccepted(run[j])) <==> (forall j :: 0 <= j < n ==> !RefusedWith404(env, run[j]))
  {
    HandlerAttempt(env, mode, w, run, n, p);
    forall j | 0 <= j < n
      ensures AllIn(run[j].result.filters, env.filters) && AnsweredByRoute(env, run[j])
      ensures AllAccepted(run[j]) <==> !RefusedWith404(env, run[j])
    {
      RetriedAttempt(env, mode, w, run, j);
    }
  }

  /** Every attempt of a run is what the loop does with its offset and world. */
  lemma AttemptIsTry(env: Env, mode: Indexing, w: World, run: seq<Attempt>, n: nat)
    requires Ready(env) && IsRun(env, mode, w, run) && n < |run|
    ensures run[n] == Try(env, mode, run[n].off, run[n].before)
  {
    assert Follows(env, mode, w, run, n);
  }

  lemma HandlerAttempt(env: Env, mode: Indexing, w: World, run: seq<Attempt>, n: nat, p: nat)
    requires Ready(env) && IsRun(env, mode, w, run) && n < |run|
    requires p < |run[n].events| && run[n].events[p].HandlerCalled?
    ensures AllAccepted(run[n]) && AnsweredByRoute(env, run[n]) && p == |run[n].result.filters|
    ensures run[n].events[p].name == env.table[run[n].off + run[n].result.routeIndex].handler
  {
    AttemptIsTry(env, mode, w, run, n);
    var a := run[n];
    HandlerPosition(env, mode, a.off, a.before, p);
    AttemptFields(env, mode, w, run, n);
    AttemptAnswered(env, mode, a);
  }

  lemma RetriedAttempt(env: Env, mode: Indexing, w: World, run: seq<Attempt>, j: nat)
    requires Ready(env) && IsRun(env, mode, w, run) && j < |run| - 1
    ensures AllIn(run[j].result.filters, env.filters) && AnsweredByRoute(env, run[j])
    ensures AllAccepted(run[j]) <==> !RefusedWith404(env, run[j])
  {
    AttemptIsTry(env, mode, w, run, j);
    AttemptFields(env, mode, w, run, j);
    AttemptFields(env, mode, w, run, j + 1);
    RefusalRetried(env, mode, run[j].off, run[j].before);
    AttemptAnswered(env, mode, run[j]);
  }

  /** The filter refuses this context and leaves it with status 404. */
  predicate RefusesWith404(f: Filter, c: Ctx) {
    !f.request(c).1 && f.request(c).0.response.status == STATUS_NOT_FOUND
  }

  /** No filter can refuse with 404. */
  ghost predicate Polite(filters: map<string, Filter>) {
    forall name: string, c: Ctx :: name in filters ==> !RefusesWith404(filters[name], c)
  }

  lemma {:induction false} PoliteRefusal(env: Env, names: seq<string>, c: Ctx)
    requires Polite(env.filters) && AllIn(names, env.filters)
    ensures var v := AskFilters(env, names, c); v.ok || v.ctx.response.status != STATUS_NOT_FOUND
  {
    if names != [] {
      var (c', ok) := env.filters[names[0]].request(c);
      assert !RefusesWith404(env.filters[names[0]], c);
      if ok {
        PoliteRefusal(env, names[1..], c');
      }
    }
  }

  /** With filters that never refuse with 404, every filter of every attempt up to a handler call has accepted. */
  lemma PoliteFiltersGuard(env: Env, mode: Indexing, w: World, run: seq<Attempt>, n: nat, p: nat)
    requires Ready(env) && Polite(env.filters) && IsRun(env, mode, w, run) && n < |run|
    requires p < |run[n].events| && run[n].events[p].HandlerCalled?
    ensures forall j :: 0 <= j <= n ==> AllAccepted(run[j]) && AnsweredByRoute(env, run[j])
  {
    HandlersAreGuarded(env, mode, w, run, n, p);
    forall j | 0 <= j < n
      ensures !RefusedWith404(env, run[j])
    {
      PoliteRefusal(env, run[j].result.filters, Rewritten(env, run[j].result, run[j].before.ctx));
    }
  }

  /** A route with the given filter, and a second one behind it without. */
  function SecondChance(lib: Lib, filters: map<string, Filter>, name: string): Env {
    Env([Route([], [name], "", false, "h", 0, "", MatchPrefix("/"), true), Route([], [], "", false, "h", 0, "", MatchPrefix("/"), false)],
        filters, map["h" := (c: Ctx) => c], Setup(map[], None, _ => ""), lib)
  }

  lemma SecondChanceAnswers(lib: Lib, filters: map<string, Filter>, name: string, verb: Bytes, path: Bytes)
    requires HasPrefix(path, "/")
    ensures RouteValue(SecondChance(lib, filters, name).table, verb, path, 0) == EMPTY.(filters := [name], handler := "h")
    ensures RouteValue(SecondChance(lib, filters, name).table, verb, path, 1) == EMPTY.(handler := "h")
  {
    assert AppendNew([], [name]) == [name];
    FirstMatchAnswers(SecondChance(lib, filters, name).table[1..], 0, 0, verb, path);
  }

  /** The two attempts of a request that the filter refuses with 404. */
  function SecondChanceRun(lib: Lib, filters: map<string, Filter>, name: string, mode: Indexing, w: World): seq<Attempt>
    requires Ready(SecondChance(lib, filters, name))
  {
    var first := Try(SecondChance(lib, filters, name), mode, 0, w);
    [first, Try(SecondChance(lib, filters, name), mode, 1, Again(first.after))]
  }

  lemma SecondChanceRefuses(lib: Lib, filters: map<string, Filter>, name: string, mode: Indexing, w: World)
    requires Real(lib) && name in filters && RefusesWith404(filters[name], w.ctx) && Ready(SecondChance(lib, filters, name))
    ensures var env := SecondChance(lib, filters, name);
            var a := Try(env, mode, 0, w);
            Retries(env, a) && a.index == 0 && a.events == [FilterAsked(name, false), PagesApplied]
  {
    var env := SecondChance(lib, filters, name);
    SecondChanceAnswers(lib, filters, name, w.ctx.verb, lib.pathOf(w.ctx.uri));
    var v := AskFilters(env, [name], w.ctx);
    assert v.events == [FilterAsked(name, false)] && !v.ok;
    PagesKeepStatus(env, w.(ctx := v.ctx));
  }

  lemma SecondChanceHandles(lib: Lib, filters: map<string, Filter>, name: string, mode: Indexing, w: World)
    requires Real(lib) && Ready(SecondChance(lib, filters, name))
    ensures var a := Try(SecondChance(lib, filters, name), mode, 1, w); a.events != [] && a.events[0] == HandlerCalled("h")
  {
    SecondChanceAnswers(lib, filters, name, w.ctx.verb, lib.pathOf(w.ctx.uri));
    assert AskFilters(SecondChance(lib, filters, name), [], w.ctx).events == [];
  }

  /**
   * The condition is needed for every filter: when one refuses some context with 404, that is taken for a missing page,
   * and a later route's handler is called.
   */
  lemma RefusedThenHandled(lib: Lib, filters: map<string, Filter>, name: string, mode: Indexing, w: World)
    requires Real(lib) && name in filters && RefusesWith404(filters[name], w.ctx)
    ensures var env := SecondChance(lib, filters, name);
            && Ready(env)
            && var run := SecondChanceRun(lib, filters, name, mode, w);
            && IsRun(env, mode, w, run)
            && run[0].events == [FilterAsked(name, false), PagesApplied]
            && run[1].events != [] && run[1].events[0] == HandlerCalled("h")
  {
    var env := SecondChance(lib, filters, name);
    assert Ready(env);
    SecondChanceRefuses(lib, filters, name, mode, w);
    var run := SecondChanceRun(lib, filters, name, mode, w);
    SecondChanceHandles(lib, filters, name, mode, Again(run[0].after));
    assert Follows(env, mode, w, run, 0) && Follows(env, mode, w, run, 1);
  }

  /** No handler is called in a run before every filter of every attempt so far has accepted. */
  ghost predicate Guarded(run: seq<Attempt>) {
    forall n, p :: 0 <= n < |run| && 0 <= p < |run[n].events| && run[n].events[p].HandlerCalled? ==> AcceptedUpTo(run, n)
  }

  ghost predicate AcceptedUpTo(run: seq<Attempt>, n: nat)
    requires n < |run|
  {
    forall j :: 0 <= j <= n ==> AllAccepted(run[j])
  }

  /**
   * With any library, a set of filters guards the handlers in every table, for every request, if and only if none of
   * them can refuse with 404.
   */
  lemma GuardedExactly(lib: Lib, filters: map<string, Filter>, mode: Indexing)
    requires Real(lib)
    ensures (forall env: Env, w: World, run: seq<Attempt> ::
               Ready(env) && env.lib == lib && env.filters == filters && IsRun(env, mode, w, run) ==> Guarded(run))
            <==> Polite(filters)
  {
    if Polite(filters) {
      forall env: Env, w: World, run: seq<Attempt>, n: nat, p: nat |
        Ready(env) && env.lib == lib && env.filters == filters && IsRun(env, mode, w, run)
        && n < |run| && p < |run[n].events| && run[n].events[p].HandlerCalled?
        ensures AcceptedUpTo(run, n)
      {
        PoliteFiltersGuard(env, mode, w, run, n, p);
      }
    } else {
      var name: string, c: Ctx :| name in filters && RefusesWith404(filters[name], c);
      var w := World(seq(200, _ => None), c);
      RefusedThenHandled(lib, filters, name, mode, w);
      ImpoliteRunUnguarded(lib, filters, name, mode, w);
    }
  }

  lemma ImpoliteRunUnguarded(lib: Lib, filters: map<string, Filter>, name: string, mode: Indexing, w: World)
    requires Real(lib) && Ready(SecondChance(lib, filters, name))
    requires var run := SecondChanceRun(lib, filters, name, mode, w);
             && run[0].events == [FilterAsked(name, false), PagesApplied]
             && run[1].events != [] && run[1].events[0] == HandlerCalled("h")
    ensures !Guarded(SecondChanceRun(lib, filters, name, mode, w))
  {
    var run := SecondChanceRun(lib, filters, name, mode, w);
    SecondChanceAnswers(lib, filters, name, w.ctx.verb, lib.pathOf(w.ctx.uri));
    assert run[0].result.filters == [name];
    assert !AllAccepted(run[0]);
    assert run[1].events[0].HandlerCalled? && !AcceptedUpTo(run, 1);
  }

  /** The names always resolve and the last branch of handleRouteResult is never reached. */
  lemma NeverNotActionable(env: Env, mode: Indexing, off: nat, w: World)
    requires Ready(env)
    ensures Resolvable(env, Try(env, mode, off, w).result)
    ensures NotActionable !in Try(env, mode, off, w).events
  {
    var a := Try(env, mode, off, w);
    AnswerResolvable(env, w.ctx.verb, env.lib.pathOf(w.ctx.uri), off);
    EventsInOrder(env, a.result, w);
    AskFiltersInOrder(env, a.result.filters, Rewritten(env, a.result, w.ctx));
  }
}
