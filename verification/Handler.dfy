/** The object that handles the requests to a host (pkg/handler/server.go). */
module Handling {
  import opened Prelude
  import opened Results
  import opened Routing
  import opened Http
  import opened ErrorPage
  import opened Server
  import opened RetryWalks
  import L = AccessLogs

  type AccessLog = L.AccessLog

  const ORIGINAL_REQUEST_URI := "Original-Request-URI"

  class HostHandler {
    const env: Env
    const errorPages: ErrorPages
    const accessLog: AccessLog
    /** The log's format asks for the URI before any rewrite. */
    const collectRequestUri: bool
    /** appendLine, as a function of the context. */
    const line: Ctx -> Bytes

    ghost predicate Valid()
      reads this, errorPages, errorPages.errorPaths
    {
      Ready(env) && errorPages.Valid() && errorPages.setup == env.errors
    }

    ghost function WorldOf(ctx: RequestCtx): World
      requires Valid()
      reads this, errorPages, errorPages.errorPaths, ctx
    {
      World(errorPages.errorPaths[..], ctx.v)
    }

    constructor (env: Env, accessLog: AccessLog, collectRequestUri: bool, line: Ctx -> Bytes)
      requires Ready(env)
      ensures Valid() && this.env == env && fresh(errorPages) && fresh(errorPages.errorPaths)
      ensures this.accessLog == accessLog && this.collectRequestUri == collectRequestUri && this.line == line
    {
      this.env, this.accessLog, this.collectRequestUri, this.line := env, accessLog, collectRequestUri, line;
      errorPages := new ErrorPages(env.errors);
    }

    /** handleRouteResult */
    method HandleRouteResult(ctx: RequestCtx, result: ResultValue) returns (events: seq<Event>)
      requires Valid() && Resolvable(env, result)
      modifies ctx, errorPages.errorPaths
      ensures Valid()
      ensures (WorldOf(ctx), events) == HandleResult(env, result, old(WorldOf(ctx)))
    {
      ctx.v := Rewritten(env, result, ctx.v);
      var accepted;
      events, accepted := Ask(ctx, result.filters);
      if !accepted {
        errorPages.Handle(ctx);
        events := events + [PagesApplied];
        return;
      }
      var uri := WithQuery(env, result, result.redirectUri, ctx.v);
      if |uri| > 0 {
        ctx.v := env.lib.redirect(ctx.v, uri, result.statusCode);
        events := events + [Redirected(uri, result.statusCode)];
        return;
      }
      var (c, e) := Act(env, result, ctx.v);
      ctx.v := c;
      errorPages.Handle(ctx);
      var answers := Answer(ctx, result.filters);
      events := events + ([e, PagesApplied] + answers);
    }

    /** The loop over the filters' request side. */
    method Ask(ctx: RequestCtx, names: seq<string>) returns (events: seq<Event>, ok: bool)
      requires AllIn(names, env.filters)
      modifies ctx
      ensures Verdict(ctx.v, events, ok) == AskFilters(env, names, old(ctx.v))
    {
      events := [];
      ghost var c0 := ctx.v;
      for i := 0 to |names|
        invariant AskFilters(env, names, c0) ==
                  var rest := AskFilters(env, names[i..], ctx.v); rest.(events := events + rest.events)
      {
        var (c, accepted) := env.filters[names[i]].request(ctx.v);
        assert names[i..][0] == names[i] && names[i..][1..] == names[i + 1..];
        events := events + [FilterAsked(names[i], accepted)];
        ctx.v := c;
        if !accepted {
          return events, false;
        }
      }
      ok := true;
    }

    /** The loop over the filters' response side. */
    method Answer(ctx: RequestCtx, names: seq<string>) returns (events: seq<Event>)
      requires AllIn(names, env.filters)
      modifies ctx
      ensures ctx.v == AnswerFilters(env, names, old(ctx.v)).ctx && events == AnswerFilters(env, names, old(ctx.v)).events
    {
      events := [];
      ghost var c0 := ctx.v;
      for i := 0 to |names|
        invariant AnswerFilters(env, names, c0) ==
                  var rest := AnswerFilters(env, names[i..], ctx.v); rest.(events := events + rest.events)
      {
        var (c, goOn) := env.filters[names[i]].response(ctx.v);
        assert names[i..][0] == names[i] && names[i..][1..] == names[i + 1..];
        events := events + [FilterAnswered(names[i], goOn)];
        ctx.v := c;
        if !goOn {
          break;
        }
      }
    }

    /** One turn of the loop in Handle: the attempt, the index it puts into off, and whether the loop goes round again. */
    method Turn(ctx: RequestCtx, mode: Indexing, off: nat) returns (ghost a: Attempt, index: nat, again: bool)
      requires Valid()
      modifies ctx, errorPages.errorPaths
      ensures Valid()
      ensures a == Try(env, mode, off, old(WorldOf(ctx)))
      ensures index == a.index && WorldOf(ctx) == a.after && again == Retries(env, a)
    {
      ghost var w := WorldOf(ctx);
      var path := env.lib.pathOf(ctx.v.uri);
      AnswerResolvable(env, ctx.v.verb, path, off);
      IndexIsPosition(env.table, ctx.v.verb, path, off);
      var result := RouteValue(env.table, ctx.v.verb, path, off);
      ghost var events := HandleRouteResult(ctx, result);
      index := if mode.AsWritten? then result.routeIndex else off + result.routeIndex;
      a := Attempt(off, w, result, WorldOf(ctx), events, index);
      again := result.statusCode != STATUS_NOT_FOUND && ctx.v.response.status == STATUS_NOT_FOUND
               && IsNextIfNotFound(env.table, index);
    }

    /**
     * The loop of Handle, for at most limit turns, as it may not end by itself: the attempts are a run of the request,
     * and either the loop has ended with the last one or the limit is used up.
     */
    method Loop(ctx: RequestCtx, mode: Indexing, limit: nat) returns (ghost run: seq<Attempt>, ended: bool)
      requires Valid()
      modifies ctx, errorPages.errorPaths
      ensures Valid()
      ensures IsRun(env, mode, old(WorldOf(ctx)), run)
      ensures ended ==> run != [] && !Retries(env, run[|run| - 1]) && WorldOf(ctx) == run[|run| - 1].after
      ensures !ended ==> |run| == limit && (run != [] ==> Retries(env, run[|run| - 1]))
    {
      var off: nat, turns: nat := 0, 0;
      run, ended := [], false;
      ghost var w0 := WorldOf(ctx);
      while turns < limit
        invariant Valid() && turns <= limit && |run| == turns && GoesOnAt(env, mode, w0, run, off, WorldOf(ctx))
      {
        RunGoesOn(env, mode, w0, run, off, WorldOf(ctx));
        ghost var a;
        var again;
        a, off, again := Turn(ctx, mode, off);
        run, turns := run + [a], turns + 1;
        if !again {
          return run, true;
        }
        ctx.v := ctx.v.(response := FRESH);
        off := off + 1;
      }
    }

    /** What Collect does to the request. */
    function Collected(c: Ctx): Ctx
      reads accessLog
    {
      if collectRequestUri && !accessLog.closed then c.(headers := c.headers[ORIGINAL_REQUEST_URI := c.uri]) else c
    }

    /**
     * Handle, with a limit on the turns of its loop: the request's URI is collected, the loop runs, and when it has ended
     * one line about the final context is logged. As many turns as Enough says always end it.
     */
    method Handle(ctx: RequestCtx, mode: Indexing, limit: nat) returns (ghost run: seq<Attempt>, ended: bool)
      requires Valid() && accessLog.Ready()
      modifies ctx, errorPages.errorPaths, accessLog`n, accessLog.buf, accessLog.sink`current
      ensures Valid() && accessLog.Ready()
      ensures IsRun(env, mode, old(WorldOf(ctx).(ctx := Collected(ctx.v))), run)
      ensures run != [] ==>
                var c := old(ctx.v);
                run[0].before.ctx == if collectRequestUri && !old(accessLog.closed)
                                     then Ctx(c.verb, c.uri, c.headers["Original-Request-URI" := c.uri], c.response) else c
      ensures ended ==> run != [] && !Retries(env, run[|run| - 1]) && WorldOf(ctx) == run[|run| - 1].after
      ensures !ended ==> |run| == limit && (run != [] ==> Retries(env, run[|run| - 1]))
      ensures accessLog.State() == if ended then L.Apply(old(accessLog.State()), L.Log(line(ctx.v))) else old(accessLog.State())
      ensures (mode.FromStart? || Real(env.lib)) && Enough(env.lib, env.table, mode, limit) ==> ended
    {
      ctx.v := Collected(ctx.v);
      ghost var w0 := WorldOf(ctx);
      run, ended := Loop(ctx, mode, limit);
      if run != [] {
        FirstAttempt(env, mode, w0, run);
      }
      if (mode.FromStart? || Real(env.lib)) && Enough(env.lib, env.table, mode, limit) && !ended {
        NoRetryAfterEnough(env, mode, w0, run);
      }
      if ended {
        accessLog.Log(line(ctx.v));
      }
    }
  }
}
