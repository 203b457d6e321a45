/** Which context every filter and handler gets and what becomes of it (pkg/handler/server.go). */
module RequestLaws {
  import opened Prelude
  import opened Results
  import opened Routing
  import opened Http
  import opened ErrorPage
  import opened Server

  /** The URI with the query string when that is asked for, behind a question mark unless there is one already. */
  ghost predicate Addressed(r: ResultValue, target: Bytes, query: Bytes, uri: Bytes) {
    && (!r.appendQueryString ==> uri == target)
    && (r.appendQueryString && (exists i :: 0 <= i < |target| && target[i] == '?') ==> uri == target + "&" + query)
    && (r.appendQueryString && (forall i :: 0 <= i < |target| ==> target[i] != '?') ==> uri == target + "?" + query)
  }

  /** The request as filters and handlers see it: under the URI it is rewritten to, if any, and otherwise unchanged. */
  ghost predicate Reaches(lib: Lib, r: ResultValue, before: Ctx, c: Ctx) {
    && c == before.(uri := c.uri)
    && if r.rewriteUri == "" then c.uri == before.uri else Addressed(r, r.rewriteUri, lib.queryOf(before.uri), c.uri)
  }

  function Side(f: Filter, request: bool): Ctx -> (Ctx, bool) {
    if request then f.request else f.response
  }

  /**
   * The contexts between the filters: each filter gets what the one before it has left. All of them have said yes, or the
   * last one asked has said no.
   */
  ghost predicate Threads(env: Env, names: seq<string>, request: bool, cs: seq<Ctx>, ok: bool)
    requires AllIn(names, env.filters)
  {
    && 1 <= |cs| <= |names| + 1
    && (if ok then |cs| == |names| + 1 else |cs| >= 2)
    && forall i :: 0 <= i < |cs| - 1 ==> Side(env.filters[names[i]], request)(cs[i]) == (cs[i + 1], ok || i < |cs| - 2)
  }

  lemma ThreadsMore(env: Env, names: seq<string>, request: bool, c: Ctx, cs: seq<Ctx>, ok: bool)
    requires AllIn(names, env.filters) && names != [] && Threads(env, names[1..], request, cs, ok)
    requires Side(env.filters[names[0]], request)(c) == (cs[0], true)
    ensures Threads(env, names, request, [c] + cs, ok)
  {
    var more := [c] + cs;
    forall i | 0 <= i < |more| - 1
      ensures Side(env.filters[names[i]], request)(more[i]) == (more[i + 1], ok || i < |more| - 2)
    {
      if i > 0 {
        assert names[i] == names[1..][i - 1] && more[i] == cs[i - 1] && more[i + 1] == cs[i];
      }
    }
  }

  lemma {:induction false} AskThreads(env: Env, names: seq<string>, c: Ctx) returns (cs: seq<Ctx>)
    requires AllIn(names, env.filters)
    ensures var v := AskFilters(env, names, c); Threads(env, names, true, cs, v.ok) && cs[0] == c && cs[|cs| - 1] == v.ctx
  {
    cs := [c];
    if names != [] {
      var (c', ok) := env.filters[names[0]].request(c);
      if ok {
        cs := AskThreads(env, names[1..], c');
        ThreadsMore(env, names, true, c, cs, AskFilters(env, names[1..], c').ok);
        cs := [c] + cs;
      } else {
        cs := [c, c'];
      }
    }
  }

  lemma {:induction false} AnswerThreads(env: Env, names: seq<string>, c: Ctx) returns (cs: seq<Ctx>)
    requires AllIn(names, env.filters)
    ensures var v := AnswerFilters(env, names, c); Threads(env, names, false, cs, v.ok) && cs[0] == c && cs[|cs| - 1] == v.ctx
  {
    cs := [c];
    if names != [] {
      var (c', ok) := env.filters[names[0]].response(c);
      if ok {
        cs := AnswerThreads(env, names[1..], c');
        ThreadsMore(env, names, false, c, cs, AnswerFilters(env, names[1..], c').ok);
        cs := [c] + cs;
      } else {
        cs := [c, c'];
      }
    }
  }

  lemma AddressedIs(env: Env, r: ResultValue, target: Bytes, c: Ctx)
    requires target != ""
    ensures WithQuery(env, r, target, c) != "" && Addressed(r, target, env.lib.queryOf(c.uri), WithQuery(env, r, target, c))
  {
  }

  lemma RewrittenReaches(env: Env, r: ResultValue, c: Ctx)
    ensures Reaches(env.lib, r, c, Rewritten(env, r, c))
  {
    if r.rewriteUri != "" {
      AddressedIs(env, r, r.rewriteUri, c);
    }
  }

  /** The error pages have looked at the context. */
  ghost predicate Paged(env: Env, pages: Pages, c: Ctx, out: World) {
    (out.pages, out.ctx.response) == HandleStep(env.errors, pages, c) && out.ctx == c.(response := out.ctx.response)
  }

  /** What an accepted request comes to: the client is sent to the redirect's URI. */
  ghost predicate SentTo(env: Env, r: ResultValue, w: World, c: Ctx, out: World) {
    exists uri :: Addressed(r, r.redirectUri, env.lib.queryOf(c.uri), uri) && out == World(w.pages, env.lib.redirect(c, uri, r.statusCode))
  }

  /** ... or the status is set on an empty response, or else the handler gets the context. */
  ghost predicate Acted(env: Env, r: ResultValue, c: Ctx, acted: Ctx)
    requires Resolvable(env, r)
  {
    && (r.statusCode > 0 ==> acted == Ctx(c.verb, c.uri, c.headers, Response(r.statusCode, r.statusMessage, "", "")))
    && (r.statusCode <= 0 && r.handler != "" ==> acted == env.handlers[r.handler](c))
  }

  /**
   * The whole course of a routing result. The filters are asked one after the other, the first one with the rewritten
   * request; a refusal leaves the rest to the error pages; otherwise the last filter's context is redirected, or acted
   * upon, shown to the error pages and handed through the filters' response sides.
   */
  lemma HandleMeaning(env: Env, r: ResultValue, w: World)
    returns (asked: seq<Ctx>, accepted: bool, acted: Ctx, answered: seq<Ctx>, all: bool)
    requires Resolvable(env, r)
    ensures Threads(env, r.filters, true, asked, accepted) && Reaches(env.lib, r, w.ctx, asked[0])
    ensures var out, c := HandleResult(env, r, w).0, asked[|asked| - 1];
            && (!accepted ==> Paged(env, w.pages, c, out))
            && (accepted && r.redirectUri != "" ==> SentTo(env, r, w, c, out))
            && (accepted && r.redirectUri == "" ==>
                  && Acted(env, r, c, acted)
                  && Threads(env, r.filters, false, answered, all)
                  && Paged(env, w.pages, acted, World(out.pages, answered[0]))
                  && out.ctx == answered[|answered| - 1])
  {
    var c0 := Rewritten(env, r, w.ctx);
    RewrittenReaches(env, r, w.ctx);
    var v := AskFilters(env, r.filters, c0);
    asked := AskThreads(env, r.filters, c0);
    accepted := v.ok;
    acted, answered, all := v.ctx, [v.ctx], true;
    if accepted {
      if r.redirectUri != "" {
        AddressedIs(env, r, r.redirectUri, v.ctx);
      } else {
        acted := Act(env, r, v.ctx).0;
        var shown := ApplyPages(env, World(w.pages, acted)).ctx;
        answered := AnswerThreads(env, r.filters, shown);
        all := AnswerFilters(env, r.filters, shown).ok;
      }
    }
  }

  /** For instance a handler that copies the URI it sees into the body shows the rewritten one, with its query string. */
  lemma HandlerSeesRewrite(env: Env, r: ResultValue, w: World)
    requires Resolvable(env, r) && r.filters == [] && r.redirectUri == "" && r.statusCode <= 0 && r.handler != ""
    requires forall c :: env.handlers[r.handler](c).response.body == c.uri && env.handlers[r.handler](c).response.status < 400
    ensures var body, query := HandleResult(env, r, w).0.ctx.response.body, env.lib.queryOf(w.ctx.uri);
            && (r.rewriteUri == "" ==> body == w.ctx.uri)
            && (r.rewriteUri != "" && !r.appendQueryString ==> body == r.rewriteUri)
            && (r.rewriteUri != "" && r.appendQueryString && '?' !in r.rewriteUri ==> body == r.rewriteUri + "?" + query)
            && (r.rewriteUri != "" && r.appendQueryString && '?' in r.rewriteUri ==> body == r.rewriteUri + "&" + query)
  {
    var asked, accepted, acted, answered, all := HandleMeaning(env, r, w);
    assert |asked| == 1 && accepted && |answered| == 1;
    assert acted == env.handlers[r.handler](asked[0]);
  }

  /** A retry starts from the request as the attempt before it has left it, and from an empty response. */
  lemma RetryStartsAfresh(env: Env, mode: Indexing, w: World, run: seq<Attempt>, i: nat)
    requires Ready(env) && IsRun(env, mode, w, run) && 0 < i < |run|
    ensures run[i].before.pages == run[i - 1].after.pages
    ensures var c := run[i - 1].after.ctx;
            c.response.status == 404 && run[i].before.ctx == Ctx(c.verb, c.uri, c.headers, Response(200, "", "", ""))
  {
    assert Follows(env, mode, w, run, i);
  }

  /** The first attempt gets the request as it is, and every attempt routes the URI it finds. */
  lemma AttemptsRoute(env: Env, mode: Indexing, w: World, run: seq<Attempt>, i: nat)
    requires Ready(env) && IsRun(env, mode, w, run) && i < |run|
    ensures i == 0 ==> run[i].before == w && run[i].off == 0
    ensures var c := run[i].before.ctx; run[i].result == RouteValue(env.table, c.verb, env.lib.pathOf(c.uri), run[i].off)
    ensures AllIn(run[i].result.filters, env.filters) && Resolvable(env, run[i].result)
            && run[i].after == HandleResult(env, run[i].result, run[i].before).0
  {
    AttemptFields(env, mode, w, run, i);
    AttemptIsTry(env, mode, w, run, i);
    var c := run[i].before.ctx;
    AnswerResolvable(env, c.verb, env.lib.pathOf(c.uri), run[i].off);
    assert Follows(env, mode, w, run, i);
  }
}
