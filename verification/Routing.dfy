/** Route resolution (pkg/route/route.go). */
module Routing {
  import opened Prelude
  import opened Results
  import opened StringSets
  import opened Uris

  /** A compiled pattern: matching and replacing are given functions of the path. */
  datatype Regexp = Regexp(matches: Bytes -> bool, replaceAll: (Bytes, Bytes) -> Bytes)

  datatype Matcher = MatchEqual(path: Bytes) | MatchPrefix(prefix: Bytes) | MatchRegexp(pattern: Regexp)

  datatype Route = Route(
    verbs: seq<Bytes>,
    filters: seq<string>,
    rewriteUri: Bytes,
    rewriteAppendQueryString: bool,
    handler: string,
    statusCode: int,
    statusMessage: Bytes,
    matcher: Matcher,
    nextIfNotFound: bool)
  {
    predicate Match(verb: Bytes, path: Bytes) {
      (verbs == [] || verb in verbs) &&
      match matcher
      case MatchEqual(eq) => path == eq
      case MatchPrefix(prefix) => HasPrefix(path, prefix)
      case MatchRegexp(re) => re.matches(path)
    }

    function Rewrite(path: Bytes): Bytes {
      if |rewriteUri| > 0 && matcher.MatchRegexp? then matcher.pattern.replaceAll(path, rewriteUri) else rewriteUri
    }

    /** The rewritten URI leaves this server. */
    predicate Redirects(path: Bytes) {
      |Rewrite(path)| > 0 && (IsHttpOrHttps(Rewrite(path)) || IsHttpStatusRedirect(statusCode))
    }
  }

  const STATUS_NOT_FOUND: int := 404

  // ----- The loop of Routes.Route as a fold -----

  datatype Step = Decided(r: ResultValue) | Undecided(r: ResultValue, path: Bytes)

  /** One iteration: route rt at position i is tried on path, with the result filled so far. */
  function Examine(rt: Route, i: nat, verb: Bytes, r: ResultValue, path: Bytes): Step {
    if !rt.Match(verb, path) then Undecided(r, path)
    else
      var r1 := r.(filters := AppendNew(r.filters, rt.filters), routeIndex := i, statusCode := rt.statusCode,
                   statusMessage := rt.statusMessage, handler := rt.handler);
      var uri := rt.Rewrite(path);
      var r2 := if |uri| > 0 then r1.(appendQueryString := rt.rewriteAppendQueryString) else r1;
      if rt.Redirects(path) then Decided(r2.(redirectUri := r2.redirectUri + uri))
      else
        var r3 := if |uri| > 0 then r2.(rewriteUri := uri) else r2;
        if rt.statusCode > 0 || rt.handler != "" then Decided(r3)
        else Undecided(r3, if |uri| > 0 then PathOf(uri) else path)
  }

  /** The iterations over a table whose first route has position i. */
  function Resolve(table: seq<Route>, i: nat, verb: Bytes, r: ResultValue, path: Bytes): Step {
    if table == [] then Undecided(r, path)
    else
      match Examine(table[0], i, verb, r, path)
      case Decided(r') => Decided(r')
      case Undecided(r', path') => Resolve(table[1..], i + 1, verb, r', path')
  }

  /** One turn of the loop at position i of a table that is searched from off. */
  lemma ResolveTurn(table: seq<Route>, off: nat, i: nat, verb: Bytes, r: ResultValue, path: Bytes)
    requires off <= i < |table|
    ensures Resolve(table[i..], i - off, verb, r, path) ==
            match Examine(table[i], i - off, verb, r, path)
            case Decided(r') => Decided(r')
            case Undecided(r', path') => Resolve(table[i + 1..], i + 1 - off, verb, r', path')
  {
    assert table[i..][1..] == table[i + 1..];
  }

  /** What Routes.Route answers: routeIndex counts from off, as the source's loop variable does. */
  function RouteValue(table: seq<Route>, verb: Bytes, path: Bytes, off: nat): ResultValue {
    if off >= |table| then EMPTY.(statusCode := STATUS_NOT_FOUND)
    else Answer(Resolve(table[off..], 0, verb, EMPTY, path))
  }

  function Answer(s: Step): ResultValue {
    if s.Decided? then s.r else s.r.(statusCode := STATUS_NOT_FOUND)
  }

  /** Splitting law: the first part decides, or the second continues with everything the first one carried over. */
  lemma {:induction false} ResolveSplits(a: seq<Route>, b: seq<Route>, i: nat, verb: Bytes, r: ResultValue, path: Bytes)
    ensures Resolve(a + b, i, verb, r, path) ==
            match Resolve(a, i, verb, r, path)
            case Decided(r') => Decided(r')
            case Undecided(r', path') => Resolve(b, i + |a|, verb, r', path')
  {
    if a == [] {
      assert a + b == b;
    } else {
      assert (a + b)[1..] == a[1..] + b;
      var s := Examine(a[0], i, verb, r, path);
      if s.Undecided? {
        ResolveSplits(a[1..], b, i + 1, verb, s.r, s.path);
      }
    }
  }

  // ----- An independent reading of the answer, by positions in the table -----

  /** The path in force when position n is reached: the last matching rewrite before n, cut at '?'. */
  function PathAt(table: seq<Route>, verb: Bytes, path: Bytes, n: nat): Bytes
    requires n <= |table|
  {
    if n == 0 then path
    else
      var p := PathAt(table, verb, path, n - 1);
      var rt := table[n - 1];
      if rt.Match(verb, p) && |rt.Rewrite(p)| > 0 then PathOf(rt.Rewrite(p)) else p
  }

  predicate Matched(table: seq<Route>, verb: Bytes, path: Bytes, n: nat)
    requires n < |table|
  {
    table[n].Match(verb, PathAt(table, verb, path, n))
  }

  function RewrittenTo(table: seq<Route>, verb: Bytes, path: Bytes, n: nat): Bytes
    requires n < |table|
  {
    table[n].Rewrite(PathAt(table, verb, path, n))
  }

  /** Position n matches and ends the search. */
  predicate Decides(table: seq<Route>, verb: Bytes, path: Bytes, n: nat)
    requires n < |table|
  {
    && Matched(table, verb, path, n)
    && (table[n].Redirects(PathAt(table, verb, path, n)) || table[n].statusCode > 0 || table[n].handler != "")
  }

  ghost predicate NoneDecides(table: seq<Route>, verb: Bytes, path: Bytes, n: nat)
    requires n <= |table|
  {
    forall j :: 0 <= j < n ==> !Decides(table, verb, path, j)
  }

  ghost predicate FirstDecider(table: seq<Route>, verb: Bytes, path: Bytes, d: nat)
    requires d < |table|
  {
    Decides(table, verb, path, d) && NoneDecides(table, verb, path, d)
  }

  /** The filters of all matched positions before n, one after the other. */
  function MatchedFilters(table: seq<Route>, verb: Bytes, path: Bytes, n: nat): seq<string>
    requires n <= |table|
  {
    if n == 0 then []
    else MatchedFilters(table, verb, path, n - 1) + if Matched(table, verb, path, n - 1) then table[n - 1].filters else []
  }

  /** The last matched position before n; -1 when there is none. */
  function LastMatch(table: seq<Route>, verb: Bytes, path: Bytes, n: nat): (i: int)
    requires n <= |table|
    ensures -1 <= i < n
  {
    if n == 0 then -1
    else if Matched(table, verb, path, n - 1) then n - 1
    else LastMatch(table, verb, path, n - 1)
  }

  predicate Rewrites(table: seq<Route>, verb: Bytes, path: Bytes, n: nat)
    requires n < |table|
  {
    Matched(table, verb, path, n) && |RewrittenTo(table, verb, path, n)| > 0
  }

  /** The last matched position before n that rewrites; -1 when there is none. */
  function LastRewrite(table: seq<Route>, verb: Bytes, path: Bytes, n: nat): (i: int)
    requires n <= |table|
    ensures -1 <= i < n
  {
    if n == 0 then -1
    else if Rewrites(table, verb, path, n - 1) then n - 1
    else LastRewrite(table, verb, path, n - 1)
  }

  lemma {:induction false} LastMatchMeaning(table: seq<Route>, verb: Bytes, path: Bytes, n: nat)
    requires n <= |table|
    ensures var i := LastMatch(table, verb, path, n);
            && (i >= 0 ==> Matched(table, verb, path, i))
            && forall j :: 0 <= j < n && i < j ==> !Matched(table, verb, path, j)
  {
    if n > 0 {
      LastMatchMeaning(table, verb, path, n - 1);
    }
  }

  lemma {:induction false} LastRewriteMeaning(table: seq<Route>, verb: Bytes, path: Bytes, n: nat)
    requires n <= |table|
    ensures var i := LastRewrite(table, verb, path, n);
            && (i >= 0 ==> Rewrites(table, verb, path, i))
            && forall j :: 0 <= j < n && i < j ==> !Rewrites(table, verb, path, j)
  {
    if n > 0 {
      LastRewriteMeaning(table, verb, path, n - 1);
    }
  }

  /** The URI of the last rewrite before n. */
  function LastUri(table: seq<Route>, verb: Bytes, path: Bytes, n: nat): Bytes
    requires n <= |table|
  {
    var w := LastRewrite(table, verb, path, n);
    if w < 0 then "" else RewrittenTo(table, verb, path, w)
  }

  /** Whether the last rewrite before n appends the query string. */
  predicate LastAppends(table: seq<Route>, verb: Bytes, path: Bytes, n: nat)
    requires n <= |table|
  {
    var w := LastRewrite(table, verb, path, n);
    w >= 0 && table[w].rewriteAppendQueryString
  }

  /** What has been collected before position n, when none of the positions before n decides. */
  ghost predicate Collected(table: seq<Route>, verb: Bytes, path: Bytes, n: nat, r: ResultValue)
    requires n <= |table|
  {
    var i := LastMatch(table, verb, path, n);
    && r.filters == FirstOccurrences(MatchedFilters(table, verb, path, n))
    && r.handler == "" && r.redirectUri == "" && r.statusCode <= 0
    && r.routeIndex == (if i < 0 then 0 else i)
    && r.statusMessage == (if i < 0 then "" else table[i].statusMessage)
    && r.rewriteUri == LastUri(table, verb, path, n)
    && r.appendQueryString == LastAppends(table, verb, path, n)
  }

  lemma {:induction false} ResolvePrefix(table: seq<Route>, verb: Bytes, path: Bytes, n: nat)
    requires n <= |table| && NoneDecides(table, verb, path, n)
    ensures var s := Resolve(table[..n], 0, verb, EMPTY, path);
            s.Undecided? && s.path == PathAt(table, verb, path, n) && Collected(table, verb, path, n, s.r)
  {
    if n == 0 {
      assert table[..0] == [];
    } else {
      var m := n - 1;
      ResolvePrefix(table, verb, path, m);
      ResolveOneMore(table, verb, path, m);
      var s, s' := Resolve(table[..m], 0, verb, EMPTY, path), Resolve(table[..n], 0, verb, EMPTY, path);
      assert s' == Examine(table[m], m, verb, s.r, s.path);
      assert !Decides(table, verb, path, m);
      if !Matched(table, verb, path, m) {
        assert MatchedFilters(table, verb, path, n) == MatchedFilters(table, verb, path, m);
      } else {
        ExamineFields(table[m], m, verb, s.r, s.path);
        CollectedStep(table, verb, path, m, s.r, s'.r);
      }
    }
  }

  /** One iteration, field by field. */
  lemma ExamineFields(rt: Route, i: nat, verb: Bytes, r: ResultValue, p: Bytes)
    requires rt.Match(verb, p)
    ensures var s, uri := Examine(rt, i, verb, r, p), rt.Rewrite(p);
            && (s.Decided? <==> rt.Redirects(p) || rt.statusCode > 0 || rt.handler != "")
            && Updated(rt, i, uri, rt.Redirects(p), r, s.r)
            && (s.Undecided? ==> s.path == if |uri| > 0 then PathOf(uri) else p)
  {
  }

  /** r' is r after the route rt at position i has matched and rewritten the path to uri. */
  ghost predicate Updated(rt: Route, i: nat, uri: Bytes, redirects: bool, r: ResultValue, r': ResultValue) {
    && r'.filters == AppendNew(r.filters, rt.filters)
    && r'.routeIndex == i && r'.statusCode == rt.statusCode && r'.handler == rt.handler
    && r'.statusMessage == rt.statusMessage
    && r'.rewriteUri == (if |uri| > 0 && !redirects then uri else r.rewriteUri)
    && r'.redirectUri == (if redirects then r.redirectUri + uri else r.redirectUri)
    && r'.appendQueryString == (if |uri| > 0 then rt.rewriteAppendQueryString else r.appendQueryString)
  }

  lemma CollectedStep(table: seq<Route>, verb: Bytes, path: Bytes, m: nat, r: ResultValue, r': ResultValue)
    requires m < |table| && Matched(table, verb, path, m) && Collected(table, verb, path, m, r)
    requires table[m].statusCode <= 0 && table[m].handler == ""
    requires Updated(table[m], m, RewrittenTo(table, verb, path, m), false, r, r')
    ensures Collected(table, verb, path, m + 1, r')
  {
    FiltersStep(table, verb, path, m);
    RewriteStep(table, verb, path, m);
  }

  lemma ResolveOneMore(table: seq<Route>, verb: Bytes, path: Bytes, m: nat)
    requires m < |table|
    ensures Resolve(table[..m + 1], 0, verb, EMPTY, path) ==
            match Resolve(table[..m], 0, verb, EMPTY, path)
            case Decided(r) => Decided(r)
            case Undecided(r, p) => Examine(table[m], m, verb, r, p)
  {
    assert table[..m + 1] == table[..m] + [table[m]];
    ResolveSplits(table[..m], [table[m]], 0, verb, EMPTY, path);
    var s := Resolve(table[..m], 0, verb, EMPTY, path);
    if s.Undecided? {
      assert [table[m]][1..] == [];
      var e := Examine(table[m], m, verb, s.r, s.path);
      assert Resolve([table[m]], m, verb, s.r, s.path) == e;
    }
  }

  /** The answer of the position d that decides, field by field. */
  ghost predicate AnswersAt(table: seq<Route>, verb: Bytes, path: Bytes, d: nat, r: ResultValue)
    requires d < |table|
  {
    var redirects := table[d].Redirects(PathAt(table, verb, path, d));
    && r.routeIndex == d
    && r.handler == table[d].handler
    && r.statusCode == table[d].statusCode
    && r.statusMessage == table[d].statusMessage
    && r.filters == FirstOccurrences(MatchedFilters(table, verb, path, d + 1))
    && r.redirectUri == (if redirects then RewrittenTo(table, verb, path, d) else "")
    && r.rewriteUri == LastUri(table, verb, path, if redirects then d else d + 1)
    && r.appendQueryString == LastAppends(table, verb, path, d + 1)
  }

  /**
   * The whole meaning of a route lookup: the first position that decides fixes handler, status and index; the
   * filters are the duplicate-free union over exactly the matched positions up to it; without one it is 404.
   */
  lemma RouteMeaning(table: seq<Route>, verb: Bytes, path: Bytes, off: nat)
    requires off <= |table|
    ensures var rest, r := table[off..], RouteValue(table, verb, path, off);
            && (forall d :: 0 <= d < |rest| && FirstDecider(rest, verb, path, d) ==> AnswersAt(rest, verb, path, d, r))
            && (NoneDecides(rest, verb, path, |rest|) ==>
                  r.statusCode == STATUS_NOT_FOUND && Collected(rest, verb, path, |rest|, r.(statusCode := 0)))
  {
    var rest, r := table[off..], RouteValue(table, verb, path, off);
    assert r == Answer(Resolve(rest, 0, verb, EMPTY, path));
    assert rest[..|rest|] == rest;
    forall d: nat | d < |rest| && FirstDecider(rest, verb, path, d)
      ensures AnswersAt(rest, verb, path, d, r)
    {
      DeciderAnswers(rest, verb, path, d);
    }
    if NoneDecides(rest, verb, path, |rest|) {
      ResolvePrefix(rest, verb, path, |rest|);
    }
  }

  /** What comes after a decision is not looked at. */
  lemma DecidedEarly(table: seq<Route>, verb: Bytes, path: Bytes, n: nat)
    requires n <= |table| && Resolve(table[..n], 0, verb, EMPTY, path).Decided?
    ensures Resolve(table, 0, verb, EMPTY, path) == Resolve(table[..n], 0, verb, EMPTY, path)
  {
    assert table == table[..n] + table[n..];
    ResolveSplits(table[..n], table[n..], 0, verb, EMPTY, path);
  }

  lemma ExamineDecides(table: seq<Route>, verb: Bytes, path: Bytes, d: nat, r: ResultValue)
    requires d < |table| && Decides(table, verb, path, d)
    ensures Examine(table[d], d, verb, r, PathAt(table, verb, path, d)).Decided?
  {
    ExamineFields(table[d], d, verb, r, PathAt(table, verb, path, d));
  }

  /** The first position that decides is the last one looked at. */
  lemma ResolvedAtDecider(table: seq<Route>, verb: Bytes, path: Bytes, d: nat) returns (r: ResultValue)
    requires d < |table| && FirstDecider(table, verb, path, d)
    ensures Collected(table, verb, path, d, r)
    ensures Resolve(table, 0, verb, EMPTY, path) == Examine(table[d], d, verb, r, PathAt(table, verb, path, d))
  {
    ResolvePrefix(table, verb, path, d);
    ResolveOneMore(table, verb, path, d);
    r := Resolve(table[..d], 0, verb, EMPTY, path).r;
    ExamineDecides(table, verb, path, d, r);
    DecidedEarly(table, verb, path, d + 1);
  }

  lemma RewriteStep(table: seq<Route>, verb: Bytes, path: Bytes, d: nat)
    requires d < |table|
    ensures LastUri(table, verb, path, d + 1)
            == if Rewrites(table, verb, path, d) then RewrittenTo(table, verb, path, d) else LastUri(table, verb, path, d)
    ensures LastAppends(table, verb, path, d + 1)
            == if Rewrites(table, verb, path, d) then table[d].rewriteAppendQueryString else LastAppends(table, verb, path, d)
  {
  }

  lemma FiltersStep(table: seq<Route>, verb: Bytes, path: Bytes, d: nat)
    requires d < |table| && Matched(table, verb, path, d)
    ensures FirstOccurrences(MatchedFilters(table, verb, path, d + 1))
            == AppendNew(FirstOccurrences(MatchedFilters(table, verb, path, d)), table[d].filters)
  {
    AppendNewUnion(MatchedFilters(table, verb, path, d), table[d].filters);
  }

  lemma DecidedAnswer(table: seq<Route>, verb: Bytes, path: Bytes, d: nat, r: ResultValue, r': ResultValue)
    requires d < |table| && Matched(table, verb, path, d) && Collected(table, verb, path, d, r)
    requires Updated(table[d], d, RewrittenTo(table, verb, path, d), table[d].Redirects(PathAt(table, verb, path, d)), r, r')
    ensures AnswersAt(table, verb, path, d, r')
  {
    FiltersStep(table, verb, path, d);
    RewriteStep(table, verb, path, d);
  }

  lemma DeciderAnswers(table: seq<Route>, verb: Bytes, path: Bytes, d: nat)
    requires d < |table| && FirstDecider(table, verb, path, d)
    ensures Resolve(table, 0, verb, EMPTY, path).Decided?
    ensures AnswersAt(table, verb, path, d, Resolve(table, 0, verb, EMPTY, path).r)
  {
    var r := ResolvedAtDecider(table, verb, path, d);
    var p := PathAt(table, verb, path, d);
    ExamineFields(table[d], d, verb, r, p);
    DecidedAnswer(table, verb, path, d, r, Examine(table[d], d, verb, r, p).r);
  }

  /** Some position decides, or none does. */
  lemma {:induction false} FindDecider(table: seq<Route>, verb: Bytes, path: Bytes, n: nat) returns (d: nat)
    requires n <= |table|
    ensures d <= n && NoneDecides(table, verb, path, d)
    ensures d < n ==> FirstDecider(table, verb, path, d)
  {
    if n == 0 {
      d := 0;
    } else {
      d := FindDecider(table, verb, path, n - 1);
      if d == n - 1 && !Decides(table, verb, path, d) {
        d := n;
      }
    }
  }

  // ----- Building the table (NewRoutes) -----

  datatype RouteConfig = RouteConfig(
    path: Bytes,
    match_: string,
    verbs: seq<string>,
    filters: seq<string>,
    rewrite: Bytes,
    rewriteAppendQueryString: bool,
    handler: string,
    status: int,
    statusMessage: Bytes,
    nextIfNotFound: bool)

  /** The configured filters and handlers by name, and the routes. */
  datatype Config = Config(filters: set<string>, handlers: set<string>, routes: seq<RouteConfig>)

  datatype ConfigError = UnknownFilter(name: string) | UnknownHandler(name: string) | UnknownMatch(name: string) | BadPattern

  /** Library functions the table is built with. */
  datatype Library = Library(compile: Bytes -> Option<Regexp>, toUpper: string -> string, statusText: int -> Bytes)

  const MATCH_EQUAL := "equal"
  const MATCH_PREFIX := "prefix"
  const MATCH_REGEXP := "regexp"

  /** Route.initMatchPath; an empty match means prefix and an empty path means "/". */
  function NewMatcher(lib: Library, cfgMatch: string, cfgPath: Bytes): Outcome<Matcher, ConfigError> {
    var kind := if cfgMatch == "" then MATCH_PREFIX else cfgMatch;
    var path := if cfgPath == "" then "/" else cfgPath;
    if kind == MATCH_EQUAL then Ok(MatchEqual(path))
    else if kind == MATCH_PREFIX then Ok(MatchPrefix(path))
    else if kind == MATCH_REGEXP then
      match lib.compile(path)
      case None => Err(BadPattern)
      case Some(re) => Ok(MatchRegexp(re))
    else Err(UnknownMatch(kind))
  }

  /** NewRoute */
  function NewRoute(lib: Library, rcfg: RouteConfig): Outcome<Route, ConfigError> {
    match NewMatcher(lib, rcfg.match_, rcfg.path)
    case Err(e) => Err(e)
    case Ok(m) =>
      var message :=
        if rcfg.statusMessage != "" then rcfg.statusMessage
        else if rcfg.status > 0 then lib.statusText(rcfg.status)
        else "";
      Ok(Route(seq(|rcfg.verbs|, k requires 0 <= k < |rcfg.verbs| => lib.toUpper(rcfg.verbs[k])), rcfg.filters, rcfg.rewrite,
               rcfg.rewriteAppendQueryString, rcfg.handler, rcfg.status, message, m, rcfg.nextIfNotFound))
  }

  /** The names a table uses are configured ones. */
  ghost predicate Known(table: seq<Route>, filters: set<string>, handlers: set<string>) {
    forall i :: 0 <= i < |table| ==>
      (forall f :: f in table[i].filters ==> f in filters) && (table[i].handler == "" || table[i].handler in handlers)
  }

  /** A route configuration that names only configured filters and handlers. */
  ghost predicate NamesKnown(cfg: Config, rcfg: RouteConfig) {
    (forall f :: f in rcfg.filters ==> f in cfg.filters) && (rcfg.handler == "" || rcfg.handler in cfg.handlers)
  }

  /** The error reported for a route configuration that cannot be used. */
  ghost predicate Rejects(lib: Library, cfg: Config, rcfg: RouteConfig, e: ConfigError) {
    || (exists k :: 0 <= k < |rcfg.filters| && rcfg.filters[k] !in cfg.filters
                    && (forall j :: 0 <= j < k ==> rcfg.filters[j] in cfg.filters) && e == UnknownFilter(rcfg.filters[k]))
    || ((forall f :: f in rcfg.filters ==> f in cfg.filters)
        && rcfg.handler != "" && rcfg.handler !in cfg.handlers && e == UnknownHandler(rcfg.handler))
    || (NamesKnown(cfg, rcfg) && NewRoute(lib, rcfg) == Err(e))
  }

  /** Route i is the first one that cannot be used. */
  ghost predicate FirstRejected(lib: Library, cfg: Config, i: nat, e: ConfigError)
    requires i < |cfg.routes|
  {
    && Rejects(lib, cfg, cfg.routes[i], e)
    && forall j :: 0 <= j < i ==> NamesKnown(cfg, cfg.routes[j]) && NewRoute(lib, cfg.routes[j]).Ok?
  }

  /**
   * NewRoutes: the table is built exactly when every route names configured filters and handlers and has a usable
   * match; otherwise the first unusable route is reported.
   */
  method NewRoutes(lib: Library, cfg: Config) returns (res: Outcome<seq<Route>, ConfigError>)
    ensures res.Ok? <==> forall i :: 0 <= i < |cfg.routes| ==> NamesKnown(cfg, cfg.routes[i]) && NewRoute(lib, cfg.routes[i]).Ok?
    ensures res.Ok? ==> |res.value| == |cfg.routes| && Known(res.value, cfg.filters, cfg.handlers)
                        && forall i :: 0 <= i < |cfg.routes| ==> NewRoute(lib, cfg.routes[i]) == Ok(res.value[i])
    ensures res.Err? ==> exists i :: 0 <= i < |cfg.routes| && FirstRejected(lib, cfg, i, res.error)
  {
    var routes: seq<Route> := [];
    for i := 0 to |cfg.routes|
      invariant |routes| == i
      invariant forall j :: 0 <= j < i ==> NamesKnown(cfg, cfg.routes[j]) && NewRoute(lib, cfg.routes[j]) == Ok(routes[j])
    {
      var rcfg := cfg.routes[i];
      for k := 0 to |rcfg.filters|
        invariant forall j :: 0 <= j < k ==> rcfg.filters[j] in cfg.filters
      {
        if rcfg.filters[k] !in cfg.filters {
          assert !NamesKnown(cfg, cfg.routes[i]);
          assert FirstRejected(lib, cfg, i, UnknownFilter(rcfg.filters[k]));
          return Err(UnknownFilter(rcfg.filters[k]));
        }
      }
      if rcfg.handler != "" && rcfg.handler !in cfg.handlers {
        assert !NamesKnown(cfg, cfg.routes[i]);
        assert FirstRejected(lib, cfg, i, UnknownHandler(rcfg.handler));
        return Err(UnknownHandler(rcfg.handler));
      }
      var r := NewRoute(lib, rcfg);
      if r.Err? {
        assert FirstRejected(lib, cfg, i, r.error);
        return Err(r.error);
      }
      routes := routes + [r.value];
    }
    res := Ok(routes);
  }

  /** Routes.IsNextIfNotFound */
  predicate IsNextIfNotFound(table: seq<Route>, i: nat) {
    i < |table| && table[i].nextIfNotFound
  }

  // ----- What every answer offers to the request run -----

  /** A result the request run can act on: its last branch (neither redirect, status nor handler) is never needed. */
  predicate Actionable(r: ResultValue) {
    r.redirectUri != "" || r.statusCode > 0 || r.handler != ""
  }

  lemma AnswersAreActionable(table: seq<Route>, verb: Bytes, path: Bytes, off: nat, filters: set<string>, handlers: set<string>)
    requires Known(table, filters, handlers)
    ensures var r := RouteValue(table, verb, path, off);
            && Actionable(r)
            && (forall f :: f in r.filters ==> f in filters)
            && (r.handler != "" ==> r.handler in handlers)
  {
    if off < |table| {
      var rest, r := table[off..], RouteValue(table, verb, path, off);
      RouteMeaning(table, verb, path, off);
      assert Known(rest, filters, handlers) by {
        forall i | 0 <= i < |rest|
          ensures rest[i] == table[off + i]
        {
        }
      }
      var d := FindDecider(rest, verb, path, |rest|);
      MatchedFiltersKnown(rest, verb, path, if d < |rest| then d + 1 else d, filters, handlers);
      if d < |rest| {
        assert AnswersAt(rest, verb, path, d, r);
      } else {
        assert Collected(rest, verb, path, d, r.(statusCode := 0));
      }
    }
  }

  lemma AnswerNotEmpty(table: seq<Route>, verb: Bytes, path: Bytes, off: nat)
    ensures Actionable(RouteValue(table, verb, path, off))
  {
    var names := set i, f | 0 <= i < |table| && f in table[i].filters :: f;
    var handlers := set i | 0 <= i < |table| :: table[i].handler;
    AnswersAreActionable(table, verb, path, off, names, handlers);
  }

  lemma {:induction false} MatchedFiltersKnown(table: seq<Route>, verb: Bytes, path: Bytes, n: nat, filters: set<string>, handlers: set<string>)
    requires n <= |table| && Known(table, filters, handlers)
    ensures forall f :: f in MatchedFilters(table, verb, path, n) ==> f in filters
  {
    if n > 0 {
      MatchedFiltersKnown(table, verb, path, n - 1, filters, handlers);
    }
  }

  /** An answer other than 404 is that of the first decider at or after off, whose position is counted from off. */
  lemma AnswerIndex(table: seq<Route>, verb: Bytes, path: Bytes, off: nat)
    requires RouteValue(table, verb, path, off).statusCode != STATUS_NOT_FOUND
    ensures var r := RouteValue(table, verb, path, off);
            var i := r.routeIndex;
            && off < |table| && 0 <= i < |table| - off && FirstDecider(table[off..], verb, path, i)
            && AnswersAt(table[off..], verb, path, i, r) && r.handler == table[off + i].handler
  {
    RouteMeaning(table, verb, path, off);
    var d := FindDecider(table[off..], verb, path, |table| - off);
    assert d < |table| - off ==> table[off..][d] == table[off + d];
  }
}
