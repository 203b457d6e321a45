/** Which requests a route answers and with what, read off the table's entries (pkg/route/route.go). */
module RouteLaws {
  import opened Prelude
  import opened Results
  import opened StringSets
  import opened Uris
  import opened Routing

  /** The route is for this method and path. */
  ghost predicate Accepts(rt: Route, verb: Bytes, path: Bytes) {
    && (rt.verbs == [] || exists j :: 0 <= j < |rt.verbs| && rt.verbs[j] == verb)
    && match rt.matcher
       case MatchEqual(eq) => path == eq
       case MatchPrefix(prefix) => exists rest :: path == prefix + rest
       case MatchRegexp(re) => re.matches(path)
  }

  /** The URI a route rewrites to: its literal, or the pattern's replacement; empty for no rewrite. */
  ghost predicate Yields(rt: Route, path: Bytes, uri: Bytes) {
    && (rt.rewriteUri == "" ==> uri == "")
    && (rt.rewriteUri != "" && rt.matcher.MatchRegexp? ==> uri == rt.matcher.pattern.replaceAll(path, rt.rewriteUri))
    && (rt.rewriteUri != "" && !rt.matcher.MatchRegexp? ==> uri == rt.rewriteUri)
  }

  /** The client is sent elsewhere: to a URI with another scheme or host, or because of the status. */
  ghost predicate Elsewhere(uri: Bytes, status: int) {
    && uri != ""
    && (|| (exists rest :: uri == "http://" + rest) || (exists rest :: uri == "https://" + rest)
        || status in {301, 302, 303, 307, 308})
  }

  /** The text before the first question mark. */
  ghost predicate CutAtQuery(uri: Bytes, path: Bytes) {
    (forall i :: 0 <= i < |path| ==> path[i] != '?') && (uri == path || exists query :: uri == path + "?" + query)
  }

  lemma MatchIsAccepts(rt: Route, verb: Bytes, path: Bytes)
    ensures rt.Match(verb, path) <==> Accepts(rt, verb, path)
  {
    if rt.matcher.MatchPrefix? {
      PrefixIsSplit(path, rt.matcher.prefix);
    }
    assert verb in rt.verbs <==> exists j :: 0 <= j < |rt.verbs| && rt.verbs[j] == verb;
  }

  lemma PrefixIsSplit(s: Bytes, prefix: Bytes)
    ensures HasPrefix(s, prefix) <==> exists rest :: s == prefix + rest
  {
    if HasPrefix(s, prefix) {
      assert s == prefix + s[|prefix|..];
    }
  }

  lemma RewriteYields(rt: Route, path: Bytes, uri: Bytes)
    ensures rt.Rewrite(path) == uri <==> Yields(rt, path, uri)
  {
  }

  lemma RedirectsElsewhere(rt: Route, path: Bytes, uri: Bytes)
    requires Yields(rt, path, uri)
    ensures rt.Redirects(path) <==> Elsewhere(uri, rt.statusCode)
  {
    RewriteYields(rt, path, uri);
    PrefixIsSplit(uri, "http://");
    PrefixIsSplit(uri, "https://");
  }

  lemma PathIsCut(uri: Bytes, path: Bytes)
    ensures PathOf(uri) == path <==> CutAtQuery(uri, path)
  {
    var i := IndexOf(uri, '?');
    if i < |uri| {
      assert uri == PathOf(uri) + "?" + uri[i + 1..];
    }
    if CutAtQuery(uri, path) {
      assert uri != path ==> uri[|path|] == '?';
      assert forall j :: 0 <= j < |path| ==> uri[j] == path[j];
    }
  }

  /** A route that is for the request ends the search: it redirects, or has a positive status or a handler. */
  ghost predicate Ends(rt: Route, uri: Bytes) {
    Elsewhere(uri, rt.statusCode) || rt.statusCode > 0 || rt.handler != ""
  }

  /** What a route that ends the search adds to what the routes before it have collected. */
  ghost predicate Says(rt: Route, uri: Bytes, before: ResultValue, r: ResultValue) {
    && r.statusCode == rt.statusCode && r.statusMessage == rt.statusMessage && r.handler == rt.handler
    && r.redirectUri == (if Elsewhere(uri, rt.statusCode) then uri else "")
    && r.rewriteUri == (if uri == "" || Elsewhere(uri, rt.statusCode) then before.rewriteUri else uri)
    && r.appendQueryString == (if uri == "" then before.appendQueryString else rt.rewriteAppendQueryString)
  }

  lemma OneTurn(rt: Route, i: nat, verb: Bytes, r: ResultValue, path: Bytes, uri: Bytes)
    requires r.redirectUri == "" && Yields(rt, path, uri)
    ensures var s := Examine(rt, i, verb, r, path);
            && (s.Decided? <==> Accepts(rt, verb, path) && Ends(rt, uri))
            && (s.Decided? ==> Says(rt, uri, r, s.r) && s.r.routeIndex == i && s.r.filters == AppendNew(r.filters, rt.filters))
            && (!Accepts(rt, verb, path) ==> s == Undecided(r, path))
            && (s.Undecided? && Accepts(rt, verb, path) ==>
                  && s.r.redirectUri == "" && s.r.handler == "" && s.r.filters == AppendNew(r.filters, rt.filters)
                  && s.r.rewriteUri == (if uri == "" then r.rewriteUri else uri)
                  && s.r.appendQueryString == (if uri == "" then r.appendQueryString else rt.rewriteAppendQueryString)
                  && if uri == "" then s.path == path else CutAtQuery(uri, s.path))
  {
    MatchIsAccepts(rt, verb, path);
    RewriteYields(rt, path, uri);
    RedirectsElsewhere(rt, path, uri);
    PathIsCut(uri, PathOf(uri));
  }

  lemma OneOnly(rt: Route, verb: Bytes, path: Bytes)
    ensures RouteValue([rt], verb, path, 0) == Answer(Examine(rt, 0, verb, EMPTY, path))
  {
    assert [rt][0..] == [rt] && [rt][1..] == [];
    var s := Examine(rt, 0, verb, EMPTY, path);
    assert s.Undecided? ==> Resolve([rt][1..], 1, verb, s.r, s.path) == s;
    assert Resolve([rt], 0, verb, EMPTY, path) == s;
  }

  /** A table of one route: exactly which requests it answers, and every field of the answer. */
  lemma OneRouteAnswers(rt: Route, verb: Bytes, path: Bytes, uri: Bytes)
    requires Yields(rt, path, uri)
    ensures var r := RouteValue([rt], verb, path, 0);
            && (rt.statusCode != 404 ==> (r.statusCode != 404 <==> Accepts(rt, verb, path) && Ends(rt, uri)))
            && (Accepts(rt, verb, path) && Ends(rt, uri) ==>
                  Says(rt, uri, ResultValue(0, "", "", "", false, "", [], 0), r) && r.routeIndex == 0)
            && (Accepts(rt, verb, path) && Ends(rt, uri) && NoDup(rt.filters) ==> r.filters == rt.filters)
            && (!Accepts(rt, verb, path) ==> r == ResultValue(404, "", "", "", false, "", [], 0))
            && (!Ends(rt, uri) ==> r.statusCode == 404 && r.handler == "" && r.redirectUri == "")
  {
    OneOnly(rt, verb, path);
    OneTurn(rt, 0, verb, EMPTY, path, uri);
    if NoDup(rt.filters) {
      AppendDistinct([], rt.filters);
    }
  }

  lemma {:induction false} AppendDistinct(ss: seq<string>, values: seq<string>)
    requires NoDup(ss + values)
    ensures AppendNew(ss, values) == ss + values
    decreases |values|
  {
    if values != [] {
      assert (ss + values)[|ss|] == values[0];
      assert values[0] !in ss by {
        forall i | 0 <= i < |ss|
          ensures ss[i] != values[0]
        {
          assert (ss + values)[i] == ss[i];
        }
      }
      assert ss + values == ss + [values[0]] + values[1..];
      AppendDistinct(ss + [values[0]], values[1..]);
    }
  }

  lemma TwoOnly(a: Route, b: Route, verb: Bytes, path: Bytes)
    ensures RouteValue([a, b], verb, path, 0) ==
            var s := Examine(a, 0, verb, EMPTY, path);
            if s.Decided? then s.r else Answer(Examine(b, 1, verb, s.r, s.path))
  {
    assert [a, b][0..] == [a, b] && [a, b][1..] == [b] && [b][1..] == [];
    var s := Examine(a, 0, verb, EMPTY, path);
    if s.Undecided? {
      var s' := Examine(b, 1, verb, s.r, s.path);
      assert s'.Undecided? ==> Resolve([b][1..], 2, verb, s'.r, s'.path) == s';
      assert Resolve([b], 1, verb, s.r, s.path) == s';
    }
  }

  /**
   * A route behind another: it sees the path, or what the first route has rewritten it to, up to the first question mark;
   * and a rewrite of the first route stays in force unless the second one rewrites too.
   */
  lemma SecondRouteAnswers(a: Route, b: Route, verb: Bytes, path: Bytes, seen: Bytes, uriA: Bytes, uriB: Bytes)
    requires Yields(a, path, uriA) && Yields(b, seen, uriB) && b.statusCode != 404
    requires !Accepts(a, verb, path) || !Ends(a, uriA)
    requires if !Accepts(a, verb, path) || uriA == "" then seen == path else CutAtQuery(uriA, seen)
    ensures var r := RouteValue([a, b], verb, path, 0);
            && (r.statusCode != 404 <==> Accepts(b, verb, seen) && Ends(b, uriB))
            && (r.statusCode != 404 ==>
                  && r.routeIndex == 1 && r.handler == b.handler && r.statusCode == b.statusCode
                  && r.redirectUri == (if Elsewhere(uriB, b.statusCode) then uriB else "")
                  && (Accepts(a, verb, path) && uriA != "" && uriB == "" ==>
                        r.rewriteUri == uriA && r.appendQueryString == a.rewriteAppendQueryString))
            && (r.statusCode != 404 && Accepts(a, verb, path) && NoDup(a.filters + b.filters) ==> r.filters == a.filters + b.filters)
  {
    TwoOnly(a, b, verb, path);
    OneTurn(a, 0, verb, EMPTY, path, uriA);
    var s := Examine(a, 0, verb, EMPTY, path);
    if Accepts(a, verb, path) && uriA != "" {
      PathIsCut(uriA, s.path);
      PathIsCut(uriA, seen);
    }
    assert s.path == seen;
    OneTurn(b, 1, verb, s.r, seen, uriB);
    if Accepts(a, verb, path) && NoDup(a.filters + b.filters) {
      AppendTwice(a.filters, b.filters);
    }
  }

  lemma AppendTwice(a: seq<string>, b: seq<string>)
    requires NoDup(a + b)
    ensures AppendNew(AppendNew([], a), b) == a + b
  {
    assert forall i :: 0 <= i < |a| ==> (a + b)[i] == a[i];
    assert [] + a == a;
    AppendDistinct([], a);
    AppendDistinct(a, b);
  }

  // ----- Configured routes -----

  /** The path of a configured route. */
  ghost predicate ForPath(rcfg: RouteConfig, path: Bytes) {
    rcfg.path == path || (rcfg.path == "" && path == "/")
  }

  /** Which kinds of match there are: prefix is the default, and only a pattern can fail to be usable. */
  lemma UsableExactly(lib: Library, rcfg: RouteConfig, text: Bytes)
    requires ForPath(rcfg, text) && text != ""
    ensures NewRoute(lib, rcfg).Ok? <==>
            rcfg.match_ in {"", "equal", "prefix"} || (rcfg.match_ == "regexp" && lib.compile(text).Some?)
  {
    assert |"equal"| == 5 && |"prefix"| == 6 && |"regexp"| == 6 && "prefix"[0] == 'p' && "regexp"[0] == 'r';
  }

  /** The requests a configured route is for, and what it says. */
  lemma ConfiguredRoute(lib: Library, rcfg: RouteConfig, text: Bytes, verb: Bytes, path: Bytes)
    requires ForPath(rcfg, text) && text != "" && NewRoute(lib, rcfg).Ok?
    ensures var rt := NewRoute(lib, rcfg).value;
            && (Accepts(rt, verb, path) <==>
                  && (rcfg.verbs == [] || exists j :: 0 <= j < |rcfg.verbs| && lib.toUpper(rcfg.verbs[j]) == verb)
                  && (rcfg.match_ == "equal" ==> path == text)
                  && (rcfg.match_ in {"", "prefix"} ==> exists rest :: path == text + rest)
                  && (rcfg.match_ == "regexp" ==> lib.compile(text).value.matches(path)))
            && rt.filters == rcfg.filters && rt.handler == rcfg.handler && rt.statusCode == rcfg.status
            && rt.rewriteUri == rcfg.rewrite && rt.rewriteAppendQueryString == rcfg.rewriteAppendQueryString
            && rt.nextIfNotFound == rcfg.nextIfNotFound
            && (rcfg.statusMessage != "" ==> rt.statusMessage == rcfg.statusMessage)
            && (rcfg.statusMessage == "" && rcfg.status > 0 ==> rt.statusMessage == lib.statusText(rcfg.status))
            && (rcfg.statusMessage == "" && rcfg.status <= 0 ==> rt.statusMessage == "")
  {
    UsableExactly(lib, rcfg, text);
    var rt := NewRoute(lib, rcfg).value;
    assert |"equal"| == 5 && |"prefix"| == 6 && |"regexp"| == 6 && "prefix"[0] == 'p' && "regexp"[0] == 'r';
    assert |rt.verbs| == |rcfg.verbs| && forall j :: 0 <= j < |rt.verbs| ==> rt.verbs[j] == lib.toUpper(rcfg.verbs[j]);
  }
}
