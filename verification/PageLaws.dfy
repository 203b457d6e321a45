/** Which page a request with an error status is shown, with patterns and default page written out (pkg/handler/errorpages.go). */
module PageLaws {
  import opened Prelude
  import opened Digits
  import opened Http
  import opened ErrorPage

  /** The digit character of a number below ten. */
  function Char(d: nat): char
    requires d < 10
  {
    "0123456789"[d]
  }

  /** The patterns in the order they are tried: the status, then with one, two and three digits replaced from the right. */
  function Patterns(status: nat): (ps: seq<Bytes>)
    requires 400 <= status < 600
    ensures |ps| == 4
  {
    var a, b, c := Char(status / 100), Char(status / 10 % 10), Char(status % 10);
    [[a, b, c], [a, b, 'x'], [a, 'x', 'x'], ['x', 'x', 'x']]
  }

  /** The page configured for the status: that of the first pattern that has one. */
  ghost predicate PageFor(pages: map<Bytes, Bytes>, status: nat, page: Bytes)
    requires 400 <= status < 600
  {
    exists k :: 0 <= k < 4 && PageAt(pages, Patterns(status), k, page)
  }

  ghost predicate PageAt(pages: map<Bytes, Bytes>, patterns: seq<Bytes>, k: nat, page: Bytes)
    requires k < |patterns|
  {
    && patterns[k] in pages && pages[patterns[k]] == page && page != ""
    && forall j :: 0 <= j < k ==> patterns[j] !in pages || pages[patterns[j]] == ""
  }

  /** No pattern of the status has a page. */
  ghost predicate NoPageFor(pages: map<Bytes, Bytes>, status: nat)
    requires 400 <= status < 600
  {
    forall k :: 0 <= k < 4 ==> Patterns(status)[k] !in pages || pages[Patterns(status)[k]] == ""
  }

  /** The default page's text. */
  ghost predicate IsDefaultPage(s: Setup, status: nat, body: Bytes, contentType: Bytes)
    requires 400 <= status < 600
  {
    var title := [Char(status / 100), Char(status / 10 % 10), Char(status % 10)] + " " + s.statusText(status);
    && contentType == "text/html; charset=utf-8"
    && body == "<!DOCTYPE html><html><head><title>" + title
               + "</title><style>h1,p { text-align: center; }</style></head><body><h1>" + title + "</h1></body></html>"
  }

  lemma DecimalChars(status: nat)
    requires 400 <= status < 600
    ensures Decimal(status) == [Char(status / 100), Char(status / 10 % 10), Char(status % 10)]
  {
    assert status / 100 == status / 10 / 10;
    assert Decimal(status / 10) == Decimal(status / 10 / 10) + [Digit(status / 10 % 10)];
    assert Decimal(status / 10 / 10) == [Digit(status / 10 / 10)];
    CharIsDigit(status / 100);
    CharIsDigit(status / 10 % 10);
    CharIsDigit(status % 10);
  }

  lemma CharIsDigit(d: nat)
    requires d < 10
    ensures Digit(d) == Char(d)
  {
  }

  lemma PatternChars(status: nat, k: nat)
    requires 400 <= status < 600 && k < 4
    ensures Pattern(status, k) == Patterns(status)[k]
  {
    DecimalChars(status);
    StatusDigits(status);
  }

  /** The search returns the configured page, and nothing when there is none. */
  lemma SearchFinds(s: Setup, status: nat, page: Bytes)
    requires 400 <= status < 600
    ensures PageFor(s.statusToPath, status, page) ==> Search(s, status, 0) == page
    ensures NoPageFor(s.statusToPath, status) ==> Search(s, status, 0) == ""
  {
    SearchIsFirst(s, status, 0);
    PatternChars(status, 0);
    PatternChars(status, 1);
    PatternChars(status, 2);
    PatternChars(status, 3);
  }

  lemma DefaultIsPage(s: Setup, status: nat)
    requires 400 <= status < 600
    ensures IsDefaultPage(s, status, DefaultBody(s, status), HTML)
  {
    DecimalChars(status);
  }

  /** What a request is shown without memory: the file handler's answer to the page, or the default page. */
  lemma ServeMeaning(s: Setup, c: Ctx, page: Bytes)
    requires 400 <= c.response.status < 600
    requires s.fs.Some? && PageFor(s.statusToPath, c.response.status, page)
    ensures var r, served := Serve(s, c).response, s.fs.value(Ctx(c.verb, page, c.headers, c.response));
            && r.status == c.response.status
            && (page != "-" && served.status == 200 ==> r.body == served.body && r.contentType == served.contentType)
            && (page == "-" || served.status != 200 ==> IsDefaultPage(s, c.response.status, r.body, r.contentType))
  {
    SearchFinds(s, c.response.status, page);
    DefaultIsPage(s, c.response.status);
  }

  lemma ServeWithoutPage(s: Setup, c: Ctx)
    requires 400 <= c.response.status < 600
    requires s.fs.None? || NoPageFor(s.statusToPath, c.response.status)
    ensures var r := Serve(s, c).response;
            && (c.response.body != "" ==> r == c.response)
            && (c.response.body == "" ==> r.status == c.response.status && IsDefaultPage(s, c.response.status, r.body, r.contentType))
  {
    SearchFinds(s, c.response.status, "");
    DefaultIsPage(s, c.response.status);
  }

  /** Other requests pass through, and change nothing. */
  lemma OthersPass(s: Setup, history: seq<Ctx>, c: Ctx)
    requires c.response.status < 400 || c.response.status >= 600
    ensures HandleStep(s, After(s, history), c) == (After(s, history), c.response)
  {
  }

  /** The file handler answers by the URI alone. */
  ghost predicate ByUri(s: Setup, f: Bytes -> Response) {
    s.fs.Some? && forall c :: s.fs.value(c) == f(c.uri)
  }

  lemma ByUriSteady(s: Setup, f: Bytes -> Response)
    requires ByUri(s, f)
    ensures Steady(s)
  {
    assert PathDecides(s);
    FixedPagesAreSteady(s);
  }

  /**
   * After every history: the page's body and content type under the original status when the file handler has the page,
   * and otherwise the default page.
   */
  lemma PageIsShown(s: Setup, f: Bytes -> Response, history: seq<Ctx>, c: Ctx, page: Bytes)
    requires ByUri(s, f) && 400 <= c.response.status < 600 && PageFor(s.statusToPath, c.response.status, page)
    ensures var r := HandleStep(s, After(s, history), c).1;
            && r.status == c.response.status
            && (page != "-" && f(page).status == 200 ==> r.body == f(page).body && r.contentType == f(page).contentType)
            && (page == "-" || f(page).status != 200 ==> IsDefaultPage(s, c.response.status, r.body, r.contentType))
  {
    ByUriSteady(s, f);
    StepAgrees(s, history, c);
    ServeMeaning(s, c, page);
  }

  /** Without a page: the default page, unless there is a body already. */
  lemma DefaultIsShown(s: Setup, f: Bytes -> Response, history: seq<Ctx>, c: Ctx)
    requires (s.fs.None? || ByUri(s, f)) && 400 <= c.response.status < 600
    requires s.fs.None? || NoPageFor(s.statusToPath, c.response.status)
    ensures var r := HandleStep(s, After(s, history), c).1;
            && r.status == c.response.status
            && (c.response.body != "" ==> r.body == c.response.body && r.contentType == c.response.contentType)
            && (c.response.body == "" ==> IsDefaultPage(s, c.response.status, r.body, r.contentType))
  {
    if s.fs.Some? {
      ByUriSteady(s, f);
      StepAgrees(s, history, c);
    }
    ServeWithoutPage(s, c);
  }

  /** The first request with its status is shown what the file handler makes of it, whatever the handler looks at. */
  lemma FirstRequestShown(s: Setup, c: Ctx, page: Bytes)
    requires s.fs.Some? && 400 <= c.response.status < 600 && PageFor(s.statusToPath, c.response.status, page)
    ensures var r, served := HandleStep(s, After(s, []), c).1, s.fs.value(Ctx(c.verb, page, c.headers, c.response));
            && r.status == c.response.status
            && (page != "-" && served.status == 200 ==> r.body == served.body && r.contentType == served.contentType)
            && (page == "-" || served.status != 200 ==> IsDefaultPage(s, c.response.status, r.body, r.contentType))
  {
    ServeMeaning(s, c, page);
  }
}
