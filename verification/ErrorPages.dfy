/** Custom error pages with their memo table (pkg/handler/errorpages.go). */
module ErrorPage {
  import opened Prelude
  import opened Digits
  import opened Http

  const STATUS_OFFSET: int := 400
  const STATUS_UNTIL: int := 600

  /**
   * The configured pages by status pattern, the file handler as a function of the context it is given (None when no
   * pages are configured), and the library's status texts.
   */
  datatype Setup = Setup(statusToPath: map<Bytes, Bytes>, fs: Option<Ctx -> Response>, statusText: int -> Bytes)

  predicate IsError(status: int) {
    STATUS_OFFSET <= status < STATUS_UNTIL
  }

  // ----- The answer without a memo table -----

  const HTML: Bytes := "text/html; charset=utf-8"

  function DefaultBody(s: Setup, status: int): Bytes
    requires IsError(status)
  {
    var title := Decimal(status) + " " + s.statusText(status);
    "<!DOCTYPE html><html><head><title>" + title
    + "</title><style>h1,p { text-align: center; }</style></head><body><h1>" + title + "</h1></body></html>"
  }

  /** SendDefaultError: nothing when there is a body already. */
  function DefaultError(s: Setup, r: Response): Response
    requires IsError(r.status)
  {
    if |r.body| > 0 then r else r.(contentType := HTML, body := DefaultBody(s, r.status))
  }

  /** The status in decimal with its last k digits replaced by 'x'. */
  function Pattern(status: int, k: nat): (p: Bytes)
    requires IsError(status) && k <= 3
    ensures |p| == 3
  {
    StatusDigits(status);
    Decimal(status)[..3 - k] + Repeat('x', k)
  }

  lemma StatusDigits(status: int)
    requires IsError(status)
    ensures |Decimal(status)| == 3
  {
    assert Pow10(2) == 100 && Pow10(3) == 1000;
    DecimalLength(status, 3);
    DecimalLength(status, 2);
  }

  /** The page of a pattern; an empty page counts as none. */
  function PageOf(s: Setup, pattern: Bytes): Bytes {
    if pattern in s.statusToPath then s.statusToPath[pattern] else ""
  }

  /** The first page found with k, k + 1, ..., 3 digits replaced; empty when there is none. */
  function Search(s: Setup, status: int, k: nat): Bytes
    requires IsError(status) && k <= 4
    decreases 4 - k
  {
    if k == 4 then ""
    else if PageOf(s, Pattern(status, k)) != "" then PageOf(s, Pattern(status, k))
    else Search(s, status, k + 1)
  }

  /** The page serving a status has the fewest replaced digits. */
  lemma {:induction false} SearchIsFirst(s: Setup, status: int, k: nat)
    requires IsError(status) && k <= 4
    ensures var page := Search(s, status, k);
            && (page == "" <==> forall i :: k <= i < 4 ==> PageOf(s, Pattern(status, i)) == "")
            && (page != "" ==> exists i :: k <= i < 4 && PageOf(s, Pattern(status, i)) == page
                                     && forall j :: k <= j < i ==> PageOf(s, Pattern(status, j)) == "")
    decreases 4 - k
  {
    if k < 4 && PageOf(s, Pattern(status, k)) == "" {
      SearchIsFirst(s, status, k + 1);
    }
  }

  /** The file handler's answer to the request with the page for its URI. */
  function Served(s: Setup, page: Bytes, c: Ctx): Response
    requires s.fs.Some?
  {
    s.fs.value(c.(uri := page))
  }

  /** sendError for a given page: the file handler's answer, or the default page when it fails. */
  function ShowPage(s: Setup, page: Bytes, c: Ctx): Response
    requires IsError(c.response.status) && s.fs.Some?
  {
    var r := c.response;
    if page == "" then DefaultError(s, r)
    else if page == "-" then DefaultError(s, r.(body := ""))
    else if Served(s, page, c).status == 200 then Served(s, page, c).(status := r.status)
    else DefaultError(s, Served(s, page, c).(status := r.status, body := ""))
  }

  /** Handle without memo: search, then show. */
  function Serve(s: Setup, ctx: Ctx): Ctx {
    var r := ctx.response;
    if !IsError(r.status) then ctx
    else if s.fs.None? then ctx.(response := DefaultError(s, r))
    else ctx.(response := ShowPage(s, Search(s, r.status, 0), ctx))
  }

  lemma ServeKeepsStatus(s: Setup, ctx: Ctx)
    ensures Serve(s, ctx).response.status == ctx.response.status
    ensures Serve(s, ctx) == ctx.(response := Serve(s, ctx).response)
  {
  }

  // ----- The memo table -----

  type Table = seq<Option<Bytes>>

  /** The page fails in the file handler for this request. */
  predicate Failed(s: Setup, page: Bytes, c: Ctx) {
    s.fs.Some? && page != "" && page != "-" && Served(s, page, c).status != 200
  }

  /** The page a request with this error status is answered from: the remembered one, or the search's. */
  function PageUsed(s: Setup, t: Table, status: int): Bytes
    requires IsError(status) && |t| == STATUS_UNTIL - STATUS_OFFSET
  {
    var e := t[status - STATUS_OFFSET];
    if e.Some? then e.value else Search(s, status, 0)
  }

  /** The entry such a request leaves behind. */
  function EntryLeft(s: Setup, page: Bytes, c: Ctx): Option<Bytes> {
    Some(if Failed(s, page, c) then "-" else page)
  }

  /** The table and the response after answering from a page. */
  function Shown(s: Setup, t: Table, c: Ctx, page: Bytes): (Table, Response)
    requires IsError(c.response.status) && s.fs.Some? && |t| == STATUS_UNTIL - STATUS_OFFSET
  {
    (t[c.response.status - STATUS_OFFSET := EntryLeft(s, page, c)], ShowPage(s, page, c))
  }

  /** One request against the table: the table and the response afterwards. */
  function HandleStep(s: Setup, t: Table, c: Ctx): (Table, Response)
    requires |t| == STATUS_UNTIL - STATUS_OFFSET
  {
    if !IsError(c.response.status) then (t, c.response)
    else if s.fs.None? then (t, DefaultError(s, c.response))
    else Shown(s, t, c, PageUsed(s, t, c.response.status))
  }

  /** The table after a history of requests. */
  function After(s: Setup, history: seq<Ctx>): (t: Table)
    ensures |t| == STATUS_UNTIL - STATUS_OFFSET
    decreases |history|
  {
    if history == [] then seq(STATUS_UNTIL - STATUS_OFFSET, _ => None)
    else HandleStep(s, After(s, history[..|history| - 1]), history[|history| - 1]).0
  }

  /** The search's page for this status failed for this request, which had the status. */
  predicate Demotes(s: Setup, status: int, c: Ctx)
    requires IsError(status)
  {
    c.response.status == status && Failed(s, Search(s, status, 0), c)
  }

  /** An entry is unset, the search's answer, or the "-" for a page that failed for one of the requests. */
  predicate EntryOk(s: Setup, status: int, e: Option<Bytes>, history: seq<Ctx>)
    requires IsError(status)
  {
    || e.None?
    || e == Some(Search(s, status, 0))
    || (e == Some("-") && exists k :: 0 <= k < |history| && Demotes(s, status, history[k]))
  }

  ghost predicate TableOk(s: Setup, t: Table, history: seq<Ctx>) {
    |t| == STATUS_UNTIL - STATUS_OFFSET
    && forall i :: 0 <= i < |t| ==> EntryOk(s, STATUS_OFFSET + i, t[i], history)
  }

  lemma EntryStaysOk(s: Setup, status: int, e: Option<Bytes>, history: seq<Ctx>, c: Ctx)
    requires IsError(status) && EntryOk(s, status, e, history)
    ensures EntryOk(s, status, e, history + [c])
  {
    if e == Some("-") && e != Some(Search(s, status, 0)) {
      var k :| 0 <= k < |history| && Demotes(s, status, history[k]);
      assert Demotes(s, status, (history + [c])[k]);
    }
  }

  /** The entry a request leaves behind is of the same kind. */
  lemma EntryLeftOk(s: Setup, page: Bytes, history: seq<Ctx>, c: Ctx)
    requires IsError(c.response.status) && EntryOk(s, c.response.status, Some(page), history)
    ensures EntryOk(s, c.response.status, EntryLeft(s, page, c), history + [c])
  {
    EntryStaysOk(s, c.response.status, Some(page), history, c);
    if Failed(s, page, c) {
      assert Demotes(s, c.response.status, (history + [c])[|history|]);
    }
  }

  lemma PageUsedOk(s: Setup, t: Table, status: int, history: seq<Ctx>)
    requires IsError(status) && TableOk(s, t, history)
    ensures EntryOk(s, status, Some(PageUsed(s, t, status)), history)
  {
    assert EntryOk(s, STATUS_OFFSET + (status - STATUS_OFFSET), t[status - STATUS_OFFSET], history);
  }

  lemma TableGrows(s: Setup, t: Table, history: seq<Ctx>, c: Ctx)
    requires TableOk(s, t, history)
    ensures TableOk(s, t, history + [c])
  {
    forall i | 0 <= i < |t|
      ensures EntryOk(s, STATUS_OFFSET + i, t[i], history + [c])
    {
      EntryStaysOk(s, STATUS_OFFSET + i, t[i], history, c);
    }
  }

  lemma TableUpdate(s: Setup, t: Table, history: seq<Ctx>, status: int, e: Option<Bytes>)
    requires TableOk(s, t, history) && IsError(status) && EntryOk(s, status, e, history)
    ensures TableOk(s, t[status - STATUS_OFFSET := e], history)
  {
  }

  lemma StepKeepsTable(s: Setup, t: Table, history: seq<Ctx>, c: Ctx)
    requires TableOk(s, t, history)
    ensures TableOk(s, HandleStep(s, t, c).0, history + [c])
  {
    TableGrows(s, t, history, c);
    if IsError(c.response.status) && s.fs.Some? {
      var status := c.response.status;
      var page := PageUsed(s, t, status);
      PageUsedOk(s, t, status, history);
      EntryLeftOk(s, page, history, c);
      TableUpdate(s, t, history + [c], status, EntryLeft(s, page, c));
    }
  }

  /** After every history each entry is unset, the search's answer, or the demotion of a page that failed. */
  lemma {:induction false} TableStaysOk(s: Setup, history: seq<Ctx>)
    ensures TableOk(s, After(s, history), history)
    decreases |history|
  {
    if history != [] {
      var front, c := history[..|history| - 1], history[|history| - 1];
      TableStaysOk(s, front);
      StepKeepsTable(s, After(s, front), front, c);
      assert front + [c] == history;
    }
  }

  // ----- When the memo table cannot be seen -----

  /** What a client can tell apart. */
  predicate SameShown(a: Response, b: Response) {
    a.status == b.status && a.body == b.body && a.contentType == b.contentType
  }

  /** The page shows like the default page to this request. */
  predicate LooksDefault(s: Setup, page: Bytes, c: Ctx)
    requires IsError(c.response.status) && s.fs.Some?
  {
    SameShown(ShowPage(s, page, c), ShowPage(s, "-", c))
  }

  /** A page that fails for one request shows like the default page to every other request with that status. */
  ghost predicate Steady(s: Setup) {
    forall c0: Ctx, c: Ctx :: IsError(c.response.status) && Demotes(s, c.response.status, c0) ==>
      LooksDefault(s, Search(s, c.response.status, 0), c)
  }

  lemma StepAgrees(s: Setup, history: seq<Ctx>, c: Ctx)
    requires Steady(s)
    ensures SameShown(HandleStep(s, After(s, history), c).1, Serve(s, c).response)
  {
    if IsError(c.response.status) && s.fs.Some? {
      var status, t := c.response.status, After(s, history);
      TableStaysOk(s, history);
      PageUsedOk(s, t, status, history);
      if PageUsed(s, t, status) != Search(s, status, 0) {
        var k :| 0 <= k < |history| && Demotes(s, status, history[k]);
        assert LooksDefault(s, Search(s, status, 0), c);
      }
    }
  }

  /** One failing request in the history is enough to see it. */
  lemma DemotionShows(s: Setup, c0: Ctx, c: Ctx)
    requires IsError(c.response.status) && Demotes(s, c.response.status, c0)
    ensures HandleStep(s, After(s, [c0]), c).1 == ShowPage(s, "-", c)
    ensures Serve(s, c).response == ShowPage(s, Search(s, c.response.status, 0), c)
  {
    assert [c0][..0] == [] && [c0][0] == c0;
    var t0 := After(s, []);
    assert PageUsed(s, t0, c.response.status) == Search(s, c.response.status, 0);
    assert After(s, [c0]) == HandleStep(s, t0, c0).0;
  }

  /**
   * After every history of requests the memoised answer shows what the plain search would show, if and only if a page
   * that fails for one request shows like the default page to every other.
   */
  lemma {:induction false} MemoIsInvisible(s: Setup)
    ensures (forall history: seq<Ctx>, c: Ctx :: SameShown(HandleStep(s, After(s, history), c).1, Serve(s, c).response))
            <==> Steady(s)
  {
    if Steady(s) {
      forall history: seq<Ctx>, c: Ctx
        ensures SameShown(HandleStep(s, After(s, history), c).1, Serve(s, c).response)
      {
        StepAgrees(s, history, c);
      }
    } else {
      var c0: Ctx, c: Ctx :| IsError(c.response.status) && Demotes(s, c.response.status, c0)
                             && !LooksDefault(s, Search(s, c.response.status, 0), c);
      DemotionShows(s, c0, c);
    }
  }

  /** The file handler succeeds or fails by the path alone. */
  ghost predicate PathDecides(s: Setup) {
    forall page: Bytes, c0: Ctx, c: Ctx :: Failed(s, page, c0) ==> Failed(s, page, c)
  }

  lemma FixedPagesAreSteady(s: Setup)
    requires PathDecides(s)
    ensures Steady(s)
  {
    forall c0: Ctx, c: Ctx | IsError(c.response.status) && Demotes(s, c.response.status, c0)
      ensures LooksDefault(s, Search(s, c.response.status, 0), c)
    {
      assert Failed(s, Search(s, c.response.status, 0), c);
    }
  }

  ghost predicate Reached(s: Setup, t: Table) {
    exists history :: t == After(s, history)
  }

  lemma ReachedStep(s: Setup, t: Table, c: Ctx)
    requires Reached(s, t)
    ensures |t| == STATUS_UNTIL - STATUS_OFFSET && Reached(s, HandleStep(s, t, c).0)
    ensures Steady(s) ==> SameShown(HandleStep(s, t, c).1, Serve(s, c).response)
  {
    var history :| t == After(s, history);
    assert (history + [c])[..|history|] == history;
    assert HandleStep(s, t, c).0 == After(s, history + [c]);
    if Steady(s) {
      StepAgrees(s, history, c);
    }
  }

  // ----- The object -----

  class ErrorPages {
    const setup: Setup
    const errorPaths: array<Option<Bytes>>

    /** The table is the one some history of requests leaves. */
    ghost predicate Valid()
      reads this, errorPaths
    {
      errorPaths.Length == STATUS_UNTIL - STATUS_OFFSET && Reached(setup, errorPaths[..])
    }

    constructor (s: Setup)
      ensures Valid() && setup == s && fresh(errorPaths) && errorPaths[..] == After(s, [])
    {
      setup := s;
      errorPaths := new Option<Bytes>[200](_ => None);
      new;
      assert errorPaths[..] == After(s, []);
    }

    /** Handle, against the context's response; nothing else of the context changes. */
    method Handle(ctx: RequestCtx)
      requires Valid()
      modifies ctx, errorPaths
      ensures Valid()
      ensures var (t', r') := HandleStep(setup, old(errorPaths[..]), old(ctx.v));
              errorPaths[..] == t' && ctx.v == old(ctx.v).(response := r')
      ensures Steady(setup) ==> SameShown(ctx.v.response, Serve(setup, old(ctx.v)).response)
    {
      ghost var t, c := errorPaths[..], ctx.v;
      ReachedStep(setup, t, c);
      var status := ctx.v.response.status;
      if status < STATUS_OFFSET || status >= STATUS_UNTIL {
        return;
      }
      if setup.fs.None? {
        SendDefaultError(ctx);
        return;
      }
      SendPage(ctx);
    }

    /** The part of Handle for configured pages: the remembered one, or a search by patterns. */
    method SendPage(ctx: RequestCtx)
      requires IsError(ctx.v.response.status) && setup.fs.Some? && errorPaths.Length == 200
      modifies ctx, errorPaths
      ensures var c, t := old(ctx.v), old(errorPaths[..]);
              var (t', r') := Shown(setup, t, c, PageUsed(setup, t, c.response.status));
              errorPaths[..] == t' && ctx.v == c.(response := r')
    {
      var status := ctx.v.response.status;
      var path := errorPaths[status - STATUS_OFFSET];
      if path.Some? {
        SendError(ctx, path.value);
        return;
      }
      StatusDigits(status);
      var digits := Decimal(status);
      var sb := new char[3](i requires 0 <= i < 3 => digits[i]);
      assert sb[..] == digits == Pattern(status, 0);
      HandleStatus(ctx, sb, 3);
    }

    /**
     * handleStatus: sb holds the status with the digits after position l replaced; the search goes on from there and the
     * outcome is stored.
     */
    method HandleStatus(ctx: RequestCtx, sb: array<char>, l: int)
      requires IsError(ctx.v.response.status) && setup.fs.Some? && errorPaths.Length == 200
      requires sb.Length == 3 && -1 <= l <= 3
      requires l >= 0 ==> sb[..] == Pattern(ctx.v.response.status, if l == 3 then 0 else 2 - l)
      requires errorPaths[ctx.v.response.status - STATUS_OFFSET].None?
      modifies ctx, errorPaths, sb
      ensures var c := old(ctx.v);
              var (t', r') := Shown(setup, old(errorPaths[..]), c, Search(setup, c.response.status, 3 - l));
              errorPaths[..] == t' && ctx.v == old(ctx.v).(response := r')
      decreases l + 1
    {
      ghost var r, t := ctx.v.response, errorPaths[..];
      var status := ctx.v.response.status;
      if l < 0 {
        errorPaths[status - STATUS_OFFSET] := Some("");
        SendDefaultError(ctx);
        return;
      }
      if l < 3 {
        sb[l] := 'x';
      }
      assert sb[..] == Pattern(status, 3 - l);
      var page := PageOf(setup, sb[..]);
      if page != "" {
        assert Search(setup, r.status, 3 - l) == page;
        errorPaths[status - STATUS_OFFSET] := Some(page);
        assert errorPaths[..] == t[status - STATUS_OFFSET := Some(page)];
        SendError(ctx, page);
        return;
      }
      assert Search(setup, r.status, 3 - l) == Search(setup, r.status, 3 - (l - 1));
      HandleStatus(ctx, sb, l - 1);
    }

    /** sendError, for the page that is the entry of the response's status. */
    method SendError(ctx: RequestCtx, path: Bytes)
      requires IsError(ctx.v.response.status) && setup.fs.Some? && errorPaths.Length == 200
      requires errorPaths[ctx.v.response.status - STATUS_OFFSET] == Some(path)
      modifies ctx, errorPaths
      ensures var (t', r') := Shown(setup, old(errorPaths[..]), old(ctx.v), path);
              errorPaths[..] == t' && ctx.v == old(ctx.v).(response := r')
    {
      ghost var t, i := errorPaths[..], ctx.v.response.status - STATUS_OFFSET;
      assert t[i := t[i]] == t;
      if |path| == 0 {
        SendDefaultError(ctx);
        return;
      }
      if |path| == 1 && path[0] == '-' {
        ctx.v := ctx.v.(response := ctx.v.response.(body := ""));
        SendDefaultError(ctx);
        return;
      }
      var status := ctx.v.response.status;
      var statusFS := ServeFile(ctx, path);
      if statusFS != 200 {
        errorPaths[status - STATUS_OFFSET] := Some("-");
        ctx.v := ctx.v.(response := ctx.v.response.(body := ""));
        SendDefaultError(ctx);
      }
    }

    /** The file handler's response to the page, under the original status; the request gets its URI back. */
    method ServeFile(ctx: RequestCtx, path: Bytes) returns (statusFS: int)
      requires setup.fs.Some?
      modifies ctx
      ensures var c := old(ctx.v);
              var r := Served(setup, path, c);
              statusFS == r.status && ctx.v == c.(response := r.(status := c.response.status))
    {
      var status, uri := ctx.v.response.status, ctx.v.uri;
      ctx.v := ctx.v.(uri := path);
      ctx.v := ctx.v.(response := setup.fs.value(ctx.v));
      statusFS := ctx.v.response.status;
      ctx.v := ctx.v.(uri := uri);
      ctx.v := ctx.v.(response := ctx.v.response.(status := status));
    }

    method SendDefaultError(ctx: RequestCtx)
      requires IsError(ctx.v.response.status)
      modifies ctx
      ensures ctx.v == old(ctx.v).(response := DefaultError(setup, old(ctx.v.response)))
    {
      if |ctx.v.response.body| > 0 {
        return;
      }
      var body := DefaultBody(setup, ctx.v.response.status);
      ctx.v := ctx.v.(response := ctx.v.response.(contentType := HTML, body := body));
    }
  }
}
