/**
 * The parts of a request context the handlers look at. Parsing of URIs and the response's defaults belong to the HTTP
 * library.
 */
module Http {
  import opened Prelude

  datatype Response = Response(status: int, message: Bytes, contentType: Bytes, body: Bytes)

  /** Response.Reset: the library reads an unset status as 200. */
  const FRESH: Response := Response(200, "", "", "")

  /** The request's method, URI and headers, and the response under construction. */
  datatype Ctx = Ctx(verb: Bytes, uri: Bytes, headers: map<string, Bytes>, response: Response)

  /** The context object that handlers mutate. */
  class RequestCtx {
    var v: Ctx

    constructor (v: Ctx)
      ensures this.v == v
    {
      this.v := v;
    }
  }
}
