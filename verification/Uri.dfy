/** URI helpers (pkg/util/http.go). */
module Uris {
  import opened Prelude

  predicate IsHttpOrHttps(uri: Bytes) {
    HasPrefix(uri, "http://") || HasPrefix(uri, "https://")
  }

  predicate IsHttpStatusRedirect(status: int) {
    status == 301 || status == 302 || status == 303 || status == 307 || status == 308
  }

  /** The path component of SplitRequestURI: what precedes the first '?'. */
  function PathOf(uri: Bytes): (p: Bytes)
    ensures HasPrefix(uri, p) && '?' !in p
    ensures p == uri || uri[|p|] == '?'
  {
    uri[..IndexOf(uri, '?')]
  }

  function AppendQueryString(uri: Bytes, query: Bytes): Bytes {
    uri + (if '?' in uri then "&" else "?") + query
  }
}
