/** Routing results, their reusable buffers and the result pool (pkg/route/result.go). */
module Results {
  import opened Prelude

  /** What a Result says, without its buffers. */
  datatype ResultValue = ResultValue(
    statusCode: int,
    statusMessage: Bytes,
    rewriteUri: Bytes,
    redirectUri: Bytes,
    appendQueryString: bool,
    handler: string,
    filters: seq<string>,
    routeIndex: int)

  const EMPTY: ResultValue := ResultValue(0, "", "", "", false, "", [], 0)

  /** A Go slice that owns its backing array: data[..len], with data.Length as capacity. */
  class Buffer<T(0)> {
    var data: array<T>
    var len: nat

    ghost predicate Valid()
      reads this
    {
      len <= data.Length
    }

    ghost function Contents(): seq<T>
      requires Valid()
      reads this, data
    {
      data[..len]
    }

    constructor ()
      ensures Valid() && fresh(data) && Contents() == []
    {
      data := new T[0];
      len := 0;
    }

    /** s = s[:0]: the backing array is kept. */
    method Truncate()
      requires Valid()
      modifies this`len
      ensures Valid() && Contents() == []
    {
      len := 0;
    }

    /** s = append(s, xs...): written in place when the capacity allows it, otherwise into a new array. */
    method Append(xs: seq<T>)
      requires Valid()
      modifies this, data
      ensures Valid() && Contents() == old(Contents()) + xs
      ensures data == old(data) || fresh(data)
    {
      if len + |xs| > data.Length {
        var grown := new T[2 * (len + |xs|)];
        forall i | 0 <= i < len {
          grown[i] := data[i];
        }
        data := grown;
      }
      forall i | 0 <= i < |xs| {
        data[len + i] := xs[i];
      }
      len := len + |xs|;
    }
  }

  /** s = append(s[:0], xs...) */
  method Overwrite<T(0)>(b: Buffer<T>, xs: seq<T>)
    requires b.Valid()
    modifies b, b.data
    ensures b.Valid() && b.Contents() == xs
    ensures b.data == old(b.data) || fresh(b.data)
  {
    b.Truncate();
    b.Append(xs);
  }

  class Result {
    var statusCode: int
    const statusMessage: Buffer<char>
    const rewriteUri: Buffer<char>
    const redirectUri: Buffer<char>
    var appendQueryString: bool
    var handler: string
    const filters: Buffer<string>
    var routeIndex: int

    /** Everything a write to this result may touch: the record, its slices and their backing arrays. */
    ghost var Repr: set<object>

    ghost predicate Valid()
      reads this, Repr
    {
      && this in Repr && statusMessage in Repr && rewriteUri in Repr && redirectUri in Repr && filters in Repr
      && statusMessage.data in Repr && rewriteUri.data in Repr && redirectUri.data in Repr && filters.data in Repr
      && statusMessage.Valid() && rewriteUri.Valid() && redirectUri.Valid() && filters.Valid()
      && statusMessage != rewriteUri && statusMessage != redirectUri && rewriteUri != redirectUri
      && statusMessage.data != rewriteUri.data && statusMessage.data != redirectUri.data
      && rewriteUri.data != redirectUri.data
    }

    ghost function Value(): ResultValue
      requires Valid()
      reads this, Repr
    {
      ResultValue(statusCode, statusMessage.Contents(), rewriteUri.Contents(), redirectUri.Contents(),
                  appendQueryString, handler, filters.Contents(), routeIndex)
    }

    constructor ()
      ensures Valid() && fresh(Repr) && Value() == EMPTY
    {
      statusCode, appendQueryString, handler, routeIndex := 0, false, "", 0;
      statusMessage := new Buffer<char>();
      rewriteUri := new Buffer<char>();
      redirectUri := new Buffer<char>();
      filters := new Buffer<string>();
      new;
      Repr := {this, statusMessage, rewriteUri, redirectUri, filters,
               statusMessage.data, rewriteUri.data, redirectUri.data, filters.data};
    }

    method Reset()
      requires Valid()
      modifies Repr
      ensures Valid() && Value() == EMPTY && Repr == old(Repr)
    {
      statusCode := 0;
      statusMessage.Truncate();
      rewriteUri.Truncate();
      redirectUri.Truncate();
      appendQueryString := false;
      handler := "";
      filters.Truncate();
      routeIndex := 0;
    }

    /** r.StatusMessage = append(r.StatusMessage[:0], xs...) */
    method SetStatusMessage(xs: Bytes)
      requires Valid()
      modifies Repr
      ensures Valid() && Value() == old(Value()).(statusMessage := xs)
      ensures fresh(Repr - old(Repr))
    {
      Overwrite(statusMessage, xs);
      Repr := Repr + {statusMessage.data};
    }

    /** r.RewriteURI = append(r.RewriteURI[:0], xs...) */
    method SetRewriteUri(xs: Bytes)
      requires Valid()
      modifies Repr
      ensures Valid() && Value() == old(Value()).(rewriteUri := xs)
      ensures fresh(Repr - old(Repr))
    {
      Overwrite(rewriteUri, xs);
      Repr := Repr + {rewriteUri.data};
    }

    /** r.RedirectURI = append(r.RedirectURI, xs...) */
    method AppendRedirectUri(xs: Bytes)
      requires Valid()
      modifies Repr
      ensures Valid() && Value() == old(Value()).(redirectUri := old(Value()).redirectUri + xs)
      ensures fresh(Repr - old(Repr))
    {
      redirectUri.Append(xs);
      Repr := Repr + {redirectUri.data};
    }

    /** r.Filters = append(r.Filters[:0], xs...) */
    method SetFilters(xs: seq<string>)
      requires Valid()
      modifies Repr
      ensures Valid() && Value() == old(Value()).(filters := xs)
      ensures fresh(Repr - old(Repr))
    {
      Overwrite(filters, xs);
      Repr := Repr + {filters.data};
    }

    method SetScalars(statusCode: int, appendQueryString: bool, handler: string, routeIndex: int)
      requires Valid()
      modifies this`statusCode, this`appendQueryString, this`handler, this`routeIndex
      ensures Valid() && Value() == old(Value()).(statusCode := statusCode, appendQueryString := appendQueryString,
                                                  handler := handler, routeIndex := routeIndex)
    {
      this.statusCode := statusCode;
      this.appendQueryString := appendQueryString;
      this.handler := handler;
      this.routeIndex := routeIndex;
    }

    method FillUris(message: Bytes, rewrite: Bytes, redirect: Bytes)
      requires Valid()
      modifies Repr
      ensures Valid() && Value() == EMPTY.(statusMessage := message, rewriteUri := rewrite, redirectUri := redirect)
      ensures fresh(Repr - old(Repr))
    {
      Reset();
      SetStatusMessage(message);
      SetRewriteUri(rewrite);
      AppendRedirectUri(redirect);
    }

    method Fill(v: ResultValue)
      requires Valid()
      modifies Repr
      ensures Valid() && Value() == v
      ensures fresh(Repr - old(Repr))
    {
      FillUris(v.statusMessage, v.rewriteUri, v.redirectUri);
      SetFilters(v.filters);
      SetScalars(v.statusCode, v.appendQueryString, v.handler, v.routeIndex);
    }

    /** Copies into dst. Whatever dst held is gone, and dst shares no memory with this afterwards. */
    method CopyTo(dst: Result)
      requires Valid() && dst.Valid() && Repr !! dst.Repr
      modifies dst.Repr
      ensures Valid() && Value() == old(Value())
      ensures dst.Valid() && dst.Value() == Value()
      ensures Repr !! dst.Repr && fresh(dst.Repr - old(dst.Repr))
    {
      dst.Fill(ResultValue(
                 statusCode, statusMessage.data[..statusMessage.len], rewriteUri.data[..rewriteUri.len],
                 redirectUri.data[..redirectUri.len], appendQueryString, handler, filters.data[..filters.len],
                 routeIndex));
    }

    /** Result.Equal, which leaves RouteIndex out of the comparison. */
    method Equal(b: Result) returns (same: bool)
      requires Valid() && b.Valid()
      ensures same <==> Value() == b.Value().(routeIndex := routeIndex)
    {
      if filters.len != b.filters.len {
        return false;
      }
      for i := 0 to filters.len
        invariant filters.data[..i] == b.filters.data[..i]
      {
        if filters.data[i] != b.filters.data[i] {
          assert filters.Contents()[i] != b.filters.Contents()[i];
          return false;
        }
      }
      same := statusCode == b.statusCode
        && statusMessage.data[..statusMessage.len] == b.statusMessage.data[..b.statusMessage.len]
        && rewriteUri.data[..rewriteUri.len] == b.rewriteUri.data[..b.rewriteUri.len]
        && redirectUri.data[..redirectUri.len] == b.redirectUri.data[..b.redirectUri.len]
        && appendQueryString == b.appendQueryString
        && handler == b.handler;
    }
  }
}
