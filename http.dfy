/**
 * What the model keeps of the HTTP fetcher: the request a pagination run
 * issues, the URL it is sent to, and the predicate that decides whether a
 * failed request is given up on instead of being retried.
 */
module Http {
  import opened Wrappers

  datatype HttpResponse = HttpResponse(statusCode: int)

  /** A failed request; `response` is absent when the server never answered. */
  datatype RequestException = RequestException(response: Option<HttpResponse>)

  /**
   * The give-up predicate of the retry policy: a failure is final when the
   * server answered with a 4xx status other than 408 (Request Timeout).
   */
  function ClientError(exc: RequestException): (giveUp: bool)
    ensures exc.response.None? ==> !giveUp
    ensures exc.response.Some? ==>
      (giveUp <==> 400 <= exc.response.value.statusCode < 500 && exc.response.value.statusCode != 408)
  {
    exc.response.Some? && exc.response.value.statusCode != 408 && 400 <= exc.response.value.statusCode < 500
  }

  /** Query parameters of a request; the only key ever set is `BOOKMARK`. */
  type Params = map<string, string>

  const BOOKMARK := "bookmark"

  /** One GET as issued by the pagination loop: the endpoint URL and the params passed along. */
  datatype Request = Request(url: string, params: Params)

  /** The URL actually fetched: a bookmark in the params becomes an extra path segment. */
  function RequestUrl(r: Request): (u: string)
    ensures r.url <= u
    ensures u == r.url <==> BOOKMARK !in r.params
    ensures BOOKMARK in r.params ==> u[|r.url|..] == "/" + r.params[BOOKMARK]
  {
    if BOOKMARK in r.params then r.url + "/" + r.params[BOOKMARK] else r.url
  }
}
