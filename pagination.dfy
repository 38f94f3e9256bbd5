/**
 * The pagination loop `gen_request`. The API is abstracted as the sequence
 * of responses one pagination run over an endpoint URL receives: the i-th
 * request of the run gets the i-th response, and past the last one the
 * server does not answer.
 */
module Pagination {
  import opened Wrappers
  import opened Json
  import opened Http
  import opened Errors
  import opened Seqs
  import opened Urls

  /** The page size of the API: a page with fewer rows is the last one. */
  const PER_PAGE := 100

  /** A decoded response body: row arrays by key, and the continuation bookmark if the body has one. */
  datatype Page = Page(arrays: map<string, seq<Object>>, bookmark: Option<string>)

  /** What a request produced: a page, or the exception `request` raised after its retries. */
  datatype Response = Received(page: Page) | Raised(exc: RequestException)

  /** The responses of the API by endpoint URL, in the order one pagination run requests them. */
  type Api = map<string, seq<Response>>

  function ResponsesFor(api: Api, url: string): seq<Response>
  {
    if url in api then api[url] else []
  }

  /** The response to the request with index `i`; beyond the recorded ones there is no answer. */
  function ResponseAt(responses: seq<Response>, i: nat): Response
  {
    if i < |responses| then responses[i] else Raised(RequestException(None))
  }

  /** The response is a page that holds rows under `key`. */
  predicate HasRows(r: Response, key: string)
  {
    r.Received? && key in r.page.arrays
  }

  function RowsOf(r: Response, key: string): seq<Object>
    requires HasRows(r, key)
  {
    r.page.arrays[key]
  }

  /** A page with a full set of rows, after which the loop asks for more. */
  predicate FullPage(r: Response, key: string)
  {
    HasRows(r, key) && |RowsOf(r, key)| >= PER_PAGE
  }

  /** The exception a response that carries no rows under `key` raises. */
  function FailureOf(r: Response, key: string): TapError
  {
    if r.Raised? then RequestFailed(r.exc) else MissingKey(key)
  }

  /** The params after a page: a contacts source carries the page's bookmark on, or drops all params. */
  function NextParams(source: string, params: Params, page: Page): (r: Params)
    ensures !Contains(source, "contact") ==> r == params
    ensures forall k :: k in r ==> k in params || k == BOOKMARK
    ensures Contains(source, "contact") ==> (BOOKMARK in r <==> page.bookmark.Some?)
    ensures Contains(source, "contact") && page.bookmark.Some? ==> r[BOOKMARK] == page.bookmark.value
  {
    if Contains(source, "contact") then
      if page.bookmark.Some? then params[BOOKMARK := page.bookmark.value] else map[]
    else params
  }

  /** The outcome of a pagination run: rows yielded, requests issued, and the exception that ended it, if any. */
  datatype Pagination = Pagination(rows: seq<Object>, requests: seq<Request>, failure: Option<TapError>)

  function Append(a: Pagination, b: Pagination): Pagination
  {
    Pagination(a.rows + b.rows, a.requests + b.requests, b.failure)
  }

  /** The run from request `i` on, with `params` as that request's params. */
  function PaginateFrom(url: string, source: string, key: string, params: Params,
                        responses: seq<Response>, i: nat): Pagination
    requires i <= |responses|
    decreases |responses| - i
  {
    var request := Request(url, params);
    var r := ResponseAt(responses, i);
    if !HasRows(r, key) then Pagination([], [request], Some(FailureOf(r, key)))
    else if |RowsOf(r, key)| < PER_PAGE then Pagination(RowsOf(r, key), [request], None)
    else Append(Pagination(RowsOf(r, key), [request], None),
                PaginateFrom(url, source, key, NextParams(source, params, r.page), responses, i + 1))
  }

  /** A whole pagination run over `url`, starting from `params`. */
  function Paginate(url: string, params: Params, responses: seq<Response>): Pagination
  {
    match ParseSourceFromUrl(url)
    case Err(e) => Pagination([], [], Some(e))
    case Ok(source) => PaginateFrom(url, source, ParseKeyFromSource(source), params, responses, 0)
  }

  /**
   * gen_request: request pages until one has fewer than PER_PAGE rows,
   * yielding every row; for a contacts source the bookmark of each page is
   * carried into the next request.
   */
  method GenRequest(url: string, params: Params, responses: seq<Response>) returns (result: Pagination)
    ensures result == Paginate(url, params, responses)
  {
    var parsed := ParseSourceFromUrl(url);
    if parsed.Err? {
      return Pagination([], [], Some(parsed.error));
    }
    var source := parsed.value;
    result := RequestPages(url, source, ParseKeyFromSource(source), params, responses);
  }

  /** The `while True` loop of gen_request, once the source and its row key are known. */
  method RequestPages(url: string, source: string, sourceKey: string, params: Params, responses: seq<Response>)
    returns (result: Pagination)
    ensures result == PaginateFrom(url, source, sourceKey, params, responses, 0)
  {
    var current := params;
    var rows: seq<Object> := [];
    var requests: seq<Request> := [];
    var i := 0;
    while true
      invariant i <= |responses|
      invariant PaginateFrom(url, source, sourceKey, params, responses, 0)
        == Append(Pagination(rows, requests, None), PaginateFrom(url, source, sourceKey, current, responses, i))
      decreases |responses| - i
    {
      var sent := current;
      requests := requests + [Request(url, sent)];
      var data := ResponseAt(responses, i);
      PaginateFromStep(url, source, sourceKey, sent, responses, i);
      if data.Raised? {
        return Pagination(rows, requests, Some(RequestFailed(data.exc)));
      }
      if Contains(source, "contact") {
        if data.page.bookmark.Some? {
          current := current[BOOKMARK := data.page.bookmark.value];
        } else {
          current := map[];
        }
      }
      if sourceKey !in data.page.arrays {
        return Pagination(rows, requests, Some(MissingKey(sourceKey)));
      }
      var page := data.page.arrays[sourceKey];
      rows := rows + page;
      if |page| < PER_PAGE {
        break;
      }
      i := i + 1;
    }
    return Pagination(rows, requests, None);
  }

  /** How the run from request `i` begins, case by case, and how it goes on after a full page. */
  lemma PaginateFromStep(url: string, source: string, key: string, params: Params, responses: seq<Response>, i: nat)
    requires i <= |responses|
    ensures ResponseAt(responses, i).Raised? ==>
      PaginateFrom(url, source, key, params, responses, i)
        == Pagination([], [Request(url, params)], Some(RequestFailed(ResponseAt(responses, i).exc)))
    ensures ResponseAt(responses, i).Received? && !HasRows(ResponseAt(responses, i), key) ==>
      PaginateFrom(url, source, key, params, responses, i)
        == Pagination([], [Request(url, params)], Some(MissingKey(key)))
    ensures HasRows(ResponseAt(responses, i), key) && !FullPage(ResponseAt(responses, i), key) ==>
      PaginateFrom(url, source, key, params, responses, i)
        == Pagination(RowsOf(ResponseAt(responses, i), key), [Request(url, params)], None)
    ensures FullPage(ResponseAt(responses, i), key) ==>
      && i + 1 <= |responses|
      && forall rows: seq<Object>, requests: seq<Request> ::
        Append(Pagination(rows, requests, None), PaginateFrom(url, source, key, params, responses, i))
          == Append(Pagination(rows + RowsOf(ResponseAt(responses, i), key), requests + [Request(url, params)], None),
                    PaginateFrom(url, source, key, NextParams(source, params, ResponseAt(responses, i).page), responses, i + 1))
  {
    var r := ResponseAt(responses, i);
    if FullPage(r, key) {
      forall rows: seq<Object>, requests: seq<Request>
        ensures Append(Pagination(rows, requests, None), PaginateFrom(url, source, key, params, responses, i))
          == Append(Pagination(rows + RowsOf(r, key), requests + [Request(url, params)], None),
                    PaginateFrom(url, source, key, NextParams(source, params, r.page), responses, i + 1))
      {
        AppendStep(rows, requests, RowsOf(r, key), Request(url, params),
                   PaginateFrom(url, source, key, NextParams(source, params, r.page), responses, i + 1));
      }
    }
  }

  /** Moving one page's rows and request from a run's tail into its head. */
  lemma AppendStep(rows: seq<Object>, requests: seq<Request>, page: seq<Object>, request: Request, rest: Pagination)
    ensures Append(Pagination(rows, requests, None), Append(Pagination(page, [request], None), rest))
         == Append(Pagination(rows + page, requests + [request], None), rest)
  {
    assert rows + (page + rest.rows) == rows + page + rest.rows;
    assert requests + ([request] + rest.requests) == requests + [request] + rest.requests;
  }

  // ----- what a run yields and requests -----

  /** Every response with index in [lo, hi) is a page holding rows under `key`. */
  predicate AllHaveRows(responses: seq<Response>, key: string, lo: nat, hi: nat)
  {
    forall j :: lo <= j < hi ==> HasRows(ResponseAt(responses, j), key)
  }

  /** The rows of the pages with index in [lo, hi), concatenated in page order. */
  function YieldedFrom(responses: seq<Response>, key: string, lo: nat, hi: nat): seq<Object>
    requires AllHaveRows(responses, key, lo, hi)
    decreases hi - lo
  {
    if hi <= lo then []
    else RowsOf(ResponseAt(responses, lo), key) + YieldedFrom(responses, key, lo + 1, hi)
  }

  /** Where the run from request `i` stops: after full pages only, at the first page that is not full. */
  lemma {:induction false} PaginateFromStops(url: string, source: string, key: string, params: Params,
                                             responses: seq<Response>, i: nat)
    requires i <= |responses|
    ensures var p := PaginateFrom(url, source, key, params, responses, i);
      var last := i + |p.requests| - 1;
      && i <= last <= |responses|
      && (forall j :: i <= j < last ==> FullPage(ResponseAt(responses, j), key))
      && !FullPage(ResponseAt(responses, last), key)
      && (p.failure.None? <==> HasRows(ResponseAt(responses, last), key))
      && (p.failure.Some? ==> p.failure.value == FailureOf(ResponseAt(responses, last), key))
    decreases |responses| - i
  {
    var r := ResponseAt(responses, i);
    if HasRows(r, key) && |RowsOf(r, key)| >= PER_PAGE {
      PaginateFromStops(url, source, key, NextParams(source, params, r.page), responses, i + 1);
    }
  }

  /** The rows of the run from request `i` on: those of every page up to where it stops, in page order. */
  lemma {:induction false} PaginateFromRows(url: string, source: string, key: string, params: Params,
                                            responses: seq<Response>, i: nat)
    requires i <= |responses|
    ensures var p := PaginateFrom(url, source, key, params, responses, i);
      var last := i + |p.requests| - 1;
      && AllHaveRows(responses, key, i, last)
      && (p.failure.None? ==> HasRows(ResponseAt(responses, last), key))
      && p.rows == YieldedFrom(responses, key, i, last)
                   + (if p.failure.None? then RowsOf(ResponseAt(responses, last), key) else [])
    decreases |responses| - i
  {
    var r := ResponseAt(responses, i);
    if HasRows(r, key) && |RowsOf(r, key)| >= PER_PAGE {
      var next := NextParams(source, params, r.page);
      PaginateFromRows(url, source, key, next, responses, i + 1);
      var q := PaginateFrom(url, source, key, next, responses, i + 1);
      var last := i + 1 + |q.requests| - 1;
      assert YieldedFrom(responses, key, i, last) == RowsOf(r, key) + YieldedFrom(responses, key, i + 1, last);
    }
  }

  /** `next` is the params of the request issued after response `r` to a request with params `prev`. */
  predicate Follows(source: string, prev: Params, r: Response, next: Params)
  {
    r.Received? && next == NextParams(source, prev, r.page)
  }

  /** The requests of the run from request `i` on: all to `url`, each with the params the previous page implies. */
  lemma {:induction false} PaginateFromRequests(url: string, source: string, key: string, params: Params,
                                                responses: seq<Response>, i: nat)
    requires i <= |responses|
    ensures var p := PaginateFrom(url, source, key, params, responses, i);
      && |p.requests| >= 1
      && p.requests[0] == Request(url, params)
      && (forall j :: 0 <= j < |p.requests| ==> p.requests[j].url == url)
      && (forall j :: 0 <= j < |p.requests| - 1 ==>
            Follows(source, p.requests[j].params, ResponseAt(responses, i + j), p.requests[j + 1].params))
    decreases |responses| - i
  {
    var r := ResponseAt(responses, i);
    if HasRows(r, key) && |RowsOf(r, key)| >= PER_PAGE {
      var next := NextParams(source, params, r.page);
      PaginateFromRequests(url, source, key, next, responses, i + 1);
      var q := PaginateFrom(url, source, key, next, responses, i + 1);
      var p := PaginateFrom(url, source, key, params, responses, i);
      assert p.requests == [Request(url, params)] + q.requests;
      forall j | 0 <= j < |p.requests| - 1
        ensures Follows(source, p.requests[j].params, ResponseAt(responses, i + j), p.requests[j + 1].params)
      {
        if j > 0 {
          assert p.requests[j + 1] == q.requests[(j - 1) + 1];
          assert p.requests[j] == q.requests[j - 1];
          assert i + j == (i + 1) + (j - 1);
        }
      }
    }
  }

  /**
   * A run over a parsable URL ends right after the first page that is not
   * full: every earlier page was full, the rows of all pages up to and
   * including that one (when it holds rows) are yielded in page order, and a
   * response without rows ends the run with its exception.
   */
  lemma PaginationShape(url: string, params: Params, responses: seq<Response>)
    requires ParseSourceFromUrl(url).Ok?
    ensures var key := ParseKeyFromSource(ParseSourceFromUrl(url).value);
      var p := Paginate(url, params, responses);
      var last := |p.requests| - 1;
      && 0 <= last <= |responses|
      && (forall j :: 0 <= j < last ==> FullPage(ResponseAt(responses, j), key))
      && !FullPage(ResponseAt(responses, last), key)
      && (p.failure.None? <==> HasRows(ResponseAt(responses, last), key))
      && (p.failure.Some? ==> p.failure.value == FailureOf(ResponseAt(responses, last), key))
      && AllHaveRows(responses, key, 0, last)
      && p.rows == YieldedFrom(responses, key, 0, last)
                   + (if p.failure.None? then RowsOf(ResponseAt(responses, last), key) else [])
  {
    var source := ParseSourceFromUrl(url).value;
    PaginateFromStops(url, source, ParseKeyFromSource(source), params, responses, 0);
    PaginateFromRows(url, source, ParseKeyFromSource(source), params, responses, 0);
  }

  /**
   * Where the source loops for as long as full pages arrive, the run here
   * ends when the recorded responses do: after all of them, one more
   * request raises with no response.
   */
  lemma FullPagesRunOut(url: string, params: Params, responses: seq<Response>)
    requires ParseSourceFromUrl(url).Ok?
    requires var key := ParseKeyFromSource(ParseSourceFromUrl(url).value);
      forall j :: 0 <= j < |responses| ==> FullPage(ResponseAt(responses, j), key)
    ensures var p := Paginate(url, params, responses);
      && |p.requests| == |responses| + 1
      && p.failure == Some(RequestFailed(RequestException(None)))
  {
    PaginationShape(url, params, responses);
  }

  /** Full pages followed by a short one: the run stops after the short page, bookmark or not. */
  lemma StopsAtFirstShortPage(url: string, params: Params, responses: seq<Response>, m: nat)
    requires ParseSourceFromUrl(url).Ok?
    requires var key := ParseKeyFromSource(ParseSourceFromUrl(url).value);
      && (forall j :: 0 <= j < m ==> FullPage(ResponseAt(responses, j), key))
      && HasRows(ResponseAt(responses, m), key) && |RowsOf(ResponseAt(responses, m), key)| < PER_PAGE
    ensures var key := ParseKeyFromSource(ParseSourceFromUrl(url).value);
      var p := Paginate(url, params, responses);
      && |p.requests| == m + 1
      && p.failure.None?
      && AllHaveRows(responses, key, 0, m)
      && p.rows == YieldedFrom(responses, key, 0, m) + RowsOf(ResponseAt(responses, m), key)
  {
    var key := ParseKeyFromSource(ParseSourceFromUrl(url).value);
    var p := Paginate(url, params, responses);
    PaginationShape(url, params, responses);
  }

  /** Pages of exactly PER_PAGE rows contribute PER_PAGE rows each. */
  lemma {:induction false} YieldedFromExactPages(responses: seq<Response>, key: string, lo: nat, hi: nat)
    requires lo <= hi
    requires forall j :: lo <= j < hi ==>
      HasRows(ResponseAt(responses, j), key) && |RowsOf(ResponseAt(responses, j), key)| == PER_PAGE
    ensures AllHaveRows(responses, key, lo, hi)
    ensures |YieldedFrom(responses, key, lo, hi)| == (hi - lo) * PER_PAGE
    decreases hi - lo
  {
    if lo < hi {
      YieldedFromExactPages(responses, key, lo + 1, hi);
    }
  }

  /** `m` pages of exactly PER_PAGE rows and then a short page: m * PER_PAGE + (its size) rows, m + 1 requests. */
  lemma FullPagesThenShortCount(url: string, params: Params, responses: seq<Response>, m: nat)
    requires ParseSourceFromUrl(url).Ok?
    requires var key := ParseKeyFromSource(ParseSourceFromUrl(url).value);
      && (forall j :: 0 <= j < m ==>
            HasRows(ResponseAt(responses, j), key) && |RowsOf(ResponseAt(responses, j), key)| == PER_PAGE)
      && HasRows(ResponseAt(responses, m), key) && |RowsOf(ResponseAt(responses, m), key)| < PER_PAGE
    ensures var key := ParseKeyFromSource(ParseSourceFromUrl(url).value);
      var p := Paginate(url, params, responses);
      |p.requests| == m + 1 && p.failure.None?
      && |p.rows| == m * PER_PAGE + |RowsOf(ResponseAt(responses, m), key)|
  {
    StopsAtFirstShortPage(url, params, responses, m);
    YieldedFromExactPages(responses, ParseKeyFromSource(ParseSourceFromUrl(url).value), 0, m);
  }

  /**
   * For a contacts source, the request after a page carries that page's
   * bookmark as an extra path segment, and a page without a bookmark clears
   * the params.
   */
  lemma ContactBookmarkCarried(url: string, params: Params, responses: seq<Response>, j: nat)
    requires ParseSourceFromUrl(url).Ok? && Contains(ParseSourceFromUrl(url).value, "contact")
    requires j + 1 < |Paginate(url, params, responses).requests|
    ensures ResponseAt(responses, j).Received?
    ensures var rs := Paginate(url, params, responses).requests;
      var b := ResponseAt(responses, j).page.bookmark;
      && (b.Some? ==> rs[j + 1].params == rs[j].params[BOOKMARK := b.value]
                      && RequestUrl(rs[j + 1]) == url + "/" + b.value)
      && (b.None? ==> rs[j + 1].params == map[] && RequestUrl(rs[j + 1]) == url)
  {
    var source := ParseSourceFromUrl(url).value;
    var key := ParseKeyFromSource(source);
    PaginateFromStops(url, source, key, params, responses, 0);
    PaginateFromRequests(url, source, key, params, responses, 0);
    assert FullPage(ResponseAt(responses, j), key);
    var rs := Paginate(url, params, responses).requests;
    assert Follows(source, rs[j].params, ResponseAt(responses, 0 + j), rs[j + 1].params);
  }

  /** A source without "contact" in its name repeats the initial params in every request. */
  lemma NonContactParamsFixed(url: string, params: Params, responses: seq<Response>)
    requires ParseSourceFromUrl(url).Ok? && !Contains(ParseSourceFromUrl(url).value, "contact")
    ensures var rs := Paginate(url, params, responses).requests;
      forall j :: 0 <= j < |rs| ==> rs[j] == Request(url, params)
  {
    var source := ParseSourceFromUrl(url).value;
    var key := ParseKeyFromSource(source);
    PaginateFromRequests(url, source, key, params, responses, 0);
    var rs := Paginate(url, params, responses).requests;
    var j := 0;
    while j < |rs|
      invariant j <= |rs|
      invariant forall k :: 0 <= k < j ==> rs[k] == Request(url, params)
    {
      if j > 0 {
        assert Follows(source, rs[j - 1].params, ResponseAt(responses, 0 + (j - 1)), rs[j - 1 + 1].params);
      }
      j := j + 1;
    }
  }
}
