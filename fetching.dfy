/**
 * Cursor pagination over the call-statistics source. The remote call is a
 * parameter: `provider(start)` is the response to a request for the page at
 * cursor `start` (the date range and line filter are fixed for one run).
 */
module Fetching {
  import opened Common
  import opened Records

  /** A response: either an error (its `error` key is set) or a page of records with an optional next cursor. */
  datatype Response = Response(
    error: Option<string>,
    errorDescription: string,
    result: seq<RawCall>,
    next: Option<int>)

  /** The cursor of the following request; an absent `next` reads as 0. */
  function NextCursor(resp: Response): int {
    match resp.next
    case Some(n) => n
    case None => 0
  }

  /** The request at `cursor` is the last one: it failed, or it announced no further page. */
  predicate IsLastRequest(provider: int -> Response, cursor: int) {
    provider(cursor).error.Some? || NextCursor(provider(cursor)) <= 0
  }

  /** Starting at `cursor`, the loop ends after at most `pages` requests. */
  ghost predicate StopsWithin(provider: int -> Response, cursor: int, pages: nat)
    decreases pages
  {
    if pages == 0 then false
    else IsLastRequest(provider, cursor) || StopsWithin(provider, NextCursor(provider(cursor)), pages - 1)
  }

  /** The cursors requested, in order, starting at `cursor`. */
  ghost function Requests(provider: int -> Response, cursor: int, pages: nat): (cs: seq<int>)
    requires StopsWithin(provider, cursor, pages)
    ensures 0 < |cs| <= pages && cs[0] == cursor
    ensures IsLastRequest(provider, cs[|cs| - 1])
    ensures forall k :: 0 <= k < |cs| - 1 ==>
      !IsLastRequest(provider, cs[k]) && cs[k + 1] == NextCursor(provider(cs[k]))
    decreases pages
  {
    if IsLastRequest(provider, cursor) then [cursor]
    else [cursor] + Requests(provider, NextCursor(provider(cursor)), pages - 1)
  }

  /** None of the responses to the requests at `cursors` is an error. */
  predicate NoErrors(provider: int -> Response, cursors: seq<int>) {
    forall c :: c in cursors ==> provider(c).error.None?
  }

  /** The records of the pages at `cursors`, concatenated in request order. */
  function Concat(provider: int -> Response, cursors: seq<int>): seq<RawCall> {
    if cursors == [] then []
    else provider(cursors[0]).result + Concat(provider, cursors[1..])
  }

  /** The message of the exception raised on an error response. */
  function FetchError(resp: Response): string {
    "Error fetching calls: " + resp.errorDescription
  }

  /** What the loop produces when started at `cursor` (the reference for FetchRawCalls). */
  ghost function Fetched(provider: int -> Response, cursor: int, pages: nat): Result<seq<RawCall>>
    requires StopsWithin(provider, cursor, pages)
    decreases pages
  {
    var resp := provider(cursor);
    if resp.error.Some? then Err(FetchError(resp))
    else if NextCursor(resp) <= 0 then Ok(resp.result)
    else match Fetched(provider, NextCursor(resp), pages - 1)
      case Ok(rest) => Ok(resp.result + rest)
      case Err(m) => Err(m)
  }

  /** The fetch succeeds exactly when none of the requested pages is an error. */
  lemma {:induction false} FetchedOkIff(provider: int -> Response, cursor: int, pages: nat)
    requires StopsWithin(provider, cursor, pages)
    ensures Fetched(provider, cursor, pages).Ok? <==> NoErrors(provider, Requests(provider, cursor, pages))
    decreases pages
  {
    var cs := Requests(provider, cursor, pages);
    if !IsLastRequest(provider, cursor) {
      var next := NextCursor(provider(cursor));
      FetchedOkIff(provider, next, pages - 1);
      assert cs == [cursor] + Requests(provider, next, pages - 1);
    } else {
      assert cs == [cursor];
    }
  }

  /** A successful fetch returns the requested pages' records concatenated in request order. */
  lemma {:induction false} FetchedValue(provider: int -> Response, cursor: int, pages: nat)
    requires StopsWithin(provider, cursor, pages)
    requires Fetched(provider, cursor, pages).Ok?
    ensures Fetched(provider, cursor, pages).value == Concat(provider, Requests(provider, cursor, pages))
    decreases pages
  {
    var cs := Requests(provider, cursor, pages);
    var resp := provider(cursor);
    if !IsLastRequest(provider, cursor) {
      var next := NextCursor(resp);
      FetchedValue(provider, next, pages - 1);
      var rest := Requests(provider, next, pages - 1);
      assert cs == [cursor] + rest;
      assert cs[1..] == rest;
    } else {
      assert cs == [cursor];
      assert Concat(provider, cs) == resp.result + Concat(provider, []);
      assert resp.result + [] == resp.result;
    }
  }

  /** A failed fetch carries the error of the last request, the one that failed. */
  lemma {:induction false} FetchedError(provider: int -> Response, cursor: int, pages: nat)
    requires StopsWithin(provider, cursor, pages)
    requires Fetched(provider, cursor, pages).Err?
    ensures var cs := Requests(provider, cursor, pages);
      && provider(cs[|cs| - 1]).error.Some?
      && Fetched(provider, cursor, pages).message == FetchError(provider(cs[|cs| - 1]))
    decreases pages
  {
    var cs := Requests(provider, cursor, pages);
    if !IsLastRequest(provider, cursor) {
      var next := NextCursor(provider(cursor));
      FetchedError(provider, next, pages - 1);
      var rest := Requests(provider, next, pages - 1);
      assert cs == [cursor] + rest;
      assert cs[|cs| - 1] == rest[|rest| - 1];
    }
  }

  /**
   * Requests pages from cursor 0 until `next` is absent or not positive,
   * appending each page's records; an error response raises.
   */
  method FetchRawCalls(provider: int -> Response, ghost pages: nat) returns (r: Result<seq<RawCall>>)
    requires StopsWithin(provider, 0, pages)
    ensures r == Fetched(provider, 0, pages)
    ensures var cs := Requests(provider, 0, pages);
      && (r.Ok? <==> NoErrors(provider, cs))
      && (r.Ok? ==> r.value == Concat(provider, cs))
  {
    var rawCalls: seq<RawCall> := [];
    var start := 0;
    ghost var fuel := pages;
    PrependEmpty(Fetched(provider, 0, pages));
    while true
      invariant StopsWithin(provider, start, fuel)
      invariant Fetched(provider, 0, pages) == Prepend(rawCalls, Fetched(provider, start, fuel))
      decreases fuel
    {
      var resp := provider(start);
      if resp.error.Some? {
        assert Fetched(provider, start, fuel) == Err(FetchError(resp));
        r := Err(FetchError(resp));
        FetchedOkIff(provider, 0, pages);
        return;
      }
      FetchedStep(provider, start, fuel, rawCalls);
      ghost var before := rawCalls;
      if resp.result != [] {
        rawCalls := rawCalls + resp.result;
      } else {
        assert rawCalls + resp.result == rawCalls;
      }
      assert rawCalls == before + resp.result;
      start := if resp.next.Some? then resp.next.value else 0;
      if start <= 0 {
        break;
      }
      fuel := fuel - 1;
    }
    r := Ok(rawCalls);
    FetchedOkIff(provider, 0, pages);
    FetchedValue(provider, 0, pages);
  }

  lemma PrependEmpty(r: Result<seq<RawCall>>)
    ensures Prepend([], r) == r
  {
    if r.Ok? {
      assert [] + r.value == r.value;
    }
  }

  /** One iteration: a page that is not an error moves its records into the prefix. */
  lemma FetchedStep(provider: int -> Response, cursor: int, fuel: nat, prefix: seq<RawCall>)
    requires StopsWithin(provider, cursor, fuel)
    requires provider(cursor).error.None?
    ensures var resp := provider(cursor);
      if NextCursor(resp) <= 0 then
        Prepend(prefix, Fetched(provider, cursor, fuel)) == Ok(prefix + resp.result)
      else
        && fuel > 0
        && StopsWithin(provider, NextCursor(resp), fuel - 1)
        && Prepend(prefix, Fetched(provider, cursor, fuel))
           == Prepend(prefix + resp.result, Fetched(provider, NextCursor(resp), fuel - 1))
  {
    var resp := provider(cursor);
    if NextCursor(resp) > 0 {
      match Fetched(provider, NextCursor(resp), fuel - 1) {
        case Ok(rest) =>
          assert prefix + (resp.result + rest) == (prefix + resp.result) + rest;
        case Err(m) =>
      }
    }
  }

  /** Puts `prefix` in front of a successful result; an error stays as it is. */
  function Prepend(prefix: seq<RawCall>, r: Result<seq<RawCall>>): Result<seq<RawCall>> {
    match r
    case Ok(rest) => Ok(prefix + rest)
    case Err(m) => Err(m)
  }
}
