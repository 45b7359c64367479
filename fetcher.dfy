/**
  The JSON fetcher with rate-limit backoff (`fetch_json`).

  The network is a sequence of replies: the request sent on attempt `k`
  receives `replies[k]`. A reply is either an HTTP response (status code,
  optional `Retry-After` header text, decoded body) or a connection failure,
  which the HTTP library raises out of the fetcher at once. Sleeping is
  recorded as the list of requested delays in whole seconds; the random
  jitter added to each of them is not modelled.
*/
module Fetcher {
  import opened Wrappers

  const RATE_LIMITED := 429
  /** The default of `fetch_json`'s `retries`, which every caller uses. */
  const DEFAULT_RETRIES := 3

  datatype Reply<B> =
    | Response(status: int, retryAfter: Option<string>, body: B)
    | ConnectionFailed

  /** Why a fetch did not produce a body. */
  datatype Failure =
    | HttpError(status: int)   // raise_for_status on a 4xx or 5xx response
    | TransportError           // the request itself raised
    | NoResponse               // the loop sent no request at all (negative retries)
    | InvalidRetryAfter        // `int` raised ValueError on the Retry-After text (code as written)

  datatype Outcome<B> = Success(body: B) | Failed(failure: Failure)

  /** What one call of the fetcher did: the delays it slept, the requests it sent, its outcome. */
  datatype Fetch<B> = Fetch(delays: seq<nat>, requests: nat, outcome: Outcome<B>)

  predicate IsRateLimited<B>(r: Reply<B>) {
    r.Response? && r.status == RATE_LIMITED
  }

  /** The `Retry-After` header of a reply, if any. */
  function HeaderOf<B>(r: Reply<B>): Option<string> {
    if r.Response? then r.retryAfter else None
  }

  /** `raise_for_status` followed by reading the body. */
  function RaiseForStatus<B>(status: int, body: B): (o: Outcome<B>)
    ensures o.Failed? <==> 400 <= status < 600
    ensures o.Failed? ==> o.failure == HttpError(status)
    ensures o.Success? ==> o.body == body
  {
    if 400 <= status < 600 then Failed(HttpError(status)) else Success(body)
  }

  /** What a reply that ends the loop turns into. */
  function Settle<B>(r: Reply<B>): Outcome<B> {
    match r
    case ConnectionFailed => Failed(TransportError)
    case Response(status, _, body) => RaiseForStatus(status, body)
  }

  function Pow2(n: nat): (p: nat)
    ensures p >= 1
  {
    if n == 0 then 1 else 2 * Pow2(n - 1)
  }

  predicate IsAsciiDigit(c: char) {
    '0' <= c <= '9'
  }

  /** The value of a string of ASCII decimal digits, as Python's `int` reads it. */
  function DecimalValue(s: string): nat
    requires forall i :: 0 <= i < |s| ==> IsAsciiDigit(s[i])
  {
    if s == [] then 0
    else 10 * DecimalValue(s[..|s| - 1]) + DigitValue(s[|s| - 1])
  }

  function DigitValue(c: char): nat
    requires IsAsciiDigit(c)
  {
    c as int - '0' as int
  }

  predicate IsDecimal(s: string) {
    s != [] && forall i :: 0 <= i < |s| ==> IsAsciiDigit(s[i])
  }

  /**
    The delay requested after a 429 on attempt `attempt`: the server's
    `Retry-After` when it is a decimal number, otherwise `2 ** attempt`.
    This is the corrected reading of the header test (see PyRetryDelay).
  */
  function RetryDelay(header: Option<string>, attempt: nat): nat {
    if header.Some? && IsDecimal(header.value) then DecimalValue(header.value) else Pow2(attempt)
  }

  // ---------------------------------------------------------------------------
  // The header test as written: `retry_after and retry_after.isdigit()` and then
  // `int(retry_after)`. Header text is decoded as ISO-8859-1, where `isdigit`
  // also holds for the superscripts U+00B9, U+00B2 and U+00B3, which `int`
  // refuses with a ValueError.

  predicate PyIsDigitChar(c: char) {
    IsAsciiDigit(c) || c == '¹' || c == '²' || c == '³'
  }

  predicate PyIsDigit(s: string) {
    s != [] && forall i :: 0 <= i < |s| ==> PyIsDigitChar(s[i])
  }

  datatype ValueError = ValueError

  /** The delay as the source computes it, with the ValueError it can raise. */
  function PyRetryDelay(header: Option<string>, attempt: nat): (r: Result<nat, ValueError>)
    ensures r.Err? <==> header.Some? && PyIsDigit(header.value) && !IsDecimal(header.value)
    ensures r.Ok? ==> r.value == RetryDelay(header, attempt)
  {
    if header.Some? && PyIsDigit(header.value) then
      if IsDecimal(header.value) then Ok(DecimalValue(header.value)) else Err(ValueError)
    else
      Ok(Pow2(attempt))
  }

  /** A `Retry-After: ²` header makes the source raise instead of backing off. */
  lemma SuperscriptRetryAfterRaises(attempt: nat)
    ensures PyRetryDelay(Some("²"), attempt) == Err(ValueError)
    ensures RetryDelay(Some("²"), attempt) == Pow2(attempt)
  {
    assert !IsAsciiDigit("²"[0]);
  }

  // ---------------------------------------------------------------------------
  // The loop, as a specification function from attempt `attempt` on.

  /** What the loop does from attempt `attempt` on, `last` being the previous reply. */
  function Run<B>(replies: seq<Reply<B>>, retries: int, attempt: nat, last: Option<Reply<B>>): Fetch<B>
    requires retries < |replies|
    decreases retries + 1 - attempt
  {
    if attempt >= retries + 1 then
      Fetch([], 0, if last.Some? then Settle(last.value) else Failed(NoResponse))
    else if !IsRateLimited(replies[attempt]) then
      Fetch([], 1, Settle(replies[attempt]))
    else
      var rest := Run(replies, retries, attempt + 1, Some(replies[attempt]));
      Fetch([RetryDelay(HeaderOf(replies[attempt]), attempt)] + rest.delays, 1 + rest.requests, rest.outcome)
  }

  /** The whole call `fetch_json(url, retries)`. */
  function FetchSpec<B>(replies: seq<Reply<B>>, retries: int): Fetch<B>
    requires retries < |replies|
  {
    Run(replies, retries, 0, None)
  }

  method FetchJson<B>(replies: seq<Reply<B>>, retries: int) returns (delays: seq<nat>, requests: nat, outcome: Outcome<B>)
    requires retries < |replies|
    ensures Fetch(delays, requests, outcome) == FetchSpec(replies, retries)
  {
    delays, requests := [], 0;
    var last: Option<Reply<B>> := None;
    var attempt: nat := 0;
    while attempt < retries + 1
      invariant attempt <= |replies|
      invariant requests == attempt
      invariant attempt > 0 ==> last == Some(replies[attempt - 1]) && IsRateLimited(replies[attempt - 1])
      invariant attempt == 0 ==> last == None
      invariant var rest := Run(replies, retries, attempt, last);
        FetchSpec(replies, retries) == Fetch(delays + rest.delays, requests + rest.requests, rest.outcome)
      decreases retries + 1 - attempt
    {
      var response := replies[attempt];
      requests := requests + 1;
      last := Some(response);
      if !IsRateLimited(response) {
        outcome := Settle(response);
        return;
      }
      var delay := RetryDelay(HeaderOf(response), attempt);
      delays := delays + [delay];
      attempt := attempt + 1;
    }
    if last.Some? {
      outcome := Settle(last.value);
    } else {
      outcome := Failed(NoResponse);
    }
  }

  /**
    The loop as written: the delay is `PyRetryDelay`, and its ValueError ends
    the call right after the request that received the 429.
  */
  function PyRun<B>(replies: seq<Reply<B>>, retries: int, attempt: nat, last: Option<Reply<B>>): Fetch<B>
    requires retries < |replies|
    decreases retries + 1 - attempt
  {
    if attempt >= retries + 1 then
      Fetch([], 0, if last.Some? then Settle(last.value) else Failed(NoResponse))
    else if !IsRateLimited(replies[attempt]) then
      Fetch([], 1, Settle(replies[attempt]))
    else
      match PyRetryDelay(HeaderOf(replies[attempt]), attempt)
      case Err(_) => Fetch([], 1, Failed(InvalidRetryAfter))
      case Ok(delay) =>
        var rest := PyRun(replies, retries, attempt + 1, Some(replies[attempt]));
        Fetch([delay] + rest.delays, 1 + rest.requests, rest.outcome)
  }

  function PyFetchSpec<B>(replies: seq<Reply<B>>, retries: int): Fetch<B>
    requires retries < |replies|
  {
    PyRun(replies, retries, 0, None)
  }

  /** A header the code as written accepts without raising. */
  predicate ParsesAsWritten<B>(r: Reply<B>, attempt: nat) {
    PyRetryDelay(HeaderOf(r), attempt).Ok?
  }

  lemma {:induction false} PyRunAgrees<B>(replies: seq<Reply<B>>, retries: int, attempt: nat, last: Option<Reply<B>>)
    requires retries < |replies|
    requires forall j :: attempt <= j <= retries && IsRateLimited(replies[j]) ==> ParsesAsWritten(replies[j], j)
    ensures PyRun(replies, retries, attempt, last) == Run(replies, retries, attempt, last)
    decreases retries + 1 - attempt
  {
    if attempt < retries + 1 && IsRateLimited(replies[attempt]) {
      assert ParsesAsWritten(replies[attempt], attempt);
      PyRunAgrees(replies, retries, attempt + 1, Some(replies[attempt]));
    }
  }

  /** The correction changes nothing unless some reply carries a header `isdigit` accepts and `int` refuses. */
  lemma PyFetchAgrees<B>(replies: seq<Reply<B>>, retries: int)
    requires retries < |replies|
    requires forall j :: 0 <= j <= retries && IsRateLimited(replies[j]) ==> ParsesAsWritten(replies[j], j)
    ensures PyFetchSpec(replies, retries) == FetchSpec(replies, retries)
  {
    PyRunAgrees(replies, retries, 0, None);
  }

  /**
    One retry, a 429 with `Retry-After: ²` and then a 200: as written the call
    raises after one request; corrected, it sleeps one second and returns the body.
  */
  lemma SuperscriptAbortsFetch()
    ensures var replies: seq<Reply<int>> := [Response(429, Some("²"), 0), Response(200, None, 7)];
      && PyFetchSpec(replies, 1) == Fetch([], 1, Failed(InvalidRetryAfter))
      && FetchSpec(replies, 1) == Fetch([1], 2, Success(7))
  {
    var replies: seq<Reply<int>> := [Response(429, Some("²"), 0), Response(200, None, 7)];
    SuperscriptRetryAfterRaises(0);
    assert HeaderOf(replies[0]) == Some("²");
    assert !IsRateLimited(replies[1]);
  }

  // ---------------------------------------------------------------------------
  // Properties of the retry policy.

  /** At most `retries + 1` requests, and at least one when `retries >= 0`. */
  lemma {:induction false} RunRequests<B>(replies: seq<Reply<B>>, retries: int, attempt: nat, last: Option<Reply<B>>)
    requires retries < |replies|
    ensures var f := Run(replies, retries, attempt, last);
      f.requests <= if attempt <= retries + 1 then retries + 1 - attempt else 0
    ensures attempt < retries + 1 ==> Run(replies, retries, attempt, last).requests >= 1
    decreases retries + 1 - attempt
  {
    if attempt < retries + 1 && IsRateLimited(replies[attempt]) {
      RunRequests(replies, retries, attempt + 1, Some(replies[attempt]));
    }
  }

  lemma FetchRequestBound<B>(replies: seq<Reply<B>>, retries: int)
    requires retries < |replies|
    ensures retries >= 0 ==> 1 <= FetchSpec(replies, retries).requests <= retries + 1
    ensures retries < 0 ==> FetchSpec(replies, retries) == Fetch([], 0, Failed(NoResponse))
  {
    RunRequests(replies, retries, 0, None);
  }

  /**
    From attempt `attempt` on, when replies `attempt .. k-1` are 429s and
    reply `k` is not: `k - attempt + 1` requests, one delay per 429, and the
    outcome of reply `k`.
  */
  lemma {:induction false} RunStops<B>(replies: seq<Reply<B>>, retries: int, attempt: nat, last: Option<Reply<B>>, k: nat)
    requires retries < |replies|
    requires attempt <= k <= retries
    requires forall j :: attempt <= j < k ==> IsRateLimited(replies[j])
    requires !IsRateLimited(replies[k])
    ensures var f := Run(replies, retries, attempt, last);
      && f.requests == k - attempt + 1
      && |f.delays| == k - attempt
      && f.outcome == Settle(replies[k])
      && forall j :: attempt <= j < k ==> f.delays[j - attempt] == RetryDelay(HeaderOf(replies[j]), j)
    decreases k - attempt
  {
    if attempt < k {
      RunStops(replies, retries, attempt + 1, Some(replies[attempt]), k);
    }
  }

  /** The first reply that is not a 429 ends the fetch and decides its outcome. */
  lemma FetchStopsAtFirstNonRateLimited<B>(replies: seq<Reply<B>>, retries: int, k: nat)
    requires retries < |replies|
    requires k <= retries
    requires forall j :: 0 <= j < k ==> IsRateLimited(replies[j])
    requires !IsRateLimited(replies[k])
    ensures var f := FetchSpec(replies, retries);
      && f.requests == k + 1
      && |f.delays| == k
      && f.outcome == Settle(replies[k])
      && forall j :: 0 <= j < k ==> f.delays[j] == RetryDelay(HeaderOf(replies[j]), j)
  {
    RunStops(replies, retries, 0, None, k);
  }

  lemma {:induction false} RunExhausted<B>(replies: seq<Reply<B>>, retries: int, attempt: nat, last: Option<Reply<B>>)
    requires retries < |replies|
    requires attempt <= retries + 1
    requires attempt > 0 ==> last == Some(replies[attempt - 1]) && IsRateLimited(replies[attempt - 1])
    requires forall j :: attempt <= j <= retries ==> IsRateLimited(replies[j])
    requires retries >= 0
    ensures var f := Run(replies, retries, attempt, last);
      && f.requests == retries + 1 - attempt
      && |f.delays| == retries + 1 - attempt
      && f.outcome == Failed(HttpError(RATE_LIMITED))
      && forall j :: attempt <= j <= retries ==> f.delays[j - attempt] == RetryDelay(HeaderOf(replies[j]), j)
    decreases retries + 1 - attempt
  {
    if attempt < retries + 1 {
      RunExhausted(replies, retries, attempt + 1, Some(replies[attempt]));
    }
  }

  /**
    `retries + 1` consecutive 429s: every one of them is followed by a sleep,
    the last one included, and the fetch then fails with that 429.
  */
  lemma FetchExhausted<B>(replies: seq<Reply<B>>, retries: int)
    requires 0 <= retries < |replies|
    requires forall j :: 0 <= j <= retries ==> IsRateLimited(replies[j])
    ensures var f := FetchSpec(replies, retries);
      && f.requests == retries + 1
      && |f.delays| == retries + 1
      && f.outcome == Failed(HttpError(RATE_LIMITED))
      && forall j :: 0 <= j <= retries ==> f.delays[j] == RetryDelay(HeaderOf(replies[j]), j)
  {
    RunExhausted(replies, retries, 0, None);
  }

  /** Without a usable header the delays are 1, 2, 4, 8, ... */
  lemma BackoffDoubles(header: Option<string>, attempt: nat)
    requires header.None? || !IsDecimal(header.value)
    ensures RetryDelay(header, attempt + 1) == 2 * RetryDelay(header, attempt)
  {
  }

  /** A decimal header is used as it is, whatever the attempt. */
  lemma {:induction false} RetryAfterHonoured(attempt: nat)
    ensures RetryDelay(Some("2"), attempt) == 2
    ensures RetryDelay(Some("120"), attempt) == 120
  {
    assert IsDecimal("2");
    assert DecimalValue("2") == 2;
    assert IsDecimal("120") by {
      assert forall i :: 0 <= i < 3 ==> IsAsciiDigit("120"[i]);
    }
    assert "120"[..2] == "12" && "12"[..1] == "1" && "1"[..0] == "";
    assert DecimalValue("120") == 120;
  }

  /** With the default three retries, four 429s in a row: four requests, four sleeps, then the 429. */
  lemma DefaultRetriesMakeFourAttempts<B>(replies: seq<Reply<B>>)
    requires |replies| == DEFAULT_RETRIES + 1
    requires forall j :: 0 <= j < |replies| ==> IsRateLimited(replies[j])
    ensures FetchSpec(replies, DEFAULT_RETRIES).requests == 4
    ensures |FetchSpec(replies, DEFAULT_RETRIES).delays| == 4
    ensures FetchSpec(replies, DEFAULT_RETRIES).outcome == Failed(HttpError(RATE_LIMITED))
  {
    FetchExhausted(replies, DEFAULT_RETRIES);
  }
}
