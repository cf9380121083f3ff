/** `HttpClient` of src/http_client.py: a bounded retry loop around one HTTP
    request, with optional SOCKS5 proxy routing.  The network is replaced by
    the sequence of outcomes the successive attempts would have.
 */
module HttpClient {
  import opened Wrappers

  /** A response as `requests` returns it (only what the retry loop looks at). */
  datatype Response = Response(status: int, text: string)

  /** What one `session.request(...)` call does: it returns a response, or
      it raises (a connection error, a timeout, any other exception),
      described by the exception's text. */
  datatype Attempt = Responded(response: Response) | Raised(error: string)

  /** The exception `HttpClient.request` ends with when it does not return. */
  datatype RequestFailure =
    | HttpError(response: Response)   // raised by `raise_for_status`
    | RequestError(error: string)     // raised by `session.request` itself
    | AllFailed(count: int)           // "All {count} HTTP requests failed"

  /** The result of the request together with the number of attempts made. */
  datatype Outcome = Outcome(result: Result<Response, RequestFailure>, attempts: nat)

  /** The default `max_retry` of `HttpClient.request`. */
  const DefaultMaxRetry: int := 3

  /** `Response.raise_for_status` raises for 4xx and 5xx status codes. */
  predicate RaisesForStatus(status: int) {
    400 <= status < 600
  }

  /** An attempt that returns from the loop body. */
  predicate Succeeds(a: Attempt) {
    a.Responded? && !RaisesForStatus(a.response.status)
  }

  /** The exception a failing attempt raises in the loop body. */
  function ErrorOf(a: Attempt): RequestFailure
    requires !Succeeds(a)
  {
    match a
    case Responded(resp) => HttpError(resp)
    case Raised(e) => RequestError(e)
  }

  /** The loop from iteration `attempt` on: the first attempt that succeeds
      is returned, a failing one is retried while `attempt < maxRetry`, and
      the exception of the last one is re-raised. */
  function RequestFrom(outcomes: seq<Attempt>, maxRetry: nat, attempt: nat): (o: Outcome)
    requires attempt <= maxRetry < |outcomes|
    ensures attempt < o.attempts <= maxRetry + 1
    ensures forall k :: attempt <= k < o.attempts - 1 ==> !Succeeds(outcomes[k])
    ensures o.result.Success? ==>
      Succeeds(outcomes[o.attempts - 1]) && outcomes[o.attempts - 1].response == o.result.value
    ensures o.result.Failure? ==>
      o.attempts == maxRetry + 1 && !Succeeds(outcomes[maxRetry])
      && o.result.error == ErrorOf(outcomes[maxRetry])
    decreases maxRetry - attempt
  {
    var a := outcomes[attempt];
    if Succeeds(a) then Outcome(Success(a.response), attempt + 1)
    else if attempt < maxRetry then RequestFrom(outcomes, maxRetry, attempt + 1)
    else Outcome(Failure(ErrorOf(a)), attempt + 1)
  }

  /** `HttpClient.request(method, url, max_retry)`: `outcomes[k]` is what the
      k-th attempt would do.  At most `max_retry + 1` attempts are made; the
      first successful response is returned at once; when every attempt
      fails the last attempt's own exception propagates, and the generic
      "All N HTTP requests failed" is raised only when no attempt runs. */
  function Request(outcomes: seq<Attempt>, maxRetry: int): (o: Outcome)
    requires maxRetry < |outcomes|
    ensures maxRetry < 0 ==> o == Outcome(Failure(AllFailed(maxRetry + 1)), 0)
    ensures maxRetry >= 0 ==> 1 <= o.attempts <= maxRetry + 1
    ensures forall k :: 0 <= k < o.attempts - 1 ==> !Succeeds(outcomes[k])
    ensures o.result.Success? ==>
      o.attempts >= 1 && Succeeds(outcomes[o.attempts - 1])
      && outcomes[o.attempts - 1].response == o.result.value
    ensures o.result.Failure? && maxRetry >= 0 ==>
      o.attempts == maxRetry + 1 && !Succeeds(outcomes[maxRetry]) && o.result.error == ErrorOf(outcomes[maxRetry])
  {
    if maxRetry < 0 then Outcome(Failure(AllFailed(maxRetry + 1)), 0)
    else RequestFrom(outcomes, maxRetry, 0)
  }

  /** The request fails exactly when none of the first `max_retry + 1`
      attempts succeeds, and then all of them were made. */
  lemma RequestFailsIffAllAttemptsFail(outcomes: seq<Attempt>, maxRetry: int)
    requires maxRetry < |outcomes|
    ensures Request(outcomes, maxRetry).result.Failure?
      <==> forall k :: 0 <= k <= maxRetry ==> !Succeeds(outcomes[k])
    ensures Request(outcomes, maxRetry).result.Success? ==>
      exists k :: 0 <= k <= maxRetry && Succeeds(outcomes[k])
  {
    var o := Request(outcomes, maxRetry);
    if o.result.Success? {
      assert Succeeds(outcomes[o.attempts - 1]);
    }
  }

  /** Attempts after the first success are never looked at. */
  lemma RequestIgnoresLaterAttempts(outcomes: seq<Attempt>, other: seq<Attempt>, maxRetry: int, k: nat)
    requires maxRetry < |outcomes| && maxRetry < |other|
    requires k <= maxRetry && Succeeds(outcomes[k])
    requires outcomes[..k + 1] == other[..k + 1]
    ensures Request(outcomes, maxRetry) == Request(other, maxRetry)
  {
    RequestFromAgrees(outcomes, other, maxRetry, 0, k);
  }

  lemma {:induction false} RequestFromAgrees(outcomes: seq<Attempt>, other: seq<Attempt>, maxRetry: nat, attempt: nat, k: nat)
    requires attempt <= k <= maxRetry < |outcomes| && maxRetry < |other|
    requires Succeeds(outcomes[k])
    requires outcomes[..k + 1] == other[..k + 1]
    ensures RequestFrom(outcomes, maxRetry, attempt) == RequestFrom(other, maxRetry, attempt)
    decreases k - attempt
  {
    assert outcomes[attempt] == outcomes[..k + 1][attempt] == other[attempt];
    if !Succeeds(outcomes[attempt]) {
      assert attempt < k;
      RequestFromAgrees(outcomes, other, maxRetry, attempt + 1, k);
    }
  }

  /** With the default `max_retry`, a request makes four attempts before it
      gives up, and re-raises the fourth attempt's exception. */
  lemma DefaultRequestGivesUpAfterFour(outcomes: seq<Attempt>)
    requires |outcomes| == 4
    requires forall k :: 0 <= k < 4 ==> !Succeeds(outcomes[k])
    ensures Request(outcomes, DefaultMaxRetry) == Outcome(Failure(ErrorOf(outcomes[3])), 4)
  {
    RequestFailsIffAllAttemptsFail(outcomes, DefaultMaxRetry);
  }

  /** `_get_proxy`: without proxy data there is no proxy; otherwise both
      schemes go through the same SOCKS5 endpoint. */
  function GetProxy(proxyData: Option<string>): (r: Option<map<string, string>>)
    ensures r.None? <==> proxyData.None? || proxyData.value == ""
    ensures r.Some? ==>
      && r.value.Keys == {"http", "https"}
      && r.value["http"] == r.value["https"] == "socks5://" + proxyData.value
  {
    if proxyData.None? || proxyData.value == "" then None
    else
      var socks := "socks5://" + proxyData.value;
      Some(map["http" := socks, "https" := socks])
  }

  /** The proxy a new `HttpClient(use_proxy)` routes through: the explicit
      argument wins over the configured flag, and a disabled proxy is none. */
  function ClientProxy(useProxy: Option<bool>, configured: bool, proxyData: Option<string>): (r: Option<map<string, string>>)
    ensures !useProxy.GetOr(configured) ==> r.None?
    ensures useProxy.GetOr(configured) ==> r == GetProxy(proxyData)
  {
    if useProxy.GetOr(configured) then GetProxy(proxyData) else None
  }
}
