/** `HttpRequest` of the top-level settings.py, the older client kept for
    backward compatibility: every exception is retried, the status code is
    never checked, and the give-up error counts the attempts.
 */
module LegacySettings {
  import opened Wrappers
  import Text
  import HttpClient

  /** The default `max_retry` of `HttpRequest.request`. */
  const LegacyMaxRetry: int := 2

  /** The exception `HttpRequest.request` ends with. */
  datatype LegacyFailure = AllFailedDie(count: int)

  datatype LegacyOutcome = LegacyOutcome(result: Result<HttpClient.Response, LegacyFailure>, attempts: nat)

  /** The text of the give-up exception. */
  function FailureText(f: LegacyFailure): string {
    "All " + Text.IntToString(f.count) + " HTTP requests failed, die."
  }

  function LegacyFrom(outcomes: seq<HttpClient.Attempt>, maxRetry: nat, attempt: nat): (o: LegacyOutcome)
    requires attempt <= maxRetry + 1 <= |outcomes|
    ensures attempt <= o.attempts <= maxRetry + 1
    ensures forall k :: attempt <= k < o.attempts - 1 ==> outcomes[k].Raised?
    ensures o.result.Success? ==>
      o.attempts > attempt && outcomes[o.attempts - 1] == HttpClient.Responded(o.result.value)
    ensures o.result.Failure? ==>
      o.attempts == maxRetry + 1 && o.result.error == AllFailedDie(maxRetry + 1)
      && forall k :: attempt <= k <= maxRetry ==> outcomes[k].Raised?
    decreases maxRetry + 1 - attempt
  {
    if attempt == maxRetry + 1 then LegacyOutcome(Failure(AllFailedDie(maxRetry + 1)), attempt)
    else match outcomes[attempt]
      case Responded(resp) => LegacyOutcome(Success(resp), attempt + 1)
      case Raised(_) => LegacyFrom(outcomes, maxRetry, attempt + 1)
  }

  /** `HttpRequest.request(method, url, max_retry)`: the first attempt that
      raises nothing is returned whatever its status code; after
      `max_retry + 1` raising attempts it gives up with
      "All {max_retry + 1} HTTP requests failed, die.". */
  function LegacyRequest(outcomes: seq<HttpClient.Attempt>, maxRetry: int): (o: LegacyOutcome)
    requires maxRetry < |outcomes|
    ensures o.attempts <= if maxRetry < 0 then 0 else maxRetry + 1
    ensures forall k :: 0 <= k < o.attempts - 1 ==> outcomes[k].Raised?
    ensures o.result.Success? ==>
      o.attempts >= 1 && outcomes[o.attempts - 1] == HttpClient.Responded(o.result.value)
    ensures o.result.Failure? <==>
      forall k :: 0 <= k <= maxRetry ==> outcomes[k].Raised?
    ensures o.result.Failure? ==> o.result.error == AllFailedDie(maxRetry + 1)
    ensures maxRetry >= 0 && o.result.Failure? ==> o.attempts == maxRetry + 1
  {
    if maxRetry < 0 then LegacyOutcome(Failure(AllFailedDie(maxRetry + 1)), 0)
    else
      var o := LegacyFrom(outcomes, maxRetry, 0);
      assert o.result.Success? ==> outcomes[o.attempts - 1].Responded?;
      o
  }

  /** On attempts that never come back with a 4xx or 5xx status, the old and
      the new client return the same response after the same attempts. */
  lemma {:induction false} ClientsAgreeWithoutErrorStatus(outcomes: seq<HttpClient.Attempt>, maxRetry: nat, attempt: nat)
    requires attempt <= maxRetry < |outcomes|
    requires forall k :: 0 <= k < |outcomes| && outcomes[k].Responded? ==>
      !HttpClient.RaisesForStatus(outcomes[k].response.status)
    requires exists k :: attempt <= k <= maxRetry && outcomes[k].Responded?
    ensures LegacyFrom(outcomes, maxRetry, attempt).result.Success?
    ensures HttpClient.RequestFrom(outcomes, maxRetry, attempt).result
      == Success(LegacyFrom(outcomes, maxRetry, attempt).result.value)
    ensures HttpClient.RequestFrom(outcomes, maxRetry, attempt).attempts
      == LegacyFrom(outcomes, maxRetry, attempt).attempts
    decreases maxRetry - attempt
  {
    if outcomes[attempt].Raised? {
      var k :| attempt <= k <= maxRetry && outcomes[k].Responded?;
      assert k != attempt;
      ClientsAgreeWithoutErrorStatus(outcomes, maxRetry, attempt + 1);
    }
  }

  /** A 5xx answer is retried by the new client but returned by the old one. */
  lemma ServerErrorReturnedOnlyByLegacy(outcomes: seq<HttpClient.Attempt>, maxRetry: nat)
    requires maxRetry < |outcomes|
    requires outcomes[0].Responded? && outcomes[0].response.status == 503
    ensures LegacyRequest(outcomes, maxRetry) == LegacyOutcome(Success(outcomes[0].response), 1)
    ensures HttpClient.Request(outcomes, maxRetry).result != Success(outcomes[0].response)
      || HttpClient.Request(outcomes, maxRetry).attempts > 1
  {
  }

  /** With the default `max_retry`, three raising attempts end the request
      with the error for three attempts. */
  lemma LegacyDefaultGivesUpAfterThree(outcomes: seq<HttpClient.Attempt>)
    requires |outcomes| == 3 && outcomes[0].Raised? && outcomes[1].Raised? && outcomes[2].Raised?
    ensures LegacyRequest(outcomes, LegacyMaxRetry) == LegacyOutcome(Failure(AllFailedDie(3)), 3)
  {
    assert LegacyFrom(outcomes, 2, 2) == LegacyFrom(outcomes, 2, 3);
    assert LegacyFrom(outcomes, 2, 1) == LegacyFrom(outcomes, 2, 2);
  }

  /** The give-up message for three attempts. */
  lemma FailureTextOfThree()
    ensures FailureText(AllFailedDie(3)) == "All 3 HTTP requests failed, die."
  {
    assert Text.IntToString(3) == "3";
  }

  /** `_get_proxy`: both schemes through 'socks5://' + PROXY_DATA; with
      PROXY_DATA unset the concatenation raises a `TypeError`. */
  function LegacyProxy(proxyData: Option<string>): (r: Result<map<string, string>, string>)
    ensures r.Failure? <==> proxyData.None?
    ensures r.Success? ==>
      && r.value.Keys == {"http", "https"}
      && r.value["http"] == r.value["https"] == "socks5://" + proxyData.value
  {
    match proxyData
    case None => Failure("TypeError")
    case Some(d) =>
      var socks := "socks5://" + d;
      Success(map["http" := socks, "https" := socks])
  }

  /** `use_proxy_option`: USE_PROXY, defaulting to 'False', lower-cased and
      compared with 'true'. */
  function UseProxyOption(useProxyEnv: Option<string>): (b: bool)
    ensures b <==> useProxyEnv.Some? && Text.IsTrueInAnyCase(useProxyEnv.value)
  {
    Text.LowerIsTrue(useProxyEnv.GetOr("False"));
    Text.Lower(useProxyEnv.GetOr("False")) == "true"
  }

  /** The proxy the module-level `req` client uses: none unless the option
      is on, and then the SOCKS5 map (or the `TypeError` of an unset
      PROXY_DATA). */
  function ModuleProxy(useProxyEnv: Option<string>, proxyData: Option<string>): (r: Result<Option<map<string, string>>, string>)
    ensures !UseProxyOption(useProxyEnv) ==> r == Success(None)
    ensures UseProxyOption(useProxyEnv) ==> (r.Failure? <==> proxyData.None?)
    ensures UseProxyOption(useProxyEnv) && r.Success? ==> r.value == Some(LegacyProxy(proxyData).value)
  {
    if !UseProxyOption(useProxyEnv) then Success(None)
    else match LegacyProxy(proxyData)
      case Success(m) => Success(Some(m))
      case Failure(e) => Failure(e)
  }
}
