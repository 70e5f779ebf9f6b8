/**
 * The outbound gateway `send_to_api` (main.py:262-318): one rate-limit gate,
 * then at most `retries + 1` POST requests. A non-200 status gives up at
 * once; a 200 whose `output` is empty or whose body is not JSON, and a
 * transport exception, use up one attempt each; the first non-empty
 * `output` is returned and stamps the time of the last successful call.
 *
 * Time is counted in integer milliseconds. The requests themselves are not
 * modelled: the i-th request gets the i-th element of `responses`.
 */
module Gateway {
  import opened Wrappers

  /** `API_INTERVAL` (one second), in milliseconds. */
  const ApiInterval: int := 1000

  /** The value `output` of the JSON body's `output` field (`""` when absent), or a body `response.json()` rejects. */
  datatype Body = Json(output: string) | NotJson

  /** What one `requests.post` call yields. */
  datatype Response = Http(status: int, body: Body) | TransportFault

  /** A 200 carrying a non-empty `output`: the call succeeds with that text. */
  predicate Delivers(r: Response)
  {
    r.Http? && r.status == 200 && r.body.Json? && r.body.output != ""
  }

  /** A non-200 status: the call gives up without further attempts. */
  predicate Rejects(r: Response)
  {
    r.Http? && r.status != 200
  }

  /** An exception, or a 200 with empty or unreadable output: one attempt used up. */
  predicate Retryable(r: Response)
  {
    !Delivers(r) && !Rejects(r)
  }

  /** How many times `while attempt <= retries` can run. */
  function MaxAttempts(retries: int): nat
  {
    if retries < 0 then 0 else retries + 1
  }

  /**
   * `n` requests were made and `result` returned: every response but the
   * last was retryable, the loop stopped early only on a response that was
   * not, and the result is the last response's text exactly when it
   * delivered one.
   */
  ghost predicate IsRun(responses: seq<Response>, retries: int, result: Option<string>, n: nat)
  {
    && n <= MaxAttempts(retries)
    && n <= |responses|
    && (forall k :: 0 <= k < n - 1 ==> Retryable(responses[k]))
    && (n < MaxAttempts(retries) ==> n > 0 && !Retryable(responses[n - 1]))
    && result == (if n > 0 && Delivers(responses[n - 1]) then Some(responses[n - 1].body.output) else None)
  }

  /**
   * The attempt loop of `send_to_api` (main.py:278-318), consuming one
   * response per request; `n` is the number of requests made.
   */
  method Attempts(responses: seq<Response>, retries: int) returns (result: Option<string>, n: nat)
    requires |responses| >= MaxAttempts(retries)
    ensures IsRun(responses, retries, result, n)
  {
    var attempt := 0;
    while attempt <= retries
      invariant 0 <= attempt <= MaxAttempts(retries)
      invariant forall k :: 0 <= k < attempt ==> Retryable(responses[k])
    {
      var response := responses[attempt];
      if response.Http? {
        if response.status != 200 {
          return None, attempt + 1;
        }
        var outputText := if response.body.Json? then response.body.output else "";
        if outputText == "" {
          attempt := attempt + 1;
          if attempt <= retries {
            continue;
          } else {
            return None, attempt;
          }
        }
        return Some(outputText), attempt + 1;
      }
      // a transport exception: logged, then the next attempt
      attempt := attempt + 1;
    }
    return None, attempt;
  }

  /** A run is determined by the responses: there is only one `n` and one result. */
  lemma RunIsUnique(responses: seq<Response>, retries: int, r1: Option<string>, n1: nat, r2: Option<string>, n2: nat)
    requires IsRun(responses, retries, r1, n1) && IsRun(responses, retries, r2, n2)
    ensures n1 == n2 && r1 == r2
  {
  }

  /** A non-200 at attempt k ends the run there with nothing, whatever retries remain. */
  lemma RejectionStops(responses: seq<Response>, retries: int, result: Option<string>, n: nat, k: nat)
    requires IsRun(responses, retries, result, n)
    requires k < MaxAttempts(retries) && k < |responses| && Rejects(responses[k])
    requires forall j :: 0 <= j < k ==> Retryable(responses[j])
    ensures n == k + 1 && result == None
  {
  }

  /** The first response delivering text ends the run, and that text is returned unchanged. */
  lemma FirstDeliveryReturned(responses: seq<Response>, retries: int, result: Option<string>, n: nat, k: nat)
    requires IsRun(responses, retries, result, n)
    requires k < MaxAttempts(retries) && k < |responses| && Delivers(responses[k])
    requires forall j :: 0 <= j < k ==> Retryable(responses[j])
    ensures n == k + 1 && result == Some(responses[k].body.output)
  {
  }

  /** Only retryable responses: every attempt is used and nothing is returned. */
  lemma AllRetryableExhausts(responses: seq<Response>, retries: int, result: Option<string>, n: nat)
    requires IsRun(responses, retries, result, n)
    requires forall j :: 0 <= j < |responses| ==> Retryable(responses[j])
    ensures n == MaxAttempts(retries) && result == None
  {
  }

  /** With `retries = 1` and a server answering 200 with empty output, exactly two requests are made. */
  lemma EmptyOutputTwice(responses: seq<Response>, result: Option<string>, n: nat)
    requires |responses| == 2
    requires forall j :: 0 <= j < 2 ==> responses[j] == Http(200, Json(""))
    requires IsRun(responses, 1, result, n)
    ensures n == 2 && result == None
  {
    AllRetryableExhausts(responses, 1, result, n);
  }

  /** The tick at which the first request goes out, once the gate has slept the deficit. */
  function DispatchTime(now: int, lastCall: int): (t: int)
    ensures t >= now
    ensures t >= lastCall + ApiInterval
    ensures t == now || t == lastCall + ApiInterval
  {
    var elapsed := now - lastCall;
    if elapsed < ApiInterval then now + (ApiInterval - elapsed) else now
  }

  /** Holder of the module-level `LAST_API_CALL`. */
  class ApiClient {
    /** Tick of the last call that returned text (`LAST_API_CALL`). */
    var lastApiCall: int

    constructor ()
      ensures lastApiCall == 0
    {
      lastApiCall := 0;
    }

    /**
     * `send_to_api(data, retries)` called at tick `now`: the gate runs once,
     * the first request goes out at `dispatchedAt`, and `LAST_API_CALL`
     * becomes `successClock` (the clock when the text arrived) only on
     * success.
     */
    method SendToApi(now: int, responses: seq<Response>, retries: int, successClock: int)
      returns (result: Option<string>, requests: nat, dispatchedAt: int)
      requires |responses| >= MaxAttempts(retries)
      requires successClock >= DispatchTime(now, lastApiCall)
      modifies this
      ensures dispatchedAt == DispatchTime(now, old(lastApiCall))
      ensures IsRun(responses, retries, result, requests)
      ensures lastApiCall == if result.Some? then successClock else old(lastApiCall)
    {
      var elapsed := now - lastApiCall;
      var clock := now;
      if elapsed < ApiInterval {
        var waitTime := ApiInterval - elapsed;
        clock := clock + waitTime;
      }
      dispatchedAt := clock;
      result, requests := Attempts(responses, retries);
      if result.Some? {
        lastApiCall := successClock;
      }
    }
  }

  /**
   * After a successful call, the next call's first request goes out at least
   * `API_INTERVAL` after the previous one went out.
   */
  lemma SpacedAfterSuccess(now1: int, last: int, successClock: int, now2: int)
    requires successClock >= DispatchTime(now1, last)
    ensures DispatchTime(now2, successClock) >= DispatchTime(now1, last) + ApiInterval
  {
  }
}
