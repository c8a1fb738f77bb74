/**
 * The default retry policy: retry a response whose status code is in a
 * configured list, and every transport exception except an invalid argument.
 */
module RetryStrategy {
  import opened Http

  /** The status codes retried when the constructor is given no list. */
  const DefaultStatusCodes: seq<int> := [429, 500, 502, 503, 504]

  datatype DefaultRetryStrategy = DefaultRetryStrategy(statusCodes: seq<int>)

  /** The constructor: a given list replaces the default one entirely. */
  function NewDefaultRetryStrategy(statusCodes: Option<seq<int>>): (r: DefaultRetryStrategy)
    ensures statusCodes.Some? ==> r.statusCodes == statusCodes.value
    ensures statusCodes.None? ==> forall code :: code in r.statusCodes <==> code in {429, 500, 502, 503, 504}
  {
    DefaultRetryStrategy(if statusCodes.Some? then statusCodes.value else DefaultStatusCodes)
  }

  /** `onResponse`: whether the status code is one of the configured ones. */
  predicate OnResponse(policy: DefaultRetryStrategy, response: Response) {
    response.status in policy.statusCodes
  }

  /** `onException`: every transport exception but an invalid argument. */
  predicate OnException(policy: DefaultRetryStrategy, kind: TransportKind) {
    !kind.InvalidArgument?
  }

  /** With the default list: 429, 500, 502, 503 and 504 are retried, nothing else. */
  lemma DefaultStatusSet(response: Response)
    ensures OnResponse(NewDefaultRetryStrategy(None), response) <==> response.status in {429, 500, 502, 503, 504}
  {
  }

  /** A custom list is used alone: 503 is no longer retried under `[418]`. */
  lemma CustomListReplaces(response: Response)
    ensures OnResponse(NewDefaultRetryStrategy(Some([418])), response) <==> response.status == 418
  {
  }

  /** Only an invalid-argument exception is not retried, whatever the status list. */
  lemma OnExceptionKinds(policy: DefaultRetryStrategy)
    ensures !OnException(policy, InvalidArgument)
    ensures OnException(policy, Timeout) && OnException(policy, OtherTransport)
  {
  }
}
