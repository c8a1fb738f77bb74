/**
 * The retry layer over the promise client: the `delay` option the retry
 * layer sets on a retry is consumed by the client and never reaches the
 * transport.
 */
module StackFacts {
  import opened Http
  import opened DelayStrategy
  import opened RetryableHttpClient
  import opened PromiseClient

  /**
   * A positive delay from the strategy becomes the delay the client
   * applies; any other leaves the caller's own `delay` in force; either
   * way the transport receives the caller's options without `delay`.
   */
  lemma RetryDelayIsConsumed(options: Options, d: Delay)
    ensures TransportOptions(WithDelay(options, d)) == TransportOptions(options)
    ensures d.Millis? && d.ms > 0 ==> PositiveDelay(WithDelay(options, d)) == Some(d.ms)
    ensures !(d.Millis? && d.ms > 0) ==> PositiveDelay(WithDelay(options, d)) == PositiveDelay(options)
  {
    var r := WithDelay(options, d);
    assert TransportOptions(r).Keys == TransportOptions(options).Keys;
  }
}
