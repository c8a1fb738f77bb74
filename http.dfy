/**
 * Values that cross the boundary between the retry layer and the HTTP transport
 * it wraps: responses, the reasons a request can fail with, and the request
 * option bag.
 */
module Http {

  datatype Option<+T> = None | Some(value: T)

  /** Identity of one in-flight response object, as handed out by the transport. */
  type Handle = nat

  /**
   * A completed response as the retry layer sees it: its status code and its
   * headers, keyed by lower-case header name, each with its list of values.
   */
  datatype Response = Response(status: int, headers: map<string, seq<string>>)

  /** The transport exception classes that the retry layer tells apart. */
  datatype TransportKind =
    | InvalidArgument   // a malformed method, URL or option: raised before anything is sent
    | Timeout           // the idle timeout of a response was reached
    | OtherTransport    // any other network-level failure

  /**
   * Why a promise is rejected. `id` keeps apart two exceptions of the same
   * class, so that "rejected with the identical reason" can be stated.
   */
  datatype Reason =
    | TransportError(kind: TransportKind, id: nat)
    | Cancellation          // the promise was cancelled before it settled
    | RangeError            // the random draw of a jitter was asked for an empty range
    | OtherError(id: nat)   // any exception that is not a transport exception

  predicate IsTransport(r: Reason) { r.TransportError? }

  /** One value of the request option bag; only integers are told apart. */
  datatype OptionValue = IntValue(i: int) | OtherValue(text: string)

  type Options = map<string, OptionValue>

  /** The option this layer consumes: milliseconds to wait before issuing. */
  const DelayKey: string := "delay"

  /** How one issuance of a request ends: a response, or a rejection. */
  datatype Outcome = Fulfilled(response: Response) | Rejected(reason: Reason)
}
