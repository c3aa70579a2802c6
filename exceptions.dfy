/** The exceptions the library raises or lets through, as one error type. */
module Exceptions {
  import opened Wrappers

  datatype Failure =
    /** pymcws.exceptions.UnresolvableKeyError(key, message): the lookup service rejected the key. */
    | UnresolvableKey(key: string, message: Option<string>)
    /** requests.HTTPError, raised by `raise_for_status` for a 4xx or 5xx status. */
    | HttpError(status: int)
    /** Any other requests.RequestException: no reply was received at all. */
    | ConnectionFailed
    /** KeyError: a dictionary was indexed with a key it does not hold. */
    | KeyError(key: string)
    /** IndexError: a list was indexed out of range. */
    | IndexError(index: int)
    /** ValueError: `int()` of a text that is not an integer, or `range()` with step 0. */
    | ValueError(text: string)
    /** TypeError: an operation applied to a value of the wrong type (e.g. `None + str`). */
    | TypeError
    /** AttributeError: a string method called on None. */
    | AttributeError
    /** A floating-point or local-time conversion whose result this model does not compute. */
    | NotModelled

  /** What a call either returns or raises. */
  type Outcome<T> = Result<T, Failure>
}
