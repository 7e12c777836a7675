/** The semantic status codes shared by transport failures and HTTP outcomes,
    and the mapping from URL-loading error codes to them. */
module Codes {

  /** The Connect status codes. */
  datatype Code =
    | Ok
    | Canceled
    | Unknown
    | InvalidArgument
    | DeadlineExceeded
    | NotFound
    | AlreadyExists
    | PermissionDenied
    | ResourceExhausted
    | FailedPrecondition
    | Aborted
    | OutOfRange
    | Unimplemented
    | InternalError
    | Unavailable
    | DataLoss
    | Unauthenticated

  /** `Code.fromHTTPStatus`, defined outside the modelled files: some fixed,
      total mapping from an HTTP status to a code. Nothing is assumed about
      it, so every property proved here holds whatever the mapping is. */
  const FromHTTPStatus: int -> Code

  /** Raw values of the URL-loading error codes the mapper names. */
  const URLErrorUnknown := -1
  const URLErrorCancelled := -999
  const URLErrorBadURL := -1000
  const URLErrorTimedOut := -1001
  const URLErrorUnsupportedURL := -1002

  /** Highest value that the URL-loading system may use for its own errors. */
  const EngineRangeTop := 100

  /** The codes the URL-loading range can produce on its own. */
  predicate IsEngineCode(c: Code)
  {
    c in {Unknown, Canceled, InvalidArgument, DeadlineExceeded, Unimplemented}
  }

  /** Maps a URL-loading error code or an HTTP status to a semantic code.
      Total: the five named error codes first, then every other value up to
      100 as `unknown`, then everything above 100 as an HTTP status. */
  function FromURLSessionCode(code: int): (r: Code)
    ensures code == URLErrorUnknown ==> r == Unknown
    ensures code == URLErrorCancelled ==> r == Canceled
    ensures code == URLErrorBadURL ==> r == InvalidArgument
    ensures code == URLErrorTimedOut ==> r == DeadlineExceeded
    ensures code == URLErrorUnsupportedURL ==> r == Unimplemented
    ensures code <= EngineRangeTop ==> IsEngineCode(r)
    ensures code <= EngineRangeTop
            && code !in {URLErrorUnknown, URLErrorCancelled, URLErrorBadURL, URLErrorTimedOut, URLErrorUnsupportedURL}
            ==> r == Unknown
    ensures code > EngineRangeTop ==> r == FromHTTPStatus(code)
  {
    if code == URLErrorUnknown then Unknown
    else if code == URLErrorCancelled then Canceled
    else if code == URLErrorBadURL then InvalidArgument
    else if code == URLErrorTimedOut then DeadlineExceeded
    else if code == URLErrorUnsupportedURL then Unimplemented
    else if code <= EngineRangeTop then Unknown
    else FromHTTPStatus(code)
  }

  /** In the engine range the result is `canceled` exactly for the
      cancellation code; the same holds for the other three named codes. */
  lemma EngineCodesAreDistinguished(code: int)
    requires code <= EngineRangeTop
    ensures FromURLSessionCode(code) == Canceled <==> code == URLErrorCancelled
    ensures FromURLSessionCode(code) == InvalidArgument <==> code == URLErrorBadURL
    ensures FromURLSessionCode(code) == DeadlineExceeded <==> code == URLErrorTimedOut
    ensures FromURLSessionCode(code) == Unimplemented <==> code == URLErrorUnsupportedURL
  {
  }

  /** Nothing at or below 100 ever maps to `ok`, whatever the HTTP table says;
      an `ok` result therefore always comes from an HTTP status. */
  lemma OkOnlyFromHTTPStatus(code: int)
    requires FromURLSessionCode(code) == Ok
    ensures code > EngineRangeTop && FromHTTPStatus(code) == Ok
  {
  }
}

/** Optional values. */
module Wrappers {
  datatype Option<+T> = None | Some(value: T)
}

/** Bytes, as carried by request and response bodies. */
module Bytes {
  type byte = b: int | 0 <= b < 256
}
