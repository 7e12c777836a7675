/** Engine-facing records and the unary completion handler: what the
    transport reports to `onResponse` once the engine finishes a one-shot
    request. */
module Unary {
  import opened Bytes
  import opened Wrappers
  import opened Codes
  import opened HeaderCodec

  /** An error reported by the engine: its numeric code and description. */
  datatype TransportError = TransportError(code: int, localizedDescription: string)

  /** The engine's response object: an HTTP response with its status and raw
      header fields, or a response of some other kind. */
  datatype URLResponse =
    | HTTPURLResponse(statusCode: int, allHeaderFields: seq<HeaderEntry>)
    | NonHTTPURLResponse

  /** The message of a Connect error: a description taken from the engine's
      error, or the "unexpected response type" text naming what arrived. */
  datatype ErrorMessage =
    | Described(text: string)
    | UnexpectedResponseType(received: Option<URLResponse>)

  datatype ConnectError = ConnectError(code: Code, message: ErrorMessage, exception: Option<TransportError>, metadata: Headers)

  /** The error slot of a response holds either the engine's error as it
      came, or a Connect error built by the transport. */
  datatype ResponseError = Engine(engineError: TransportError) | Connect(connectError: ConnectError)

  datatype TracingInfo = TracingInfo(httpStatus: int)

  datatype HTTPResponse = HTTPResponse(
    code: Code,
    headers: Headers,
    message: Option<seq<byte>>,
    trailers: Headers,
    error: Option<ResponseError>,
    tracingInfo: Option<TracingInfo>)

  predicate IsHTTP(r: Option<URLResponse>)
  {
    r.Some? && r.value.HTTPURLResponse?
  }

  /** The data-task completion handler: exactly one response for whatever
      the engine delivers. An HTTP response wins over an error, which is then
      passed through untouched; an error alone is mapped and wrapped; with
      neither, the result is `unknown` with an explanatory error. The body
      and the absence of trailers are the same on every path. */
  function UnaryCompletion(data: Option<seq<byte>>, urlResponse: Option<URLResponse>, error: Option<TransportError>): (r: HTTPResponse)
    ensures r.message == data && r.trailers == map[]
    ensures r.tracingInfo.Some? <==> IsHTTP(urlResponse)
    ensures r.error.None? <==> IsHTTP(urlResponse) && error.None?
    ensures IsHTTP(urlResponse) ==>
      && r.code == FromURLSessionCode(urlResponse.value.statusCode)
      && r.headers == Normalize(urlResponse.value.allHeaderFields)
      && r.tracingInfo == Some(TracingInfo(urlResponse.value.statusCode))
      && (error.Some? ==> r.error == Some(Engine(error.value)))
    ensures !IsHTTP(urlResponse) ==>
      && r.headers == map[]
      && r.error.Some? && r.error.value.Connect?
      && r.error.value.connectError.code == r.code
    ensures !IsHTTP(urlResponse) && error.Some? ==>
      && r.code == FromURLSessionCode(error.value.code)
      && r.error.value.connectError == ConnectError(r.code, Described(error.value.localizedDescription), error, map[])
    ensures !IsHTTP(urlResponse) && error.None? ==>
      && r.code == Unknown
      && r.error.value.connectError == ConnectError(Unknown, UnexpectedResponseType(urlResponse), None, map[])
  {
    if IsHTTP(urlResponse) then
      var http := urlResponse.value;
      HTTPResponse(
        FromURLSessionCode(http.statusCode),
        Normalize(http.allHeaderFields),
        data,
        map[],
        if error.Some? then Some(Engine(error.value)) else None,
        Some(TracingInfo(http.statusCode)))
    else if error.Some? then
      var code := FromURLSessionCode(error.value.code);
      HTTPResponse(
        code,
        map[],
        data,
        map[],
        Some(Connect(ConnectError(code, Described(error.value.localizedDescription), error, map[]))),
        None)
    else
      HTTPResponse(
        Unknown,
        map[],
        data,
        map[],
        Some(Connect(ConnectError(Unknown, UnexpectedResponseType(urlResponse), error, map[]))),
        None)
  }

  /** A request cancelled before any response arrives is reported as
      `canceled`, with the engine's error carried inside the Connect error. */
  lemma CancellationIsReportedAsCanceled(data: Option<seq<byte>>, urlResponse: Option<URLResponse>, error: TransportError)
    requires !IsHTTP(urlResponse) && error.code == URLErrorCancelled
    ensures UnaryCompletion(data, urlResponse, Some(error)).code == Canceled
    ensures UnaryCompletion(data, urlResponse, Some(error)).error.value.connectError.exception == Some(error)
  {
  }

  /** A failure without an HTTP response is never reported as success: its
      code always comes from the engine range. */
  lemma FailureWithoutResponseIsNeverOk(data: Option<seq<byte>>, urlResponse: Option<URLResponse>, error: Option<TransportError>)
    requires !IsHTTP(urlResponse)
    requires error.Some? ==> error.value.code <= EngineRangeTop
    ensures UnaryCompletion(data, urlResponse, error).code != Ok
  {
  }

  /** An engine error whose code lies above 100 (one from another error
      domain) is not told apart from an HTTP status: without an HTTP
      response, its code is whatever `fromHTTPStatus` makes of it, possibly
      `ok`, while the error slot still reports the failure. */
  lemma ForeignErrorCodeGoesThroughHTTPStatus(data: Option<seq<byte>>, urlResponse: Option<URLResponse>, error: TransportError)
    requires !IsHTTP(urlResponse) && error.code > EngineRangeTop
    ensures UnaryCompletion(data, urlResponse, Some(error)).code == FromHTTPStatus(error.code)
    ensures UnaryCompletion(data, urlResponse, Some(error)).error.Some?
  {
  }
}
