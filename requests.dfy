/** Outgoing requests: the gRPC content-type test that guards both request
    kinds, and the conversion of a request into the engine's request record,
    which joins each header's values with commas. */
module Requests {
  import opened Text
  import opened Bytes
  import opened Wrappers
  import opened HeaderCodec

  /** A request as the RPC layer hands it to the transport. */
  datatype HTTPRequest = HTTPRequest(url: string, httpMethod: string, headers: Headers, message: Option<seq<byte>>)

  /** The engine's request record. It compares header field names without
      regard to case, so its fields are keyed here by lower-cased name. */
  datatype URLRequest = URLRequest(url: string, httpMethod: string, httpBody: Option<seq<byte>>, headerFields: map<string, string>)

  const ContentTypeHeader := "content-type"
  const GRPCPrefix := "application/grpc"
  const GRPCWebPrefix := "application/grpc-web"

  predicate StartsWith(s: string, prefix: string)
  {
    |prefix| <= |s| && s[..|prefix|] == prefix
  }

  /** Whether the request is gRPC-framed, judged by the first value of its
      `content-type` header alone. */
  function IsGRPC(headers: Headers): (r: bool)
    ensures r ==> ContentTypeHeader in headers && headers[ContentTypeHeader] != []
    ensures r ==> StartsWith(headers[ContentTypeHeader][0], GRPCPrefix)
    ensures r ==> !StartsWith(headers[ContentTypeHeader][0], GRPCWebPrefix)
  {
    if ContentTypeHeader in headers && headers[ContentTypeHeader] != [] then
      var contentType := headers[ContentTypeHeader][0];
      StartsWith(contentType, GRPCPrefix) && !StartsWith(contentType, GRPCWebPrefix)
    else
      false
  }

  /** Only the first `content-type` value is looked at: replacing the later
      values, or any other header, does not change the verdict. */
  lemma IsGRPCReadsFirstValueOnly(h1: Headers, h2: Headers, first: string, rest1: seq<string>, rest2: seq<string>)
    ensures IsGRPC(h1[ContentTypeHeader := [first] + rest1]) == IsGRPC(h2[ContentTypeHeader := [first] + rest2])
  {
    assert h1[ContentTypeHeader := [first] + rest1][ContentTypeHeader][0] == first;
    assert h2[ContentTypeHeader := [first] + rest2][ContentTypeHeader][0] == first;
  }

  /** The gRPC-Web content types are never treated as gRPC, though they share
      its prefix; a value with the plain gRPC prefix and no Web prefix is. */
  lemma GRPCWebIsNotGRPC(h: Headers, value: string, rest: seq<string>)
    ensures StartsWith(value, GRPCWebPrefix) ==> !IsGRPC(h[ContentTypeHeader := [value] + rest])
    ensures StartsWith(value, GRPCPrefix) && !StartsWith(value, GRPCWebPrefix)
            ==> IsGRPC(h[ContentTypeHeader := [value] + rest])
  {
    assert h[ContentTypeHeader := [value] + rest][ContentTypeHeader][0] == value;
  }

  /** Every gRPC-Web value also starts with the gRPC prefix, so the second
      test is what keeps gRPC-Web requests out. */
  lemma GRPCWebHasGRPCPrefix(value: string)
    requires StartsWith(value, GRPCWebPrefix)
    ensures StartsWith(value, GRPCPrefix)
  {
    assert value[..|GRPCPrefix|] == value[..|GRPCWebPrefix|][..|GRPCPrefix|];
  }

  /** A missing header or an empty list is never gRPC. */
  lemma NoContentTypeIsNotGRPC(h: Headers)
    requires ContentTypeHeader !in h || h[ContentTypeHeader] == []
    ensures !IsGRPC(h)
  {
  }

  /** What the conversion promises: the URL, method and body are copied;
      every header name gives one field under its lower-cased name; and every
      field holds the comma-joined values of a header of that name. */
  ghost predicate ConvertsTo(request: HTTPRequest, u: URLRequest)
  {
    && u.url == request.url
    && u.httpMethod == request.httpMethod
    && u.httpBody == request.message
    && (forall n :: n in request.headers ==> Lower(n) in u.headerFields)
    && (forall f :: f in u.headerFields ==>
          exists n :: n in request.headers && Lower(n) == f && u.headerFields[f] == Join(request.headers[n], ','))
  }

  /** `URLRequest(httpRequest:)`: copies URL, method and body, then sets one
      field per header, visiting the headers in an unspecified order. */
  method URLRequestFrom(request: HTTPRequest) returns (u: URLRequest)
    ensures ConvertsTo(request, u)
  {
    var fields: map<string, string> := map[];
    var todo := request.headers.Keys;
    while todo != {}
      invariant todo <= request.headers.Keys
      invariant forall n :: n in request.headers && n !in todo ==> Lower(n) in fields
      invariant forall f :: f in fields ==>
        exists n :: n in request.headers && n !in todo && Lower(n) == f && fields[f] == Join(request.headers[n], ',')
      decreases |todo|
    {
      var headerName :| headerName in todo;
      fields := fields[Lower(headerName) := Join(request.headers[headerName], ',')];
      todo := todo - {headerName};
    }
    u := URLRequest(request.url, request.httpMethod, request.message, fields);
  }

  /** When no two header names differ only in case, each field holds exactly
      the joined values of its header, whatever order the loop took. */
  lemma ConvertedFieldsAreExact(request: HTTPRequest, u: URLRequest, n: string)
    requires ConvertsTo(request, u)
    requires forall a, b :: a in request.headers && b in request.headers && Lower(a) == Lower(b) ==> a == b
    requires n in request.headers
    ensures u.headerFields[Lower(n)] == Join(request.headers[n], ',')
  {
    var f := Lower(n);
    var m :| m in request.headers && Lower(m) == f && u.headerFields[f] == Join(request.headers[m], ',');
  }

  /** A header whose values are trimmed and comma-free, sent as one joined
      field and read back by the response codec, yields the same values. */
  lemma JoinedFieldReadsBack(request: HTTPRequest, u: URLRequest, n: string)
    requires ConvertsTo(request, u)
    requires forall a, b :: a in request.headers && b in request.headers && Lower(a) == Lower(b) ==> a == b
    requires n in request.headers && request.headers[n] != []
    requires forall i :: 0 <= i < |request.headers[n]| ==>
               IsTrimmed(request.headers[n][i]) && ',' !in request.headers[n][i]
    ensures Pieces(u.headerFields[Lower(n)]) == request.headers[n]
  {
    ConvertedFieldsAreExact(request, u, n);
    PiecesOfJoin(request.headers[n]);
  }
}
