# connect-swift URLSession transport, modelled in Dafny

This project models the transport that connect-swift builds on Apple's URL-loading system, and proves properties of that model. It covers two source files:

- **`URLSessionHTTPClient.swift`**. This holds four helpers:
  - `Code.fromURLSessionCode`, which maps error codes to semantic codes;
  - `formattedLowercasedHeaders`, which normalises response headers;
  - `isGRPC`, the gRPC content-type guard;
  - the header-joining `URLRequest(httpRequest:)` initialiser.

  It also holds the completion handler of a unary call, and the client's two task tables:
  - `streams`, keyed by task identifier;
  - `metricsClosures`, keyed by task identifier.

  These tables are filled by `unary` and `stream` and read and emptied by the delegate callbacks.
- **`URLSessionStream.swift`**. This holds a stream's `closedByServer` state machine (its response, data and completion handlers) and the `sendData` write loop.

Modules, one concept each:

| file | module | what it holds |
|---|---|---|
| `codes.dfy` | `Codes`, `Wrappers`, `Bytes` | the `Code` datatype, `FromURLSessionCode`, `Option`, the byte type |
| `text.dfy` | `Text` | ASCII lower-casing, trimming of spaces and tabs, split and join on a character |
| `headers.dfy` | `HeaderCodec` | header normalisation: a pure fold `Normalize`, the loop `FormattedLowercasedHeaders` proved equal to it, and a per-name reference definition `ValuesFor` |
| `requests.dfy` | `Requests` | `IsGRPC`, and the `URLRequestFrom` conversion loop with its specification `ConvertsTo` |
| `unary.dfy` | `Unary` | the engine's response and error records, and `UnaryCompletion` |
| `stream_machine.dfy` | `StreamMachine` | the stream's state (flag plus callback log) as a value; one step function per handler; trace lemmas |
| `write_sink.dfy` | `WriteSink` | the write end of the bound stream pair (`WriteStream`), and the specification `SendRun` of the `sendData` loop |
| `session_stream.dfy` | `SessionStream` | the `URLSessionStream` class, whose methods are proved against `StreamMachine` and `SendRun` |
| `registry.dfy` | `Registry` | the two task tables as values: `Apply` for one locked step, `Run` for a trace |
| `client.dfy` | `Client` | the `URLSessionHTTPClient` class, whose methods are proved against `Registry.Apply` |

Some engine behaviour is represented by explicit values:

- **Responses.** The engine's response is either `HTTPURLResponse(statusCode, allHeaderFields)` or some other kind.
- **Raw headers.** The raw header collection is a sequence of entries, visited in sequence order. A key that is not text is `OtherKey`.
- **Reader script.** How much the reader takes on each write is a script of grants, one per write call.
- **Blocked writes.** A write for which the script has no grant left would wait forever. The model reports it as the outcome `Blocked`.

## Model

| member | source | states |
|---|---|---|
| Codes.FromURLSessionCode | Libraries/Connect/Public/Implementation/Clients/URLSessionHTTPClient.swift:214-232 | The five named error codes (-1, -999, -1000, -1001, -1002) map to unknown, canceled, invalidArgument, deadlineExceeded and unimplemented. Every other value up to 100 maps to unknown. Every value above 100 maps to `fromHTTPStatus`. The function is total. |
| Codes.EngineCodesAreDistinguished | Libraries/Connect/Public/Implementation/Clients/URLSessionHTTPClient.swift:216-228 | At or below 100, each of canceled, invalidArgument, deadlineExceeded and unimplemented comes from exactly one code. The explicit cases take precedence over the range. |
| Codes.OkOnlyFromHTTPStatus | Libraries/Connect/Public/Implementation/Clients/URLSessionHTTPClient.swift:227-230 | An `ok` result comes only from a value above 100 that `fromHTTPStatus` maps to ok. |
| Text.Lower | Libraries/Connect/Public/Implementation/Clients/URLSessionHTTPClient.swift:201 | Lower-casing keeps the length, maps each character through `LowerChar`, and leaves no upper-case letter. |
| Text.LowerIdempotent | Libraries/Connect/Public/Implementation/Clients/URLSessionHTTPClient.swift:201 | A lower-case name is left unchanged. |
| Text.TrimKeepsMiddle | Libraries/Connect/Public/Implementation/Clients/URLSessionHTTPClient.swift:207 | Trimming keeps one contiguous slice of the input. What it removes on either side is whitespace only. |
| Text.Trim | Libraries/Connect/Public/Implementation/Clients/URLSessionHTTPClient.swift:207 | The result neither starts nor ends with a space or tab. |
| Text.TrimIdempotent | Libraries/Connect/Public/Implementation/Clients/URLSessionHTTPClient.swift:207 | Trimming twice is trimming once. |
| Text.Split | Libraries/Connect/Public/Implementation/Clients/URLSessionHTTPClient.swift:206 | Splitting at a separator that occurs k times gives k + 1 pieces, empty ones included. No piece contains the separator. |
| Text.JoinSplit | Libraries/Connect/Public/Implementation/Clients/URLSessionHTTPClient.swift:206 | Joining the pieces of a split with the separator gives back the original string. |
| Text.SplitJoin | Libraries/Connect/Public/Implementation/Clients/URLSessionHTTPClient.swift:206 | Splitting the join of separator-free parts gives back the parts. |
| Text.Join | Libraries/Connect/Public/Implementation/Clients/URLSessionHTTPClient.swift:250 | `joined(separator:)`: the parts with the separator between neighbours, and no parts give the empty string. Its meaning is fixed by `JoinSplit` and `SplitJoin`, which make it the inverse of `Split`. |
| Text.TrimAddsNothing | Libraries/Connect/Public/Implementation/Clients/URLSessionHTTPClient.swift:207 | Trimming introduces no character that was not in the input. |
| HeaderCodec.Pieces | Libraries/Connect/Public/Implementation/Clients/URLSessionHTTPClient.swift:206-207 | A raw value with k commas yields exactly k + 1 values. |
| HeaderCodec.PiecesAreTrimmed | Libraries/Connect/Public/Implementation/Clients/URLSessionHTTPClient.swift:207 | Every value a raw field yields is trimmed. |
| HeaderCodec.AddEntry | Libraries/Connect/Public/Implementation/Clients/URLSessionHTTPClient.swift:201-208 | The closure body of the `reduce(into:)`: a field with a text key appends its comma-split, trimmed pieces under its lower-cased name; any other key adds nothing. `AddEntryHere`, `AddEntryElsewhere` and `FieldAddsOneValuePerPiece` state its effect on each name. |
| HeaderCodec.AddEntryHere | Libraries/Connect/Public/Implementation/Clients/URLSessionHTTPClient.swift:201-207 | A field filed under a name leaves that name holding its earlier values followed by the field's pieces. |
| HeaderCodec.AddEntryElsewhere | Libraries/Connect/Public/Implementation/Clients/URLSessionHTTPClient.swift:201-207 | A field filed under another name, or with a non-text key, leaves the name's presence and values as they were. |
| HeaderCodec.Normalize | Libraries/Connect/Public/Implementation/Clients/URLSessionHTTPClient.swift:200-209 | The `reduce(into:)` fold over the raw fields in order, from no headers. Its meaning is fixed by `NormalizeHasName` and `NormalizeIsPerNameConcatenation` against the reference `ValuesFor`, and its shape by `NormalizedNamesAndValues`. |
| HeaderCodec.FormattedLowercasedHeaders | Libraries/Connect/Public/Implementation/Clients/URLSessionHTTPClient.swift:199-210 | The nested loop over raw fields and their comma pieces computes exactly the fold `Normalize` over the fields in order. |
| HeaderCodec.AppendTrimmed | Libraries/Connect/Public/Implementation/Clients/URLSessionHTTPClient.swift:206-208 | The inner loop appends every trimmed piece, in order, to the list of one name, creating the list if absent. All other names are untouched. |
| HeaderCodec.NormalizeHasName | Libraries/Connect/Public/Implementation/Clients/URLSessionHTTPClient.swift:200-204 | A name is in the output exactly when some raw field with a text key lower-cases to it. Non-text keys contribute nothing. |
| HeaderCodec.NormalizeIsPerNameConcatenation | Libraries/Connect/Public/Implementation/Clients/URLSessionHTTPClient.swift:200-208 | The list of each output name equals the reference definition `ValuesFor`: the comma-split, trimmed pieces of every raw field filed under that name, concatenated in arrival order. |
| HeaderCodec.NormalizedNamesAndValues | Libraries/Connect/Public/Implementation/Clients/URLSessionHTTPClient.swift:199-208 | Every output name is lower-case, every output list is non-empty, and every output value is trimmed and contains no comma. |
| HeaderCodec.PiecesAreCommaFree | Libraries/Connect/Public/Implementation/Clients/URLSessionHTTPClient.swift:206-207 | No value a raw field yields contains a comma. |
| HeaderCodec.AddJoinedField | Libraries/Connect/Public/Implementation/Clients/URLSessionHTTPClient.swift:201-207 | A new lower-case name sent as one field of comma-joined, trimmed, comma-free values is added with exactly those values. |
| HeaderCodec.AddFieldOfPieces | Libraries/Connect/Public/Implementation/Clients/URLSessionHTTPClient.swift:201-207 | A field under a new lower-case name adds that name holding exactly the field's pieces, and changes no other name. |
| HeaderCodec.RenormalizeHeaders | Libraries/Connect/Public/Implementation/Clients/URLSessionHTTPClient.swift:199-210 | For a whole normalised multimap (lower-case names, non-empty lists of trimmed, comma-free values), sending every name once, in any order, as one comma-joined field and normalising gives back the same multimap. |
| HeaderCodec.NormalizeIsIdempotent | Libraries/Connect/Public/Implementation/Clients/URLSessionHTTPClient.swift:199-210 | The codec's output is a fixed point: joining each of its lists with commas, one field per name, and normalising again gives the same headers. |
| HeaderCodec.FieldAddsOneValuePerPiece | Libraries/Connect/Public/Implementation/Clients/URLSessionHTTPClient.swift:206-207 | A field whose value has k commas appends exactly k + 1 values after the existing ones under its lower-cased name, and changes no other name. |
| HeaderCodec.PiecesOfJoin | Libraries/Connect/Public/Implementation/Clients/URLSessionHTTPClient.swift:206-207 | Trimmed, comma-free values survive a comma join followed by the codec's split and trim. |
| HeaderCodec.RenormalizeSingleHeader | Libraries/Connect/Public/Implementation/Clients/URLSessionHTTPClient.swift:199-210 | Normalising a lower-case name whose trimmed, comma-free values are sent as one joined field gives back that name with the same values. |
| HeaderCodec.PiecesOfCommaSpace | Libraries/Connect/Public/Implementation/Clients/URLSessionHTTPClient.swift:206-207 | "a, b" (comma and space) yields exactly the two values a and b. |
| HeaderCodec.TwoSpellingsMerge | Libraries/Connect/Public/Implementation/Clients/URLSessionHTTPClient.swift:201-207 | Two fields whose names differ only in case merge under one name, the first field's values first. |
| HeaderCodec.CommaJoinedValueIsSplit | Libraries/Connect/Public/Implementation/Clients/URLSessionHTTPClient.swift:199-210 | `Content-Type: a, b` normalises to `content-type` with the values a and b. |
| HeaderCodec.RepeatedFieldsAreMerged | Libraries/Connect/Public/Implementation/Clients/URLSessionHTTPClient.swift:199-210 | Fields `content-type: a` and `Content-Type: b` normalise to the same result as `Content-Type: a, b`. |
| Requests.IsGRPC | Libraries/Connect/Public/Implementation/Clients/URLSessionHTTPClient.swift:236-241 | A true result means a first content-type value exists, starts with "application/grpc" and does not start with "application/grpc-web". |
| Requests.GRPCWebIsNotGRPC | Libraries/Connect/Public/Implementation/Clients/URLSessionHTTPClient.swift:237-239 | The converse of `IsGRPC`'s contract: a first value with the gRPC prefix and without the gRPC-Web prefix is gRPC. A gRPC-Web first value never is. |
| Requests.GRPCWebHasGRPCPrefix | Libraries/Connect/Public/Implementation/Clients/URLSessionHTTPClient.swift:238-239 | Every gRPC-Web value also has the gRPC prefix, so the second test is what excludes gRPC-Web. |
| Requests.IsGRPCReadsFirstValueOnly | Libraries/Connect/Public/Implementation/Clients/URLSessionHTTPClient.swift:237 | Later content-type values and all other headers never change the verdict. |
| Requests.NoContentTypeIsNotGRPC | Libraries/Connect/Public/Implementation/Clients/URLSessionHTTPClient.swift:237-240 | An absent header, or an empty list, is not gRPC. |
| Requests.URLRequestFrom | Libraries/Connect/Public/Implementation/Clients/URLSessionHTTPClient.swift:245-252 | URL, method and body are copied. Visiting the headers in any order, every header name yields a field under its case-insensitive name. Every field holds the comma-joined values of a header with that name. |
| Requests.ConvertedFieldsAreExact | Libraries/Connect/Public/Implementation/Clients/URLSessionHTTPClient.swift:249-251 | If no two header names differ only in case, each field holds exactly its header's joined values, whatever the visiting order. |
| Requests.JoinedFieldReadsBack | Libraries/Connect/Public/Implementation/Clients/URLSessionHTTPClient.swift:249-251 | A header of trimmed, comma-free values, sent as a joined field and split by the response codec, reads back as the same values. |
| Unary.UnaryCompletion | Libraries/Connect/Public/Implementation/Clients/URLSessionHTTPClient.swift:58-95 | One response for every combination of response and error. The body is passed through and trailers are empty on every path. Tracing info is present exactly when an HTTP response is. An HTTP response wins over an error, which is then passed through untouched. An error alone gives empty headers, the mapped code and a Connect error carrying the engine's error. Neither gives `unknown` with an "unexpected response type" error. |
| Unary.CancellationIsReportedAsCanceled | Libraries/Connect/Public/Implementation/Clients/URLSessionHTTPClient.swift:68-81 | A cancelled request without an HTTP response is reported as `canceled`, with the engine's error inside. |
| Unary.FailureWithoutResponseIsNeverOk | Libraries/Connect/Public/Implementation/Clients/URLSessionHTTPClient.swift:68-94 | Without an HTTP response, and with an engine error code at or below 100 (if there is an error), the result is never `ok`. |
| Unary.ForeignErrorCodeGoesThroughHTTPStatus | Libraries/Connect/Public/Implementation/Clients/URLSessionHTTPClient.swift:68-69 | Without an HTTP response, an engine error whose code is above 100 (an error from another domain) gets the code `fromHTTPStatus` makes of it, possibly `ok`, while the error slot still reports the failure. |
| StreamMachine.OnResponse | connect-swift/src/implementation/streaming/URLSessionStream.swift:71-89 | A non-HTTP response changes nothing. An HTTP response always forwards its normalised headers, even on a closed stream. A non-ok mapped status then also sets the flag and delivers `receiveClose(code, nil)`. |
| StreamMachine.OnData | connect-swift/src/implementation/streaming/URLSessionStream.swift:91-95 | Data is forwarded exactly when the stream is open, and dropped otherwise. The flag never changes. |
| StreamMachine.OnCompletion | connect-swift/src/implementation/streaming/URLSessionStream.swift:99-114 | Completion changes nothing on a closed stream. Otherwise it sets the flag and delivers one close: the mapped error code with the error, or `ok` without one. |
| StreamMachine.StepKeepsConsistent | connect-swift/src/implementation/streaming/URLSessionStream.swift:81-113 | Every handler keeps two invariants: the flag is set exactly when a close has been delivered, and no data is delivered after a close. |
| StreamMachine.RunKeepsConsistent | connect-swift/src/implementation/streaming/URLSessionStream.swift:85-113 | For any trace of engine events, no data callback ever follows a close. |
| StreamMachine.ClosedStaysClosed | connect-swift/src/implementation/streaming/URLSessionStream.swift:85-106 | Once set, the flag stays set whatever follows. |
| StreamMachine.RunAppend | connect-swift/src/implementation/streaming/URLSessionStream.swift:81-113 | Handling two runs of callbacks one after the other gives the same state as handling their concatenation. |
| StreamMachine.AtMostOneClose | connect-swift/src/implementation/streaming/URLSessionStream.swift:81-113 | For a trace with at most one HTTP response and none after completion, at most one close is delivered, and no data after it. |
| StreamMachine.WellOrderedInvariant | connect-swift/src/implementation/streaming/URLSessionStream.swift:81-113 | For such traces the state stays consistent with at most one close. A trace with neither a response nor a completion leaves the stream open. |
| StreamMachine.ExactlyOneCloseOnCompletion | connect-swift/src/implementation/streaming/URLSessionStream.swift:102-113 | Such a trace in which the task completes anywhere delivers exactly one close, whatever callbacks follow the completion. |
| StreamMachine.TwoFailingResponsesCloseTwice | connect-swift/src/implementation/streaming/URLSessionStream.swift:81-88 | The response handler does not consult the flag, so two failing responses deliver two closes: the "at most one HTTP response" half of the ordering hypothesis is needed. |
| StreamMachine.CompletionThenFailingResponseClosesTwice | connect-swift/src/implementation/streaming/URLSessionStream.swift:81-113 | A failing response after the task's completion delivers a second close: the "no response after completion" half of the ordering hypothesis is needed too. |
| SessionStream.URLSessionStream.constructor | connect-swift/src/implementation/streaming/URLSessionStream.swift:15-41 | A new stream is open, has delivered nothing and satisfies the object invariant `Valid` (the flag is set exactly when a close was delivered, and no data follows a close). Its write end is open, with the reader's script and no writes. |
| SessionStream.URLSessionStream.DidReceiveResponse | connect-swift/src/implementation/streaming/URLSessionStream.swift:71-89 | The new flag and callback log are `OnResponse` of the old ones, and the object invariant `Valid` is kept. |
| SessionStream.URLSessionStream.DidReceiveData | connect-swift/src/implementation/streaming/URLSessionStream.swift:91-95 | The new flag and callback log are `OnData` of the old ones, and the object invariant `Valid` is kept. |
| SessionStream.URLSessionStream.DidComplete | connect-swift/src/implementation/streaming/URLSessionStream.swift:99-114 | The new flag and callback log are `OnCompletion` of the old ones, and the object invariant `Valid` is kept. |
| SessionStream.URLSessionStream.SendData | connect-swift/src/implementation/streaming/URLSessionStream.swift:43-63 | The loop's outcome, the writes it makes and the grants it uses are exactly those of the specification `SendRun` from the old state. The open flag is unchanged. |
| SessionStream.URLSessionStream.Close | connect-swift/src/implementation/streaming/URLSessionStream.swift:65-67 | Closes the write end and changes nothing else. |
| WriteSink.Offer | connect-swift/src/implementation/streaming/URLSessionStream.swift:22-54 | One write returns -1 exactly on a closed stream or a stream error. Otherwise it returns a count between 0 and the offered length and the 2 MiB buffer size. That count is the reader's grant whenever it is below both limits. |
| WriteSink.WriteStream.Write | connect-swift/src/implementation/streaming/URLSessionStream.swift:51-54 | One write returns `Offer` of the old state, uses one grant of an open stream, and logs the call. |
| WriteSink.WriteStream.Close | connect-swift/src/implementation/streaming/URLSessionStream.swift:65-67 | The write end becomes closed; grants and log are unchanged. |
| WriteSink.SendRun | connect-swift/src/implementation/streaming/URLSessionStream.swift:44-62 | The `sendData` while loop as a function of what remains: offer all of it, drop what a non-negative result accepts, stop with an error on a negative one. Its meaning is fixed by `AcceptedIsPrefix`, `EachOfferIsTheRemainder`, `ZeroResultRetriesSameBytes` and `ResultsAreBounded`. |
| WriteSink.AcceptedIsPrefix | connect-swift/src/implementation/streaming/URLSessionStream.swift:44-61 | The accepted prefixes, concatenated in order, always form a prefix of the data. They are all of the data exactly when the call returns normally. |
| WriteSink.ReaderReceivesAPrefix | connect-swift/src/implementation/streaming/URLSessionStream.swift:43-62 | After a call, the reader holds what it held before followed by a prefix of the data. That prefix is all of the data exactly when the call returns normally. |
| WriteSink.AcceptedConcat | connect-swift/src/implementation/streaming/URLSessionStream.swift:57-58 | What a log of writes hands over is what its two halves hand over, in order. |
| WriteSink.EachOfferIsTheRemainder | connect-swift/src/implementation/streaming/URLSessionStream.swift:44-58 | Each write is offered exactly the data minus what the earlier writes accepted: the current remaining suffix. |
| WriteSink.ZeroResultRetriesSameBytes | connect-swift/src/implementation/streaming/URLSessionStream.swift:57-58 | A write that accepts nothing is followed by one offered the same bytes. |
| WriteSink.ResultsAreBounded | connect-swift/src/implementation/streaming/URLSessionStream.swift:51-61 | Every result is -1, or a count within the offer and the buffer. Only the last result can be -1, and it is exactly when the call fails with `unableToWriteData`. |
| WriteSink.EmptyDataWritesNothing | connect-swift/src/implementation/streaming/URLSessionStream.swift:45 | Empty data returns normally without a write. |
| WriteSink.ClosedStreamFails | connect-swift/src/implementation/streaming/URLSessionStream.swift:51-60 | On a closed write end, non-empty data fails after one write. |
| Registry.Apply | Libraries/Connect/Public/Implementation/Clients/URLSessionHTTPClient.swift:97-187 | Each locked block touches only its own task identifier. A unary start sets only the metrics entry. A stream start sets both entries. Lookups change nothing. Completion removes only the stream and hands it over if present. The metrics event removes only the callback and hands it over if present. |
| Registry.DeliveredAtMostOncePerRegistration | Libraries/Connect/Public/Implementation/Clients/URLSessionHTTPClient.swift:97-187 | Over any trace, per identifier, completions delivered plus one for a still-registered stream never exceed the stream registrations. The same holds for metrics callbacks. |
| Registry.RegisteredOnceDeliveredAtMostOnce | Libraries/Connect/Public/Implementation/Clients/URLSessionHTTPClient.swift:97-187 | From empty tables, an identifier registered once has its metrics callback invoked at most once and its stream completed at most once. |
| Registry.StreamsAreMetricsRegistrations | Libraries/Connect/Public/Implementation/Clients/URLSessionHTTPClient.swift:111-114 | Every stream registration also registers a metrics callback. |
| Registry.SecondFinishFiresNothing | Libraries/Connect/Public/Implementation/Clients/URLSessionHTTPClient.swift:183-187 | A second metrics event for the same task invokes nothing. |
| Client.URLSessionHTTPClient.constructor | Libraries/Connect/Public/Implementation/Clients/URLSessionHTTPClient.swift:24-45 | A new client has both tables empty. |
| Client.URLSessionHTTPClient.StartUnary | Libraries/Connect/Public/Implementation/Clients/URLSessionHTTPClient.swift:48-100 | Builds the engine request as `ConvertsTo` promises. The new tables are `Apply` of a unary start. |
| Client.URLSessionHTTPClient.StartStream | Libraries/Connect/Public/Implementation/Clients/URLSessionHTTPClient.swift:102-114 | Builds the engine request and a fresh, open stream satisfying its invariant `Valid`. The new tables are `Apply` of a stream start. |
| Client.URLSessionHTTPClient.DidReceiveResponse | Libraries/Connect/Public/Implementation/Clients/URLSessionHTTPClient.swift:135-147 | The tables are unchanged. The task's stream, if any, steps by `OnResponse` and keeps its invariant `Valid`. No other stream changes. |
| Client.URLSessionHTTPClient.DidReceiveData | Libraries/Connect/Public/Implementation/Clients/URLSessionHTTPClient.swift:149-154 | The tables are unchanged. The task's stream, if any, steps by `OnData` and keeps its invariant `Valid`. No other stream changes. |
| Client.URLSessionHTTPClient.NeedNewBodyStream | Libraries/Connect/Public/Implementation/Clients/URLSessionHTTPClient.swift:156-163 | Hands over the registered stream's body exactly when the task has a stream. |
| Client.URLSessionHTTPClient.DidComplete | Libraries/Connect/Public/Implementation/Clients/URLSessionHTTPClient.swift:168-173 | The new tables are `Apply` of a completion. The removed stream, if any, steps by `OnCompletion` and keeps its invariant `Valid`. Streams still registered are unchanged. |
| Client.URLSessionHTTPClient.DidFinishCollecting | Libraries/Connect/Public/Implementation/Clients/URLSessionHTTPClient.swift:175-188 | The new tables and the callback returned are those of `Apply` for a metrics event. |
| Client.SendDataOrClose | Libraries/Connect/Public/Implementation/Clients/URLSessionHTTPClient.swift:117-128 | Sends as `SendRun` specifies. The write end is left closed exactly when it was closed before or the send failed. |

## Left out

- **Session setup.** The URL-loading engine and session setup are not modelled: the configuration, the delegate queue, task creation, `resume` and the HTTP/3 capability flag. The engine is represented by the events it delivers to the handlers. Task identifiers are parameters.
- **Concurrency.** The `Lock` and all concurrency are left out. Each locked block is one atomic step: one `Registry.Apply`, or one method of the client.
- **TLS.** The TLS challenge handler that trusts every certificate is a foreign security call with no logic of its own.
- **Logging and metrics.** `os_log` output and the metrics conversion (`HTTPMetrics(taskMetrics:)`) are left out. A metrics callback is an opaque tagged value.
- Codes.FromURLSessionCode: `Code.fromHTTPStatus` is defined in a file that is not part of this model. It is a fixed total function about which nothing is assumed.
- **Header details.**
  - Header values that are not strings would be rendered with `String(describing:)`. Values are modelled as strings.
  - Lower-casing is ASCII only, not Unicode.
  - Whitespace for trimming is space and horizontal tab only.
  - `isGRPC`'s prefix tests compare characters one by one (`Requests.StartsWith`). Swift's `hasPrefix` compares grapheme clusters, so a value such as "application/grpc" followed by a combining mark can get a different verdict there.
- **Unary messages.** The localized description of an engine error is a string parameter. The "unexpected response type" text is the datatype value `UnexpectedResponseType`, which carries what arrived. The Connect error's `details`, always empty in both error branches, is not a field of `Unary.ConnectError`.
- **The stream methods the client relies on.** `taskID`, `cancel` and `requestBodyStream` are not in the stream file modelled here.
  - Task identifiers are parameters.
  - `cancel` and the `Cancelable` handle are not modelled.
  - The body stream handed to the engine is represented by the stream object itself.
  - The client's `handleResponse`, `handleResponseData` and `handleCompletion` calls are modelled as calls to the stream's three delegate methods.
- **Foundation streams.** The bound stream pair, its run-loop scheduling and the pointer access in `sendData` are not modelled. `unableToFindBaseAddress` cannot arise for non-empty data and is not modelled. The write primitive is the `WriteStream` sink, driven by a script of reader grants.
  - A write that would never return is reported as the outcome `Blocked`. The real method would hang.
  - The loop's termination when the reader keeps accepting nothing is therefore expressed through the finite script, not proved of the real engine.
- SessionStream.URLSessionStream.SendData: its contract states the writes made, not the bytes received. What the reader holds afterwards (`WriteStream.Written`) is stated by `WriteSink.ReaderReceivesAPrefix`.
- Client.URLSessionHTTPClient.StartUnary, Client.URLSessionHTTPClient.StartStream: the Swift `assert` that the request is not gRPC is modelled as a precondition. Release builds skip that check.
- Client.URLSessionHTTPClient.StartStream: registration happens after the stream's initialiser has already started the upload task. A unary call registers before its task starts. The model keeps the two tables consistent in both cases, but it does not model the window in which an early engine event could find no stream registered.
- **Header field names in the engine request.** These are keyed by their lower-cased name, because the engine compares field names without regard to case. The spelling the engine keeps is not modelled.
