/** The server side of a duplex stream as a state machine: one flag,
    `closedByServer`, and the callbacks delivered so far. Each engine event
    (response received, data received, task completed) is a step. */
module StreamMachine {
  import opened Bytes
  import opened Wrappers
  import opened Codes
  import opened HeaderCodec
  import opened Unary

  /** A callback delivered to the stream's response callbacks. */
  datatype ResponseEvent =
    | ReceiveResponseHeaders(headers: Headers)
    | ReceiveResponseData(data: seq<byte>)
    | ReceiveClose(code: Code, error: Option<TransportError>)

  datatype StreamState = StreamState(closedByServer: bool, events: seq<ResponseEvent>)

  const Initial := StreamState(false, [])

  /** An engine event delivered to the stream. */
  datatype DelegateEvent =
    | DidReceiveResponse(response: URLResponse)
    | DidReceiveData(data: seq<byte>)
    | DidComplete(error: Option<TransportError>)

  /** Response received: anything but an HTTP response is ignored. The
      normalised headers are always forwarded, whether or not the stream is
      already closed; a status that maps to anything but `ok` then closes the
      stream and reports that code with no error. */
  function OnResponse(s: StreamState, response: URLResponse): (t: StreamState)
    ensures !response.HTTPURLResponse? ==> t == s
    ensures response.HTTPURLResponse? ==>
      var code := FromURLSessionCode(response.statusCode);
      && |t.events| == |s.events| + (if code == Ok then 1 else 2)
      && t.events[..|s.events| + 1] == s.events + [ReceiveResponseHeaders(Normalize(response.allHeaderFields))]
      && (t.closedByServer <==> s.closedByServer || code != Ok)
      && (code != Ok ==> t.events[|s.events| + 1] == ReceiveClose(code, None))
  {
    match response
    case NonHTTPURLResponse => s
    case HTTPURLResponse(statusCode, allHeaderFields) =>
      var code := FromURLSessionCode(statusCode);
      var withHeaders := s.events + [ReceiveResponseHeaders(Normalize(allHeaderFields))];
      if code != Ok then StreamState(true, withHeaders + [ReceiveClose(code, None)])
      else StreamState(s.closedByServer, withHeaders)
  }

  /** Data received: forwarded while the stream is open, dropped once closed. */
  function OnData(s: StreamState, data: seq<byte>): (t: StreamState)
    ensures t.closedByServer == s.closedByServer
    ensures s.closedByServer ==> t.events == s.events
    ensures !s.closedByServer ==> t.events == s.events + [ReceiveResponseData(data)]
  {
    if s.closedByServer then s
    else StreamState(s.closedByServer, s.events + [ReceiveResponseData(data)])
  }

  /** Task completed: ignored once closed; otherwise closes the stream and
      reports the mapped engine error, or `ok` when there is none. */
  function OnCompletion(s: StreamState, error: Option<TransportError>): (t: StreamState)
    ensures t.closedByServer
    ensures s.closedByServer ==> t == s
    ensures !s.closedByServer && error.Some? ==>
      t.events == s.events + [ReceiveClose(FromURLSessionCode(error.value.code), error)]
    ensures !s.closedByServer && error.None? ==> t.events == s.events + [ReceiveClose(Ok, None)]
  {
    if s.closedByServer then s
    else if error.Some? then
      StreamState(true, s.events + [ReceiveClose(FromURLSessionCode(error.value.code), error)])
    else
      StreamState(true, s.events + [ReceiveClose(Ok, None)])
  }

  function Step(s: StreamState, e: DelegateEvent): StreamState
  {
    match e
    case DidReceiveResponse(response) => OnResponse(s, response)
    case DidReceiveData(data) => OnData(s, data)
    case DidComplete(error) => OnCompletion(s, error)
  }

  /** The state after a trace of engine events, applied in order. */
  function Run(s: StreamState, trace: seq<DelegateEvent>): StreamState
    decreases |trace|
  {
    if trace == [] then s else Step(Run(s, trace[..|trace| - 1]), trace[|trace| - 1])
  }

  function CloseCount(events: seq<ResponseEvent>): nat
    decreases |events|
  {
    if events == [] then 0
    else CloseCount(events[..|events| - 1]) + (if events[|events| - 1].ReceiveClose? then 1 else 0)
  }

  lemma CloseCountAppend(events: seq<ResponseEvent>, more: seq<ResponseEvent>)
    ensures CloseCount(events + more) == CloseCount(events) + CloseCount(more)
    decreases |more|
  {
    if more == [] {
      assert events + more == events;
    } else {
      var n := |more| - 1;
      assert (events + more)[..|events + more| - 1] == events + more[..n];
      CloseCountAppend(events, more[..n]);
    }
  }

  /** No data callback follows a close callback. */
  predicate NoDataAfterClose(events: seq<ResponseEvent>)
  {
    forall i, j :: 0 <= i < j < |events| && events[i].ReceiveClose? ==> !events[j].ReceiveResponseData?
  }

  /** The flag is set exactly when a close has been delivered, and no data
      has been delivered after a close. */
  predicate Consistent(s: StreamState)
  {
    (s.closedByServer <==> CloseCount(s.events) > 0) && NoDataAfterClose(s.events)
  }

  lemma CloseCountOne(e: ResponseEvent)
    ensures CloseCount([e]) == if e.ReceiveClose? then 1 else 0
  {
    assert [e][..0] == [];
  }

  /** How many closes one step delivers: one for a failing HTTP status, one
      for a completion of an open stream, none otherwise. */
  function ClosesAdded(s: StreamState, e: DelegateEvent): nat
  {
    match e
    case DidReceiveResponse(response) =>
      if response.HTTPURLResponse? && FromURLSessionCode(response.statusCode) != Ok then 1 else 0
    case DidReceiveData(_) => 0
    case DidComplete(_) => if s.closedByServer then 0 else 1
  }

  lemma CloseCountSnoc(events: seq<ResponseEvent>, e: ResponseEvent)
    ensures CloseCount(events + [e]) == CloseCount(events) + if e.ReceiveClose? then 1 else 0
  {
    assert (events + [e])[..|events + [e]| - 1] == events;
  }

  lemma StepCloseCount(s: StreamState, e: DelegateEvent)
    ensures CloseCount(Step(s, e).events) == CloseCount(s.events) + ClosesAdded(s, e)
  {
    var t := Step(s, e);
    match e
    case DidReceiveResponse(response) =>
      if response.HTTPURLResponse? {
        var h := ReceiveResponseHeaders(Normalize(response.allHeaderFields));
        var code := FromURLSessionCode(response.statusCode);
        CloseCountSnoc(s.events, h);
        if code != Ok {
          var c := ReceiveClose(code, None);
          assert t.events == s.events + [h] + [c];
          CloseCountSnoc(s.events + [h], c);
        } else {
          assert t.events == s.events + [h];
        }
      }
    case DidReceiveData(data) =>
      if !s.closedByServer {
        CloseCountSnoc(s.events, ReceiveResponseData(data));
      }
    case DidComplete(error) =>
      if !s.closedByServer {
        var c := t.events[|s.events|];
        assert t.events == s.events + [c];
        CloseCountSnoc(s.events, c);
      }
  }

  lemma AppendWithoutData(a: seq<ResponseEvent>, b: seq<ResponseEvent>)
    requires NoDataAfterClose(a)
    requires forall k :: 0 <= k < |b| ==> !b[k].ReceiveResponseData?
    ensures NoDataAfterClose(a + b)
  {
    forall i, j | 0 <= i < j < |a + b| && (a + b)[i].ReceiveClose?
      ensures !(a + b)[j].ReceiveResponseData?
    {
      if j >= |a| {
        assert (a + b)[j] == b[j - |a|];
      }
    }
  }

  lemma AppendAfterNoClose(a: seq<ResponseEvent>, x: ResponseEvent)
    requires CloseCount(a) == 0
    ensures NoDataAfterClose(a + [x])
  {
    forall i | 0 <= i < |a| ensures !a[i].ReceiveClose? {
      if a[i].ReceiveClose? {
        CloseCountPositive(a, i);
      }
    }
  }

  /** Every step keeps the flag and the delivered callbacks consistent. */
  lemma StepKeepsConsistent(s: StreamState, e: DelegateEvent)
    requires Consistent(s)
    ensures Consistent(Step(s, e))
  {
    StepCloseCount(s, e);
    match e
    case DidReceiveResponse(response) => ResponseKeepsNoDataAfterClose(s, response);
    case DidReceiveData(data) =>
      if !s.closedByServer {
        AppendAfterNoClose(s.events, ReceiveResponseData(data));
      }
    case DidComplete(error) => CompletionKeepsNoDataAfterClose(s, error);
  }

  /** The response handler delivers no data callback. */
  lemma ResponseKeepsNoDataAfterClose(s: StreamState, response: URLResponse)
    requires NoDataAfterClose(s.events)
    ensures NoDataAfterClose(OnResponse(s, response).events)
  {
    if response.HTTPURLResponse? {
      var h := ReceiveResponseHeaders(Normalize(response.allHeaderFields));
      var code := FromURLSessionCode(response.statusCode);
      if code != Ok {
        AppendWithoutData(s.events, [h, ReceiveClose(code, None)]);
      } else {
        AppendWithoutData(s.events, [h]);
      }
    }
  }

  /** The completion handler delivers no data callback. */
  lemma CompletionKeepsNoDataAfterClose(s: StreamState, error: Option<TransportError>)
    requires NoDataAfterClose(s.events)
    ensures NoDataAfterClose(OnCompletion(s, error).events)
  {
    if !s.closedByServer {
      var t := OnCompletion(s, error);
      var c := t.events[|s.events|];
      assert t.events == s.events + [c];
      AppendWithoutData(s.events, [c]);
    }
  }

  lemma {:induction false} CloseCountPositive(events: seq<ResponseEvent>, i: int)
    requires 0 <= i < |events| && events[i].ReceiveClose?
    ensures CloseCount(events) > 0
    decreases |events|
  {
    if i < |events| - 1 {
      CloseCountPositive(events[..|events| - 1], i);
    }
  }

  /** From any consistent state, whatever the engine delivers and in
      whatever order, no data callback is ever delivered after a close. */
  lemma {:induction false} RunKeepsConsistent(s: StreamState, trace: seq<DelegateEvent>)
    requires Consistent(s)
    ensures Consistent(Run(s, trace))
    ensures NoDataAfterClose(Run(s, trace).events)
    decreases |trace|
  {
    if trace != [] {
      RunKeepsConsistent(s, trace[..|trace| - 1]);
      StepKeepsConsistent(Run(s, trace[..|trace| - 1]), trace[|trace| - 1]);
    }
  }

  /** Once closed, a stream stays closed whatever follows. */
  lemma {:induction false} ClosedStaysClosed(s: StreamState, trace: seq<DelegateEvent>)
    requires s.closedByServer
    ensures Run(s, trace).closedByServer
    decreases |trace|
  {
    if trace != [] {
      ClosedStaysClosed(s, trace[..|trace| - 1]);
    }
  }

  predicate IsHTTPResponseEvent(e: DelegateEvent)
  {
    e.DidReceiveResponse? && e.response.HTTPURLResponse?
  }

  /** Traces the engine produces for one task: at most one HTTP response,
      and none after a completion. */
  predicate WellOrdered(trace: seq<DelegateEvent>)
  {
    && (forall i, j :: 0 <= i < j < |trace| && IsHTTPResponseEvent(trace[i]) ==> !IsHTTPResponseEvent(trace[j]))
    && (forall i, j :: 0 <= i < j < |trace| && trace[i].DidComplete? ==> !IsHTTPResponseEvent(trace[j]))
  }

  /** Neither an HTTP response nor a completion occurs in the trace. */
  predicate Quiet(trace: seq<DelegateEvent>)
  {
    forall i :: 0 <= i < |trace| ==> !IsHTTPResponseEvent(trace[i]) && !trace[i].DidComplete?
  }

  lemma {:induction false} WellOrderedInvariant(trace: seq<DelegateEvent>)
    requires WellOrdered(trace)
    ensures Consistent(Run(Initial, trace))
    ensures CloseCount(Run(Initial, trace).events) <= 1
    ensures Quiet(trace) ==> !Run(Initial, trace).closedByServer
    decreases |trace|
  {
    if trace == [] {
      return;
    }
    var n := |trace| - 1;
    var p := trace[..n];
    var e := trace[n];
    assert forall i :: 0 <= i < n ==> p[i] == trace[i];
    WellOrderedInvariant(p);
    var s := Run(Initial, p);
    StepKeepsConsistent(s, e);
    StepCloseCount(s, e);
    assert Step(s, e) == Run(Initial, trace);
    if IsHTTPResponseEvent(e) {
      assert Quiet(p);
    } else if Quiet(trace) {
      assert Quiet(p);
    }
  }

  /** For every trace the engine can produce, at most one close is delivered,
      and never a data callback after it. */
  lemma AtMostOneClose(trace: seq<DelegateEvent>)
    requires WellOrdered(trace)
    ensures CloseCount(Run(Initial, trace).events) <= 1
    ensures NoDataAfterClose(Run(Initial, trace).events)
  {
    WellOrderedInvariant(trace);
  }

  /** Running two traces one after the other is running their
      concatenation. */
  lemma {:induction false} RunAppend(s: StreamState, a: seq<DelegateEvent>, b: seq<DelegateEvent>)
    ensures Run(s, a + b) == Run(Run(s, a), b)
    decreases |b|
  {
    if b == [] {
      assert a + b == a;
    } else {
      var n := |b| - 1;
      assert (a + b)[..|a + b| - 1] == a + b[..n];
      RunAppend(s, a, b[..n]);
    }
  }

  /** A trace in which the task completes delivers exactly one close,
      whatever callbacks follow the completion. */
  lemma ExactlyOneCloseOnCompletion(trace: seq<DelegateEvent>)
    requires WellOrdered(trace) && exists k :: 0 <= k < |trace| && trace[k].DidComplete?
    ensures CloseCount(Run(Initial, trace).events) == 1
  {
    var k :| 0 <= k < |trace| && trace[k].DidComplete?;
    CompletionCloses(trace, k);
    WellOrderedInvariant(trace);
  }

  /** Once the task has completed, the stream is closed at the end of any
      trace. */
  lemma CompletionCloses(trace: seq<DelegateEvent>, k: nat)
    requires k < |trace| && trace[k].DidComplete?
    ensures Run(Initial, trace).closedByServer
  {
    var p, q := trace[..k + 1], trace[k + 1..];
    assert Run(Initial, p) == OnCompletion(Run(Initial, p[..k]), trace[k].error);
    ClosedStaysClosed(Run(Initial, p), q);
    assert p + q == trace;
    RunAppend(Initial, p, q);
  }

  /** The ordering hypothesis is needed: because the response handler does
      not look at the flag, two failing responses deliver two closes. */
  lemma TwoFailingResponsesCloseTwice(statusCode: int, fields: seq<HeaderEntry>)
    requires FromURLSessionCode(statusCode) != Ok
    ensures var e := DidReceiveResponse(HTTPURLResponse(statusCode, fields));
      CloseCount(Run(Initial, [e, e]).events) == 2
  {
    var e := DidReceiveResponse(HTTPURLResponse(statusCode, fields));
    var code := FromURLSessionCode(statusCode);
    var h := ReceiveResponseHeaders(Normalize(fields));
    var c := ReceiveClose(code, None);
    assert [e, e][..1] == [e];
    assert [e][..0] == [];
    assert Run(Initial, [e]).events == [h, c];
    assert Run(Initial, [e, e]).events == [h, c] + [h, c];
    CloseCountAppend([h, c], [h, c]);
    CloseCountAppend([h], [c]);
    CloseCountOne(h);
    CloseCountOne(c);
    assert [h] + [c] == [h, c];
  }

  /** The other half of the ordering hypothesis is needed too: a failing
      response that arrives after the completion delivers a second close,
      since the response handler does not look at the flag. */
  lemma CompletionThenFailingResponseClosesTwice(error: Option<TransportError>, statusCode: int, fields: seq<HeaderEntry>)
    requires FromURLSessionCode(statusCode) != Ok
    ensures var trace := [DidComplete(error), DidReceiveResponse(HTTPURLResponse(statusCode, fields))];
      CloseCount(Run(Initial, trace).events) == 2
  {
    var d := DidComplete(error);
    var e := DidReceiveResponse(HTTPURLResponse(statusCode, fields));
    var first := Run(Initial, [d]);
    assert [d, e][..1] == [d];
    assert [d][..0] == [];
    assert first == Step(Run(Initial, []), d);
    assert first == OnCompletion(Initial, error);
    var c := if error.Some? then ReceiveClose(FromURLSessionCode(error.value.code), error) else ReceiveClose(Ok, None);
    assert first.events == [] + [c];
    assert CloseCount(first.events) == 1 by {
      assert [] + [c] == [c];
      CloseCountOne(c);
    }
    StepCloseCount(first, e);
  }
}
