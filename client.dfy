/** The URL-loading HTTP client: it starts unary and streaming calls,
    keeps the streams and metrics callbacks of running tasks in two tables
    keyed by task identifier, and routes the engine's delegate callbacks to
    them. Each locked block is one step of `Registry.Apply`. */
module Client {
  import opened Bytes
  import opened Wrappers
  import opened Requests
  import opened Unary
  import opened StreamMachine
  import opened WriteSink
  import opened SessionStream
  import opened Registry

  class URLSessionHTTPClient {
    var streams: map<int, URLSessionStream>
    var metricsClosures: map<int, MetricsCallback>

    /** Both tables, as a value. */
    function Snapshot(): Tables<URLSessionStream>
      reads this
    {
      Tables(streams, metricsClosures)
    }

    /** No stream object is registered under two task identifiers. */
    ghost predicate Valid()
      reads this
    {
      forall a, b :: a in streams && b in streams && a != b ==> streams[a] != streams[b]
    }

    /** A client with no running tasks. Session setup is not modelled. */
    constructor ()
      ensures Snapshot() == Tables(map[], map[])
      ensures Valid()
    {
      streams := map[];
      metricsClosures := map[];
    }

    /** `unary`: builds the engine request and registers the metrics
        callback under the new task's identifier, before the task starts.
        The task's completion handler is `Unary.UnaryCompletion`. */
    method StartUnary(request: HTTPRequest, taskID: int, onMetrics: MetricsCallback) returns (u: URLRequest)
      requires !IsGRPC(request.headers)
      requires Valid()
      modifies this
      ensures ConvertsTo(request, u)
      ensures Snapshot() == Apply(old(Snapshot()), Registry.StartUnary(taskID, onMetrics)).tables
      ensures Valid()
    {
      u := URLRequestFrom(request);
      metricsClosures := metricsClosures[taskID := onMetrics];
    }

    /** `stream`: creates the stream for a streamed upload task and then
        registers both the stream and the metrics callback under the task's
        identifier. */
    method StartStream(request: HTTPRequest, taskID: int, script: seq<int>, receiveResponseMetrics: MetricsCallback)
      returns (stream: URLSessionStream, u: URLRequest)
      requires !IsGRPC(request.headers)
      requires Valid()
      modifies this
      ensures ConvertsTo(request, u)
      ensures fresh(stream) && fresh(stream.writeStream)
      ensures stream.State() == Initial && stream.Valid()
      ensures stream.writeStream.isOpen && stream.writeStream.grants == script && stream.writeStream.calls == []
      ensures Snapshot() == Apply(old(Snapshot()), Registry.StartStream(taskID, stream, receiveResponseMetrics)).tables
      ensures Valid()
    {
      u := URLRequestFrom(request);
      stream := new URLSessionStream(script);
      streams := streams[taskID := stream];
      metricsClosures := metricsClosures[taskID := receiveResponseMetrics];
    }

    /** Response received for a task: an HTTP response is handed to the
        task's stream, if one is registered; the tables do not change and
        no other stream is touched. */
    method DidReceiveResponse(taskID: int, response: URLResponse)
      requires Valid()
      modifies if taskID in streams then {streams[taskID]} else {}
      ensures Snapshot() == Apply(old(Snapshot()), Lookup(taskID)).tables
      ensures taskID in streams ==>
        streams[taskID].State() == OnResponse(old(streams[taskID].State()), response)
      ensures taskID in streams && old(streams[taskID].Valid()) ==> streams[taskID].Valid()
      ensures forall id :: id in streams && id != taskID ==> streams[id].State() == old(streams[id].State())
    {
      if !response.HTTPURLResponse? {
        return;
      }
      if taskID in streams {
        streams[taskID].DidReceiveResponse(response);
      }
    }

    /** Data received for a task: handed to the task's stream, if one is
        registered. */
    method DidReceiveData(taskID: int, data: seq<byte>)
      requires Valid()
      modifies if taskID in streams then {streams[taskID]} else {}
      ensures Snapshot() == Apply(old(Snapshot()), Lookup(taskID)).tables
      ensures taskID in streams ==>
        streams[taskID].State() == OnData(old(streams[taskID].State()), data)
      ensures taskID in streams && old(streams[taskID].Valid()) ==> streams[taskID].Valid()
      ensures forall id :: id in streams && id != taskID ==> streams[id].State() == old(streams[id].State())
    {
      if taskID in streams {
        streams[taskID].DidReceiveData(data);
      }
    }

    /** The engine asks for a task's body stream: the registered stream
        hands over the read end of its pair (an opaque handle, modelled by
        the stream itself); an unknown task gets none. */
    method NeedNewBodyStream(taskID: int) returns (body: Option<URLSessionStream>)
      ensures body.Some? <==> taskID in streams
      ensures body.Some? ==> body.value == streams[taskID]
    {
      body := Find(streams, taskID);
    }

    /** Task completed: the task's stream is taken out of the table first,
        then told of the completion; the metrics table is untouched. */
    method DidComplete(taskID: int, error: Option<TransportError>)
      requires Valid()
      modifies this, if taskID in streams then {streams[taskID]} else {}
      ensures Snapshot() == Apply(old(Snapshot()), Complete(taskID)).tables
      ensures taskID in old(streams) ==>
        var s := old(streams)[taskID];
        s.State() == OnCompletion(old(s.State()), error)
      ensures taskID in old(streams) ==>
        var s := old(streams)[taskID];
        old(s.Valid()) ==> s.Valid()
      ensures forall id :: id in streams ==> streams[id].State() == old(streams[id].State())
      ensures Valid()
    {
      var found := Find(streams, taskID);
      streams := streams - {taskID};
      if found.Some? {
        found.value.DidComplete(error);
      }
    }

    /** Metrics collected for a task: the callback is taken out of its
        table and returned to be invoked; the stream table is untouched. */
    method DidFinishCollecting(taskID: int) returns (fired: Option<MetricsCallback>)
      modifies this
      ensures Snapshot() == Apply(old(Snapshot()), FinishCollecting(taskID)).tables
      ensures fired == Apply(old(Snapshot()), FinishCollecting(taskID)).fired
    {
      fired := Find(metricsClosures, taskID);
      metricsClosures := metricsClosures - {taskID};
    }
  }

  /** The `sendData` request callback of a stream call: send the data, and
      close the write end when the write fails. */
  method SendDataOrClose(stream: URLSessionStream, data: seq<byte>) returns (outcome: Outcome)
    modifies stream.writeStream
    ensures var r := SendRun(data, old(stream.writeStream.isOpen), old(stream.writeStream.grants));
      && outcome == r.outcome
      && stream.writeStream.calls == old(stream.writeStream.calls) + r.calls
      && stream.writeStream.grants == r.grantsLeft
      && (stream.writeStream.isOpen <==> old(stream.writeStream.isOpen) && r.outcome != UnableToWriteData)
  {
    outcome := stream.SendData(data);
    if outcome == UnableToWriteData {
      stream.Close();
    }
  }
}
