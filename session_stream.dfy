/** The stream object that wraps one streamed upload task: it holds the
    `closedByServer` flag, delivers callbacks (logged in `events`) as the
    engine reports progress, and writes request bytes into the write end of
    its bound stream pair. */
module SessionStream {
  import opened Bytes
  import opened Wrappers
  import opened Codes
  import opened HeaderCodec
  import opened Unary
  import opened StreamMachine
  import opened WriteSink

  class URLSessionStream {
    var closedByServer: bool
    var events: seq<ResponseEvent>
    const writeStream: WriteStream

    /** The flag and the callbacks delivered so far, as a value. */
    function State(): StreamState
      reads this
    {
      StreamState(closedByServer, events)
    }

    /** The flag is set exactly when a close has been delivered, and no data
        has been delivered after a close. */
    ghost predicate Valid()
      reads this
    {
      Consistent(State())
    }

    /** A new stream: not closed, no callbacks yet, and an opened write end
        whose reader follows `script`. Starting the task is not modelled. */
    constructor (script: seq<int>)
      ensures State() == Initial && Valid()
      ensures fresh(writeStream)
      ensures writeStream.isOpen && writeStream.grants == script
      ensures writeStream.calls == []
    {
      closedByServer := false;
      events := [];
      writeStream := new WriteStream(script);
    }

    /** Response received: forwards the normalised headers of an HTTP
        response and, when its status maps to anything but `ok`, closes the
        stream with that code. The flag is not consulted. */
    method DidReceiveResponse(response: URLResponse)
      modifies this
      ensures State() == OnResponse(old(State()), response)
      ensures old(Valid()) ==> Valid()
    {
      ghost var before := State();
      if response.HTTPURLResponse? {
        var code := FromURLSessionCode(response.statusCode);
        var headers := FormattedLowercasedHeaders(response.allHeaderFields);
        events := events + [ReceiveResponseHeaders(headers)];
        if code != Ok {
          closedByServer := true;
          events := events + [ReceiveClose(code, None)];
        }
      }
      if Consistent(before) {
        StepKeepsConsistent(before, StreamMachine.DidReceiveResponse(response));
      }
    }

    /** Data received: forwarded only while the stream is open. */
    method DidReceiveData(data: seq<byte>)
      modifies this
      ensures State() == OnData(old(State()), data)
      ensures old(Valid()) ==> Valid()
    {
      ghost var before := State();
      if !closedByServer {
        events := events + [ReceiveResponseData(data)];
      }
      if Consistent(before) {
        StepKeepsConsistent(before, StreamMachine.DidReceiveData(data));
      }
    }

    /** Task completed: closes an open stream with the mapped error code, or
        with `ok` when there is no error; does nothing once closed. */
    method DidComplete(error: Option<TransportError>)
      modifies this
      ensures State() == OnCompletion(old(State()), error)
      ensures old(Valid()) ==> Valid()
    {
      if closedByServer {
        return;
      }
      ghost var before := State();
      closedByServer := true;
      if error.Some? {
        events := events + [ReceiveClose(FromURLSessionCode(error.value.code), error)];
      } else {
        events := events + [ReceiveClose(Ok, None)];
      }
      if Consistent(before) {
        StepKeepsConsistent(before, StreamMachine.DidComplete(error));
      }
    }

    /** `sendData`: offers the remaining bytes to the write end until none
        remain, dropping what each write accepts and failing on a negative
        result. A write the reader never answers is reported as `Blocked`
        instead of waiting forever. What the reader then holds is described
        by `ReaderReceivesAPrefix`. */
    method SendData(data: seq<byte>) returns (outcome: Outcome)
      modifies writeStream
      ensures var r := SendRun(data, old(writeStream.isOpen), old(writeStream.grants));
        && outcome == r.outcome
        && writeStream.calls == old(writeStream.calls) + r.calls
        && writeStream.grants == r.grantsLeft
        && writeStream.isOpen == old(writeStream.isOpen)
    {
      var remaining := data;
      ghost var done: seq<WriteCall> := [];
      ghost var isOpen := writeStream.isOpen;
      ghost var whole := SendRun(data, isOpen, writeStream.grants);
      assert done + whole.calls == whole.calls;
      outcome := Sent;
      while remaining != []
        invariant writeStream.isOpen == isOpen
        invariant writeStream.calls == old(writeStream.calls) + done
        invariant var r := SendRun(remaining, isOpen, writeStream.grants);
          whole == SendResult(r.outcome, done + r.calls, r.grantsLeft)
        decreases |writeStream.grants|, |remaining|
      {
        if writeStream.isOpen && writeStream.grants == [] {
          outcome := Blocked;
          break;
        }
        SendRunStep(whole, done, remaining, isOpen, writeStream.grants);
        var bytesWritten := writeStream.Write(remaining);
        done := done + [WriteCall(remaining, bytesWritten)];
        if bytesWritten < 0 {
          outcome := UnableToWriteData;
          break;
        }
        remaining := remaining[bytesWritten..];
      }
      assert whole.calls == done;
    }

    /** `close`: closes the write end; the flag and callbacks are untouched. */
    method Close()
      modifies writeStream
      ensures !writeStream.isOpen
      ensures writeStream.grants == old(writeStream.grants)
      ensures writeStream.calls == old(writeStream.calls)
    {
      writeStream.Close();
    }
  }
}
