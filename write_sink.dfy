/** The write end of the bound stream pair that feeds a duplex request body,
    and the specification of the `sendData` retry loop that pushes bytes
    into it. How much each write accepts is decided by the reading side, so
    the sink is driven by a script of grants, one per write call. */
module WriteSink {
  import opened Bytes

  /** Capacity of the bound stream pair's buffer: 2 MiB. */
  const BufferSize := 2 * (1024 * 1024)

  /** One call of the write primitive: the bytes offered and what it
      returned (-1 for an error, otherwise the number of bytes accepted). */
  datatype WriteCall = WriteCall(offered: seq<byte>, result: int)

  /** How one `sendData` call ends: every byte accepted, the primitive
      reported an error (`unableToWriteData`), or the primitive never
      returns because the reader grants no more writes. */
  datatype Outcome = Sent | UnableToWriteData | Blocked

  function Min(a: int, b: int): int
  {
    if a <= b then a else b
  }

  /** What one write returns. A closed stream returns -1; otherwise the
      grant says how much the reader takes, a negative grant being a stream
      error, and no write takes more than was offered or than the buffer
      holds. */
  function Offer(isOpen: bool, grants: seq<int>, chunk: seq<byte>): (n: int)
    requires isOpen ==> grants != []
    ensures n == -1 || (isOpen && 0 <= n <= |chunk| && n <= BufferSize)
    ensures !isOpen || grants[0] < 0 <==> n == -1
    ensures isOpen && 0 <= n < Min(|chunk|, BufferSize) ==> n == grants[0]
  {
    if !isOpen || grants[0] < 0 then -1 else Min(grants[0], Min(|chunk|, BufferSize))
  }

  /** The grants left after one write: an open stream uses one up. */
  function Consumed(isOpen: bool, grants: seq<int>): seq<int>
    requires isOpen ==> grants != []
  {
    if isOpen then grants[1..] else grants
  }

  /** The bytes a call handed over: the accepted prefix of its offer. */
  function Taken(c: WriteCall): seq<byte>
  {
    if 0 <= c.result <= |c.offered| then c.offered[..c.result] else []
  }

  /** All bytes handed over by a sequence of calls, in order. */
  function Accepted(calls: seq<WriteCall>): seq<byte>
    decreases |calls|
  {
    if calls == [] then [] else Taken(calls[0]) + Accepted(calls[1..])
  }

  datatype SendResult = SendResult(outcome: Outcome, calls: seq<WriteCall>, grantsLeft: seq<int>)

  /** The `sendData` loop as a function of what remains to be sent: while
      something remains, offer all of it; a non-negative result drops that
      many bytes from the front (zero drops nothing and the loop offers the
      same bytes again), a negative result ends the loop with an error. */
  function SendRun(remaining: seq<byte>, isOpen: bool, grants: seq<int>): (r: SendResult)
    decreases |grants|
  {
    if remaining == [] then SendResult(Sent, [], grants)
    else if isOpen && grants == [] then SendResult(Blocked, [], grants)
    else
      var n := Offer(isOpen, grants, remaining);
      var left := Consumed(isOpen, grants);
      if n < 0 then SendResult(UnableToWriteData, [WriteCall(remaining, n)], left)
      else
        var rest := SendRun(remaining[n..], isOpen, left);
        SendResult(rest.outcome, [WriteCall(remaining, n)] + rest.calls, rest.grantsLeft)
  }

  /** One turn of the loop: if the run from `remaining` is what is left of
      a whole run after the calls `done`, then after one more write the run
      from what then remains is what is left after `done` and that write. */
  lemma SendRunStep(whole: SendResult, done: seq<WriteCall>, remaining: seq<byte>, isOpen: bool, grants: seq<int>)
    requires remaining != [] && (isOpen ==> grants != [])
    requires var r := SendRun(remaining, isOpen, grants);
      whole == SendResult(r.outcome, done + r.calls, r.grantsLeft)
    ensures var n := Offer(isOpen, grants, remaining);
      var c := WriteCall(remaining, n);
      var left := Consumed(isOpen, grants);
      && (n < 0 ==> whole == SendResult(UnableToWriteData, done + [c], left))
      && (n >= 0 ==>
            var r := SendRun(remaining[n..], isOpen, left);
            whole == SendResult(r.outcome, (done + [c]) + r.calls, r.grantsLeft))
  {
    var n := Offer(isOpen, grants, remaining);
    var c := WriteCall(remaining, n);
    if n < 0 {
      assert done + [c] == done + [c] + [];
    } else {
      var r := SendRun(remaining[n..], isOpen, Consumed(isOpen, grants));
      assert done + ([c] + r.calls) == (done + [c]) + r.calls;
    }
  }

  lemma AcceptedPrepend(c: WriteCall, calls: seq<WriteCall>)
    ensures Accepted([c] + calls) == Taken(c) + Accepted(calls)
  {
    assert ([c] + calls)[1..] == calls;
  }

  /** Sequence identities over an element type without structure, where
      they are cheap to prove. */
  lemma ConsAppend<T>(a: seq<T>, b: seq<T>)
    requires a != []
    ensures a + b == [a[0]] + (a[1..] + b)
  {
  }

  lemma TakeDrop<T>(s: seq<T>, n: nat)
    requires n <= |s|
    ensures s[..n] + s[n..] == s
  {
  }

  lemma AppendAssoc<T>(x: seq<T>, y: seq<T>, z: seq<T>)
    ensures x + (y + z) == (x + y) + z
  {
  }

  lemma {:induction false} AcceptedConcat(a: seq<WriteCall>, b: seq<WriteCall>)
    ensures Accepted(a + b) == Accepted(a) + Accepted(b)
    decreases |a|
  {
    if a == [] {
      assert a + b == b;
    } else {
      var x := Taken(a[0]);
      var y := Accepted(a[1..]);
      var z := Accepted(b);
      calc {
        Accepted(a + b);
      == { ConsAppend(a, b); AcceptedPrepend(a[0], a[1..] + b); }
        x + Accepted(a[1..] + b);
      == { AcceptedConcat(a[1..], b); }
        x + (y + z);
      == { AppendAssoc(x, y, z); }
        (x + y) + z;
      }
    }
  }

  /** The bytes accepted always form a prefix of the data, and the call
      returns normally exactly when they are all of it. */
  lemma {:induction false} AcceptedIsPrefix(data: seq<byte>, isOpen: bool, grants: seq<int>)
    ensures var r := SendRun(data, isOpen, grants);
      && Accepted(r.calls) <= data
      && (r.outcome == Sent <==> Accepted(r.calls) == data)
    decreases |grants|
  {
    var r := SendRun(data, isOpen, grants);
    if data == [] || (isOpen && grants == []) {
      assert r.calls == [];
    } else {
      var n := Offer(isOpen, grants, data);
      var c := WriteCall(data, n);
      if n < 0 {
        assert r.calls == [c];
        AcceptedPrepend(c, []);
        assert Accepted(r.calls) == [];
      } else {
        var rest := SendRun(data[n..], isOpen, Consumed(isOpen, grants));
        assert r.outcome == rest.outcome;
        assert Accepted(r.calls) == data[..n] + Accepted(rest.calls) by {
          assert r.calls == [c] + rest.calls;
          AcceptedPrepend(c, rest.calls);
        }
        AcceptedIsPrefix(data[n..], isOpen, Consumed(isOpen, grants));
        PrefixCancel(data[..n], Accepted(rest.calls), data[n..]);
        TakeDrop(data, n);
      }
    }
  }

  /** A common prefix does not change whether one sequence is a prefix of,
      or equal to, another. */
  lemma PrefixCancel<T>(p: seq<T>, x: seq<T>, y: seq<T>)
    ensures x <= y <==> p + x <= p + y
    ensures x == y <==> p + x == p + y
  {
    if p + x <= p + y {
      assert x == (p + x)[|p|..];
      assert x == (p + y)[|p|..|p| + |x|];
    }
    if p + x == p + y {
      assert x == (p + x)[|p|..] == (p + y)[|p|..] == y;
    }
  }

  /** What the reader holds after a `sendData` call: what it held before,
      followed by a prefix of the data, which is all of the data exactly
      when the call returns normally. */
  lemma ReaderReceivesAPrefix(before: seq<WriteCall>, data: seq<byte>, isOpen: bool, grants: seq<int>)
    ensures var r := SendRun(data, isOpen, grants);
      && Accepted(before + r.calls) == Accepted(before) + Accepted(r.calls)
      && Accepted(r.calls) <= data
      && (r.outcome == Sent <==> Accepted(before + r.calls) == Accepted(before) + data)
  {
    var r := SendRun(data, isOpen, grants);
    AcceptedConcat(before, r.calls);
    AcceptedIsPrefix(data, isOpen, grants);
    if Accepted(before + r.calls) == Accepted(before) + data {
      assert Accepted(r.calls) == (Accepted(before) + data)[|Accepted(before)|..];
    }
  }

  /** Each call in `calls` is offered `data` less what the calls before
      it took. */
  predicate Chained(data: seq<byte>, calls: seq<WriteCall>)
    decreases |calls|
  {
    calls == [] || (calls[0].offered == data && Chained(data[|Taken(calls[0])|..], calls[1..]))
  }

  lemma {:induction false} RunIsChained(data: seq<byte>, isOpen: bool, grants: seq<int>)
    ensures Chained(data, SendRun(data, isOpen, grants).calls)
    decreases |grants|
  {
    var calls := SendRun(data, isOpen, grants).calls;
    if calls != [] {
      var n := Offer(isOpen, grants, data);
      if n >= 0 {
        RunIsChained(data[n..], isOpen, Consumed(isOpen, grants));
        assert calls[1..] == SendRun(data[n..], isOpen, Consumed(isOpen, grants)).calls;
      } else {
        assert calls[1..] == [];
      }
    }
  }

  lemma AcceptedOfPrefix(calls: seq<WriteCall>, i: nat)
    requires 0 < i <= |calls|
    ensures Accepted(calls[..i]) == Taken(calls[0]) + Accepted(calls[1..][..i - 1])
  {
    assert calls[..i] == [calls[0]] + calls[1..][..i - 1];
    AcceptedPrepend(calls[0], calls[1..][..i - 1]);
  }

  lemma {:induction false} ChainedOffers(data: seq<byte>, calls: seq<WriteCall>, i: nat)
    requires Chained(data, calls) && i < |calls|
    ensures Accepted(calls[..i]) + calls[i].offered == data
    decreases i
  {
    if i == 0 {
      assert calls[..0] == [];
    } else {
      var t := Taken(calls[0]);
      var rest := calls[1..];
      var tail := data[|t|..];
      var a := Accepted(rest[..i - 1]);
      var o := calls[i].offered;
      assert a + o == tail by {
        ChainedOffers(tail, rest, i - 1);
        assert calls[i] == rest[i - 1];
      }
      assert t + tail == data by {
        assert calls[0].offered == data;
        assert t == data[..|t|];
        TakeDrop(data, |t|);
      }
      AcceptedOfPrefix(calls, i);
      AppendAssoc(t, a, o);
    }
  }

  /** Every write is offered exactly what is left: the data minus the bytes
      accepted by the calls before it. */
  lemma EachOfferIsTheRemainder(data: seq<byte>, isOpen: bool, grants: seq<int>, i: nat)
    requires i < |SendRun(data, isOpen, grants).calls|
    ensures var calls := SendRun(data, isOpen, grants).calls;
      Accepted(calls[..i]) + calls[i].offered == data
  {
    RunIsChained(data, isOpen, grants);
    ChainedOffers(data, SendRun(data, isOpen, grants).calls, i);
  }

  /** A write that accepts nothing is followed by one offered the same
      bytes. */
  lemma ZeroResultRetriesSameBytes(data: seq<byte>, isOpen: bool, grants: seq<int>, i: nat)
    requires i + 1 < |SendRun(data, isOpen, grants).calls|
    requires SendRun(data, isOpen, grants).calls[i].result == 0
    ensures var calls := SendRun(data, isOpen, grants).calls;
      calls[i + 1].offered == calls[i].offered
  {
    var calls := SendRun(data, isOpen, grants).calls;
    RunIsChained(data, isOpen, grants);
    ChainedNext(data, calls, i);
    assert Taken(calls[i]) == [];
    assert calls[i].offered[0..] == calls[i].offered;
  }

  /** In a chained log, each offer is the previous offer less what the
      previous call took. */
  lemma {:induction false} ChainedNext(data: seq<byte>, calls: seq<WriteCall>, i: nat)
    requires Chained(data, calls) && i + 1 < |calls|
    ensures calls[i + 1].offered == calls[i].offered[|Taken(calls[i])|..]
    decreases i
  {
    if i > 0 {
      ChainedNext(data[|Taken(calls[0])|..], calls[1..], i - 1);
      assert calls[1..][i - 1] == calls[i] && calls[1..][i] == calls[i + 1];
    }
  }

  /** Every result is -1 or a count the offer and the buffer allow; -1 can
      only be the last result, and it is there exactly when the call fails. */
  lemma {:induction false} ResultsAreBounded(data: seq<byte>, isOpen: bool, grants: seq<int>)
    ensures var r := SendRun(data, isOpen, grants);
      && (forall i :: 0 <= i < |r.calls| ==>
            r.calls[i].result == -1
            || 0 <= r.calls[i].result <= Min(|r.calls[i].offered|, BufferSize))
      && (forall i :: 0 <= i < |r.calls| - 1 ==> r.calls[i].result >= 0)
      && (r.outcome == UnableToWriteData <==> r.calls != [] && r.calls[|r.calls| - 1].result == -1)
    decreases |grants|
  {
    var r := SendRun(data, isOpen, grants);
    if data != [] && !(isOpen && grants == []) {
      var n := Offer(isOpen, grants, data);
      if n >= 0 {
        var rest := SendRun(data[n..], isOpen, Consumed(isOpen, grants));
        ResultsAreBounded(data[n..], isOpen, Consumed(isOpen, grants));
        assert r.calls == [WriteCall(data, n)] + rest.calls;
        assert forall i :: 1 <= i < |r.calls| ==> r.calls[i] == rest.calls[i - 1];
      }
    }
  }

  /** Empty data returns at once without calling the primitive. */
  lemma EmptyDataWritesNothing(isOpen: bool, grants: seq<int>)
    ensures SendRun([], isOpen, grants) == SendResult(Sent, [], grants)
  {
  }

  /** On a closed stream, non-empty data fails on the first write. */
  lemma ClosedStreamFails(data: seq<byte>, grants: seq<int>)
    requires data != []
    ensures SendRun(data, false, grants) == SendResult(UnableToWriteData, [WriteCall(data, -1)], grants)
  {
  }

  /** The write end of the bound stream pair. `grants` is the reader's
      script and `calls` logs every write; what the reader has received is
      the accepted part of each call, in order. */
  class WriteStream {
    var isOpen: bool
    var grants: seq<int>
    var calls: seq<WriteCall>

    function Written(): seq<byte>
      reads this
    {
      Accepted(calls)
    }

    /** A stream opened with the reader's script and nothing written. */
    constructor (script: seq<int>)
      ensures isOpen && grants == script && calls == []
    {
      isOpen := true;
      grants := script;
      calls := [];
    }

    /** One write of at most `|chunk|` bytes. A write that would wait for
        a grant that never comes is not called (see `SendData`). */
    method Write(chunk: seq<byte>) returns (n: int)
      requires chunk != [] && (isOpen ==> grants != [])
      modifies this
      ensures n == Offer(old(isOpen), old(grants), chunk)
      ensures isOpen == old(isOpen)
      ensures grants == Consumed(old(isOpen), old(grants))
      ensures calls == old(calls) + [WriteCall(chunk, n)]
    {
      n := Offer(isOpen, grants, chunk);
      if isOpen {
        grants := grants[1..];
      }
      calls := calls + [WriteCall(chunk, n)];
    }

    /** Closing the write end; later writes return -1. */
    method Close()
      modifies this
      ensures !isOpen
      ensures grants == old(grants) && calls == old(calls)
    {
      isOpen := false;
    }
  }
}
