/** The client's two task tables as values: open streams and pending metrics
    callbacks, both keyed by task identifier. Each locked block of the
    client is one step here. */
module Registry {
  import opened Wrappers

  /** An opaque metrics callback, told apart by a tag. */
  datatype MetricsCallback = MetricsCallback(tag: int)

  datatype Tables<S> = Tables(streams: map<int, S>, metricsClosures: map<int, MetricsCallback>)

  /** One locked block of the client, by task identifier:
      - `StartUnary`: a unary call registers its metrics callback;
      - `StartStream`: a stream call registers the stream and its metrics
        callback;
      - `Lookup`: the response, data and body-stream callbacks read the
        stream table;
      - `Complete`: task completion takes the stream out of its table;
      - `FinishCollecting`: the metrics event takes the callback out of its
        table. */
  datatype RegistryEvent<S> =
    | StartUnary(id: int, onMetrics: MetricsCallback)
    | StartStream(id: int, stream: S, onMetrics: MetricsCallback)
    | Lookup(id: int)
    | Complete(id: int)
    | FinishCollecting(id: int)

  /** What one step hands on: the stream whose completion handler runs, or
      the metrics callback that is invoked. */
  datatype StepResult<S> = StepResult(tables: Tables<S>, completed: Option<S>, fired: Option<MetricsCallback>)

  /** The entry stored under `k`, if any. */
  function Find<K, V>(m: map<K, V>, k: K): Option<V>
  {
    if k in m then Some(m[k]) else None
  }

  /** One step. Every step touches only its own identifier, and only the
      table its block names. */
  function Apply<S>(t: Tables<S>, e: RegistryEvent<S>): (r: StepResult<S>)
    ensures r.tables.streams - {e.id} == t.streams - {e.id}
    ensures r.tables.metricsClosures - {e.id} == t.metricsClosures - {e.id}
    ensures e.StartUnary? ==>
      && r.tables.streams == t.streams
      && e.id in r.tables.metricsClosures && r.tables.metricsClosures[e.id] == e.onMetrics
    ensures e.StartStream? ==>
      && e.id in r.tables.streams && r.tables.streams[e.id] == e.stream
      && e.id in r.tables.metricsClosures && r.tables.metricsClosures[e.id] == e.onMetrics
    ensures e.Lookup? ==> r.tables == t
    ensures e.Complete? ==>
      && e.id !in r.tables.streams && r.tables.metricsClosures == t.metricsClosures
      && (r.completed.Some? <==> e.id in t.streams)
      && (r.completed.Some? ==> r.completed.value == t.streams[e.id])
    ensures e.FinishCollecting? ==>
      && e.id !in r.tables.metricsClosures && r.tables.streams == t.streams
      && (r.fired.Some? <==> e.id in t.metricsClosures)
      && (r.fired.Some? ==> r.fired.value == t.metricsClosures[e.id])
    ensures r.completed.Some? ==> e.Complete?
    ensures r.fired.Some? ==> e.FinishCollecting?
  {
    match e
    case StartUnary(id, onMetrics) =>
      StepResult(Tables(t.streams, t.metricsClosures[id := onMetrics]), None, None)
    case StartStream(id, stream, onMetrics) =>
      StepResult(Tables(t.streams[id := stream], t.metricsClosures[id := onMetrics]), None, None)
    case Lookup(_) =>
      StepResult(t, None, None)
    case Complete(id) =>
      StepResult(Tables(t.streams - {id}, t.metricsClosures), Find(t.streams, id), None)
    case FinishCollecting(id) =>
      StepResult(Tables(t.streams, t.metricsClosures - {id}), None, Find(t.metricsClosures, id))
  }

  /** What a run delivers, in order. */
  datatype Delivery<S> = Completed(id: int, stream: S) | Fired(id: int, callback: MetricsCallback)

  datatype RunResult<S> = RunResult(tables: Tables<S>, log: seq<Delivery<S>>)

  function Deliveries<S>(e: RegistryEvent<S>, r: StepResult<S>): seq<Delivery<S>>
  {
    (if r.completed.Some? then [Completed(e.id, r.completed.value)] else [])
    + (if r.fired.Some? then [Fired(e.id, r.fired.value)] else [])
  }

  /** The tables and deliveries after a trace of steps, applied in order. */
  function Run<S>(t: Tables<S>, trace: seq<RegistryEvent<S>>): RunResult<S>
    decreases |trace|
  {
    if trace == [] then RunResult(t, [])
    else
      var before := Run(t, trace[..|trace| - 1]);
      var e := trace[|trace| - 1];
      var r := Apply(before.tables, e);
      RunResult(r.tables, before.log + Deliveries(e, r))
  }

  function Bit(b: bool): nat
  {
    if b then 1 else 0
  }

  function StreamRegistrations<S>(trace: seq<RegistryEvent<S>>, id: int): nat
    decreases |trace|
  {
    if trace == [] then 0
    else StreamRegistrations(trace[..|trace| - 1], id) + Bit(trace[|trace| - 1].StartStream? && trace[|trace| - 1].id == id)
  }

  function MetricsRegistrations<S>(trace: seq<RegistryEvent<S>>, id: int): nat
    decreases |trace|
  {
    if trace == [] then 0
    else
      var e := trace[|trace| - 1];
      MetricsRegistrations(trace[..|trace| - 1], id) + Bit((e.StartUnary? || e.StartStream?) && e.id == id)
  }

  function Completions<S>(log: seq<Delivery<S>>, id: int): nat
    decreases |log|
  {
    if log == [] then 0
    else Completions(log[..|log| - 1], id) + Bit(log[|log| - 1].Completed? && log[|log| - 1].id == id)
  }

  function Firings<S>(log: seq<Delivery<S>>, id: int): nat
    decreases |log|
  {
    if log == [] then 0
    else Firings(log[..|log| - 1], id) + Bit(log[|log| - 1].Fired? && log[|log| - 1].id == id)
  }

  lemma {:induction false} CountsAppend<S>(a: seq<Delivery<S>>, b: seq<Delivery<S>>, id: int)
    ensures Completions(a + b, id) == Completions(a, id) + Completions(b, id)
    ensures Firings(a + b, id) == Firings(a, id) + Firings(b, id)
    decreases |b|
  {
    if b == [] {
      assert a + b == a;
    } else {
      var n := |b| - 1;
      assert (a + b)[..|a + b| - 1] == a + b[..n];
      CountsAppend(a, b[..n], id);
    }
  }

  /** What one step adds to the counts for `id`. */
  lemma StepCounts<S>(t: Tables<S>, e: RegistryEvent<S>, id: int)
    ensures var r := Apply(t, e);
      && Completions(Deliveries(e, r), id) == Bit(r.completed.Some? && e.id == id)
      && Firings(Deliveries(e, r), id) == Bit(r.fired.Some? && e.id == id)
  {
    var r := Apply(t, e);
    var d := Deliveries(e, r);
    if r.completed.Some? {
      assert d == [Completed(e.id, r.completed.value)];
      assert d[..0] == [];
    } else if r.fired.Some? {
      assert d == [Fired(e.id, r.fired.value)];
      assert d[..0] == [];
    } else {
      assert d == [];
    }
  }

  /** Each registration is delivered at most once: for every identifier,
      the completions handed to a stream plus one if a stream is still
      registered never exceed the streams registered under it (counting one
      present at the start); the same holds for metrics callbacks. */
  lemma {:induction false} DeliveredAtMostOncePerRegistration<S>(t: Tables<S>, trace: seq<RegistryEvent<S>>, id: int)
    ensures var r := Run(t, trace);
      Completions(r.log, id) + Bit(id in r.tables.streams)
        <= Bit(id in t.streams) + StreamRegistrations(trace, id)
    ensures var r := Run(t, trace);
      Firings(r.log, id) + Bit(id in r.tables.metricsClosures)
        <= Bit(id in t.metricsClosures) + MetricsRegistrations(trace, id)
    decreases |trace|
  {
    if trace != [] {
      var p := trace[..|trace| - 1];
      var e := trace[|trace| - 1];
      DeliveredAtMostOncePerRegistration(t, p, id);
      var before := Run(t, p);
      var step := Apply(before.tables, e);
      CountsAppend(before.log, Deliveries(e, step), id);
      StepCounts(before.tables, e, id);
      if e.id != id {
        assert id in step.tables.streams <==> id in before.tables.streams by {
          assert id in step.tables.streams - {e.id} <==> id in before.tables.streams - {e.id};
        }
        assert id in step.tables.metricsClosures <==> id in before.tables.metricsClosures by {
          assert id in step.tables.metricsClosures - {e.id} <==> id in before.tables.metricsClosures - {e.id};
        }
      }
    }
  }

  /** Starting from empty tables, a task identifier registered once has its
      metrics callback invoked at most once and its stream completed at most
      once, whatever the engine does afterwards. */
  lemma RegisteredOnceDeliveredAtMostOnce<S>(trace: seq<RegistryEvent<S>>, id: int)
    requires MetricsRegistrations(trace, id) <= 1
    ensures Firings(Run(Tables(map[], map[]), trace).log, id) <= 1
    ensures Completions(Run(Tables(map[], map[]), trace).log, id) <= 1
  {
    DeliveredAtMostOncePerRegistration(Tables(map[], map[]), trace, id);
    StreamsAreMetricsRegistrations(trace, id);
  }

  lemma {:induction false} StreamsAreMetricsRegistrations<S>(trace: seq<RegistryEvent<S>>, id: int)
    ensures StreamRegistrations(trace, id) <= MetricsRegistrations(trace, id)
    decreases |trace|
  {
    if trace != [] {
      StreamsAreMetricsRegistrations(trace[..|trace| - 1], id);
    }
  }

  /** A second metrics event for the same task invokes nothing. */
  lemma SecondFinishFiresNothing<S>(t: Tables<S>, id: int)
    ensures var once := Apply(t, FinishCollecting(id));
      Apply(once.tables, FinishCollecting(id)).fired == None
  {
  }
}
