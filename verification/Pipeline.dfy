/** The pipeline runtime: a connector call fills a bounded channel, then the channel is drained
    through the transforms into the sinks. */
module Pipelines {
  import opened Wrappers
  import opened Bits
  import opened ChangeEvents
  import opened Transforms

  const CAPACITY: nat := 1024

  type Offset = int

  /** A sink whose n-th write of an event is taken or refused as a whole, as `accepts` says. */
  datatype Sink = Sink(log: seq<ChangeEvent>, writes: nat, closed: bool,
                       accepts: (nat, ChangeEvent) -> bool, closes: nat -> bool)

  /** What one connector call sends, in order, and how it returns. */
  datatype Production<+R> = Production(events: seq<ChangeEvent>, result: Result<R, string>)

  /** A connector by the outcome of its n-th call. */
  datatype Connector = Connector(snapshot: (nat, seq<bytes>) -> Production<Offset>,
                                 stream: (nat, Option<Offset>) -> Production<()>,
                                 stops: nat -> bool)

  /** How a call ends; a blocked call waits for room in a channel nobody reads. */
  datatype Status =
    | Finished | AlreadyRunning | SnapshotFailed | StreamFailed | TransformFailed | SinkFailed
    | CloseFailed | StopFailed | Blocked

  datatype Progress = Progress(sinks: seq<Sink>, status: Status)

  datatype PipelineState = PipelineState(running: bool, calls: nat, sinks: seq<Sink>)

  //////////////////////////////////////////////////////////////////////////////
  // Specification
  //////////////////////////////////////////////////////////////////////////////

  predicate Takes(s: Sink, e: ChangeEvent) {
    s.accepts(s.writes, e)
  }

  function Written(s: Sink, e: ChangeEvent): Sink {
    s.(writes := s.writes + 1, log := if Takes(s, e) then s.log + [e] else s.log)
  }

  /** Sinks i and later written in order, up to the first that refuses. */
  function Dispatch(sinks: seq<Sink>, e: ChangeEvent, i: nat): (p: Progress)
    requires i <= |sinks|
    decreases |sinks| - i
  {
    if i == |sinks| then Progress(sinks, Finished)
    else
      var now := sinks[i := Written(sinks[i], e)];
      if Takes(sinks[i], e) then Dispatch(now, e, i + 1) else Progress(now, SinkFailed)
  }

  function Process(ts: seq<Transform>, sinks: seq<Sink>, e: ChangeEvent): Progress {
    match Chain(ts, e)
    case Ok(Some(out)) => Dispatch(sinks, out, 0)
    case Ok(None) => Progress(sinks, Finished)
    case Err(_) => Progress(sinks, TransformFailed)
  }

  function Drain(ts: seq<Transform>, sinks: seq<Sink>, events: seq<ChangeEvent>): Progress
    decreases |events|
  {
    if events == [] then Progress(sinks, Finished)
    else
      var p := Process(ts, sinks, events[0]);
      if p.status.Finished? then Drain(ts, p.sinks, events[1..]) else p
  }

  /** One phase: the connector call is awaited before anything is received. */
  function Phase<R>(ts: seq<Transform>, sinks: seq<Sink>, made: Production<R>, failure: Status): Progress {
    if |made.events| > CAPACITY then Progress(sinks, Blocked)
    else if made.result.Err? then Progress(sinks, failure)
    else Drain(ts, sinks, made.events)
  }

  function StreamOf(ts: seq<Transform>, c: Connector, s: PipelineState, offset: Option<Offset>)
    : (PipelineState, Status)
  {
    var p := Phase(ts, s.sinks, c.stream(s.calls, offset), StreamFailed);
    (s.(calls := s.calls + 1, sinks := p.sinks), p.status)
  }

  function RunOf(ts: seq<Transform>, c: Connector, s: PipelineState, tables: Option<seq<bytes>>)
    : (PipelineState, Status)
  {
    if s.running then (s, AlreadyRunning)
    else if tables.None? then StreamOf(ts, c, s.(running := true), None)
    else
      var made := c.snapshot(s.calls, tables.value);
      var p := Phase(ts, s.sinks, made, SnapshotFailed);
      var s' := PipelineState(!p.status.SnapshotFailed?, s.calls + 1, p.sinks);
      if p.status.Finished? then StreamOf(ts, c, s', Some(made.result.value)) else (s', p.status)
  }

  /** Sinks i and later closed in order, up to the first that fails to close. */
  function CloseFrom(sinks: seq<Sink>, i: nat, calls: nat): Progress
    requires i <= |sinks|
    decreases |sinks| - i
  {
    if i == |sinks| then Progress(sinks, Finished)
    else if sinks[i].closes(calls) then CloseFrom(sinks[i := sinks[i].(closed := true)], i + 1, calls)
    else Progress(sinks, CloseFailed)
  }

  function StopOf(c: Connector, s: PipelineState): (PipelineState, Status) {
    var p := CloseFrom(s.sinks, 0, s.calls);
    (PipelineState(false, s.calls + 1, p.sinks),
     if p.status.Finished? && !c.stops(s.calls) then StopFailed else p.status)
  }

  //////////////////////////////////////////////////////////////////////////////
  // The pipeline
  //////////////////////////////////////////////////////////////////////////////

  class Pipeline {
    const connector: Connector
    const transforms: seq<Transform>
    var sinks: seq<Sink>
    var running: bool
    var calls: nat

    constructor (connector: Connector, transforms: seq<Transform>, sinks: seq<Sink>)
      ensures this.connector == connector && this.transforms == transforms
      ensures State() == PipelineState(false, 0, sinks)
    {
      this.connector, this.transforms, this.sinks := connector, transforms, sinks;
      running, calls := false, 0;
    }

    ghost function State(): PipelineState
      reads this
    {
      PipelineState(running, calls, sinks)
    }

    method ProcessEvent(e: ChangeEvent) returns (status: Status)
      modifies this`sinks
      ensures Progress(sinks, status) == Process(transforms, old(sinks), e)
    {
      var event := Some(e);
      for i := 0 to |transforms|
        invariant sinks == old(sinks)
        invariant Chain(transforms, e) == (if event.Some? then Chain(transforms[i..], event.value) else Ok(None))
      {
        assert transforms[i..][1..] == transforms[i + 1..];
        match event {
          case Some(current) =>
            var result := ApplyTransform(transforms[i], current);
            match result {
              case Ok(next) => event := next;
              case Err(_) => return TransformFailed;
            }
          case None =>
            break;
        }
      }
      assert transforms[|transforms|..] == [];
      assert Chain(transforms, e) == Ok(event);
      if event.Some? {
        var n := |sinks|;
        for i := 0 to n
          invariant |sinks| == n
          invariant Dispatch(sinks, event.value, i) == Dispatch(old(sinks), event.value, 0)
        {
          var taken := Takes(sinks[i], event.value);
          sinks := sinks[i := Written(sinks[i], event.value)];
          if !taken {
            return SinkFailed;
          }
        }
      }
      return Finished;
    }

    method ReceiveAll(events: seq<ChangeEvent>) returns (status: Status)
      modifies this`sinks
      ensures Progress(sinks, status) == Drain(transforms, old(sinks), events)
    {
      for i := 0 to |events|
        invariant Drain(transforms, sinks, events[i..]) == Drain(transforms, old(sinks), events)
      {
        assert events[i..][1..] == events[i + 1..];
        status := ProcessEvent(events[i]);
        if !status.Finished? {
          return;
        }
      }
      return Finished;
    }

    method StreamFromOffset(offset: Option<Offset>) returns (status: Status)
      modifies this`sinks, this`calls
      ensures (State(), status) == StreamOf(transforms, connector, old(State()), offset)
    {
      var made := connector.stream(calls, offset);
      calls := calls + 1;
      if |made.events| > CAPACITY {
        return Blocked;
      }
      if made.result.Err? {
        return StreamFailed;
      }
      status := ReceiveAll(made.events);
    }

    method Run(snapshotTables: Option<seq<bytes>>) returns (status: Status)
      modifies this
      ensures (State(), status) == RunOf(transforms, connector, old(State()), snapshotTables)
    {
      if running {
        return AlreadyRunning;
      }
      running := true;
      match snapshotTables {
        case Some(tables) =>
          var made := connector.snapshot(calls, tables);
          calls := calls + 1;
          if |made.events| > CAPACITY {
            return Blocked;
          }
          match made.result {
            case Err(_) =>
              running := false;
              return SnapshotFailed;
            case Ok(offset) =>
              status := ReceiveAll(made.events);
              DrainStatus(transforms, old(sinks), made.events);
              if status.Finished? {
                status := StreamFromOffset(Some(offset));
              }
          }
        case None =>
          status := StreamFromOffset(None);
      }
    }

    method Stop() returns (status: Status)
      modifies this
      ensures (State(), status) == StopOf(connector, old(State()))
    {
      running := false;
      var n, call := |sinks|, calls;
      calls := calls + 1;
      for i := 0 to n
        invariant |sinks| == n && call == old(calls) && calls == call + 1 && !running
        invariant CloseFrom(sinks, i, call) == CloseFrom(old(sinks), 0, call)
      {
        if !sinks[i].closes(call) {
          return CloseFailed;
        }
        sinks := sinks[i := sinks[i].(closed := true)];
      }
      if !connector.stops(call) {
        return StopFailed;
      }
      return Finished;
    }
  }

  lemma {:induction false} DispatchStatus(sinks: seq<Sink>, e: ChangeEvent, i: nat)
    requires i <= |sinks|
    ensures Dispatch(sinks, e, i).status in {Finished, SinkFailed}
    ensures |Dispatch(sinks, e, i).sinks| == |sinks|
    decreases |sinks| - i
  {
    if i < |sinks| && Takes(sinks[i], e) {
      DispatchStatus(sinks[i := Written(sinks[i], e)], e, i + 1);
    }
  }

  lemma {:induction false} DrainStatus(ts: seq<Transform>, sinks: seq<Sink>, events: seq<ChangeEvent>)
    ensures Drain(ts, sinks, events).status in {Finished, SinkFailed, TransformFailed}
    ensures |Drain(ts, sinks, events).sinks| == |sinks|
    decreases |events|
  {
    if events != [] {
      var out := Chain(ts, events[0]);
      if out.Ok? && out.value.Some? {
        DispatchStatus(sinks, out.value.value, 0);
      }
      var p := Process(ts, sinks, events[0]);
      if p.status.Finished? {
        DrainStatus(ts, p.sinks, events[1..]);
      }
    }
  }
}
