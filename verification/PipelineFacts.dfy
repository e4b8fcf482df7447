/** What a run leaves in the sinks, and when a pipeline accepts the next run. */
module PipelineFacts {
  import opened Wrappers
  import opened Bits
  import opened ChangeEvents
  import opened Transforms
  import opened Pipelines

  //////////////////////////////////////////////////////////////////////////////
  // Fan-out
  //////////////////////////////////////////////////////////////////////////////

  /** What the transforms let through of a list of events. */
  function Delivered(ts: seq<Transform>, events: seq<ChangeEvent>): seq<ChangeEvent>
    decreases |events|
  {
    if events == [] then []
    else
      (match Chain(ts, events[0]) case Ok(Some(out)) => [out] case _ => []) + Delivered(ts, events[1..])
  }

  predicate Yields(ts: seq<Transform>, e: ChangeEvent) {
    var out := Chain(ts, e);
    out.Ok? && out.value.Some?
  }

  /** The sinks hold, on top of their logs in `base`, what became of the first m events;
      the first k sinks also hold the next event. */
  ghost predicate Fanned(ts: seq<Transform>, base: seq<Sink>, now: seq<Sink>, events: seq<ChangeEvent>, m: nat, k: nat)
  {
    |now| == |base| && m <= |events| && k <= |base|
    && (k > 0 ==> m < |events| && Yields(ts, events[m]))
    && forall i :: 0 <= i < |base| ==>
         now[i].log == base[i].log + Delivered(ts, events[..if i < k then m + 1 else m])
  }

  lemma {:induction false} DeliveredOfConcat(ts: seq<Transform>, a: seq<ChangeEvent>, b: seq<ChangeEvent>)
    ensures Delivered(ts, a + b) == Delivered(ts, a) + Delivered(ts, b)
    decreases |a|
  {
    if a == [] {
      assert a + b == b;
    } else {
      assert (a + b)[1..] == a[1..] + b;
      DeliveredOfConcat(ts, a[1..], b);
    }
  }

  lemma DeliveredNext(ts: seq<Transform>, events: seq<ChangeEvent>, m: nat)
    requires m < |events|
    ensures Delivered(ts, events[..m + 1]) == Delivered(ts, events[..m]) +
      (match Chain(ts, events[m]) case Ok(Some(out)) => [out] case _ => [])
  {
    assert events[..m + 1] == events[..m] + [events[m]];
    DeliveredOfConcat(ts, events[..m], [events[m]]);
    assert [events[m]][1..] == [];
  }

  /** A later sink is never ahead of an earlier one, and at most one event behind it. */
  lemma LaterSinksFollow(ts: seq<Transform>, base: seq<Sink>, now: seq<Sink>, events: seq<ChangeEvent>, m: nat, k: nat,
                         i: nat, j: nat)
    requires Fanned(ts, base, now, events, m, k)
    requires i <= j < |base|
    ensures |base[i].log| <= |now[i].log| && |base[j].log| <= |now[j].log|
    ensures var ahead, behind := now[i].log[|base[i].log|..], now[j].log[|base[j].log|..];
            behind <= ahead && |ahead| <= |behind| + 1
  {
    var ahead, behind := now[i].log[|base[i].log|..], now[j].log[|base[j].log|..];
    assert ahead == Delivered(ts, events[..if i < k then m + 1 else m]);
    assert behind == Delivered(ts, events[..if j < k then m + 1 else m]);
    if k > 0 {
      DeliveredNext(ts, events, m);
    }
  }

  /** The sinks before k and from i on hold the event on top of what they held. */
  ghost predicate WrittenUpTo(before: seq<Sink>, after: seq<Sink>, e: ChangeEvent, i: nat, k: nat) {
    |after| == |before| && forall j :: 0 <= j < |before| ==>
      after[j].log == if i <= j < k then before[j].log + [e] else before[j].log
  }

  lemma DispatchStops(sinks: seq<Sink>, e: ChangeEvent, i: nat)
    requires i == |sinks| || (i < |sinks| && !Takes(sinks[i], e))
    ensures WrittenUpTo(sinks, Dispatch(sinks, e, i).sinks, e, i, i)
    ensures Dispatch(sinks, e, i).status == if i == |sinks| then Finished else SinkFailed
  {
  }

  lemma WrittenOne(sinks: seq<Sink>, after: seq<Sink>, e: ChangeEvent, i: nat, k: nat)
    requires i < k && i < |sinks| && Takes(sinks[i], e)
    requires WrittenUpTo(sinks[i := Written(sinks[i], e)], after, e, i + 1, k)
    ensures WrittenUpTo(sinks, after, e, i, k)
  {
  }

  /** Writing sinks i and later adds the event to those before the one that refuses. */
  lemma {:induction false} DispatchLogs(sinks: seq<Sink>, e: ChangeEvent, i: nat) returns (k: nat)
    requires i <= |sinks|
    ensures i <= k <= |sinks| && WrittenUpTo(sinks, Dispatch(sinks, e, i).sinks, e, i, k)
    ensures Dispatch(sinks, e, i).status == if k == |sinks| then Finished else SinkFailed
    decreases |sinks| - i
  {
    hide *;
    if i == |sinks| || !Takes(sinks[i], e) {
      k := i;
      DispatchStops(sinks, e, i);
    } else {
      var now := sinks[i := Written(sinks[i], e)];
      DispatchGoesOn(sinks, e, i);
      k := DispatchLogs(now, e, i + 1);
      WrittenOne(sinks, Dispatch(now, e, i + 1).sinks, e, i, k);
    }
  }

  lemma DispatchGoesOn(sinks: seq<Sink>, e: ChangeEvent, i: nat)
    requires i < |sinks| && Takes(sinks[i], e)
    ensures Dispatch(sinks, e, i) == Dispatch(sinks[i := Written(sinks[i], e)], e, i + 1)
  {
    hide Takes, Written;
  }

  /** The sinks from i up to j all take the event, so that writing from i on comes to j. */
  predicate Reached(sinks: seq<Sink>, e: ChangeEvent, i: nat, j: nat)
    requires j < |sinks|
  {
    i <= j && forall m :: i <= m < j ==> Takes(sinks[m], e)
  }

  /** Every sink that is reached has one write more, also the one that refuses. */
  lemma {:induction false} DispatchWrites(sinks: seq<Sink>, e: ChangeEvent, i: nat, j: nat)
    requires i <= |sinks| && j < |sinks|
    ensures |Dispatch(sinks, e, i).sinks| == |sinks|
    ensures Dispatch(sinks, e, i).sinks[j].writes == sinks[j].writes + if Reached(sinks, e, i, j) then 1 else 0
    decreases |sinks| - i
  {
    hide *;
    NotReached(sinks, e, i, j);
    if i < |sinks| {
      if Takes(sinks[i], e) {
        DispatchGoesOn(sinks, e, i);
        DispatchWrites(sinks[i := Written(sinks[i], e)], e, i + 1, j);
      }
      ReachedNext(sinks, e, i, j);
    }
  }

  lemma NotReached(sinks: seq<Sink>, e: ChangeEvent, i: nat, j: nat)
    requires i <= |sinks| && j < |sinks|
    ensures i == |sinks| ==> Dispatch(sinks, e, i).sinks == sinks && !Reached(sinks, e, i, j)
    ensures i < |sinks| && !Takes(sinks[i], e) ==> Dispatch(sinks, e, i).sinks == sinks[i := Written(sinks[i], e)]
  {
    hide Takes, Written;
  }

  lemma ReachedNext(sinks: seq<Sink>, e: ChangeEvent, i: nat, j: nat)
    requires i < |sinks| && j < |sinks|
    ensures var now := sinks[i := Written(sinks[i], e)];
      && now[j].writes == sinks[j].writes + (if i == j then 1 else 0)
      && (Reached(sinks, e, i, j) <==> i == j || (Takes(sinks[i], e) && Reached(now, e, i + 1, j)))
      && !Reached(now, e, j + 1, j)
  {
    var now := sinks[i := Written(sinks[i], e)];
    assert Written(sinks[i], e).writes == sinks[i].writes + 1;
    hide Takes, Written;
    assert forall m :: 0 <= m < |sinks| && m != i ==> now[m] == sinks[m];
  }

  /** A refused run makes no call, any other one call per phase it comes to, and a stop one. */
  lemma CallsCounted(ts: seq<Transform>, c: Connector, s: PipelineState, tables: Option<seq<bytes>>)
    ensures StopOf(c, s).0.calls == s.calls + 1
    ensures RunOf(ts, c, s, tables).0.calls == s.calls +
      if s.running then 0
      else if tables.None? then 1
      else if Phase(ts, s.sinks, c.snapshot(s.calls, tables.value), SnapshotFailed).status.Finished? then 2
      else 1
  {
    hide Phase, CloseFrom;
  }

  /** However draining ends, the sinks are fanned out: at the end of the events when it finished,
      in front of an event the chain fails on, or amid the writes of one event. */
  lemma {:induction false} DrainFans(ts: seq<Transform>, sinks: seq<Sink>, events: seq<ChangeEvent>)
    returns (m: nat, k: nat)
    ensures var p := Drain(ts, sinks, events);
      && Fanned(ts, sinks, p.sinks, events, m, k)
      && (p.status.Finished? ==> m == |events| && k == 0)
      && (p.status.TransformFailed? ==> m < |events| && Chain(ts, events[m]).Err? && k == 0)
      && (p.status.SinkFailed? ==> m < |events| && Yields(ts, events[m]) && k < |sinks|)
    decreases |events|
  {
    m, k := 0, 0;
    if events != [] {
      k := ProcessFans(ts, sinks, events);
      var p := Process(ts, sinks, events[0]);
      assert Drain(ts, sinks, events) == if p.status.Finished? then Drain(ts, p.sinks, events[1..]) else p;
      hide Process, Drain, Fanned, Delivered;
      if p.status.Finished? {
        m, k := DrainFans(ts, p.sinks, events[1..]);
        FannedAfter(ts, sinks, p.sinks, Drain(ts, sinks, events).sinks, events, m, k);
        m := m + 1;
      }
    }
  }

  /** What processing the first event leaves. */
  lemma ProcessFans(ts: seq<Transform>, sinks: seq<Sink>, events: seq<ChangeEvent>) returns (k: nat)
    requires events != []
    ensures var p := Process(ts, sinks, events[0]);
      && |p.sinks| == |sinks|
      && (p.status.Finished? ==>
            forall i :: 0 <= i < |sinks| ==> p.sinks[i].log == sinks[i].log + Delivered(ts, events[..1]))
      && (!p.status.Finished? ==> Fanned(ts, sinks, p.sinks, events, 0, k))
      && (p.status.TransformFailed? ==> Chain(ts, events[0]).Err? && k == 0)
      && (p.status.SinkFailed? ==> Yields(ts, events[0]) && k < |sinks|)
  {
    DeliveredNext(ts, events, 0);
    assert events[..0] == [] && events[..0 + 1] == events[..1];
    k := 0;
    if Yields(ts, events[0]) {
      k := DispatchLogs(sinks, Chain(ts, events[0]).value.value, 0);
    }
  }

  lemma FannedAfter(ts: seq<Transform>, base: seq<Sink>, mid: seq<Sink>, now: seq<Sink>, events: seq<ChangeEvent>,
                    m: nat, k: nat)
    requires events != [] && |mid| == |base| && Fanned(ts, mid, now, events[1..], m, k)
    requires forall i :: 0 <= i < |base| ==> mid[i].log == base[i].log + Delivered(ts, events[..1])
    ensures Fanned(ts, base, now, events, m + 1, k)
  {
    PrefixSplits(ts, events, m + 1);
    if k > 0 {
      PrefixSplits(ts, events, m + 2);
    }
  }

  lemma PrefixSplits(ts: seq<Transform>, events: seq<ChangeEvent>, m: nat)
    requires 0 < m <= |events|
    ensures Delivered(ts, events[..m]) == Delivered(ts, events[..1]) + Delivered(ts, events[1..][..m - 1])
  {
    assert events[..m] == events[..1] + events[1..][..m - 1];
    DeliveredOfConcat(ts, events[..1], events[1..][..m - 1]);
  }

  //////////////////////////////////////////////////////////////////////////////
  // Whole runs
  //////////////////////////////////////////////////////////////////////////////

  predicate Fits<R>(made: Production<R>) {
    |made.events| <= 1024 && made.result.Ok?
  }

  /** The events of a phase that are ever received. */
  function Received<R>(made: Production<R>): seq<ChangeEvent> {
    if Fits(made) then made.events else []
  }

  /** The events a run receives when no transform and no sink ends it early. */
  function RunEvents(c: Connector, s: PipelineState, tables: Option<seq<bytes>>): seq<ChangeEvent> {
    if tables.None? then Received(c.stream(s.calls, None))
    else
      var made := c.snapshot(s.calls, tables.value);
      if Fits(made) then made.events + Received(c.stream(s.calls + 1, Some(made.result.value)))
      else []
  }

  lemma PhaseFans<R>(ts: seq<Transform>, sinks: seq<Sink>, made: Production<R>, failure: Status)
    returns (m: nat, k: nat)
    requires failure in {SnapshotFailed, StreamFailed}
    ensures var p := Phase(ts, sinks, made, failure);
      && Fanned(ts, sinks, p.sinks, Received(made), m, k)
      && (p.status.Finished? ==> Fits(made) && m == |made.events| && k == 0)
      && (p.status == failure <==> |made.events| <= 1024 && made.result.Err?)
      && (p.status.Blocked? <==> |made.events| > 1024)
      && p.status in {Finished, SinkFailed, TransformFailed, Blocked, failure}
  {
    m, k := 0, 0;
    if Fits(made) {
      m, k := DrainFans(ts, sinks, made.events);
      DrainStatus(ts, sinks, made.events);
    }
  }

  lemma FannedWider(ts: seq<Transform>, base: seq<Sink>, now: seq<Sink>, a: seq<ChangeEvent>, b: seq<ChangeEvent>,
                    m: nat, k: nat)
    requires Fanned(ts, base, now, a, m, k)
    ensures Fanned(ts, base, now, a + b, m, k)
  {
    assert (a + b)[..m] == a[..m];
    if k > 0 {
      assert (a + b)[..m + 1] == a[..m + 1];
    }
  }

  lemma FannedThen(ts: seq<Transform>, base: seq<Sink>, mid: seq<Sink>, now: seq<Sink>,
                   a: seq<ChangeEvent>, b: seq<ChangeEvent>, m: nat, k: nat)
    requires Fanned(ts, base, mid, a, |a|, 0) && Fanned(ts, mid, now, b, m, k)
    ensures Fanned(ts, base, now, a + b, |a| + m, k)
  {
    assert a[..|a|] == a;
    DeliveredOfConcat(ts, a, b[..m]);
    assert (a + b)[..|a| + m] == a + b[..m];
    if k > 0 {
      DeliveredOfConcat(ts, a, b[..m + 1]);
      assert (a + b)[..|a| + m + 1] == a + b[..m + 1];
    }
  }

  lemma StreamFans(ts: seq<Transform>, c: Connector, s: PipelineState, offset: Option<Offset>) returns (m: nat, k: nat)
    ensures var (s', status) := StreamOf(ts, c, s, offset);
      && Fanned(ts, s.sinks, s'.sinks, Received(c.stream(s.calls, offset)), m, k)
      && (status.Finished? ==> m == |Received(c.stream(s.calls, offset))| && k == 0)
      && !status.AlreadyRunning? && !status.SnapshotFailed? && s'.running == s.running
  {
    m, k := PhaseFans(ts, s.sinks, c.stream(s.calls, offset), StreamFailed);
  }

  /** However a run ends, it leaves the sinks fanned out over the events it received; a run that
      finishes has given every sink all of them. */
  lemma RunFans(ts: seq<Transform>, c: Connector, s: PipelineState, tables: Option<seq<bytes>>) returns (m: nat, k: nat)
    requires !s.running
    ensures var (s', status) := RunOf(ts, c, s, tables);
      && Fanned(ts, s.sinks, s'.sinks, RunEvents(c, s, tables), m, k)
      && (status.Finished? ==> m == |RunEvents(c, s, tables)| && k == 0)
  {
    if tables.None? {
      m, k := StreamFans(ts, c, s.(running := true), None);
    } else {
      var made := c.snapshot(s.calls, tables.value);
      var p := Phase(ts, s.sinks, made, SnapshotFailed);
      var s' := PipelineState(!p.status.SnapshotFailed?, s.calls + 1, p.sinks);
      m, k := PhaseFans(ts, s.sinks, made, SnapshotFailed);
      if Fits(made) {
        var offset := Some(made.result.value);
        var next := Received(c.stream(s.calls + 1, offset));
        var run := RunOf(ts, c, s, tables);
        assert RunEvents(c, s, tables) == made.events + next && Received(made) == made.events;
        assert run == if p.status.Finished? then StreamOf(ts, c, s', offset) else (s', p.status);
        hide *;
        if p.status.Finished? {
          var m', k' := StreamFans(ts, c, s', offset);
          FannedThen(ts, s.sinks, p.sinks, run.0.sinks, made.events, next, m', k');
          m, k := m + m', k';
        } else {
          FannedWider(ts, s.sinks, p.sinks, made.events, next, m, k);
        }
      }
    }
  }

  /** A run that finishes has appended to every sink what the transforms make of the snapshot
      events followed by what they make of the stream events, the stream resumed at the
      snapshot's offset. */
  lemma SuccessfulRunDelivers(ts: seq<Transform>, c: Connector, s: PipelineState, tables: Option<seq<bytes>>, i: nat)
    requires RunOf(ts, c, s, tables).1.Finished? && i < |s.sinks|
    ensures |RunOf(ts, c, s, tables).0.sinks| == |s.sinks|
    ensures RunOf(ts, c, s, tables).0.sinks[i].log == s.sinks[i].log +
      if tables.None? then Delivered(ts, c.stream(s.calls, None).events)
      else
        var made := c.snapshot(s.calls, tables.value);
        if made.result.Err? then []
        else Delivered(ts, made.events) + Delivered(ts, c.stream(s.calls + 1, Some(made.result.value)).events)
  {
    FinishedFits(ts, c, s, tables);
    var events := RunEvents(c, s, tables);
    if tables.Some? {
      var made := c.snapshot(s.calls, tables.value);
      DeliveredOfConcat(ts, made.events, c.stream(s.calls + 1, Some(made.result.value)).events);
    }
    hide RunOf, Delivered;
    var m, k := RunFans(ts, c, s, tables);
    assert events[..|events|] == events;
  }

  /** A run only finishes when both its calls succeeded with no more than the channel holds. */
  lemma FinishedFits(ts: seq<Transform>, c: Connector, s: PipelineState, tables: Option<seq<bytes>>)
    requires RunOf(ts, c, s, tables).1.Finished?
    ensures !s.running
    ensures match tables
            case None => Fits(c.stream(s.calls, None))
            case Some(names) =>
              var made := c.snapshot(s.calls, names);
              Fits(made) && Fits(c.stream(s.calls + 1, Some(made.result.value)))
  {
    hide Drain;
  }

  /** A chain of built-in transforms delivers what its normal form delivers. */
  lemma {:induction false} DeliveredByNormalForm(ts: seq<Transform>, events: seq<ChangeEvent>)
    requires forall i :: 0 <= i < |ts| ==> !ts[i].Custom?
    ensures Delivered(ts, events) ==
      Delivered([Filter(KeptOps(ts)), Rename(TableMap(ts), DbMap(ts))], events)
    decreases |events|
  {
    if events != [] {
      NormalForm(ts, events[0]);
      DeliveredByNormalForm(ts, events[1..]);
    }
  }

  ghost predicate NeverRefuses(s: Sink) {
    forall n, e :: s.accepts(n, e)
  }

  lemma {:induction false} DispatchFinishes(sinks: seq<Sink>, e: ChangeEvent, i: nat)
    requires i <= |sinks| && forall j :: 0 <= j < |sinks| ==> NeverRefuses(sinks[j])
    ensures var p := Dispatch(sinks, e, i);
      p.status.Finished? && forall j :: 0 <= j < |p.sinks| ==> NeverRefuses(p.sinks[j])
    decreases |sinks| - i
  {
    if i < |sinks| {
      DispatchFinishes(sinks[i := Written(sinks[i], e)], e, i + 1);
    }
  }

  lemma {:induction false} DrainFinishes(ts: seq<Transform>, sinks: seq<Sink>, events: seq<ChangeEvent>)
    requires forall i :: 0 <= i < |ts| ==> !ts[i].Custom?
    requires forall j :: 0 <= j < |sinks| ==> NeverRefuses(sinks[j])
    ensures var p := Drain(ts, sinks, events);
      p.status.Finished? && forall j :: 0 <= j < |p.sinks| ==> NeverRefuses(p.sinks[j])
    decreases |events|
  {
    if events != [] {
      NormalForm(ts, events[0]);
      TwoStep([Filter(KeptOps(ts)), Rename(TableMap(ts), DbMap(ts))], events[0]);
      if Yields(ts, events[0]) {
        DispatchFinishes(sinks, Chain(ts, events[0]).value.value, 0);
      }
      DrainFinishes(ts, Process(ts, sinks, events[0]).sinks, events[1..]);
    }
  }

  /** With built-in transforms and sinks that never refuse, a run finishes exactly when none is
      under way and each phase succeeds with at most as many events as the channel holds. */
  lemma FinishesIffPhasesFit(ts: seq<Transform>, c: Connector, s: PipelineState, tables: Option<seq<bytes>>)
    requires forall i :: 0 <= i < |ts| ==> !ts[i].Custom?
    requires forall j :: 0 <= j < |s.sinks| ==> NeverRefuses(s.sinks[j])
    ensures RunOf(ts, c, s, tables).1.Finished? <==>
      && !s.running
      && if tables.None? then Fits(c.stream(s.calls, None))
         else
           var made := c.snapshot(s.calls, tables.value);
           Fits(made) && Fits(c.stream(s.calls + 1, Some(made.result.value)))
  {
    if tables.None? {
      DrainFinishes(ts, s.sinks, c.stream(s.calls, None).events);
    } else {
      var made := c.snapshot(s.calls, tables.value);
      DrainFinishes(ts, s.sinks, made.events);
      if Fits(made) {
        DrainFinishes(ts, Drain(ts, s.sinks, made.events).sinks,
                      c.stream(s.calls + 1, Some(made.result.value)).events);
      }
    }
  }

  //////////////////////////////////////////////////////////////////////////////
  // The running flag over a history of calls
  //////////////////////////////////////////////////////////////////////////////

  /** A run is refused, without effect, exactly while the flag is set; a run that starts leaves
      the flag set unless its snapshot failed. */
  lemma FlagAfterRun(ts: seq<Transform>, c: Connector, s: PipelineState, tables: Option<seq<bytes>>)
    ensures var (s', status) := RunOf(ts, c, s, tables);
      && (status.AlreadyRunning? <==> s.running)
      && (s.running ==> s' == s)
      && (s'.running <==> !status.SnapshotFailed?)
  {
    if !s.running {
      if tables.None? {
        var m, k := StreamFans(ts, c, s.(running := true), None);
      } else {
        var made := c.snapshot(s.calls, tables.value);
        var p := Phase(ts, s.sinks, made, SnapshotFailed);
        var m, k := PhaseFans(ts, s.sinks, made, SnapshotFailed);
        hide Phase, Fanned, StreamOf;
        if p.status.Finished? {
          m, k := StreamFans(ts, c, PipelineState(true, s.calls + 1, p.sinks), Some(made.result.value));
        }
      }
    }
  }

  datatype Command = Start(tables: Option<seq<bytes>>) | Stop

  function Execute(ts: seq<Transform>, c: Connector, s: PipelineState, command: Command): (PipelineState, Status) {
    match command
    case Start(tables) => RunOf(ts, c, s, tables)
    case Stop => StopOf(c, s)
  }

  function After(ts: seq<Transform>, c: Connector, s: PipelineState, commands: seq<Command>): PipelineState
    decreases |commands|
  {
    if commands == [] then s
    else After(ts, c, Execute(ts, c, s, commands[0]).0, commands[1..])
  }

  function Statuses(ts: seq<Transform>, c: Connector, s: PipelineState, commands: seq<Command>): (r: seq<Status>)
    ensures |r| == |commands|
    decreases |commands|
  {
    if commands == [] then []
    else
      var (s', status) := Execute(ts, c, s, commands[0]);
      [status] + Statuses(ts, c, s', commands[1..])
  }

  /** Between two stops at most one run gets past its snapshot: every earlier one failed in its
      snapshot, every later one is refused and changes nothing. */
  lemma OneRunPerStop(ts: seq<Transform>, c: Connector, s: PipelineState, commands: seq<Command>)
    requires forall i :: 0 <= i < |commands| ==> commands[i].Start?
    ensures var r := Statuses(ts, c, s, commands);
      && (forall i, j :: 0 <= i < j < |r| && !r[i].SnapshotFailed? ==> r[j].AlreadyRunning?)
      && (forall i :: 0 <= i < |r| && !r[i].SnapshotFailed? ==>
            After(ts, c, s, commands) == After(ts, c, s, commands[..i + 1]))
      && (After(ts, c, s, commands).running <==> s.running || exists i :: 0 <= i < |r| && !r[i].SnapshotFailed?)
  {
    var r := Statuses(ts, c, s, commands);
    forall i | 0 <= i < |r| && !r[i].SnapshotFailed?
      ensures After(ts, c, s, commands) == After(ts, c, s, commands[..i + 1])
      ensures forall j :: i < j < |r| ==> r[j].AlreadyRunning?
    {
      RefusedBehind(ts, c, s, commands, i);
    }
    RunningAfter(ts, c, s, commands);
  }

  /** Behind a run that got past its snapshot, or was refused, all are refused. */
  lemma {:induction false} RefusedBehind(ts: seq<Transform>, c: Connector, s: PipelineState,
                                         commands: seq<Command>, i: nat)
    requires forall i :: 0 <= i < |commands| ==> commands[i].Start?
    requires i < |commands| && !Statuses(ts, c, s, commands)[i].SnapshotFailed?
    ensures After(ts, c, s, commands) == After(ts, c, s, commands[..i + 1])
    ensures forall j :: i < j < |commands| ==> Statuses(ts, c, s, commands)[j].AlreadyRunning?
    decreases |commands|
  {
    var (s', status) := Execute(ts, c, s, commands[0]);
    var rest := commands[1..];
    assert commands[..i + 1][1..] == rest[..i];
    FlagAfterRun(ts, c, s, commands[0].tables);
    hide Execute, RunOf;
    if i > 0 {
      RefusedBehind(ts, c, s', rest, i - 1);
    } else {
      RefusedWhileRunning(ts, c, s', rest);
      assert After(ts, c, s', []) == s';
    }
  }

  predicate SomePast(r: seq<Status>) {
    exists i :: 0 <= i < |r| && !r[i].SnapshotFailed?
  }

  lemma SomePastFirst(status: Status, later: seq<Status>)
    ensures SomePast([status] + later) <==> !status.SnapshotFailed? || SomePast(later)
  {
    var r := [status] + later;
    if !status.SnapshotFailed? {
      assert !r[0].SnapshotFailed?;
    } else if i :| 0 <= i < |later| && !later[i].SnapshotFailed? {
      assert !r[i + 1].SnapshotFailed?;
    }
  }

  lemma {:induction false} RunningAfter(ts: seq<Transform>, c: Connector, s: PipelineState, commands: seq<Command>)
    requires forall i :: 0 <= i < |commands| ==> commands[i].Start?
    ensures After(ts, c, s, commands).running <==> s.running || SomePast(Statuses(ts, c, s, commands))
    decreases |commands|
  {
    if commands != [] {
      var (s', status) := Execute(ts, c, s, commands[0]);
      FlagAfterRun(ts, c, s, commands[0].tables);
      RunningAfter(ts, c, s', commands[1..]);
      SomePastFirst(status, Statuses(ts, c, s', commands[1..]));
      hide RunOf, SomePast;
    }
  }

  lemma {:induction false} RefusedWhileRunning(ts: seq<Transform>, c: Connector, s: PipelineState,
                                               commands: seq<Command>)
    requires s.running && forall i :: 0 <= i < |commands| ==> commands[i].Start?
    ensures After(ts, c, s, commands) == s
    ensures forall i :: 0 <= i < |commands| ==> Statuses(ts, c, s, commands)[i].AlreadyRunning?
    decreases |commands|
  {
    if commands != [] {
      RefusedWhileRunning(ts, c, s, commands[1..]);
    }
  }

  /** A stop reopens the pipeline even when it fails, keeps every log, and closes the sinks in
      front of the first that does not close and no other. */
  lemma {:induction false} StopReopens(c: Connector, s: PipelineState) returns (k: nat)
    ensures var (s', status) := StopOf(c, s);
      && !s'.running && |s'.sinks| == |s.sinks| && k <= |s.sinks|
      && (forall i :: 0 <= i < |s.sinks| ==>
            s'.sinks[i] == if i < k then s.sinks[i].(closed := true) else s.sinks[i])
      && (forall i :: 0 <= i < k ==> s.sinks[i].closes(s.calls))
      && (status.CloseFailed? <==> k < |s.sinks|)
      && (k < |s.sinks| ==> !s.sinks[k].closes(s.calls))
      && (status.Finished? <==> k == |s.sinks| && c.stops(s.calls))
  {
    k := ClosedUpTo(s.sinks, 0, s.calls);
  }

  lemma {:induction false} ClosedUpTo(sinks: seq<Sink>, i: nat, calls: nat) returns (k: nat)
    requires i <= |sinks|
    ensures var p := CloseFrom(sinks, i, calls);
      && i <= k <= |sinks| == |p.sinks|
      && (forall j :: 0 <= j < |sinks| ==> p.sinks[j] == if i <= j < k then sinks[j].(closed := true) else sinks[j])
      && (forall j :: i <= j < k ==> sinks[j].closes(calls))
      && p.status == (if k < |sinks| then CloseFailed else Finished)
      && (k < |sinks| ==> !sinks[k].closes(calls))
    decreases |sinks| - i
  {
    if i == |sinks| || !sinks[i].closes(calls) {
      k := i;
    } else {
      k := ClosedUpTo(sinks[i := sinks[i].(closed := true)], i + 1, calls);
    }
  }
}
