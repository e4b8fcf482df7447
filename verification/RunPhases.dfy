/** A whole run as a transition system: the snapshot phase and then the stream phase. */
module RunPhases {
  import opened Wrappers
  import opened Bits
  import opened ChangeEvents
  import opened Transforms
  import opened Pipelines
  import opened PipelineFacts
  import opened ChannelPhase

  function SnapshotSetting(ts: seq<Transform>, made: Production<Offset>, s: PipelineState): Setting<Offset> {
    Setting(ts, s.sinks, made, SnapshotFailed)
  }

  function StreamSetting(ts: seq<Transform>, c: Connector, sinks: seq<Sink>, calls: nat, offset: Option<Offset>)
    : Setting<()>
  {
    Setting(ts, sinks, c.stream(calls, offset), StreamFailed)
  }

  function Last(run: seq<State>): State
    requires run != []
  {
    run[|run| - 1]
  }

  /** The states a run goes through: without tables only those of a stream phase; with tables those
      of a snapshot phase and, once that has finished, those of a stream phase that goes on with
      its sinks from its offset. */
  ghost predicate IsFullRun(ts: seq<Transform>, c: Connector, s: PipelineState, tables: Option<seq<bytes>>,
                            first: seq<State>, second: seq<State>)
  {
    && !s.running
    && match tables
       case None => first == [] && IsRun(StreamSetting(ts, c, s.sinks, s.calls, None), second)
       case Some(names) =>
         var made := c.snapshot(s.calls, names);
         && IsRun(SnapshotSetting(ts, made, s), first)
         && (second != [] ==>
               && made.result.Ok? && Last(first).ended == Some(Finished)
               && IsRun(StreamSetting(ts, c, Last(first).sinks, s.calls + 1, Some(made.result.value)), second))
  }

  /** The events of both calls. */
  function AllEvents(c: Connector, s: PipelineState, tables: Option<seq<bytes>>): seq<ChangeEvent> {
    match tables
    case None => c.stream(s.calls, None).events
    case Some(names) =>
      var made := c.snapshot(s.calls, names);
      made.events + if made.result.Ok? then c.stream(s.calls + 1, Some(made.result.value)).events else []
  }

  lemma FannedInState<R>(c: Setting<R>, run: seq<State>, at: nat) returns (m: nat, k: nat)
    requires IsRun(c, run) && at < |run|
    ensures Fanned(c.transforms, c.base, run[at].sinks, c.made.events, m, k)
  {
    KeptByRun(c, run, at);
    var s := run[at];
    if s.work.Idle? {
      m, k := s.received, 0;
    } else {
      m, k := s.received - 1, s.work.next;
    }
  }

  /** A phase ends as finished only with all its events received. */
  lemma FinishedReceivesAll<R>(c: Setting<R>, run: seq<State>, at: nat)
    requires IsRun(c, run) && at < |run| && run[at].ended == Some(Finished) && c.failure != Finished
    ensures run[at].received == |c.made.events| && run[at].work.Idle? && c.made.result.Ok?
    ensures |c.made.events| <= 1024
  {
    KeptByRun(c, run, at);
    KeptByRun(c, run, at - 1);
    assert Follows(c, run[at - 1], run[at]);
    FullQueueOnlyWhileSending(c, run, at);
  }

  /** In every state of a whole run, in either phase, the sinks are fanned out over the events of
      both calls on top of what they held when the run began; so of any two sinks the later holds a
      prefix of what the earlier holds, short of it by at most one event. */
  lemma EveryStateOfRunIsSafe(ts: seq<Transform>, c: Connector, s: PipelineState, tables: Option<seq<bytes>>,
                              first: seq<State>, second: seq<State>, at: nat, i: nat, j: nat)
    requires IsFullRun(ts, c, s, tables, first, second) && at < |first + second|
    requires i <= j < |s.sinks|
    ensures var now, base := (first + second)[at].sinks, s.sinks;
      && |now| == |base| && |base[i].log| <= |now[i].log| && |base[j].log| <= |now[j].log|
      && var ahead, behind := now[i].log[|base[i].log|..], now[j].log[|base[j].log|..];
         behind <= ahead && |ahead| <= |behind| + 1
  {
    var m, k := FannedInRun(ts, c, s, tables, first, second, at);
    LaterSinksFollow(ts, s.sinks, (first + second)[at].sinks, AllEvents(c, s, tables), m, k, i, j);
  }

  lemma FannedInRun(ts: seq<Transform>, c: Connector, s: PipelineState, tables: Option<seq<bytes>>,
                    first: seq<State>, second: seq<State>, at: nat) returns (m: nat, k: nat)
    requires IsFullRun(ts, c, s, tables, first, second) && at < |first + second|
    ensures Fanned(ts, s.sinks, (first + second)[at].sinks, AllEvents(c, s, tables), m, k)
  {
    if tables.None? {
      assert first + second == second;
      m, k := FannedInState(StreamSetting(ts, c, s.sinks, s.calls, None), second, at);
    } else {
      var made := c.snapshot(s.calls, tables.value);
      var snapshot := SnapshotSetting(ts, made, s);
      if at < |first| {
        assert (first + second)[at] == first[at];
        m, k := FannedInState(snapshot, first, at);
        FannedWider(ts, s.sinks, first[at].sinks, made.events,
                    if made.result.Ok? then c.stream(s.calls + 1, Some(made.result.value)).events else [], m, k);
      } else {
        assert (first + second)[at] == second[at - |first|];
        var stream := StreamSetting(ts, c, Last(first).sinks, s.calls + 1, Some(made.result.value));
        FannedAtEnd(snapshot, first);
        m, k := FannedInState(stream, second, at - |first|);
        hide Fanned, IsRun;
        FannedThen(ts, s.sinks, Last(first).sinks, second[at - |first|].sinks, made.events, stream.made.events, m, k);
        m := |made.events| + m;
      }
    }
  }

  lemma FannedAtEnd<R>(c: Setting<R>, run: seq<State>)
    requires IsRun(c, run) && Last(run).ended == Some(Finished) && c.failure != Finished
    ensures Fanned(c.transforms, c.base, Last(run).sinks, c.made.events, |c.made.events|, 0)
  {
    KeptByRun(c, run, |run| - 1);
    FinishedReceivesAll(c, run, |run| - 1);
  }

  //////////////////////////////////////////////////////////////////////////////
  // How a run ends
  //////////////////////////////////////////////////////////////////////////////

  /** The states after which no step and no further phase is possible. */
  ghost predicate CannotGoOn(ts: seq<Transform>, c: Connector, s: PipelineState, tables: Option<seq<bytes>>,
                             first: seq<State>, second: seq<State>)
    requires IsFullRun(ts, c, s, tables, first, second)
  {
    match tables
    case None => Stuck(StreamSetting(ts, c, s.sinks, s.calls, None), Last(second))
    case Some(names) =>
      var made := c.snapshot(s.calls, names);
      if second == [] then Stuck(SnapshotSetting(ts, made, s), Last(first)) && Last(first).ended != Some(Finished)
      else Stuck(StreamSetting(ts, c, Last(first).sinks, s.calls + 1, Some(made.result.value)), Last(second))
  }

  lemma EndedIsStuck<R>(c: Setting<R>, run: seq<State>, at: nat)
    requires IsRun(c, run) && at < |run| && run[at].ended.Some?
    ensures Stuck(c, run[at])
  {
    KeptByRun(c, run, at);
  }

  /** A whole run that cannot go on has the sinks and the status the sequential description of the
      run prescribes. */
  lemma FullRunEnds(ts: seq<Transform>, c: Connector, s: PipelineState, tables: Option<seq<bytes>>,
                    first: seq<State>, second: seq<State>)
    requires IsFullRun(ts, c, s, tables, first, second) && CannotGoOn(ts, c, s, tables, first, second)
    ensures var (s', status) := RunOf(ts, c, s, tables);
      ChannelPhase.Outcome(Last(first + second)) == Progress(s'.sinks, status)
  {
    assert tables.Some? ==> first != [];
    hide Drain, Enabled, Stuck, IsRun;
    match tables
    case None =>
      assert first + second == second;
      PhaseEnds(StreamSetting(ts, c, s.sinks, s.calls, None), second);
    case Some(names) =>
      var made := c.snapshot(s.calls, names);
      var snapshot := SnapshotSetting(ts, made, s);
      if second == [] {
        assert first + second == first;
      } else {
        EndedIsStuck(snapshot, first, |first| - 1);
        PhaseEnds(StreamSetting(ts, c, Last(first).sinks, s.calls + 1, Some(made.result.value)), second);
      }
      PhaseEnds(snapshot, first);
  }

  lemma SomePhaseEnds<R>(c: Setting<R>) returns (run: seq<State>)
    ensures IsRun(c, run) && Stuck(c, Last(run))
  {
    var start := [State(0, [], false, 0, Idle, c.base, None)];
    run := SomeRunEnds(c, start);
  }

  /** There always is such a run. */
  lemma SomeFullRunEnds(ts: seq<Transform>, c: Connector, s: PipelineState, tables: Option<seq<bytes>>)
    returns (first: seq<State>, second: seq<State>)
    requires !s.running
    ensures IsFullRun(ts, c, s, tables, first, second) && CannotGoOn(ts, c, s, tables, first, second)
  {
    first, second := [], [];
    match tables
    case None =>
      second := SomePhaseEnds(StreamSetting(ts, c, s.sinks, s.calls, None));
    case Some(names) =>
      var made := c.snapshot(s.calls, names);
      first := SomePhaseEnds(SnapshotSetting(ts, made, s));
      if Last(first).ended == Some(Finished) {
        FinishedReceivesAll(SnapshotSetting(ts, made, s), first, |first| - 1);
        second := SomePhaseEnds(StreamSetting(ts, c, Last(first).sinks, s.calls + 1, Some(made.result.value)));
      }
  }
}
