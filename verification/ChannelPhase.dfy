/** One phase of a run as a transition system: the connector sends into the bounded channel, and
    only once its call has returned are events received, transformed and written, sink by sink. */
module ChannelPhase {
  import opened Wrappers
  import opened ChangeEvents
  import opened Transforms
  import opened Pipelines
  import opened PipelineFacts

  /** What is fixed during a phase. */
  datatype Setting<R> = Setting(transforms: seq<Transform>, base: seq<Sink>, made: Production<R>, failure: Status)

  datatype Work = Idle | Writing(event: ChangeEvent, next: nat)

  datatype State = State(
    sent: nat, queue: seq<ChangeEvent>, returned: bool,
    received: nat, work: Work, sinks: seq<Sink>, ended: Option<Status>)

  ghost predicate Init<R>(c: Setting<R>, s: State) {
    s == State(0, [], false, 0, Idle, c.base, None)
  }

  //////////////////////////////////////////////////////////////////////////////
  // Steps
  //////////////////////////////////////////////////////////////////////////////

  datatype Step = Send | Return | Receive | Write | Settle | Close

  /** Whether a step can be taken; a send needs room in the channel. */
  predicate Enabled<R>(c: Setting<R>, s: State, step: Step) {
    match step
    case Send => !s.returned && s.sent < |c.made.events| && |s.queue| < CAPACITY
    case Return => !s.returned && s.sent == |c.made.events|
    case Receive => s.returned && s.ended.None? && s.work.Idle? && s.queue != []
    case Write => s.ended.None? && s.work.Writing? && s.work.next < |s.sinks|
    case Settle => s.ended.None? && s.work.Writing? && s.work.next == |s.sinks|
    case Close => s.returned && s.ended.None? && s.work.Idle? && s.queue == []
  }

  function Take<R>(c: Setting<R>, s: State, step: Step): State
    requires Enabled(c, s, step)
  {
    match step
    case Send => s.(sent := s.sent + 1, queue := s.queue + [c.made.events[s.sent]])
    case Return => s.(returned := true, ended := if c.made.result.Ok? then None else Some(c.failure))
    case Receive =>
      var rest := s.(queue := s.queue[1..], received := s.received + 1);
      (match Chain(c.transforms, s.queue[0])
       case Ok(Some(out)) => rest.(work := Writing(out, 0))
       case Ok(None) => rest
       case Err(_) => rest.(ended := Some(TransformFailed)))
    case Write =>
      var i := s.work.next;
      var now := s.(sinks := s.sinks[i := Written(s.sinks[i], s.work.event)]);
      if Takes(s.sinks[i], s.work.event) then now.(work := Writing(s.work.event, i + 1))
      else now.(ended := Some(SinkFailed))
    case Settle => s.(work := Idle)
    case Close => s.(ended := Some(Finished))
  }

  predicate Stuck<R>(c: Setting<R>, s: State) {
    forall step: Step :: !Enabled(c, s, step)
  }

  /** A run of the phase from its start. */
  ghost predicate IsRun<R>(c: Setting<R>, run: seq<State>) {
    run != [] && Init(c, run[0])
    && forall i :: 0 < i < |run| ==> Follows(c, run[i - 1], run[i])
  }

  ghost predicate Follows<R>(c: Setting<R>, s: State, s': State) {
    exists step :: Enabled(c, s, step) && s' == Take(c, s, step)
  }

  //////////////////////////////////////////////////////////////////////////////
  // What every step keeps
  //////////////////////////////////////////////////////////////////////////////

  /** What is left to do in a state whose connector call has returned. */
  function Resumed<R>(c: Setting<R>, s: State): Progress
    requires s.received <= |c.made.events| && (s.work.Writing? ==> s.work.next <= |s.sinks|)
  {
    var rest := c.made.events[s.received..];
    if s.ended.Some? then Progress(s.sinks, s.ended.value)
    else if s.work.Idle? then Drain(c.transforms, s.sinks, rest)
    else
      var p := Dispatch(s.sinks, s.work.event, s.work.next);
      if p.status.Finished? then Drain(c.transforms, p.sinks, rest) else p
  }

  /** The queue holds the events sent and not received, within its capacity, and nothing is
      received before the call returned. */
  ghost predicate ChannelKept<R>(c: Setting<R>, s: State) {
    var events := c.made.events;
    && s.received <= s.sent <= |events|
    && s.queue == events[s.received..s.sent] && |s.queue| <= 1024
    && (!s.returned ==> s.received == 0 && s.work.Idle? && s.sinks == c.base && s.ended.None?)
    && (s.returned ==> s.sent == |events|)
    && (s.returned && c.made.result.Err? ==>
          s.received == 0 && s.work.Idle? && s.sinks == c.base && s.ended == Some(c.failure))
  }

  /** The sinks are fanned out over the events received, the last of them perhaps under way. */
  ghost predicate SinksKept<R>(c: Setting<R>, s: State) {
    if s.work.Idle? then
      s.received <= |c.made.events| && Fanned(c.transforms, c.base, s.sinks, c.made.events, s.received, 0)
    else
      && 0 < s.received <= |c.made.events| && s.work.next <= |s.sinks|
      && Chain(c.transforms, c.made.events[s.received - 1]) == Ok(Some(s.work.event))
      && Fanned(c.transforms, c.base, s.sinks, c.made.events, s.received - 1, s.work.next)
  }

  ghost predicate Kept<R>(c: Setting<R>, s: State) {
    && ChannelKept(c, s) && SinksKept(c, s)
    && (s.returned && c.made.result.Ok? ==> Resumed(c, s) == Drain(c.transforms, c.base, c.made.events))
  }

  lemma KeptAtStart<R>(c: Setting<R>, s: State)
    requires Init(c, s)
    ensures Kept(c, s)
  {
  }

  lemma ChannelStep<R>(c: Setting<R>, s: State, step: Step)
    requires Kept(c, s) && Enabled(c, s, step)
    ensures ChannelKept(c, Take(c, s, step))
  {
    var s' := Take(c, s, step);
    assert s'.queue == c.made.events[s'.received..s'.sent];
  }

  lemma SinksStep<R>(c: Setting<R>, s: State, step: Step)
    requires Kept(c, s) && Enabled(c, s, step)
    ensures SinksKept(c, Take(c, s, step))
  {
    var ts, events, m := c.transforms, c.made.events, s.received;
    if step.Receive? {
      SinksReceive(c, s);
    } else if step.Write? {
      FannedWrite(ts, c.base, s.sinks, events, m - 1, s.work.next, s.work.event);
    } else if step.Settle? {
      FannedPast(ts, c.base, s.sinks, events, m - 1, |c.base|);
    }
  }

  lemma SinksReceive<R>(c: Setting<R>, s: State)
    requires Kept(c, s) && Enabled(c, s, Receive)
    ensures SinksKept(c, Take(c, s, Receive))
  {
    var ts, events, m := c.transforms, c.made.events, s.received;
    assert s.queue[0] == events[m];
    if !Yields(ts, events[m]) {
      FannedPast(ts, c.base, s.sinks, events, m, 0);
    }
  }

  /** An event is dealt with once the chain dropped it or every sink holds it. */
  lemma FannedPast(ts: seq<Transform>, base: seq<Sink>, now: seq<Sink>, events: seq<ChangeEvent>, m: nat, k: nat)
    requires Fanned(ts, base, now, events, m, k) && m < |events|
    requires k == |base| || (k == 0 && !Yields(ts, events[m]))
    ensures Fanned(ts, base, now, events, m + 1, 0)
  {
    DeliveredNext(ts, events, m);
  }

  lemma FannedWrite(ts: seq<Transform>, base: seq<Sink>, now: seq<Sink>, events: seq<ChangeEvent>, m: nat, k: nat,
                    out: ChangeEvent)
    requires Fanned(ts, base, now, events, m, k) && m < |events| && k < |base|
    requires Chain(ts, events[m]) == Ok(Some(out))
    ensures Fanned(ts, base, now[k := Written(now[k], out)], events, m, if Takes(now[k], out) then k + 1 else k)
  {
    DeliveredNext(ts, events, m);
  }

  lemma MeaningStep<R>(c: Setting<R>, s: State, step: Step)
    requires Kept(c, s) && Enabled(c, s, step)
    requires s.returned && c.made.result.Ok?
    ensures var s' := Take(c, s, step);
      && s'.received <= |c.made.events| && (s'.work.Writing? ==> s'.work.next <= |s'.sinks|)
      && Resumed(c, s') == Resumed(c, s)
  {
    var rest := c.made.events[s.received..];
    if step.Receive? {
      assert s.queue[0] == rest[0];
      assert rest[1..] == c.made.events[s.received + 1..];
    }
  }

  /** Every step keeps the invariant. */
  lemma KeptByStep<R>(c: Setting<R>, s: State, step: Step)
    requires Kept(c, s) && Enabled(c, s, step)
    ensures Kept(c, Take(c, s, step))
  {
    ChannelStep(c, s, step);
    SinksStep(c, s, step);
    if s.returned && c.made.result.Ok? {
      MeaningStep(c, s, step);
    }
  }

  lemma {:induction false} KeptByRun<R>(c: Setting<R>, run: seq<State>, i: nat)
    requires IsRun(c, run) && i < |run|
    ensures Kept(c, run[i])
  {
    if i == 0 {
      KeptAtStart(c, run[0]);
    } else {
      KeptByRun(c, run, i - 1);
      var step :| Enabled(c, run[i - 1], step) && run[i] == Take(c, run[i - 1], step);
      KeptByStep(c, run[i - 1], step);
    }
  }

  //////////////////////////////////////////////////////////////////////////////
  // How a phase ends
  //////////////////////////////////////////////////////////////////////////////

  /** The steps a phase can still take. */
  function Remaining<R>(c: Setting<R>, s: State): int {
    (|c.made.events| - s.sent) + (if s.returned then 0 else 1)
    + Budget(|c.made.events| - s.received, |c.base| + 2)
    + (if s.work.Idle? then 0 else |c.base| - s.work.next + 1) + (if s.ended.None? then 1 else 0)
  }

  /** So many steps for each event not yet received. */
  function Budget(left: int, width: nat): int { left * width }

  lemma BudgetDrops(left: int, width: nat)
    ensures Budget(left - 1, width) == Budget(left, width) - width
    ensures left >= 0 ==> Budget(left, width) >= 0
  {
  }

  lemma StepsRunOut<R>(c: Setting<R>, s: State, step: Step)
    requires Kept(c, s) && Enabled(c, s, step)
    ensures Remaining(c, Take(c, s, step)) < Remaining(c, s)
  {
    assert |s.sinks| == |c.base| && s.received <= |c.made.events|;
    hide Budget, Kept, Drain, Dispatch, Written, Takes, Chain;
    if step.Receive? {
      ReceiveRunsOut(c, s);
    }
  }

  lemma ReceiveRunsOut<R>(c: Setting<R>, s: State)
    requires |s.sinks| == |c.base| && s.received <= |c.made.events| && Enabled(c, s, Receive)
    ensures Remaining(c, Take(c, s, Receive)) < Remaining(c, s)
  {
    hide Budget, Chain;
    BudgetDrops(|c.made.events| - s.received, |c.base| + 2);
  }

  lemma RemainingFloor<R>(c: Setting<R>, s: State)
    requires Kept(c, s)
    ensures 0 <= Remaining(c, s)
  {
    assert |s.sinks| == |c.base| && s.received <= |c.made.events| && s.sent <= |c.made.events|;
    assert s.work.Writing? ==> s.work.next <= |c.base|;
    hide Budget, Kept, ChannelKept, SinksKept;
    BudgetDrops(|c.made.events| - s.received, |c.base| + 2);
  }

  lemma {:induction false} RunsEnd<R>(c: Setting<R>, run: seq<State>, i: nat)
    requires IsRun(c, run) && i < |run|
    ensures 0 <= Remaining(c, run[i]) <= Remaining(c, run[0]) - i
  {
    KeptByRun(c, run, i);
    RemainingFloor(c, run[i]);
    if i > 0 {
      RunsEnd(c, run, i - 1);
      KeptByRun(c, run, i - 1);
      assert Follows(c, run[i - 1], run[i]);
      var step :| Enabled(c, run[i - 1], step) && run[i] == Take(c, run[i - 1], step);
      StepsRunOut(c, run[i - 1], step);
    }
  }

  /** What a state amounts to for the caller: a phase without a status never returns. */
  function Outcome(s: State): Progress {
    Progress(s.sinks, if s.ended.Some? then s.ended.value else Blocked)
  }

  /** Every run of the phase is finite, and one that cannot go on has done exactly what the
      sequential description says. It has handed all n events over when n is at most the capacity;
      otherwise the connector waits on a full queue that holds the first events, nothing is
      received and no sink has changed. */
  lemma PhaseEnds<R>(c: Setting<R>, run: seq<State>)
    requires IsRun(c, run)
    ensures |run| <= Remaining(c, run[0]) + 1
    ensures var s, events := run[|run| - 1], c.made.events;
      Stuck(c, s) ==>
        && Outcome(s) == Phase(c.transforms, c.base, c.made, c.failure)
        && (s.returned <==> |events| <= 1024)
        && (|events| > 1024 ==> s.queue == events[..1024] && s.received == 0 && s.sinks == c.base)
  {
    var s, events := run[|run| - 1], c.made.events;
    RunsEnd(c, run, |run| - 1);
    KeptByRun(c, run, |run| - 1);
    if Stuck(c, s) {
      assert !Enabled(c, s, Send) && !Enabled(c, s, Return) && !Enabled(c, s, Receive);
      assert !Enabled(c, s, Write) && !Enabled(c, s, Settle) && !Enabled(c, s, Close);
      FullQueueOnlyWhileSending(c, run, |run| - 1);
    }
  }

  /** A call that has returned never had more events than the channel holds. */
  lemma {:induction false} FullQueueOnlyWhileSending<R>(c: Setting<R>, run: seq<State>, i: nat)
    requires IsRun(c, run) && i < |run|
    ensures run[i].returned ==> |c.made.events| <= 1024
  {
    if i > 0 {
      FullQueueOnlyWhileSending(c, run, i - 1);
      KeptByRun(c, run, i - 1);
    }
  }

  /** In every state of every run the queue is within its capacity, nothing was received before
      the call returned, and of any two sinks the later holds a prefix of what the earlier holds,
      short of it by at most one event. */
  lemma EveryStateIsSafe<R>(c: Setting<R>, run: seq<State>, at: nat, i: nat, j: nat)
    requires IsRun(c, run) && at < |run|
    requires i <= j < |c.base|
    ensures var s, base := run[at], c.base;
      && |s.queue| <= 1024
      && (!s.returned ==> s.received == 0 && s.sinks == base)
      && |s.sinks| == |base| && |base[i].log| <= |s.sinks[i].log| && |base[j].log| <= |s.sinks[j].log|
      && var ahead, behind := s.sinks[i].log[|base[i].log|..], s.sinks[j].log[|base[j].log|..];
         behind <= ahead && |ahead| <= |behind| + 1
  {
    KeptByRun(c, run, at);
    var s := run[at];
    if s.work.Idle? {
      LaterSinksFollow(c.transforms, c.base, s.sinks, c.made.events, s.received, 0, i, j);
    } else {
      LaterSinksFollow(c.transforms, c.base, s.sinks, c.made.events, s.received - 1, s.work.next, i, j);
    }
  }

  /** The phase has a run to its end: it never waits for anything but room in the channel. */
  lemma {:induction false} SomeRunEnds<R>(c: Setting<R>, run: seq<State>) returns (longer: seq<State>)
    requires IsRun(c, run)
    ensures IsRun(c, longer) && run <= longer && Stuck(c, longer[|longer| - 1])
    decreases Remaining(c, run[|run| - 1])
  {
    var s := run[|run| - 1];
    KeptByRun(c, run, |run| - 1);
    if Stuck(c, s) {
      longer := run;
    } else {
      var step :| Enabled(c, s, step);
      StepsRunOut(c, s, step);
      RunsEnd(c, run, |run| - 1);
      longer := SomeRunEnds(c, run + [Take(c, s, step)]);
    }
  }

  /** The connector call is awaited, so at most one step is possible at a time, and two runs of one
      length are the same run. */
  lemma OneStepAtATime<R>(c: Setting<R>, s: State, a: Step, b: Step)
    requires Enabled(c, s, a) && Enabled(c, s, b) && ChannelKept(c, s)
    ensures a == b
  {
  }

  lemma OneSuccessor<R>(c: Setting<R>, s: State, a: State, b: State)
    requires Follows(c, s, a) && Follows(c, s, b) && ChannelKept(c, s)
    ensures a == b
  {
    var x :| Enabled(c, s, x) && a == Take(c, s, x);
    var y :| Enabled(c, s, y) && b == Take(c, s, y);
    OneStepAtATime(c, s, x, y);
  }

  lemma {:induction false} OneRun<R>(c: Setting<R>, a: seq<State>, b: seq<State>, i: nat)
    requires IsRun(c, a) && IsRun(c, b) && i < |a| && i < |b|
    ensures a[i] == b[i]
  {
    if i > 0 {
      OneRun(c, a, b, i - 1);
      KeptByRun(c, a, i - 1);
      assert ChannelKept(c, a[i - 1]) && Follows(c, a[i - 1], a[i]) && Follows(c, b[i - 1], b[i]);
      hide *;
      OneSuccessor(c, a[i - 1], a[i], b[i]);
    }
  }
}
