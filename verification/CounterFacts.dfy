/** Interleaved tool calls and background tasks over the shared state: what the counters keep, and
    when a shutdown lasts. */
module CounterFacts {
  import opened Wrappers
  import opened Bits
  import opened AppStates

  /** A count on its way to a connector: the rest of an increment, or a snapshot task. */
  datatype Work = Work(name: string, count: u64)

  /** The shared state, the unfinished work, and a ledger of all that was ever counted. */
  datatype State = State(
    shared: Shared,
    increments: seq<Work>,
    checked: seq<Work>,
    tasks: seq<Work>,
    counted: nat, retired: nat, absent: nat)

  datatype Action =
    | Register(name: string)
    | Remove(name: string)
    | SetStatus(name: string, status: ConnectorStatus)
    | BeginIncrement(work: Work)
    | EndIncrement(i: nat)
    | CheckSnapshot(name: string, tables: nat)
    | BeginSnapshot(i: nat)
    | FinishTask(i: nat)
    | Shutdown

  predicate Init(s: State) {
    s == State(Shared(map[], map[], 0, 0, 0), [], [], [], 0, 0, 0)
  }

  predicate Enabled(s: State, a: Action) {
    match a
    case EndIncrement(i) => i < |s.increments|
    case CheckSnapshot(name, tables) => MayStart(s.shared, name) && SnapshotCount(tables) < U64
    case BeginSnapshot(i) => i < |s.checked|
    case FinishTask(i) => i < |s.tasks|
    case _ => true
  }

  function Without(work: seq<Work>, i: nat): seq<Work>
    requires i < |work|
  {
    work[..i] + work[i + 1..]
  }

  /** The count of a connector, nothing if it is not registered. */
  function CountOf(m: Connectors, name: string): nat {
    if name in m then m[name].received else 0
  }

  function Next(s: State, a: Action): State
    requires Enabled(s, a)
  {
    match a
    case Register(name) => s.(shared := Registered(s.shared, name))
    case Remove(name) =>
      s.(shared := Removed(s.shared, name), retired := s.retired + CountOf(s.shared.connectors, name))
    case SetStatus(name, status) => s.(shared := WithStatus(s.shared, name, status))
    case BeginIncrement(w) =>
      s.(shared := GlobalCounted(s.shared, w.count), increments := s.increments + [w], counted := s.counted + w.count)
    case EndIncrement(i) =>
      var w := s.increments[i];
      s.(shared := ConnectorCounted(s.shared, w.name, w.count), increments := Without(s.increments, i),
         absent := s.absent + if w.name in s.shared.connectors then 0 else w.count)
    case CheckSnapshot(name, tables) => s.(checked := s.checked + [Work(name, SnapshotCount(tables))])
    case BeginSnapshot(i) =>
      var w := s.checked[i];
      s.(shared := WithStatus(s.shared, w.name, Snapshotting), checked := Without(s.checked, i), tasks := s.tasks + [w])
    case FinishTask(i) =>
      var w := s.tasks[i];
      s.(shared := SnapshotFinished(s.shared, w.name, w.count), tasks := Without(s.tasks, i),
         counted := s.counted + if w.name in s.shared.connectors then w.count else 0)
    case Shutdown => s.(shared := ShutDown(s.shared))
  }

  ghost predicate Follows(s: State, s': State) {
    exists a :: Enabled(s, a) && s' == Next(s, a)
  }

  ghost predicate IsRun(run: seq<State>) {
    run != [] && Init(run[0]) && forall i :: 0 < i < |run| ==> Follows(run[i - 1], run[i])
  }

  //////////////////////////////////////////////////////////////////////////////
  // Sums
  //////////////////////////////////////////////////////////////////////////////

  ghost function Total(m: Connectors): nat
    decreases |m|
  {
    if m == map[] then 0
    else
      var n :| n in m;
      m[n].received + Total(m - {n})
  }

  function TotalWork(work: seq<Work>): nat {
    if work == [] then 0 else work[0].count + TotalWork(work[1..])
  }

  lemma {:induction false} TotalSplits(m: Connectors, n: string)
    requires n in m
    ensures Total(m) == m[n].received + Total(m - {n})
    decreases |m|
  {
    var k :| k in m && Total(m) == m[k].received + Total(m - {k});
    if k != n {
      TotalSplits(m - {k}, n);
      TotalSplits(m - {n}, k);
      assert m - {k} - {n} == m - {n} - {k};
    }
  }

  lemma TotalUpdated(m: Connectors, n: string, c: ManagedConnector)
    ensures Total(m[n := c]) == Total(m) - CountOf(m, n) + c.received
  {
    TotalSplits(m[n := c], n);
    assert m[n := c] - {n} == m - {n};
    if n in m {
      TotalSplits(m, n);
    } else {
      assert m - {n} == m;
    }
  }

  lemma TotalRemoved(m: Connectors, n: string)
    ensures Total(m) == CountOf(m, n) + Total(m - {n})
  {
    if n in m {
      TotalSplits(m, n);
    } else {
      assert m - {n} == m;
    }
  }

  lemma {:induction false} TotalOfSameCounts(a: Connectors, b: Connectors)
    requires a.Keys == b.Keys && forall n :: n in a ==> a[n].received == b[n].received
    ensures Total(a) == Total(b)
    decreases |a|
  {
    if a != map[] {
      var n :| n in a;
      TotalSplits(a, n);
      TotalSplits(b, n);
      assert (a - {n}).Keys == (b - {n}).Keys;
      TotalOfSameCounts(a - {n}, b - {n});
    }
  }

  lemma {:induction false} WorkSplits(work: seq<Work>, i: nat)
    requires i < |work|
    ensures TotalWork(work) == work[i].count + TotalWork(Without(work, i))
    decreases |work|
  {
    if i == 0 {
      assert Without(work, 0) == work[1..];
    } else {
      assert Without(work, i)[1..] == Without(work[1..], i - 1);
      WorkSplits(work[1..], i - 1);
    }
  }

  lemma {:induction false} WorkAppended(work: seq<Work>, w: Work)
    ensures TotalWork(work + [w]) == TotalWork(work) + w.count
  {
    if work == [] {
      assert [w][1..] == [];
    } else {
      assert (work + [w])[1..] == work[1..] + [w];
      WorkAppended(work[1..], w);
    }
  }

  //////////////////////////////////////////////////////////////////////////////
  // Conservation
  //////////////////////////////////////////////////////////////////////////////

  /** The global counter is the ledger modulo its width; while the ledger fits, every count in it
      is with a live connector, went with a removed one, met no connector, or is under way. */
  ghost predicate Conserved(s: State) {
    && s.shared.received == s.counted % U64
    && (s.counted < U64 ==>
          s.shared.received == Total(s.shared.connectors) + s.retired + s.absent + TotalWork(s.increments))
  }

  lemma ConservedByRegister(s: State, name: string)
    requires Conserved(s)
    ensures Conserved(Next(s, Register(name)))
  {
    TotalUpdated(s.shared.connectors, name, NEW_CONNECTOR);
  }

  lemma ConservedByIncrement(s: State, a: Action)
    requires Conserved(s) && Enabled(s, a) && (a.BeginIncrement? || a.EndIncrement?)
    ensures Conserved(Next(s, a))
  {
    if a.BeginIncrement? {
      WorkAppended(s.increments, a.work);
      WrapsAsModulo(s.shared.received, s.counted, a.work.count);
    } else {
      var w := s.increments[a.i];
      WorkSplits(s.increments, a.i);
      if w.name in s.shared.connectors {
        var c := s.shared.connectors[w.name];
        TotalSplits(s.shared.connectors, w.name);
        TotalUpdated(s.shared.connectors, w.name, c.(received := SaturatingAdd(c.received, w.count)));
      }
    }
  }

  lemma ConservedByFinish(s: State, i: nat)
    requires Conserved(s) && i < |s.tasks|
    ensures Conserved(Next(s, FinishTask(i)))
  {
    var w := s.tasks[i];
    if w.name in s.shared.connectors {
      var c := s.shared.connectors[w.name];
      WrapsAsModulo(s.shared.received, s.counted, w.count);
      TotalSplits(s.shared.connectors, w.name);
      TotalUpdated(s.shared.connectors, w.name,
        c.(received := SaturatingAdd(c.received, w.count), status := Running, offset := Some(SnapshotDone)));
    }
  }

  lemma WrapsAsModulo(a: u64, total: nat, count: u64)
    requires a == total % U64
    ensures WrappingAdd(a, count) == (total + count) % U64
    ensures total + count < U64 ==> WrappingAdd(a, count) == a + count
  {
    var q := total / U64;
    assert total == q * U64 + a;
    if a + count < U64 {
      assert total + count == q * U64 + (a + count);
    } else {
      assert total + count == (q + 1) * U64 + (a + count - U64);
    }
  }

  lemma ConservedByStatus(s: State, m: Connectors)
    requires Conserved(s)
    requires m.Keys == s.shared.connectors.Keys
    requires forall n :: n in m ==> m[n].received == s.shared.connectors[n].received
    ensures Conserved(s.(shared := s.shared.(connectors := m)))
  {
    TotalOfSameCounts(m, s.shared.connectors);
  }

  /** Every section of every call keeps the ledger. */
  lemma ConservedByStep(s: State, a: Action)
    requires Conserved(s) && Enabled(s, a)
    ensures Conserved(Next(s, a))
  {
    match a {
      case Register(name) => ConservedByRegister(s, name);
      case Remove(name) => TotalRemoved(s.shared.connectors, name);
      case BeginIncrement(_) | EndIncrement(_) => ConservedByIncrement(s, a);
      case FinishTask(i) => ConservedByFinish(s, i);
      case SetStatus(_, _) | BeginSnapshot(_) | Shutdown =>
        ConservedByStatus(s, Next(s, a).shared.connectors);
      case CheckSnapshot(_, _) =>
    }
  }

  /** In every state of every interleaving. */
  lemma {:induction false} CountsConserved(run: seq<State>, i: nat)
    requires IsRun(run) && i < |run|
    ensures Conserved(run[i])
  {
    if i > 0 {
      CountsConserved(run, i - 1);
      var a :| Enabled(run[i - 1], a) && run[i] == Next(run[i - 1], a);
      ConservedByStep(run[i - 1], a);
    }
  }

  /** Whoever holds the lock sees a global count of at least the live counts together, and of
      exactly those when nothing was removed, missed or is under way. */
  lemma ReadersSeeEnough(run: seq<State>, i: nat)
    requires IsRun(run) && i < |run| && run[i].counted < U64
    ensures var s := run[i];
      && s.shared.received >= Total(s.shared.connectors)
      && (s.shared.received == Total(s.shared.connectors) <==>
            s.retired == 0 && s.absent == 0 && TotalWork(s.increments) == 0)
  {
    CountsConserved(run, i);
  }

  /** Health never counts a connector twice, and is degraded exactly when one is in error. */
  lemma HealthAddsUp(s: Shared)
    ensures var h := HealthOf(s);
      h.running + h.errored <= h.total && (h.degraded <==> h.errored > 0)
  {
    var up, broken := RunningNames(s.connectors), ErroredNames(s.connectors);
    assert up * broken == {} && up + broken <= s.connectors.Keys;
    SubsetCardinality(up + broken, s.connectors.Keys);
  }

  lemma {:induction false} SubsetCardinality(a: set<string>, b: set<string>)
    requires a <= b
    ensures |a| <= |b|
  {
    if x :| x in a {
      SubsetCardinality(a - {x}, b - {x});
    }
  }

  //////////////////////////////////////////////////////////////////////////////
  // Shutdown
  //////////////////////////////////////////////////////////////////////////////

  predicate AllStopped(s: State) {
    forall n :: n in s.shared.connectors ==> s.shared.connectors[n].status.Stopped?
  }

  /** The action gives a registered connector a status other than stopped. */
  predicate Revives(s: State, a: Action)
    requires Enabled(s, a)
  {
    match a
    case SetStatus(n, status) => n in s.shared.connectors && !status.Stopped?
    case BeginSnapshot(i) => s.checked[i].name in s.shared.connectors
    case FinishTask(i) => s.tasks[i].name in s.shared.connectors
    case _ => false
  }

  lemma StopsOnShutdown(s: State)
    ensures AllStopped(Next(s, Shutdown)) && Next(s, Shutdown).shared.sinks == map[]
  {
  }

  lemma StoppedByStep(s: State, a: Action)
    requires AllStopped(s) && Enabled(s, a)
    ensures AllStopped(Next(s, a)) <==> !Revives(s, a)
  {
    var m, m' := s.shared.connectors, Next(s, a).shared.connectors;
    match a {
      case SetStatus(n, status) => assert n in m ==> m'[n].status == status;
      case BeginSnapshot(i) => assert s.checked[i].name in m ==> m'[s.checked[i].name].status == Snapshotting;
      case FinishTask(i) => assert s.tasks[i].name in m ==> m'[s.tasks[i].name].status == Running;
      case _ =>
    }
  }

  function After(s: State, actions: seq<Action>): State
    requires AllEnabled(s, actions)
    decreases |actions|
  {
    if actions == [] then s else After(Next(s, actions[0]), actions[1..])
  }

  predicate AllEnabled(s: State, actions: seq<Action>)
    decreases |actions|
  {
    actions == [] || (Enabled(s, actions[0]) && AllEnabled(Next(s, actions[0]), actions[1..]))
  }

  /** Every connector is stopped now and after each of the actions. */
  predicate StaysStopped(s: State, actions: seq<Action>)
    requires AllEnabled(s, actions)
    decreases |actions|
  {
    AllStopped(s) && (actions == [] || StaysStopped(Next(s, actions[0]), actions[1..]))
  }

  predicate NeverRevives(s: State, actions: seq<Action>)
    requires AllEnabled(s, actions)
    decreases |actions|
  {
    actions == [] || (!Revives(s, actions[0]) && NeverRevives(Next(s, actions[0]), actions[1..]))
  }

  /** Where all is stopped, whatever is interleaved, everything stays stopped exactly as long as no
      other status is set, no snapshot begun and no snapshot task finished for a connector that is
      registered at that moment. */
  lemma {:induction false} StaysStoppedIff(s: State, actions: seq<Action>)
    requires AllStopped(s) && AllEnabled(s, actions)
    ensures StaysStopped(s, actions) <==> NeverRevives(s, actions)
    decreases |actions|
  {
    if actions != [] {
      StoppedByStep(s, actions[0]);
      if !Revives(s, actions[0]) {
        StaysStoppedIff(Next(s, actions[0]), actions[1..]);
      }
    }
  }

  /** Just behind a shutdown of any state everything is stopped and no sink is left, and it stays so
      exactly under actions that revive nothing. */
  lemma StoppedAfterShutdownIff(s: State, actions: seq<Action>)
    requires AllEnabled(Next(s, Shutdown), actions)
    ensures AllStopped(Next(s, Shutdown)) && Next(s, Shutdown).shared.sinks == map[]
    ensures StaysStopped(Next(s, Shutdown), actions) <==> NeverRevives(Next(s, Shutdown), actions)
  {
    StopsOnShutdown(s);
    StaysStoppedIff(Next(s, Shutdown), actions);
  }

  predicate OnlyFinishes(actions: seq<Action>) {
    forall i :: 0 <= i < |actions| ==> actions[i].FinishTask?
  }

  /** When only snapshot tasks are left to finish, they leave everything stopped, in whatever
      order, exactly when none of them is for a registered connector. */
  lemma ShutdownLastsIff(s: State)
    requires AllStopped(s)
    ensures (forall actions :: AllEnabled(s, actions) && OnlyFinishes(actions) ==> StaysStopped(s, actions))
      <==> (forall i :: 0 <= i < |s.tasks| ==> s.tasks[i].name !in s.shared.connectors)
  {
    if i :| 0 <= i < |s.tasks| && s.tasks[i].name in s.shared.connectors {
      StoppedByStep(s, FinishTask(i));
      var actions := [FinishTask(i)];
      assert actions[1..] == [] && AllEnabled(s, actions) && OnlyFinishes(actions);
      StaysStoppedIff(s, actions);
      assert !NeverRevives(s, actions);
    } else {
      forall actions | AllEnabled(s, actions) && OnlyFinishes(actions) ensures StaysStopped(s, actions) {
        IdleFinishes(s, actions);
      }
    }
  }

  lemma {:induction false} IdleFinishes(s: State, actions: seq<Action>)
    requires AllStopped(s) && AllEnabled(s, actions) && OnlyFinishes(actions)
    requires forall i :: 0 <= i < |s.tasks| ==> s.tasks[i].name !in s.shared.connectors
    ensures StaysStopped(s, actions)
    decreases |actions|
  {
    if actions != [] {
      IdleFinishes(Next(s, actions[0]), actions[1..]);
    }
  }

  //////////////////////////////////////////////////////////////////////////////
  // Starting a snapshot
  //////////////////////////////////////////////////////////////////////////////

  /** No two entries are for one connector. */
  predicate OnePerName(work: seq<Work>) {
    forall i, j :: 0 <= i < j < |work| ==> work[i].name != work[j].name
  }

  predicate HasName(work: seq<Work>, name: string) {
    exists i :: 0 <= i < |work| && work[i].name == name
  }

  /** Every connector has at most one snapshot between its check and the end of its task. */
  predicate Exclusive(s: State) {
    OnePerName(s.checked + s.tasks)
  }

  /** No snapshot is checked for a connector that has one on its way. */
  predicate Fresh(s: State, a: Action) {
    a.CheckSnapshot? ==> !HasName(s.checked + s.tasks, a.name)
  }

  /** Exclusive, and every connector with a snapshot on its way is registered, and shows as
      snapshotting while its task is unfinished: then the check itself tells what is on its way. */
  predicate Truthful(s: State) {
    && Exclusive(s)
    && (forall i :: 0 <= i < |s.checked| ==> s.checked[i].name in s.shared.connectors)
    && (forall i :: 0 <= i < |s.tasks| ==>
          s.tasks[i].name in s.shared.connectors && s.shared.connectors[s.tasks[i].name].status.Snapshotting?)
  }

  /** Not to check a connector that was checked and not begun, not to change the status or remove a
      connector under way, not to shut down with a task unfinished. */
  predicate Guarded(s: State, a: Action)
    requires Enabled(s, a)
  {
    match a
    case CheckSnapshot(name, _) => !HasName(s.checked, name)
    case SetStatus(name, status) => HasName(s.tasks, name) ==> status.Snapshotting?
    case Remove(name) => !HasName(s.checked + s.tasks, name)
    case Shutdown => s.tasks == []
    case _ => true
  }

  lemma WithoutAt(work: seq<Work>, i: nat)
    requires i < |work|
    ensures |Without(work, i)| == |work| - 1
    ensures forall k :: 0 <= k < |work| - 1 ==> Without(work, i)[k] == if k < i then work[k] else work[k + 1]
  {
  }

  /** Entries picked from different places of a list are for different connectors. */
  lemma Picked(work: seq<Work>, picked: seq<Work>, from: seq<nat>)
    requires OnePerName(work) && |from| == |picked|
    requires forall i :: 0 <= i < |picked| ==> from[i] < |work| && picked[i] == work[from[i]]
    requires forall i, j :: 0 <= i < j < |picked| ==> from[i] != from[j]
    ensures OnePerName(picked)
  {
    forall i, j | 0 <= i < j < |picked| ensures picked[i].name != picked[j].name {
      assert from[i] != from[j];
    }
  }

  lemma OthersDiffer(work: seq<Work>, k: nat)
    requires OnePerName(work) && k < |work|
    ensures forall i :: 0 <= i < |work| && i != k ==> work[i].name != work[k].name
  {
  }

  lemma InsertedName(a: seq<Work>, w: Work, b: seq<Work>)
    requires OnePerName(a + b)
    ensures OnePerName(a + [w] + b) <==> !HasName(a, w.name) && !HasName(b, w.name)
  {
    var before, after, k := a + b, a + [w] + b, |a|;
    assert after[k] == w;
    if i :| 0 <= i < |a| && a[i].name == w.name {
      assert after[i] == a[i];
    } else if i :| 0 <= i < |b| && b[i].name == w.name {
      assert after[k + 1 + i] == b[i];
    } else {
      forall i, j | 0 <= i < j < |after| ensures after[i].name != after[j].name {
        assert i != k ==> after[i] == before[if i < k then i else i - 1];
        assert j != k ==> after[j] == before[if j < k then j else j - 1];
        assert i < k ==> after[i] == a[i];
        assert j > k ==> after[j] == b[j - k - 1];
      }
    }
  }

  lemma HasNameConcat(a: seq<Work>, b: seq<Work>, name: string)
    ensures HasName(a + b, name) <==> HasName(a, name) || HasName(b, name)
  {
    var both := a + b;
    if i :| 0 <= i < |a| && a[i].name == name {
      assert both[i].name == name;
    } else if i :| 0 <= i < |b| && b[i].name == name {
      assert both[|a| + i].name == name;
    } else {
      assert forall i :: 0 <= i < |both| ==> both[i] == if i < |a| then a[i] else b[i - |a|];
    }
  }

  /** The entry begun moves from its place to the end of the list. */
  lemma BeginKeepsNames(s: State, i: nat)
    requires i < |s.checked| && OnePerName(s.checked + s.tasks)
    ensures OnePerName(Without(s.checked, i) + (s.tasks + [s.checked[i]]))
  {
    var work := s.checked + s.tasks;
    var n := |work|;
    WithoutAt(s.checked, i);
    Picked(work, Without(s.checked, i) + (s.tasks + [s.checked[i]]),
           seq(n, k requires 0 <= k < n => if k < i then k else if k < n - 1 then k + 1 else i));
  }

  /** The entry finished is taken out. */
  lemma FinishKeepsNames(s: State, i: nat)
    requires i < |s.tasks| && OnePerName(s.checked + s.tasks)
    ensures OnePerName(s.checked + Without(s.tasks, i))
    ensures forall k :: 0 <= k < |Without(s.tasks, i)| ==>
      Without(s.tasks, i)[k].name != s.tasks[i].name && Without(s.tasks, i)[k] in s.tasks
  {
    var rest, n := Without(s.tasks, i), |s.checked|;
    var work, at := s.checked + s.tasks, n + i;
    WithoutAt(s.tasks, i);
    OthersDiffer(work, at);
    Picked(work, s.checked + rest, seq(|work| - 1, k requires 0 <= k < |work| - 1 => if k < at then k else k + 1));
    assert work[at] == s.tasks[i];
    forall k | 0 <= k < |rest| ensures rest[k].name != s.tasks[i].name && rest[k] in s.tasks {
      assert rest[k] == work[if k < i then n + k else n + k + 1];
    }
  }

  /** At most one snapshot per connector is kept by an action exactly when the action is no check of
      a connector that has a snapshot on its way. */
  lemma ExclusiveByStep(s: State, a: Action)
    requires Exclusive(s) && Enabled(s, a)
    ensures Exclusive(Next(s, a)) <==> Fresh(s, a)
  {
    match a
    case CheckSnapshot(name, tables) =>
      InsertedName(s.checked, Work(name, SnapshotCount(tables)), s.tasks);
      HasNameConcat(s.checked, s.tasks, name);
      hide OnePerName, HasName;
    case BeginSnapshot(i) => BeginKeepsNames(s, i);
    case FinishTask(i) => FinishKeepsNames(s, i);
    case _ =>
  }

  predicate StaysExclusive(s: State, actions: seq<Action>)
    requires AllEnabled(s, actions)
    decreases |actions|
  {
    Exclusive(s) && (actions == [] || StaysExclusive(Next(s, actions[0]), actions[1..]))
  }

  predicate AllFresh(s: State, actions: seq<Action>)
    requires AllEnabled(s, actions)
    decreases |actions|
  {
    actions == [] || (Fresh(s, actions[0]) && AllFresh(Next(s, actions[0]), actions[1..]))
  }

  /** Over any interleaving, every connector has at most one snapshot on its way in every state
      exactly when no check is of a connector that has one on its way at that moment. */
  lemma {:induction false} StaysExclusiveIff(s: State, actions: seq<Action>)
    requires Exclusive(s) && AllEnabled(s, actions)
    ensures StaysExclusive(s, actions) <==> AllFresh(s, actions)
    decreases |actions|
  {
    if actions != [] {
      ExclusiveByStep(s, actions[0]);
      if Fresh(s, actions[0]) {
        StaysExclusiveIff(Next(s, actions[0]), actions[1..]);
      }
    }
  }

  /** The same for all that can happen from the start. */
  lemma ExclusiveFromStartIff(s: State, actions: seq<Action>)
    requires Init(s) && AllEnabled(s, actions)
    ensures StaysExclusive(s, actions) <==> AllFresh(s, actions)
  {
    StaysExclusiveIff(s, actions);
  }

  //////////////////////////////////////////////////////////////////////////////
  // When the check can be relied on
  //////////////////////////////////////////////////////////////////////////////

  lemma TruthfulBegin(s: State, a: Action)
    requires Truthful(s) && Enabled(s, a) && a.BeginSnapshot?
    ensures Truthful(Next(s, a))
  {
    BeginKeepsNames(s, a.i);
    WithoutAt(s.checked, a.i);
    hide OnePerName, Without;
  }

  lemma TruthfulFinish(s: State, a: Action)
    requires Truthful(s) && Enabled(s, a) && a.FinishTask?
    ensures Truthful(Next(s, a))
  {
    FinishKeepsNames(s, a.i);
    hide OnePerName, Without;
  }

  lemma TruthfulCheck(s: State, a: Action)
    requires Truthful(s) && Enabled(s, a) && a.CheckSnapshot?
    ensures Fresh(s, a) <==> Guarded(s, a)
    ensures Truthful(Next(s, a)) <==> Guarded(s, a)
  {
    assert !HasName(s.tasks, a.name);
    HasNameConcat(s.checked, s.tasks, a.name);
    ExclusiveByStep(s, a);
    hide OnePerName, HasName;
  }

  /** In a truthful state the guard of the check is all that is needed, and an action keeps the state
      truthful exactly when it is guarded. */
  lemma TruthfulByStep(s: State, a: Action)
    requires Truthful(s) && Enabled(s, a)
    ensures Truthful(Next(s, a)) <==> Guarded(s, a)
    ensures Guarded(s, a) ==> Fresh(s, a)
  {
    match a
    case CheckSnapshot(_, _) => TruthfulCheck(s, a);
    case BeginSnapshot(_) => TruthfulBegin(s, a);
    case FinishTask(_) => TruthfulFinish(s, a);
    case Remove(name) =>
      var work := s.checked + s.tasks;
      assert forall i :: 0 <= i < |s.checked| ==> s.checked[i] == work[i];
      assert forall i :: 0 <= i < |s.tasks| ==> s.tasks[i] == work[|s.checked| + i];
    case Shutdown =>
      if s.tasks != [] {
        assert s.tasks[0].name in Next(s, a).shared.connectors;
      }
    case _ =>
  }

  predicate StaysTruthful(s: State, actions: seq<Action>)
    requires AllEnabled(s, actions)
    decreases |actions|
  {
    Truthful(s) && (actions == [] || StaysTruthful(Next(s, actions[0]), actions[1..]))
  }

  predicate AllGuarded(s: State, actions: seq<Action>)
    requires AllEnabled(s, actions)
    decreases |actions|
  {
    actions == [] || (Guarded(s, actions[0]) && AllGuarded(Next(s, actions[0]), actions[1..]))
  }

  /** Over any interleaving every state is truthful exactly when every action is guarded; and then
      there never is a second snapshot of one connector. */
  lemma {:induction false} StaysTruthfulIff(s: State, actions: seq<Action>)
    requires Truthful(s) && AllEnabled(s, actions)
    ensures StaysTruthful(s, actions) <==> AllGuarded(s, actions)
    ensures AllGuarded(s, actions) ==> AllFresh(s, actions) && StaysExclusive(s, actions)
    decreases |actions|
  {
    if actions != [] {
      TruthfulByStep(s, actions[0]);
      if Guarded(s, actions[0]) {
        StaysTruthfulIff(Next(s, actions[0]), actions[1..]);
      }
    }
  }

  //////////////////////////////////////////////////////////////////////////////
  // Two tasks
  //////////////////////////////////////////////////////////////////////////////

  predicate OnlyBegins(actions: seq<Action>) {
    forall i :: 0 <= i < |actions| ==> actions[i].BeginSnapshot?
  }

  /** Whatever checked snapshots are begun, in whatever order, no connector ever has two tasks
      exactly when no connector has two entries among those checked and those under way. */
  lemma TwoTasksIff(s: State)
    ensures (forall actions :: AllEnabled(s, actions) && OnlyBegins(actions) ==> OnePerName(After(s, actions).tasks))
      <==> OnePerName(s.checked + s.tasks)
  {
    if OnePerName(s.checked + s.tasks) {
      forall actions | AllEnabled(s, actions) && OnlyBegins(actions) ensures OnePerName(After(s, actions).tasks) {
        BeginsKeepNames(s, actions);
      }
    } else {
      var actions := SecondTask(s);
    }
  }

  lemma {:induction false} BeginsKeepNames(s: State, actions: seq<Action>)
    requires AllEnabled(s, actions) && OnlyBegins(actions) && OnePerName(s.checked + s.tasks)
    ensures OnePerName(After(s, actions).tasks)
    decreases |actions|
  {
    if actions == [] {
      assert forall i :: 0 <= i < |s.tasks| ==> s.tasks[i] == (s.checked + s.tasks)[|s.checked| + i];
    } else {
      BeginKeepsNames(s, actions[0].i);
      BeginsKeepNames(Next(s, actions[0]), actions[1..]);
    }
  }

  /** Begins that leave one connector with two tasks. */
  lemma SecondTask(s: State) returns (actions: seq<Action>)
    requires !OnePerName(s.checked + s.tasks)
    ensures AllEnabled(s, actions) && OnlyBegins(actions) && !OnePerName(After(s, actions).tasks)
  {
    var n := |s.checked|;
    var work := s.checked + s.tasks;
    var i, j :| 0 <= i < j < |work| && work[i].name == work[j].name;
    actions := [];
    if i >= n {
      assert s.tasks[i - n].name == s.tasks[j - n].name;
    } else if j >= n {
      actions := [BeginSnapshot(i)];
      assert actions[1..] == [];
      var last := Next(s, actions[0]);
      assert last.tasks[j - n] == work[j] && last.tasks[|s.tasks|] == work[i];
      assert After(s, actions) == last;
    } else {
      actions := [BeginSnapshot(j), BeginSnapshot(i)];
      assert actions[1..] == [BeginSnapshot(i)] && actions[1..][1..] == [];
      var once := Next(s, actions[0]);
      assert once.checked[i] == work[i] && once.tasks[|s.tasks|] == work[j];
      var last := Next(once, actions[1]);
      assert last.tasks[|s.tasks|] == work[j] && last.tasks[|s.tasks| + 1] == work[i];
      assert AllEnabled(last, actions[1..][1..]) && After(last, actions[1..][1..]) == last;
      assert AllEnabled(once, actions[1..]) && After(once, actions[1..]) == last;
    }
  }

  /** The code does not keep checks fresh: two calls that both check before either begins are both
      let through, and leave two tasks for one connector. */
  lemma TwoChecksBeforeABegin(s: State, name: string, t: nat, u: nat)
    requires MayStart(s.shared, name) && SnapshotCount(t) < U64 && SnapshotCount(u) < U64
    ensures var once := Next(s, CheckSnapshot(name, t));
      && Enabled(once, CheckSnapshot(name, u)) && !Fresh(once, CheckSnapshot(name, u))
      && var twice := Next(once, CheckSnapshot(name, u));
         var begun := Next(twice, BeginSnapshot(|s.checked|));
         Next(begun, BeginSnapshot(|s.checked|)).tasks
         == s.tasks + [Work(name, SnapshotCount(t)), Work(name, SnapshotCount(u))]
  {
    var once := Next(s, CheckSnapshot(name, t));
    assert (once.checked + once.tasks)[|s.checked|].name == name;
    var twice := Next(once, CheckSnapshot(name, u));
    assert Without(twice.checked, |s.checked|) == s.checked + [Work(name, SnapshotCount(u))];
  }

  /** Nor does it behind a shutdown: a second snapshot can be checked while the task of the first is
      unfinished. */
  lemma ShutdownReopensTheCheck(s: State, i: nat, u: nat)
    requires i < |s.tasks| && s.tasks[i].name in s.shared.connectors && SnapshotCount(u) < U64
    ensures var stopped, check := Next(s, Shutdown), CheckSnapshot(s.tasks[i].name, u);
      !Guarded(s, Shutdown) && Enabled(stopped, check) && !Fresh(stopped, check)
  {
    var stopped := Next(s, Shutdown);
    assert (stopped.checked + stopped.tasks)[|s.checked| + i].name == s.tasks[i].name;
  }
}
