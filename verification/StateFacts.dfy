/** What each section leaves in the shared state, field by field, and what the health report and the
    snapshot check tell of it. */
module StateFacts {
  import opened Wrappers
  import opened Bits
  import opened AppStates
  import opened CounterFacts

  /** The entry of a connector, if it is registered. */
  function Entry(s: Shared, name: string): Option<ManagedConnector> {
    if name in s.connectors then Some(s.connectors[name]) else None
  }

  /** A count that stops at the largest 64-bit value. */
  function Clip(n: nat): u64 {
    if n <= 0xFFFF_FFFF_FFFF_FFFF then n else 0xFFFF_FFFF_FFFF_FFFF
  }

  /** The connector a section is for; a shutdown is for every one. */
  predicate IsFor(s: State, a: Action, name: string)
    requires Enabled(s, a)
  {
    match a
    case Register(n) => n == name
    case Remove(n) => n == name
    case SetStatus(n, _) => n == name
    case EndIncrement(i) => s.increments[i].name == name
    case BeginSnapshot(i) => s.checked[i].name == name
    case FinishTask(i) => s.tasks[i].name == name
    case Shutdown => true
    case _ => false
  }

  /** What a section makes of the entry of a connector it is for. */
  function EntryBehind(s: State, a: Action, c: ManagedConnector): Option<ManagedConnector>
    requires Enabled(s, a)
  {
    match a
    case Remove(_) => None
    case SetStatus(_, status) => Some(c.(status := status))
    case EndIncrement(i) => Some(c.(received := Clip(c.received + s.increments[i].count)))
    case BeginSnapshot(_) => Some(c.(status := Snapshotting))
    case FinishTask(i) =>
      Some(c.(received := Clip(c.received + s.tasks[i].count), status := Running, offset := Some(SnapshotDone)))
    case Shutdown => Some(c.(status := Stopped))
    case _ => Some(c)
  }

  /** Every section: entries it is not for stay, an entry it is for changes as said, and only a
      registration makes a new one, stopped and at zero. */
  lemma EntryAfter(s: State, a: Action, name: string)
    requires Enabled(s, a)
    ensures Entry(Next(s, a).shared, name) ==
      match Entry(s.shared, name)
      case Some(c) => if IsFor(s, a, name) then EntryBehind(s, a, c) else Some(c)
      case None =>
        if a == Register(name)
        then Some(ManagedConnector(config := None, status := Stopped, offset := None, received := 0, error := None))
        else None
  {
  }

  /** The counters and sinks behind any section: an increment counts at its beginning, a snapshot task
      at its end if its connector is registered then, and both wrap; only a shutdown clears sinks. */
  lemma GlobalsAfter(s: State, a: Action)
    requires Enabled(s, a)
    ensures var counted :=
        match a
        case BeginIncrement(w) => w.count
        case FinishTask(i) => if s.tasks[i].name in s.shared.connectors then s.tasks[i].count else 0
        case _ => 0;
      && Next(s, a).shared.received == (s.shared.received + counted) % 0x1_0000_0000_0000_0000
      && Next(s, a).shared.sent == s.shared.sent && Next(s, a).shared.errors == s.shared.errors
      && Next(s, a).shared.sinks == if a.Shutdown? then map[] else s.shared.sinks
  {
  }

  /** A snapshot counts ten events per table, and ten when it names none. */
  lemma CountedPerTable(s: State, name: string, tables: nat)
    requires Enabled(s, CheckSnapshot(name, tables))
    ensures Next(s, CheckSnapshot(name, tables)).checked
         == s.checked + [Work(name, if tables == 0 then 10 else 10 * tables)]
  {
  }

  /** A snapshot may start exactly when its connector is registered, stopped or running. */
  lemma MayStartIff(s: Shared, name: string)
    ensures MayStart(s, name) <==>
      Entry(s, name).Some? && Entry(s, name).value.status in {ConnectorStatus.Stopped, ConnectorStatus.Running}
  {
  }

  /** Health counts the connectors that run or stream and those in error, reports the counters, and is
      degraded exactly when one is in error. */
  lemma HealthByStatus(s: Shared)
    ensures var h := HealthOf(s);
      && h.total == |s.connectors.Keys|
      && h.running == |set n | n in s.connectors && s.connectors[n].status in {Running, Streaming}|
      && h.errored == |set n | n in s.connectors && s.connectors[n].status.Error?|
      && (h.degraded <==> exists n :: n in s.connectors && s.connectors[n].status.Error?)
      && h.received == s.received && h.sent == s.sent && h.errors == s.errors
  {
    assert RunningNames(s.connectors) == set n | n in s.connectors && s.connectors[n].status in {Running, Streaming};
    assert forall n :: n in ErroredNames(s.connectors) <==> n in s.connectors && s.connectors[n].status.Error?;
    assert ErroredNames(s.connectors) == set n | n in s.connectors && s.connectors[n].status.Error?;
  }

  //////////////////////////////////////////////////////////////////////////////
  // Saturating counts
  //////////////////////////////////////////////////////////////////////////////

  function Sum(counts: seq<u64>): nat {
    if counts == [] then 0 else counts[0] + Sum(counts[1..])
  }

  function AddAll(start: u64, counts: seq<u64>): u64
    decreases |counts|
  {
    if counts == [] then start else AddAll(SaturatingAdd(start, counts[0]), counts[1..])
  }

  /** Whatever is added to a connector's count, one by one and in whatever order, the count is the sum,
      or the largest value from there on. */
  lemma {:induction false} SaturatedSum(start: u64, counts: seq<u64>)
    ensures AddAll(start, counts) == Clip(start + Sum(counts))
    decreases |counts|
  {
    if counts != [] {
      SaturatedSum(SaturatingAdd(start, counts[0]), counts[1..]);
    }
  }
}
