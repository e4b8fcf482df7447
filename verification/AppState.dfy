/** The shared state of the tool server: connectors behind one lock, counters that are atomic on
    their own. Each method below is one section that no other can interleave with, but for the
    increment, which is two. */
module AppStates {
  import opened Wrappers
  import opened Bits

  const U64: nat := 0x1_0000_0000_0000_0000

  datatype ConnectorStatus = Stopped | Starting | Running | Snapshotting | Streaming | Error(text: string)

  datatype Offset = SnapshotDone | Position(text: string)

  datatype ManagedConnector = ManagedConnector(
    config: Option<string>, status: ConnectorStatus, offset: Option<Offset>,
    received: u64, error: Option<string>)

  type Connectors = map<string, ManagedConnector>

  datatype Shared = Shared(connectors: Connectors, sinks: map<string, nat>, received: u64, sent: u64, errors: u64)

  datatype Health = Health(
    total: nat, running: nat, errored: nat, received: u64, sent: u64, errors: u64, degraded: bool)

  const NEW_CONNECTOR: ManagedConnector := ManagedConnector(None, Stopped, None, 0, None)

  //////////////////////////////////////////////////////////////////////////////
  // Specification
  //////////////////////////////////////////////////////////////////////////////

  function WrappingAdd(a: u64, b: u64): u64 {
    if a + b < U64 then a + b else a + b - U64
  }

  function SaturatingAdd(a: u64, b: u64): u64 {
    if a + b < U64 then a + b else U64 - 1
  }

  function Registered(s: Shared, name: string): Shared {
    if name in s.connectors then s else s.(connectors := s.connectors[name := NEW_CONNECTOR])
  }

  function Removed(s: Shared, name: string): Shared {
    s.(connectors := s.connectors - {name})
  }

  function WithStatus(s: Shared, name: string, status: ConnectorStatus): Shared {
    if name in s.connectors then s.(connectors := s.connectors[name := s.connectors[name].(status := status)]) else s
  }

  function GlobalCounted(s: Shared, count: u64): Shared {
    s.(received := WrappingAdd(s.received, count))
  }

  function ConnectorCounted(s: Shared, name: string, count: u64): Shared {
    if name !in s.connectors then s
    else
      var c := s.connectors[name];
      s.(connectors := s.connectors[name := c.(received := SaturatingAdd(c.received, count))])
  }

  function SnapshotFinished(s: Shared, name: string, count: u64): Shared {
    if name !in s.connectors then s
    else
      var c := s.connectors[name];
      s.(connectors := s.connectors[name :=
           c.(received := SaturatingAdd(c.received, count), status := Running, offset := Some(SnapshotDone))],
         received := WrappingAdd(s.received, count))
  }

  function ShutDown(s: Shared): Shared {
    s.(connectors := map n | n in s.connectors :: s.connectors[n].(status := Stopped), sinks := map[])
  }

  /** Whether a snapshot may start: the connector exists and is neither starting, streaming,
      snapshotting nor in error. */
  predicate MayStart(s: Shared, name: string) {
    name in s.connectors && (s.connectors[name].status.Running? || s.connectors[name].status.Stopped?)
  }

  function SnapshotCount(tables: nat): nat {
    (if tables > 1 then tables else 1) * 10
  }

  predicate IsRunning(c: ManagedConnector) {
    c.status.Streaming? || c.status.Running?
  }

  function RunningNames(m: Connectors): set<string> {
    set n | n in m && IsRunning(m[n])
  }

  function ErroredNames(m: Connectors): set<string> {
    set n | n in m && m[n].status.Error?
  }

  function HealthOf(s: Shared): Health {
    Health(|s.connectors|, |RunningNames(s.connectors)|, |ErroredNames(s.connectors)|,
           s.received, s.sent, s.errors, ErroredNames(s.connectors) != {})
  }

  //////////////////////////////////////////////////////////////////////////////
  // The state and its sections
  //////////////////////////////////////////////////////////////////////////////

  class AppState {
    var connectors: Connectors
    var activeSinks: map<string, nat>
    var totalReceived: u64
    var totalSent: u64
    var totalErrors: u64

    constructor ()
      ensures View() == Shared(map[], map[], 0, 0, 0)
    {
      connectors, activeSinks := map[], map[];
      totalReceived, totalSent, totalErrors := 0, 0, 0;
    }

    ghost function View(): Shared
      reads this
    {
      Shared(connectors, activeSinks, totalReceived, totalSent, totalErrors)
    }

    method RegisterConnector(name: string)
      modifies this`connectors
      ensures View() == Registered(old(View()), name)
    {
      if name !in connectors {
        connectors := connectors[name := NEW_CONNECTOR];
      }
    }

    method RemoveConnector(name: string)
      modifies this`connectors
      ensures View() == Removed(old(View()), name)
    {
      connectors := connectors - {name};
    }

    method UpdateStatus(name: string, status: ConnectorStatus)
      modifies this`connectors
      ensures View() == WithStatus(old(View()), name, status)
    {
      if name in connectors {
        connectors := connectors[name := connectors[name].(status := status)];
      }
    }

    /** The first half of an increment: the counter alone, without the lock. */
    method CountReceived(count: u64)
      modifies this`totalReceived
      ensures View() == GlobalCounted(old(View()), count)
    {
      totalReceived := WrappingAdd(totalReceived, count);
    }

    /** The second half, behind the lock. */
    method CountForConnector(name: string, count: u64)
      modifies this`connectors
      ensures View() == ConnectorCounted(old(View()), name, count)
    {
      if name in connectors {
        var c := connectors[name];
        connectors := connectors[name := c.(received := SaturatingAdd(c.received, count))];
      }
    }

    method IncrementEventsReceived(name: string, count: u64)
      modifies this`totalReceived, this`connectors
      ensures View() == ConnectorCounted(GlobalCounted(old(View()), count), name, count)
    {
      CountReceived(count);
      CountForConnector(name, count);
    }

    /** What the background task of a snapshot does behind the lock when it is done. */
    method FinishSnapshot(name: string, tables: nat)
      requires SnapshotCount(tables) < U64
      modifies this`connectors, this`totalReceived
      ensures View() == SnapshotFinished(old(View()), name, SnapshotCount(tables))
    {
      if name in connectors {
        var count := SnapshotCount(tables);
        var c := connectors[name];
        c := c.(received := SaturatingAdd(c.received, count));
        c := c.(status := Running);
        c := c.(offset := Some(SnapshotDone));
        connectors := connectors[name := c];
        totalReceived := WrappingAdd(totalReceived, count);
      }
    }

    method ShutdownAll()
      modifies this`connectors, this`activeSinks
      ensures View() == ShutDown(old(View()))
    {
      ghost var before := connectors;
      var rest := connectors.Keys;
      while rest != {}
        invariant rest <= before.Keys && connectors.Keys == before.Keys
        invariant forall n :: n in before ==>
          connectors[n] == if n in rest then before[n] else before[n].(status := Stopped)
      {
        var name :| name in rest;
        connectors := connectors[name := connectors[name].(status := Stopped)];
        rest := rest - {name};
      }
      assert connectors == map n | n in before :: before[n].(status := Stopped);
      activeSinks := map[];
    }

    method SnapshotMayStart(name: string) returns (ok: bool)
      ensures ok == MayStart(View(), name)
    {
      if name !in connectors {
        return false;
      }
      match connectors[name].status {
        case Running | Stopped => return true;
        case _ => return false;
      }
    }

    method CountRunning() returns (n: nat)
      ensures n == |RunningNames(connectors)|
    {
      n := 0;
      var rest := connectors.Keys;
      ghost var up := RunningNames(connectors);
      while rest != {}
        invariant rest <= connectors.Keys && n == |up - rest|
      {
        var name :| name in rest;
        CountNext(up, rest, name);
        if IsRunning(connectors[name]) {
          n := n + 1;
        }
        rest := rest - {name};
      }
      assert up - {} == up;
    }

    method CountErrored() returns (n: nat)
      ensures n == |ErroredNames(connectors)|
    {
      n := 0;
      var rest := connectors.Keys;
      ghost var broken := ErroredNames(connectors);
      while rest != {}
        invariant rest <= connectors.Keys && n == |broken - rest|
      {
        var name :| name in rest;
        CountNext(broken, rest, name);
        if connectors[name].status.Error? {
          n := n + 1;
        }
        rest := rest - {name};
      }
      assert broken - {} == broken;
    }

    method HealthStatus() returns (health: Health)
      ensures health == HealthOf(View())
    {
      var running := CountRunning();
      var errored := CountErrored();
      health := Health(|connectors|, running, errored, totalReceived, totalSent, totalErrors, errored > 0);
    }
  }

  lemma CountNext(chosen: set<string>, rest: set<string>, name: string)
    requires name in rest
    ensures |chosen - (rest - {name})| == |chosen - rest| + if name in chosen then 1 else 0
  {
    assert chosen - (rest - {name}) == (chosen - rest) + if name in chosen then {name} else {};
  }
}
