/** The transform chain of a pipeline, and the two-step chain every built-in chain amounts to. */
module Transforms {
  import opened Wrappers
  import opened Bits
  import opened ChangeEvents

  datatype Pair = Pair(from: bytes, to: bytes)

  /** The built-in transforms, and any other implementation of the interface; only those fail. */
  datatype Transform =
    | Filter(includeOps: seq<Operation>)
    | Rename(tableMap: seq<Pair>, dbMap: seq<Pair>)
    | Log
    | Custom(f: ChangeEvent -> Result<Option<ChangeEvent>, string>)

  type Transformed = Result<Option<ChangeEvent>, string>

  /** A name taken through the pairs in order: what one pair writes, a later pair may rewrite. */
  function Remap(name: bytes, pairs: seq<Pair>): bytes
    decreases |pairs|
  {
    if pairs == [] then name
    else Remap(if name == pairs[0].from then pairs[0].to else name, pairs[1..])
  }

  function Renamed(e: ChangeEvent, tableMap: seq<Pair>, dbMap: seq<Pair>): ChangeEvent {
    e.(source := e.source.(table := Remap(e.source.table, tableMap), db := Remap(e.source.db, dbMap)))
  }

  method RenameEvent(event: ChangeEvent, tableMap: seq<Pair>, dbMap: seq<Pair>) returns (r: ChangeEvent)
    ensures r == Renamed(event, tableMap, dbMap)
  {
    r := event;
    for i := 0 to |tableMap|
      invariant r == event.(source := event.source.(table := r.source.table))
      invariant Remap(r.source.table, tableMap[i..]) == Remap(event.source.table, tableMap)
    {
      if r.source.table == tableMap[i].from {
        r := r.(source := r.source.(table := tableMap[i].to));
      }
      assert tableMap[i..][1..] == tableMap[i + 1..];
    }
    for i := 0 to |dbMap|
      invariant r == event.(source := event.source.(table := Remap(event.source.table, tableMap), db := r.source.db))
      invariant Remap(r.source.db, dbMap[i..]) == Remap(event.source.db, dbMap)
    {
      if r.source.db == dbMap[i].from {
        r := r.(source := r.source.(db := dbMap[i].to));
      }
      assert dbMap[i..][1..] == dbMap[i + 1..];
    }
  }

  function Apply(t: Transform, e: ChangeEvent): Transformed {
    match t
    case Filter(ops) => Ok(if e.op in ops then Some(e) else None)
    case Rename(tables, dbs) => Ok(Some(Renamed(e, tables, dbs)))
    case Log => Ok(Some(e))
    case Custom(f) => f(e)
  }

  method ApplyTransform(t: Transform, e: ChangeEvent) returns (r: Transformed)
    ensures r == Apply(t, e)
  {
    match t {
      case Filter(ops) =>
        r := if e.op in ops then Ok(Some(e)) else Ok(None);
      case Rename(tables, dbs) =>
        var renamed := RenameEvent(e, tables, dbs);
        r := Ok(Some(renamed));
      case Log =>
        r := Ok(Some(e));
      case Custom(f) =>
        r := f(e);
    }
  }

  /** The chain in order; the first transform that drops the event or fails ends it. */
  function Chain(ts: seq<Transform>, e: ChangeEvent): Transformed
    decreases |ts|
  {
    if ts == [] then Ok(Some(e))
    else match Apply(ts[0], e)
      case Ok(Some(next)) => Chain(ts[1..], next)
      case stopped => stopped
  }

  //////////////////////////////////////////////////////////////////////////////
  // What one transform does
  //////////////////////////////////////////////////////////////////////////////

  /** A name no pair renames stays. */
  lemma {:induction false} RemapUnmatched(name: bytes, pairs: seq<Pair>)
    requires forall i :: 0 <= i < |pairs| ==> pairs[i].from != name
    ensures Remap(name, pairs) == name
    decreases |pairs|
  {
    if pairs != [] {
      RemapUnmatched(name, pairs[1..]);
    }
  }

  /** Else the first pair that renames it decides, and what it is renamed to goes through the pairs
      behind that one. */
  lemma {:induction false} RemapFirst(name: bytes, pairs: seq<Pair>, i: nat)
    requires i < |pairs| && pairs[i].from == name
    requires forall j :: 0 <= j < i ==> pairs[j].from != name
    ensures Remap(name, pairs) == Remap(pairs[i].to, pairs[i + 1..])
    decreases i
  {
    if i > 0 {
      RemapFirst(name, pairs[1..], i - 1);
      assert pairs[1..][i..] == pairs[i + 1..];
    }
  }

  /** A rename takes the table through its table map and the database through its database map; a
      filter lets an event through exactly when it lists its operation; a log changes nothing. */
  lemma AppliedBuiltIn(t: Transform, e: ChangeEvent)
    requires !t.Custom?
    ensures Apply(t, e).Ok?
    ensures var r := Apply(t, e).value;
      && (r.None? <==> t.Filter? && e.op !in t.includeOps)
      && (r.Some? && !t.Rename? ==> r.value == e)
      && (t.Rename? ==>
            && r.value.op == e.op && r.value.before == e.before && r.value.after == e.after
            && r.value.source == SourceInfo(
                 connector := e.source.connector, db := Remap(e.source.db, t.dbMap),
                 schema := e.source.schema, table := Remap(e.source.table, t.tableMap)))
  {
  }

  //////////////////////////////////////////////////////////////////////////////
  // The normal form
  //////////////////////////////////////////////////////////////////////////////

  const ALL_OPERATIONS: seq<Operation> :=
    [Operation.Create, Operation.Update, Operation.Delete, Operation.Read,
     Operation.Truncate, Operation.Message]

  function Common(ops: seq<Operation>, others: seq<Operation>): (r: seq<Operation>)
    ensures forall op :: op in r <==> op in ops && op in others
  {
    if ops == [] then []
    else (if ops[0] in others then [ops[0]] else []) + Common(ops[1..], others)
  }

  /** The operations every filter of the chain lets through. */
  function KeptOps(ts: seq<Transform>): (r: seq<Operation>)
    ensures forall op :: op in r <==> forall i :: 0 <= i < |ts| && ts[i].Filter? ==> op in ts[i].includeOps
  {
    if ts == [] then
      assert forall op: Operation :: op in ALL_OPERATIONS by {
        forall op: Operation ensures op in ALL_OPERATIONS {
          var i :=
            match op
            case Create => 0
            case Update => 1
            case Delete => 2
            case Read => 3
            case Truncate => 4
            case Message => 5;
          assert ALL_OPERATIONS[i] == op;
        }
      }
      ALL_OPERATIONS
    else if ts[0].Filter? then Common(ts[0].includeOps, KeptOps(ts[1..]))
    else KeptOps(ts[1..])
  }

  function TableMap(ts: seq<Transform>): seq<Pair> {
    if ts == [] then []
    else (if ts[0].Rename? then ts[0].tableMap else []) + TableMap(ts[1..])
  }

  function DbMap(ts: seq<Transform>): seq<Pair> {
    if ts == [] then []
    else (if ts[0].Rename? then ts[0].dbMap else []) + DbMap(ts[1..])
  }

  lemma {:induction false} RemapThrough(name: bytes, a: seq<Pair>, b: seq<Pair>)
    ensures Remap(name, a + b) == Remap(Remap(name, a), b)
    decreases |a|
  {
    if a == [] {
      assert a + b == b;
    } else {
      assert (a + b)[1..] == a[1..] + b;
      RemapThrough(if name == a[0].from then a[0].to else name, a[1..], b);
    }
  }

  /** Any chain of built-in transforms treats every event as one filter on the operations all
      its filters share, followed by one rename with the maps of its renames joined in order. */
  lemma {:induction false} NormalForm(ts: seq<Transform>, e: ChangeEvent)
    requires forall i :: 0 <= i < |ts| ==> !ts[i].Custom?
    ensures Chain(ts, e) == Chain([Filter(KeptOps(ts)), Rename(TableMap(ts), DbMap(ts))], e)
    decreases |ts|
  {
    var short := [Filter(KeptOps(ts)), Rename(TableMap(ts), DbMap(ts))];
    TwoStep(short, e);
    if ts != [] {
      var rest := ts[1..];
      var out := Apply(ts[0], e);
      if out.value.Some? {
        var next := out.value.value;
        NormalForm(rest, next);
        TwoStep([Filter(KeptOps(rest)), Rename(TableMap(rest), DbMap(rest))], next);
        if ts[0].Rename? {
          RemapThrough(e.source.table, ts[0].tableMap, TableMap(rest));
          RemapThrough(e.source.db, ts[0].dbMap, DbMap(rest));
        } else {
          assert TableMap(ts) == TableMap(rest) && DbMap(ts) == DbMap(rest);
        }
      }
    }
  }

  lemma TwoStep(ts: seq<Transform>, e: ChangeEvent)
    requires |ts| == 2 && ts[0].Filter? && ts[1].Rename?
    ensures Chain(ts, e) ==
      Ok(if e.op in ts[0].includeOps then Some(Renamed(e, ts[1].tableMap, ts[1].dbMap)) else None)
  {
    assert ts[1..][1..] == [];
    if e.op in ts[0].includeOps {
      calc {
        Chain(ts, e);
        Chain(ts[1..], e);
        Chain(ts[1..][1..], Renamed(e, ts[1].tableMap, ts[1].dbMap));
      }
    }
  }

  /** Chains compose: what the first lets through, the second treats. */
  lemma {:induction false} ChainThrough(a: seq<Transform>, b: seq<Transform>, e: ChangeEvent)
    ensures Chain(a + b, e) ==
      (match Chain(a, e) case Ok(Some(next)) => Chain(b, next) case stopped => stopped)
    decreases |a|
  {
    if a == [] {
      assert a + b == b;
    } else {
      assert (a + b)[1..] == a[1..] + b;
      match Apply(a[0], e) {
        case Ok(Some(next)) => ChainThrough(a[1..], b, next);
        case stopped =>
      }
    }
  }
}
