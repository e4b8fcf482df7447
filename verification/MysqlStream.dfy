/** The MySQL connector's event loop: row events become change events through the table map. */
module MysqlStream {
  import opened Wrappers
  import opened Bits
  import opened ChangeEvents
  import opened MysqlColumns
  import opened MysqlRows
  import opened MysqlEvents
  import opened MysqlClient
  import opened MysqlValueFacts
  import MysqlRowFacts
  import Numerals

  /** `col_` and the column's index in decimal. */
  function ColumnKey(i: nat): bytes { [99, 111, 108, 95] + AsciiDecimal(i) }

  function MinNat(a: nat, b: nat): nat { if a < b then a else b }

  /** The first n columns of a row, keyed by position. */
  function RowPrefix(row: JsonRow, n: nat): map<bytes, Json>
    requires n <= |row|
  {
    if n == 0 then map[] else RowPrefix(row, n - 1)[ColumnKey(n - 1) := row[n - 1]]
  }

  /** The object of a row under a layout of so many columns. */
  function RowObject(columns: nat, row: JsonRow): Json { Object(RowPrefix(row, MinNat(columns, |row|))) }

  function Source(t: TableMapEvent): SourceInfo { SourceInfo(Mysql, t.database, None, t.table) }

  function Created(t: TableMapEvent, rows: seq<JsonRow>): seq<ChangeEvent> {
    seq(|rows|, k requires 0 <= k < |rows| => CreateEvent(RowObject(|t.columnTypes|, rows[k]), Source(t)))
  }

  function Updated(t: TableMapEvent, rows: seq<(JsonRow, JsonRow)>): seq<ChangeEvent> {
    seq(|rows|, k requires 0 <= k < |rows| =>
      UpdateEvent(Some(RowObject(|t.columnTypes|, rows[k].0)), RowObject(|t.columnTypes|, rows[k].1), Source(t)))
  }

  function Deleted(t: TableMapEvent, rows: seq<JsonRow>): seq<ChangeEvent> {
    seq(|rows|, k requires 0 <= k < |rows| => DeleteEvent(RowObject(|t.columnTypes|, rows[k]), Source(t)))
  }

  /** The table id a row event names. */
  function RowTable(e: BinlogEvent): Option<nat> {
    match e
    case WriteRows(id, _) => Some(id)
    case UpdateRows(id, _) => Some(id)
    case DeleteRows(id, _) => Some(id)
    case _ => None
  }

  function EmittedUnder(t: TableMapEvent, e: BinlogEvent): seq<ChangeEvent> {
    match e
    case WriteRows(_, rows) => Created(t, rows)
    case UpdateRows(_, rows) => Updated(t, rows)
    case DeleteRows(_, rows) => Deleted(t, rows)
    case _ => []
  }

  function Emitted(tables: Tables, e: BinlogEvent): seq<ChangeEvent> {
    match RowTable(e)
    case Some(id) => if id in tables then EmittedUnder(tables[id], e) else []
    case None => []
  }

  datatype Status = Disconnected(error: BinlogError) | Panicked

  /** The endless loop, run until the input fails. */
  function Stream(c: ClientState, sent: seq<ChangeEvent>, input: bytes): (ClientState, seq<ChangeEvent>, Status)
    decreases |input|
  {
    var (c', rest, next) := NextEvent(c, input);
    NextConsumes(c, input);
    match next
    case Event(_, e) => Stream(c', sent + Emitted(c'.tables, e), rest)
    case NoEvent => Stream(c', sent, rest)
    case Broken(error) => (c', sent, Disconnected(error))
    case Crashed => (c', sent, Panicked)
  }

  /** Reading an event, or an empty packet, consumes input. */
  lemma {:induction false} NextConsumes(c: ClientState, input: bytes)
    ensures var (_, rest, next) := NextEvent(c, input);
            next.Event? || next.NoEvent? ==> |rest| < |input|
    decreases |input|
  {
    match TakePacket(input)
    case None =>
    case Some((packet, rest)) =>
      if packet != [] {
        if Ignorable(packet) {
          NextConsumes(c, rest);
        } else {
          NextConsumes(Walk(c, packet, 0).0, rest);
        }
      }
  }

  method RowToObject(columns: nat, row: JsonRow) returns (r: Json)
    ensures r == RowObject(columns, row)
  {
    var fields: map<bytes, Json> := map[];
    for i := 0 to columns
      invariant fields == RowPrefix(row, MinNat(i, |row|))
    {
      if i < |row| {
        fields := fields[ColumnKey(i) := row[i]];
      }
    }
    r := Object(fields);
  }

  class MysqlConnector {
    const client: BinlogClient
    var sent: seq<ChangeEvent>

    constructor (input: bytes)
      ensures fresh(client) && client.input == input && client.State() == ClientState(map[], None) && sent == []
    {
      client := new BinlogClient(input);
      sent := [];
    }

    method SendRows(t: TableMapEvent, rows: seq<JsonRow>, deletes: bool)
      modifies this`sent
      ensures sent == old(sent) + (if deletes then Deleted(t, rows) else Created(t, rows))
    {
      for k := 0 to |rows|
        invariant sent == old(sent) + (if deletes then Deleted(t, rows) else Created(t, rows))[..k]
      {
        var fields := RowToObject(|t.columnTypes|, rows[k]);
        sent := sent + [if deletes then DeleteEvent(fields, Source(t)) else CreateEvent(fields, Source(t))];
      }
    }

    method SendPairs(t: TableMapEvent, rows: seq<(JsonRow, JsonRow)>)
      modifies this`sent
      ensures sent == old(sent) + Updated(t, rows)
    {
      for k := 0 to |rows|
        invariant sent == old(sent) + Updated(t, rows)[..k]
      {
        var before := RowToObject(|t.columnTypes|, rows[k].0);
        var after := RowToObject(|t.columnTypes|, rows[k].1);
        sent := sent + [UpdateEvent(Some(before), after, Source(t))];
      }
    }

    method Emit(e: BinlogEvent)
      modifies this`sent
      ensures sent == old(sent) + Emitted(client.tables, e)
    {
      match e {
        case WriteRows(id, rows) =>
          if id in client.tables {
            SendRows(client.tables[id], rows, false);
          }
        case UpdateRows(id, rows) =>
          if id in client.tables {
            SendPairs(client.tables[id], rows);
          }
        case DeleteRows(id, rows) =>
          if id in client.tables {
            SendRows(client.tables[id], rows, true);
          }
        case _ =>
      }
    }

    method RunStream() returns (status: Status)
      modifies this, client
      ensures (client.State(), sent, status) == Stream(old(client.State()), old(sent), old(client.input))
    {
      while true
        invariant Stream(old(client.State()), old(sent), old(client.input))
               == Stream(client.State(), sent, client.input)
        decreases |client.input|
      {
        NextConsumes(client.State(), client.input);
        var next := client.ReadNext();
        match next {
          case NoEvent => continue;
          case Event(_, e) => Emit(e);
          case Broken(error) => return Disconnected(error);
          case Crashed => return Panicked;
        }
      }
    }
  }

  //////////////////////////////////////////////////////////////////////////////
  // The reference: what a row event stands for
  //////////////////////////////////////////////////////////////////////////////

  /** What a row event does to one row. */
  datatype RowChange = RowChange(op: Operation, before: Option<JsonRow>, after: Option<JsonRow>)

  datatype RowChanges = RowChanges(table: nat, changes: seq<RowChange>)

  function ChangesOf(e: BinlogEvent): Option<RowChanges> {
    match e
    case WriteRows(id, rows) =>
      Some(RowChanges(id, seq(|rows|, k requires 0 <= k < |rows| => RowChange(Operation.Create, None, Some(rows[k])))))
    case UpdateRows(id, rows) =>
      Some(RowChanges(id, seq(|rows|, k requires 0 <= k < |rows| =>
        RowChange(Operation.Update, Some(rows[k].0), Some(rows[k].1)))))
    case DeleteRows(id, rows) =>
      Some(RowChanges(id, seq(|rows|, k requires 0 <= k < |rows| => RowChange(Operation.Delete, Some(rows[k]), None))))
    case _ => None
  }

  /** `col_` and the decimal text of the column's index. */
  function NameOf(i: nat): bytes {
    DecimalAscii(i);
    Ascii("col_" + Numerals.Decimal(i))
  }

  /** A row under a layout of so many columns: each column it has a value for, by its name. */
  function RowAsObject(columns: nat, row: JsonRow): Json {
    NamesDiffer();
    Object(map i | 0 <= i < |row| && i < columns :: NameOf(i) := row[i])
  }

  function ImageOf(t: TableMapEvent, row: Option<JsonRow>): Option<Json> {
    if row.Some? then Some(RowAsObject(|t.columnTypes|, row.value)) else None
  }

  /** The event of a row change under a table map. */
  function EventFor(t: TableMapEvent, c: RowChange): ChangeEvent {
    ChangeEvent(
      op := c.op,
      source := SourceInfo(connector := Mysql, db := t.database, schema := None, table := t.table),
      before := ImageOf(t, c.before),
      after := ImageOf(t, c.after))
  }

  function EventsFor(t: TableMapEvent, changes: seq<RowChange>): seq<ChangeEvent> {
    seq(|changes|, k requires 0 <= k < |changes| => EventFor(t, changes[k]))
  }

  /** The events of a row event under the table maps in force, none for an id that is not mapped. */
  function EventsUnder(tables: Tables, e: BinlogEvent): seq<ChangeEvent> {
    match ChangesOf(e)
    case None => []
    case Some(c) => if c.table in tables then EventsFor(tables[c.table], c.changes) else []
  }

  lemma NamesDiffer()
    ensures forall i: nat, j: nat :: NameOf(i) == NameOf(j) ==> i == j
  {
    forall i: nat, j: nat | NameOf(i) == NameOf(j) ensures i == j {
      NamesDifferAt(i, j);
    }
  }

  lemma NamesDifferAt(i: nat, j: nat)
    requires NameOf(i) == NameOf(j)
    ensures i == j
  {
    DecimalAscii(i);
    DecimalAscii(j);
    var a, b := "col_" + Numerals.Decimal(i), "col_" + Numerals.Decimal(j);
    AsciiInjective(a, b);
    assert a[4..] == Numerals.Decimal(i) && b[4..] == Numerals.Decimal(j);
    Numerals.DecimalInjective(i, j);
    hide Numerals.Decimal, Ascii;
  }

  lemma KeyIsName(i: nat)
    ensures ColumnKey(i) == NameOf(i)
  {
    DecimalAscii(i);
    var text := Numerals.Decimal(i);
    assert Ascii("col_" + text) == [99, 111, 108, 95] + Ascii(text);
  }

  /** A row's object has exactly the keys col_0 to col_(n-1), each with its column's value. */
  lemma {:induction false} RowObjectContents(row: JsonRow, n: nat)
    requires n <= |row|
    ensures forall key :: key in RowPrefix(row, n) <==> exists i :: 0 <= i < n && key == NameOf(i)
    ensures forall i :: 0 <= i < n ==> NameOf(i) in RowPrefix(row, n) && RowPrefix(row, n)[NameOf(i)] == row[i]
    decreases n
  {
    hide ColumnKey, NameOf;
    NamesDiffer();
    if n > 0 {
      KeyIsName(n - 1);
      RowObjectContents(row, n - 1);
    }
  }

  lemma ObjectsAgree(columns: nat, row: JsonRow)
    ensures RowObject(columns, row) == RowAsObject(columns, row)
  {
    var n := MinNat(columns, |row|);
    RowObjectContents(row, n);
    hide NameOf, RowPrefix;
    NamesDiffer();
    assert RowPrefix(row, n) == RowAsObject(columns, row).fields;
  }

  /** The code emits for a row event exactly what it stands for. */
  lemma EmitsReference(tables: Tables, e: BinlogEvent)
    ensures RowTable(e) == (match ChangesOf(e) case Some(c) => Some(c.table) case None => None)
    ensures Emitted(tables, e) == EventsUnder(tables, e)
  {
    hide RowObject, RowAsObject;
    forall columns: nat, row: JsonRow ensures RowObject(columns, row) == RowAsObject(columns, row) {
      ObjectsAgree(columns, row);
    }
  }

  //////////////////////////////////////////////////////////////////////////////
  // Table maps over a run
  //////////////////////////////////////////////////////////////////////////////

  /** The most recent table map for a table id. */
  function LatestMap(history: seq<BinlogEvent>, id: nat): Option<TableMapEvent>
    decreases |history|
  {
    if history == [] then None
    else
      var e := history[|history| - 1];
      if e.TableMap? && e.map_.tableId == id then Some(e.map_) else LatestMap(history[..|history| - 1], id)
  }

  /** What a history of parsed events emits: every row event under the most recent table map of
      its table id, nothing for an id that was never mapped. */
  function Reference(history: seq<BinlogEvent>): seq<ChangeEvent>
    decreases |history|
  {
    if history == [] then []
    else
      var n := |history| - 1;
      Reference(history[..n]) +
      match ChangesOf(history[n])
      case None => []
      case Some(c) =>
        match LatestMap(history[..n], c.table)
        case Some(t) => EventsFor(t, c.changes)
        case None => []
  }

  /** A row event holds one value per column of a layout. */
  ghost predicate RowsMatch(e: BinlogEvent, columns: nat) {
    match e
    case WriteRows(_, rows) => forall k :: 0 <= k < |rows| ==> |rows[k]| == columns
    case UpdateRows(_, rows) => forall k :: 0 <= k < |rows| ==> |rows[k].0| == columns && |rows[k].1| == columns
    case DeleteRows(_, rows) => forall k :: 0 <= k < |rows| ==> |rows[k]| == columns
    case _ => true
  }

  /** Every row event was parsed under the column layout of the most recent table map. */
  ghost predicate LayoutsFollowed(history: seq<BinlogEvent>) {
    forall n :: 0 <= n < |history| && RowTable(history[n]).Some? ==>
      match LatestMap(history[..n], RowTable(history[n]).value)
      case Some(t) => RowsMatch(history[n], |t.columnTypes|)
      case None => RowsMatch(history[n], 0)
  }

  ghost predicate TablesAre(tables: Tables, history: seq<BinlogEvent>) {
    forall id: nat :: LatestMap(history, id) == if id in tables then Some(tables[id]) else None
  }

  lemma RowsLayout(tables: Tables, data: bytes, version: nat)
    requires ParseRows(tables, data, version).Done?
    ensures var (id, rows) := ParseRows(tables, data, version).value;
            forall k :: 0 <= k < |rows| ==> |rows[k]| == |TypesOf(tables, id)|
  {
    var header := RowsHeader(data, version);
    hide RowsHeader;
    if header.next <= |data| {
      MysqlRowFacts.RowsBounded(data, header.next, TypesOf(tables, header.value), MetasOf(tables, header.value));
    }
  }

  lemma PairsLayout(tables: Tables, data: bytes, version: nat)
    requires ParsePairs(tables, data, version).Done?
    ensures var (id, rows) := ParsePairs(tables, data, version).value;
            forall k :: 0 <= k < |rows| ==> |rows[k].0| == |rows[k].1| == |TypesOf(tables, id)|
  {
    var header := RowsHeader(data, version);
    hide RowsHeader;
    if header.next <= |data| {
      MysqlRowFacts.PairsBounded(data, header.next, TypesOf(tables, header.value), MetasOf(tables, header.value));
    }
  }

  /** Reading a row event fixes the number of values per row; no other event reads rows. */
  lemma EventLayout(tables: Tables, ty: byte, data: bytes)
    requires EventOf(tables, ty, data).Done? && EventOf(tables, ty, data).value.Some?
    ensures var e := EventOf(tables, ty, data).value.value;
            RowTable(e).Some? ==> RowsMatch(e, |TypesOf(tables, RowTable(e).value)|)
  {
    hide ParseRows, ParsePairs, TypesOf, ParseTableMap;
    var e := EventOf(tables, ty, data).value.value;
    if RowTable(e).Some? {
      var version := if ty == 0x17 || ty == 0x18 || ty == 0x19 then 1 else 2;
      if e.UpdateRows? {
        PairsLayout(tables, data, version);
      } else {
        RowsLayout(tables, data, version);
      }
    }
  }

  lemma EventEffect(c: ClientState, ty: byte, data: bytes)
    ensures var (c', r) := ParseEvent(c, ty, data);
            if r.Done? && r.value.Some? then
              var e := r.value.value;
              && c'.tables == Effect(c, e).tables && (Skipped(e) ==> c'.tables == c.tables)
              && (RowTable(e).Some? ==> RowsMatch(e, |TypesOf(c.tables, RowTable(e).value)|))
            else c' == c
  {
    if EventOf(c.tables, ty, data).Done? && EventOf(c.tables, ty, data).value.Some? {
      EventLayout(c.tables, ty, data);
    }
    hide EventOf, RowsMatch, TypesOf;
  }

  lemma EffectOnTables(c: ClientState, d: ClientState, w: WalkResult)
    requires c.tables == d.tables
    ensures w.Found? ==> Effect(c, w.event).tables == Effect(d, w.event).tables
  {
  }

  /** The walk leaves the tables as they were, up to the effect of the event it returns. */
  lemma {:induction false} WalkEffect(c: ClientState, packet: bytes, pos: nat)
    ensures var (c', w) := Walk(c, packet, pos);
            && (w.Found? ==> c'.tables == Effect(c, w.event).tables
                             && (RowTable(w.event).Some? ==>
                                   RowsMatch(w.event, |TypesOf(c.tables, RowTable(w.event).value)|)))
            && (!w.Found? ==> c'.tables == c.tables)
    decreases |packet| - pos
  {
    hide ParseEvent, Effect, RowsMatch, TypesOf, HeaderAt, Sub;
    if pos + 19 <= |packet| {
      var header := HeaderAt(packet, pos);
      var size := header.eventSize;
      if 19 <= size && pos + size <= |packet| {
        var data := Sub(packet, pos + 19, size - 19);
        var (c', r) := ParseEvent(c, header.eventType, data);
        EventEffect(c, header.eventType, data);
        if r.Done? && (r.value.None? || Skipped(r.value.value)) {
          WalkEffect(c', packet, pos + size);
          EffectOnTables(c, c', Walk(c', packet, pos + size).1);
        }
      }
    }
  }

  lemma {:induction false} NextEffect(c: ClientState, input: bytes)
    ensures var (c', rest, next) := NextEvent(c, input);
            && (next.Event? ==> c'.tables == Effect(c, next.event).tables
                                && (RowTable(next.event).Some? ==>
                                      RowsMatch(next.event, |TypesOf(c.tables, RowTable(next.event).value)|)))
            && (!next.Event? ==> c'.tables == c.tables)
    decreases |input|
  {
    match TakePacket(input)
    case None =>
    case Some((packet, rest)) =>
      if packet != [] {
        if Ignorable(packet) {
          NextEffect(c, rest);
        } else {
          var (c', w) := Walk(c, packet, 0);
          WalkEffect(c, packet, 0);
          hide Walk, Effect, RowsMatch;
          if w.Exhausted? {
            NextEffect(c', rest);
          }
        }
      }
  }

  /** The events a run returns, in order. */
  function Returned(c: ClientState, input: bytes): seq<BinlogEvent>
    decreases |input|
  {
    var (c', rest, next) := NextEvent(c, input);
    NextConsumes(c, input);
    match next
    case Event(_, e) => [e] + Returned(c', rest)
    case NoEvent => Returned(c', rest)
    case _ => []
  }

  lemma HistoryStep(c: ClientState, c': ClientState, history: seq<BinlogEvent>, e: BinlogEvent)
    requires TablesAre(c.tables, history) && LayoutsFollowed(history)
    requires c'.tables == Effect(c, e).tables
    requires RowTable(e).Some? ==> RowsMatch(e, |TypesOf(c.tables, RowTable(e).value)|)
    ensures TablesAre(c'.tables, history + [e]) && LayoutsFollowed(history + [e])
    ensures Reference(history + [e]) == Reference(history) + Emitted(c'.tables, e)
  {
    var longer := history + [e];
    assert longer[..|history|] == history && longer[|history|] == e;
    assert e.TableMap? || c'.tables == c.tables;
    EmitsReference(c'.tables, e);
    forall n | 0 <= n < |longer| && RowTable(longer[n]).Some?
      ensures match LatestMap(longer[..n], RowTable(longer[n]).value)
              case Some(t) => RowsMatch(longer[n], |t.columnTypes|)
              case None => RowsMatch(longer[n], 0)
    {
      if n < |history| {
        assert longer[..n] == history[..n] && longer[n] == history[n];
      }
    }
  }

  /** Over any input, a run emits exactly the reference of the events it returned: each under the
      database, table and column layout of the most recent table map for its id. */
  lemma {:induction false} StreamEmitsReference(c: ClientState, history: seq<BinlogEvent>, input: bytes)
    requires TablesAre(c.tables, history) && LayoutsFollowed(history)
    ensures var all := history + Returned(c, input);
            && Stream(c, Reference(history), input).1 == Reference(all)
            && TablesAre(Stream(c, Reference(history), input).0.tables, all)
            && LayoutsFollowed(all)
    decreases |input|
  {
    hide NextEvent, Effect, RowsMatch, TablesAre, LayoutsFollowed, Reference, Emitted;
    var (c', rest, next) := NextEvent(c, input);
    NextEffect(c, input);
    NextConsumes(c, input);
    match next
    case Event(_, e) =>
      HistoryStep(c, c', history, e);
      StreamEmitsReference(c', history + [e], rest);
      assert history + [e] + Returned(c', rest) == history + ([e] + Returned(c', rest));
    case NoEvent =>
      StreamEmitsReference(c', history, rest);
    case _ =>
      assert history + [] == history;
  }

  /** The same from a fresh client. */
  lemma FreshStreamEmitsReference(input: bytes)
    ensures var all := Returned(ClientState(map[], None), input);
            && Stream(ClientState(map[], None), [], input).1 == Reference(all)
            && LayoutsFollowed(all)
  {
    var c := ClientState(map[], None);
    NothingYet();
    hide *;
    StreamEmitsReference(c, [], input);
    assert [] + Returned(c, input) == Returned(c, input);
  }

  lemma NothingYet()
    ensures TablesAre(map[], []) && LayoutsFollowed([]) && Reference([]) == []
  {
  }
}
