/** Binlog events: the specification of the client's parsers and of its walk over packets. */
module MysqlEvents {
  import opened Wrappers
  import opened Bits
  import opened MysqlColumns
  import opened MysqlRows

  datatype EventHeader =
    EventHeader(timestamp: u32, eventType: byte, serverId: u32, eventSize: u32, logPos: u32, flags: u16)

  datatype TableMapEvent =
    TableMapEvent(tableId: nat, database: bytes, table: bytes,
                  columnTypes: seq<byte>, columnMetas: seq<u16>, nullBits: seq<bool>)

  datatype BinlogEvent =
    | Rotate(file: bytes, position: nat)
    | FormatDescription
    | TableMap(map_: TableMapEvent)
    | Gtid(uuid: bytes, gno: nat)
    | Xid(xid: nat)
    | WriteRows(writeId: nat, written: seq<JsonRow>)
    | UpdateRows(updateId: nat, updated: seq<(JsonRow, JsonRow)>)
    | DeleteRows(deleteId: nat, deleted: seq<JsonRow>)
    | Heartbeat
    | Unknown(eventType: byte)

  type Tables = map<nat, TableMapEvent>

  datatype ClientState = ClientState(tables: Tables, currentGtid: Option<(bytes, nat)>)

  //////////////////////////////////////////////////////////////////////////////
  // Packed integers
  //////////////////////////////////////////////////////////////////////////////

  function LeAt(data: bytes, off: nat, n: nat): (v: nat)
    requires off + n <= |data|
    ensures v < Pow256(n)
  {
    LeValue(Sub(data, off, n))
  }

  /** The table id and the cursor behind it; short data is taken whole as table zero. */
  function PackedU48(data: bytes): (nat, nat) {
    if |data| < 6 then (0, |data|) else (LeAt(data, 0, 6), 6)
  }

  function PackedInt(data: bytes, off: nat): (r: Parse<nat>)
    requires off <= |data|
    ensures r.Done? ==> off <= r.next <= |data|
  {
    if off == |data| then Done(0, off)
    else if data[off] < 251 then Done(data[off], off + 1)
    else if data[off] == 251 then Done(0, off + 1)
    else if data[off] == 252 then
      if off + 3 <= |data| then Done(LeAt(data, off + 1, 2), off + 3) else Panic
    else if data[off] == 253 then
      if off + 4 <= |data| then Done(LeAt(data, off + 1, 3), off + 4) else Panic
    else if data[off] == 254 then
      if off + 9 <= |data| then Done(LeAt(data, off + 1, 8), off + 9) else Panic
    else Done(0, off)
  }

  /** The cursor behind a column count and its bitmap; an absent or zero count moves nothing. */
  function SkipBitset(data: bytes, off: nat): Parse<nat>
    requires off <= |data|
  {
    match PackedInt(data, off)
    case Done(count, next) =>
      if count == 0 || next == off then Done(0, off) else Done(count, next + CeilDiv(count, 8))
    case Fail(e) => Fail(e)
    case Panic => Panic
  }

  //////////////////////////////////////////////////////////////////////////////
  // Table maps
  //////////////////////////////////////////////////////////////////////////////

  function MetaLength(t: byte, p: nat, end: nat): nat {
    if t == 0 || t == NEWDECIMAL then 2
    else if t == BIT then (if p < end then 2 else 0)
    else if t >= TINY_BLOB then 1
    else 0
  }

  function ReadMeta(data: bytes, p: nat, t: byte): (r: (u16, nat))
    ensures p <= r.1 && (p <= |data| ==> r.1 <= |data|)
  {
    var n := MetaLength(t, p, |data|);
    if n > 0 && p + n <= |data| then
      Pow256Values();
      (LeAt(data, p, n), p + n)
    else (0, p)
  }

  function ReadMetas(data: bytes, p: nat, types: seq<byte>): (r: (seq<u16>, nat))
    ensures |r.0| == |types| && p <= r.1 && (p <= |data| ==> r.1 <= |data|)
    decreases |types|
  {
    if types == [] then ([], p)
    else
      var (m, q) := ReadMeta(data, p, types[0]);
      var (ms, end) := ReadMetas(data, q, types[1..]);
      ([m] + ms, end)
  }

  function ReadNullBits(data: bytes, p: nat, count: nat): seq<bool> {
    if p + CeilDiv(count, 8) <= |data| then seq(count, i requires 0 <= i < count => NullBit(data, p, i))
    else seq(count, i => false)
  }

  datatype Columns = Columns(types: seq<byte>, metas: seq<u16>, nullBits: seq<bool>)

  /** Column types, metas and null bits behind the two names. */
  function ParseColumns(data: bytes, p: nat): Parse<Columns>
    requires p <= |data|
  {
    match PackedInt(data, p)
    case Fail(e) => Fail(e)
    case Panic => Panic
    case Done(count, p1) =>
      if p1 + count > |data| then Panic
      else
        var types := Sub(data, p1, count);
        match PackedInt(data, p1 + count)
        case Fail(e) => Fail(e)
        case Panic => Panic
        case Done(_, p2) =>
          var (metas, p3) := ReadMetas(data, p2, types);
          Done(Columns(types, metas, ReadNullBits(data, p3, count)), p3)
  }

  function ParseTableMap(data: bytes): Parse<TableMapEvent> {
    var (tableId, pos) := PackedU48(data);
    if pos + 2 > |data| then Panic
    else
      var p := pos + 2;
      var dbEnd := ScanNul(data, p);
      if dbEnd == |data| then Fail(NoDatabaseTerminator)
      else
        var tableEnd := ScanNul(data, dbEnd + 1);
        if tableEnd == |data| then Fail(NoTableTerminator)
        else
          match ParseColumns(data, tableEnd + 1)
          case Fail(e) => Fail(e)
          case Panic => Panic
          case Done(Columns(types, metas, nulls), next) =>
            Done(TableMapEvent(tableId, Sub(data, p, dbEnd - p),
                               Sub(data, dbEnd + 1, tableEnd - (dbEnd + 1)), types, metas, nulls), next)
  }

  //////////////////////////////////////////////////////////////////////////////
  // Row events
  //////////////////////////////////////////////////////////////////////////////

  /** The table id, and the cursor in front of the rows. */
  function RowsHeader(data: bytes, version: nat): Parse<nat> {
    var (tableId, pos) := PackedU48(data);
    var p := if version == 2 then pos + 4 else pos + 2;
    if pos + 2 > |data| || p > |data| then Panic
    else match SkipBitset(data, p)
      case Done(_, next) => Done(tableId, next)
      case Fail(e) => Fail(e)
      case Panic => Panic
  }

  function TypesOf(tables: Tables, tableId: nat): seq<byte> {
    if tableId in tables then tables[tableId].columnTypes else []
  }

  function MetasOf(tables: Tables, tableId: nat): seq<u16> {
    if tableId in tables then tables[tableId].columnMetas else []
  }

  function ParseRows(tables: Tables, data: bytes, version: nat): Parse<(nat, seq<JsonRow>)> {
    match RowsHeader(data, version)
    case Fail(e) => Fail(e)
    case Panic => Panic
    case Done(id, pos) =>
      match ReadRows(data, pos, TypesOf(tables, id), MetasOf(tables, id))
      case Done(rows, next) => Done((id, rows), next)
      case Fail(e) => Fail(e)
      case Panic => Panic
  }

  function ParsePairs(tables: Tables, data: bytes, version: nat): Parse<(nat, seq<(JsonRow, JsonRow)>)> {
    match RowsHeader(data, version)
    case Fail(e) => Fail(e)
    case Panic => Panic
    case Done(id, pos) =>
      match ReadPairs(data, pos, TypesOf(tables, id), MetasOf(tables, id))
      case Done(pairs, next) => Done((id, pairs), next)
      case Fail(e) => Fail(e)
      case Panic => Panic
  }

  //////////////////////////////////////////////////////////////////////////////
  // Events
  //////////////////////////////////////////////////////////////////////////////

  function TrimNuls(s: bytes): bytes
    decreases |s|
  {
    if s != [] && s[|s| - 1] == 0 then TrimNuls(s[..|s| - 1]) else s
  }

  function ParseRotate(data: bytes): BinlogEvent {
    if |data| < 8 then Rotate([], 0)
    else Rotate(TrimNuls(Sub(data, 8, |data| - 8)), LeAt(data, 0, 8))
  }

  function ParseXid(data: bytes): BinlogEvent {
    if |data| < 8 then Xid(0) else Xid(LeAt(data, 0, 8))
  }

  /** Data of less than 20 bytes is no event; the sequence number is read up to byte 25. */
  function ParseGtid(data: bytes): Parse<Option<BinlogEvent>> {
    if |data| < 20 then Done(None, 0)
    else if |data| < 25 then Panic
    else Done(Some(Gtid(Sub(data, 1, 16), LeAt(data, 17, 8))), 25)
  }

  function TableEvent(r: Parse<TableMapEvent>): Parse<Option<BinlogEvent>> {
    if r.Done? then Done(Some(TableMap(r.value)), r.next) else r.PropagateFailure()
  }

  function WriteEvent(r: Parse<(nat, seq<JsonRow>)>): Parse<Option<BinlogEvent>> {
    if r.Done? then Done(Some(WriteRows(r.value.0, r.value.1)), r.next) else r.PropagateFailure()
  }

  function UpdatePairsEvent(r: Parse<(nat, seq<(JsonRow, JsonRow)>)>): Parse<Option<BinlogEvent>> {
    if r.Done? then Done(Some(UpdateRows(r.value.0, r.value.1)), r.next) else r.PropagateFailure()
  }

  function DeleteRowsEvent(r: Parse<(nat, seq<JsonRow>)>): Parse<Option<BinlogEvent>> {
    if r.Done? then Done(Some(DeleteRows(r.value.0, r.value.1)), r.next) else r.PropagateFailure()
  }

  /** Dispatch on the event type, without its effect on the client. */
  function EventOf(tables: Tables, ty: byte, data: bytes): Parse<Option<BinlogEvent>> {
    match ty
    case 0x0f => Done(Some(FormatDescription), 0)
    case 0x04 => Done(Some(ParseRotate(data)), 0)
    case 0x13 => TableEvent(ParseTableMap(data))
    case 0x17 => WriteEvent(ParseRows(tables, data, 1))
    case 0x18 => UpdatePairsEvent(ParsePairs(tables, data, 1))
    case 0x19 => DeleteRowsEvent(ParseRows(tables, data, 1))
    case 0x1e => WriteEvent(ParseRows(tables, data, 2))
    case 0x1f => UpdatePairsEvent(ParsePairs(tables, data, 2))
    case 0x20 => DeleteRowsEvent(ParseRows(tables, data, 2))
    case 0x21 => ParseGtid(data)
    case 0x10 => Done(Some(ParseXid(data)), 0)
    case 0x1b => Done(Some(Heartbeat), 0)
    case _ => Done(Some(Unknown(ty)), 0)
  }

  /** The effect of an event on the client: a table map replaces the layout of its table id, a
      GTID is remembered. */
  function Effect(c: ClientState, e: BinlogEvent): ClientState {
    match e
    case TableMap(t) => c.(tables := c.tables[t.tableId := t])
    case Gtid(uuid, gno) => c.(currentGtid := Some((uuid, gno)))
    case _ => c
  }

  function ParseEvent(c: ClientState, ty: byte, data: bytes): (ClientState, Parse<Option<BinlogEvent>>) {
    var r := EventOf(c.tables, ty, data);
    (if r.Done? && r.value.Some? then Effect(c, r.value.value) else c, r)
  }

  //////////////////////////////////////////////////////////////////////////////
  // The walk over one packet, and packets
  //////////////////////////////////////////////////////////////////////////////

  datatype WalkResult =
    | Found(header: EventHeader, event: BinlogEvent)
    | Exhausted
    | WalkFailed(error: BinlogError)
    | WalkPanicked

  function HeaderAt(packet: bytes, pos: nat): EventHeader
    requires pos + 19 <= |packet|
  {
    Pow256Values();
    EventHeader(LeAt(packet, pos, 4), packet[pos + 4], LeAt(packet, pos + 5, 4), LeAt(packet, pos + 9, 4),
                LeAt(packet, pos + 13, 4), LeAt(packet, pos + 17, 2))
  }

  predicate Skipped(e: BinlogEvent) { e.Rotate? || e.FormatDescription? }

  function Walk(c: ClientState, packet: bytes, pos: nat): (ClientState, WalkResult)
    decreases |packet| - pos
  {
    if pos + 19 > |packet| then (c, Exhausted)
    else
      var header := HeaderAt(packet, pos);
      var size := header.eventSize;
      if pos + size > |packet| then (c, Exhausted)
      else if size < 19 then (c, WalkPanicked)
      else
        var (c', r) := ParseEvent(c, header.eventType, Sub(packet, pos + 19, size - 19));
        match r
        case Fail(e) => (c', WalkFailed(e))
        case Panic => (c', WalkPanicked)
        case Done(e, _) =>
          if e.Some? && !Skipped(e.value) then (c', Found(header, e.value))
          else Walk(c', packet, pos + size)
  }

  /** One framed packet off the input: three length bytes, a sequence byte, the body. */
  function TakePacket(input: bytes): Option<(bytes, bytes)> {
    if |input| < 4 then None
    else
      var n := LeAt(input, 0, 3);
      if 4 + n > |input| then None
      else Some((Sub(input, 4, n), Sub(input, 4 + n, |input| - 4 - n)))
  }

  datatype Next =
    | Event(header: EventHeader, event: BinlogEvent)
    | NoEvent
    | Broken(error: BinlogError)
    | Crashed

  /** A packet that starts with a zero byte and holds no second byte, or a second zero, is skipped. */
  predicate Ignorable(packet: bytes) {
    packet != [] && packet[0] == 0 && (|packet| < 2 || packet[1] == 0)
  }

  function NextEvent(c: ClientState, input: bytes): (ClientState, bytes, Next)
    decreases |input|
  {
    match TakePacket(input)
    case None => (c, input, Broken(ConnectionClosed))
    case Some((packet, rest)) =>
      if packet == [] then (c, rest, NoEvent)
      else if Ignorable(packet) then NextEvent(c, rest)
      else
        var (c', w) := Walk(c, packet, 0);
        match w
        case Found(header, event) => (c', rest, Event(header, event))
        case Exhausted => NextEvent(c', rest)
        case WalkFailed(e) => (c', rest, Broken(e))
        case WalkPanicked => (c', rest, Crashed)
  }
}
