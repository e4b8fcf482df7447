/** The bodies of binlog events, printed and parsed back. The printer is the inverse of the parser,
    not the server's. */
module MysqlBodies {
  import opened Wrappers
  import opened Bits
  import opened MysqlColumns
  import opened MysqlCells
  import opened MysqlRowRoundTrip
  import opened MysqlEvents
  import opened MysqlEventFacts

  /** What stands in front of the rows of a row event. */
  datatype RowsHead = RowsHead(version: nat, tableId: nat, flags: u16, extra: u16, count: u64, bitmap: bytes)

  datatype Body =
    | MapBody(t: TableMapEvent, flags: u16, metaLength: u64)
    | WriteBody(head: RowsHead, rows: seq<seq<Cell>>)
    | DeleteBody(head: RowsHead, rows: seq<seq<Cell>>)
    | UpdateBody(head: RowsHead, pairs: seq<Image>)
    | RotateBody(file: bytes, position: u64, padding: nat)
    | FormatBody(data: bytes)
    | GtidBody(commit: byte, uuid: bytes, gno: u64, tail: bytes)
    | XidBody(xid: u64, tail: bytes)
    | HeartbeatBody(data: bytes)
    | OtherBody(ty: byte, data: bytes)

  /** The event types the client knows. */
  const KNOWN_TYPES: seq<byte> := [0x04, 0x0f, 0x10, 0x13, 0x17, 0x18, 0x19, 0x1b, 0x1e, 0x1f, 0x20, 0x21]

  ghost predicate ValidHead(tables: Tables, h: RowsHead) {
    && (h.version == 1 || h.version == 2)
    && h.tableId < 0x1_0000_0000_0000 && h.count > 0 && |h.bitmap| == CeilDiv(h.count, 8)
    && h.tableId in tables && Layout(tables[h.tableId].columnTypes, tables[h.tableId].columnMetas)
  }

  ghost predicate ValidRows(tables: Tables, h: RowsHead, rows: seq<seq<Cell>>) {
    ValidHead(tables, h)
    && forall k :: 0 <= k < |rows| ==> RowFits(rows[k], tables[h.tableId].columnTypes, tables[h.tableId].columnMetas)
  }

  ghost predicate ValidPairs(tables: Tables, h: RowsHead, pairs: seq<Image>) {
    ValidHead(tables, h)
    && forall k :: 0 <= k < |pairs| ==> PairFits(pairs[k], tables[h.tableId].columnTypes, tables[h.tableId].columnMetas)
  }

  /** The body can be printed, its rows under the layout its table id is mapped to. */
  ghost predicate ValidBody(tables: Tables, b: Body) {
    match b
    case MapBody(t, _, _) => ValidTableMap(t)
    case WriteBody(h, rows) => ValidRows(tables, h, rows)
    case DeleteBody(h, rows) => ValidRows(tables, h, rows)
    case UpdateBody(h, pairs) => ValidPairs(tables, h, pairs)
    case RotateBody(file, _, _) => file != [] ==> file[|file| - 1] != 0
    case GtidBody(_, uuid, _, _) => |uuid| == 16
    case OtherBody(ty, _) => ty !in KNOWN_TYPES
    case _ => true
  }

  ghost function EncodeU64(n: u64): (s: bytes)
    ensures |s| == 8
  {
    Pow256Values();
    LeBytes(n, 8)
  }

  function Zeros(n: nat): bytes { seq(n, i => 0) }

  ghost function EncodeHead(h: RowsHead): bytes
    requires h.tableId < 0x1_0000_0000_0000
  {
    EncodeRowsHeader(h.version, h.tableId, h.flags, h.extra, h.count, h.bitmap)
  }

  ghost function EncodeBody(tables: Tables, b: Body): bytes
    requires ValidBody(tables, b)
  {
    match b
    case MapBody(t, flags, metaLength) => EncodeTableMap(t, flags, metaLength)
    case WriteBody(h, rows) =>
      EncodeHead(h) + EncodeRows(rows, tables[h.tableId].columnTypes, tables[h.tableId].columnMetas)
    case DeleteBody(h, rows) =>
      EncodeHead(h) + EncodeRows(rows, tables[h.tableId].columnTypes, tables[h.tableId].columnMetas)
    case UpdateBody(h, pairs) =>
      EncodeHead(h) + EncodePairs(pairs, tables[h.tableId].columnTypes, tables[h.tableId].columnMetas)
    case RotateBody(file, position, padding) => EncodeU64(position) + (file + Zeros(padding))
    case FormatBody(data) => data
    case GtidBody(commit, uuid, gno, tail) => [commit] + (uuid + (EncodeU64(gno) + tail))
    case XidBody(xid, tail) => EncodeU64(xid) + tail
    case HeartbeatBody(data) => data
    case OtherBody(_, data) => data
  }

  function TypeOf(b: Body): byte {
    match b
    case MapBody(_, _, _) => 0x13
    case WriteBody(h, _) => if h.version == 1 then 0x17 else 0x1e
    case UpdateBody(h, _) => if h.version == 1 then 0x18 else 0x1f
    case DeleteBody(h, _) => if h.version == 1 then 0x19 else 0x20
    case RotateBody(_, _, _) => 0x04
    case FormatBody(_) => 0x0f
    case GtidBody(_, _, _, _) => 0x21
    case XidBody(_, _) => 0x10
    case HeartbeatBody(_) => 0x1b
    case OtherBody(ty, _) => ty
  }

  /** The event a body stands for. */
  function Meaning(tables: Tables, b: Body): BinlogEvent {
    match b
    case MapBody(t, _, _) => TableMap(t)
    case WriteBody(h, rows) => WriteRows(h.tableId, JsonRows(rows, TypesOf(tables, h.tableId)))
    case UpdateBody(h, pairs) => UpdateRows(h.tableId, JsonPairs(pairs, TypesOf(tables, h.tableId)))
    case DeleteBody(h, rows) => DeleteRows(h.tableId, JsonRows(rows, TypesOf(tables, h.tableId)))
    case RotateBody(file, position, _) => Rotate(file, position)
    case FormatBody(_) => FormatDescription
    case GtidBody(_, uuid, gno, _) => Gtid(uuid, gno)
    case XidBody(xid, _) => Xid(xid)
    case HeartbeatBody(_) => Heartbeat
    case OtherBody(ty, _) => Unknown(ty)
  }

  ghost predicate Parses(tables: Tables, b: Body)
    requires ValidBody(tables, b)
  {
    var r := EventOf(tables, TypeOf(b), EncodeBody(tables, b));
    r.Done? && r.value == Some(Meaning(tables, b))
  }

  lemma MapParses(tables: Tables, b: Body)
    requires b.MapBody? && ValidBody(tables, b)
    ensures Parses(tables, b)
  {
    MapBodyParses(b.t, b.flags, b.metaLength);
    hide ParseTableMap, EncodeTableMap, ValidTableMap;
  }

  lemma EventOfWrite(tables: Tables, b: Body, data: bytes)
    requires b.WriteBody? && (b.head.version == 1 || b.head.version == 2)
    ensures EventOf(tables, TypeOf(b), data) == WriteEvent(ParseRows(tables, data, b.head.version))
  {
    hide ParseRows, ParsePairs, ParseTableMap, ParseRotate, ParseXid, ParseGtid;
  }

  lemma EventOfDelete(tables: Tables, b: Body, data: bytes)
    requires b.DeleteBody? && (b.head.version == 1 || b.head.version == 2)
    ensures EventOf(tables, TypeOf(b), data) == DeleteRowsEvent(ParseRows(tables, data, b.head.version))
  {
    hide ParseRows, ParsePairs, ParseTableMap, ParseRotate, ParseXid, ParseGtid;
  }

  lemma EventOfUpdate(tables: Tables, b: Body, data: bytes)
    requires b.UpdateBody? && (b.head.version == 1 || b.head.version == 2)
    ensures EventOf(tables, TypeOf(b), data) == UpdatePairsEvent(ParsePairs(tables, data, b.head.version))
  {
    hide ParseRows, ParsePairs, ParseTableMap, ParseRotate, ParseXid, ParseGtid;
  }

  lemma WriteParses(tables: Tables, h: RowsHead, rows: seq<seq<Cell>>)
    requires ValidBody(tables, WriteBody(h, rows))
    ensures Parses(tables, WriteBody(h, rows))
  {
    var b := WriteBody(h, rows);
    assert (h.version == 1 || h.version == 2) && h.tableId in tables;
    hide EventOf, TypeOf, ParseRows, EncodeHead, EncodeRows, JsonRows, ValidRows;
    RowsBodyParses(tables, h, rows);
    EventOfWrite(tables, b, EncodeBody(tables, b));
  }

  lemma DeleteParses(tables: Tables, h: RowsHead, rows: seq<seq<Cell>>)
    requires ValidBody(tables, DeleteBody(h, rows))
    ensures Parses(tables, DeleteBody(h, rows))
  {
    var b := DeleteBody(h, rows);
    assert (h.version == 1 || h.version == 2) && h.tableId in tables;
    hide EventOf, TypeOf, ParseRows, EncodeHead, EncodeRows, JsonRows, ValidRows;
    RowsBodyParses(tables, h, rows);
    EventOfDelete(tables, b, EncodeBody(tables, b));
  }

  lemma UpdateParses(tables: Tables, h: RowsHead, pairs: seq<Image>)
    requires ValidBody(tables, UpdateBody(h, pairs))
    ensures Parses(tables, UpdateBody(h, pairs))
  {
    var b := UpdateBody(h, pairs);
    assert (h.version == 1 || h.version == 2) && h.tableId in tables;
    hide EventOf, TypeOf, ParsePairs, EncodeHead, EncodePairs, JsonPairs, ValidPairs;
    PairsBodyParses(tables, h, pairs);
    EventOfUpdate(tables, b, EncodeBody(tables, b));
  }

  lemma U64Read(data: bytes, off: nat, n: u64)
    requires At(data, off, EncodeU64(n))
    ensures off + 8 <= |data| && LeAt(data, off, 8) == n
  {
    Pow256Values();
    AtInside(data, off, EncodeU64(n));
    LeAtOf(data, off, n, 8);
  }

  lemma {:induction false} TrimPadding(file: bytes, n: nat)
    requires file != [] ==> file[|file| - 1] != 0
    ensures TrimNuls(file + Zeros(n)) == file
    decreases n
  {
    if n == 0 {
      assert file + Zeros(0) == file;
    } else {
      assert (file + Zeros(n))[..|file + Zeros(n)| - 1] == file + Zeros(n - 1);
      TrimPadding(file, n - 1);
    }
  }

  /** A rotation names its file without the padding, and its position. */
  lemma RotateParses(file: bytes, position: u64, padding: nat)
    requires file != [] ==> file[|file| - 1] != 0
    ensures ParseRotate(EncodeU64(position) + (file + Zeros(padding))) == Rotate(file, position)
  {
    var name := file + Zeros(padding);
    var data := EncodeU64(position) + name;
    AtPrefix(EncodeU64(position), name);
    U64Read(data, 0, position);
    assert Sub(data, 8, |data| - 8) == name;
    TrimPadding(file, padding);
    hide TrimNuls, EncodeU64;
  }

  lemma GtidParses(commit: byte, uuid: bytes, gno: u64, tail: bytes)
    requires |uuid| == 16
    ensures ParseGtid([commit] + (uuid + (EncodeU64(gno) + tail))) == Done(Some(Gtid(uuid, gno)), 25)
  {
    var number := EncodeU64(gno);
    var data := [commit] + (uuid + (number + tail));
    AtPrefix(data, []);
    assert data + [] == data;
    Split4(data, 0, data, [commit], uuid, number, tail);
    SubOfAt(data, 1, uuid);
    U64Read(data, 17, gno);
    hide EncodeU64;
  }

  lemma XidParses(xid: u64, tail: bytes)
    ensures ParseXid(EncodeU64(xid) + tail) == Xid(xid)
  {
    AtPrefix(EncodeU64(xid), tail);
    U64Read(EncodeU64(xid) + tail, 0, xid);
  }

  lemma SmallParses(tables: Tables, b: Body)
    requires ValidBody(tables, b)
    requires b.RotateBody? || b.GtidBody? || b.XidBody? || b.FormatBody? || b.HeartbeatBody? || b.OtherBody?
    ensures Parses(tables, b)
  {
    hide EncodeU64, ParseRotate, ParseGtid, ParseXid, ParseTableMap, ParseRows, ParsePairs;
    match b
    case RotateBody(file, position, padding) => RotateParses(file, position, padding);
    case GtidBody(commit, uuid, gno, tail) => GtidParses(commit, uuid, gno, tail);
    case XidBody(xid, tail) => XidParses(xid, tail);
    case _ =>
  }

  /** Every printed body is parsed to what it stands for. */
  lemma BodyParses(tables: Tables, b: Body)
    requires ValidBody(tables, b)
    ensures Parses(tables, b)
  {
    hide Parses, ValidBody;
    match b
    case MapBody(_, _, _) => MapParses(tables, b);
    case WriteBody(h, rows) => WriteParses(tables, h, rows);
    case DeleteBody(h, rows) => DeleteParses(tables, h, rows);
    case UpdateBody(h, pairs) => UpdateParses(tables, h, pairs);
    case _ => SmallParses(tables, b);
  }

  lemma MapBodyParses(t: TableMapEvent, flags: u16, metaLength: u64)
    requires ValidTableMap(t)
    ensures ParseTableMap(EncodeTableMap(t, flags, metaLength)).Done?
    ensures ParseTableMap(EncodeTableMap(t, flags, metaLength)).value == t
  {
    var data := EncodeTableMap(t, flags, metaLength);
    hide *;
    AtPrefix(data, []);
    assert data + [] == data;
    TableMapRoundTrip(data, t, flags, metaLength);
  }

  lemma PairsBodyParses(tables: Tables, h: RowsHead, pairs: seq<Image>)
    requires ValidPairs(tables, h, pairs)
    ensures var t := tables[h.tableId];
            var data := EncodeHead(h) + EncodePairs(pairs, t.columnTypes, t.columnMetas);
            ParsePairs(tables, data, h.version) == Done((h.tableId, JsonPairs(pairs, t.columnTypes)), |data|)
  {
    var t := tables[h.tableId];
    PairsEventRoundTrip(tables, h.version, h.tableId, h.flags, h.extra, h.count, h.bitmap, pairs,
                        t.columnTypes, t.columnMetas);
  }

  lemma RowsBodyParses(tables: Tables, h: RowsHead, rows: seq<seq<Cell>>)
    requires ValidRows(tables, h, rows)
    ensures var t := tables[h.tableId];
            var data := EncodeHead(h) + EncodeRows(rows, t.columnTypes, t.columnMetas);
            ParseRows(tables, data, h.version) == Done((h.tableId, JsonRows(rows, t.columnTypes)), |data|)
  {
    var t := tables[h.tableId];
    RowsEventRoundTrip(tables, h.version, h.tableId, h.flags, h.extra, h.count, h.bitmap, rows,
                       t.columnTypes, t.columnMetas);
  }
}
