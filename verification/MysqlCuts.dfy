/** Binlog data that is cut off or wrong: what the client makes of it. Little of it is an error. */
module MysqlCuts {
  import opened Wrappers
  import opened Bits
  import opened MysqlColumns
  import opened MysqlRows
  import opened MysqlRowFacts
  import opened MysqlCells
  import opened MysqlEvents
  import opened MysqlEventFacts
  import opened MysqlBodies

  //////////////////////////////////////////////////////////////////////////////
  // Packed integers
  //////////////////////////////////////////////////////////////////////////////

  /** A packed integer that is cut off is zero if nothing of it is left, and a panic otherwise. */
  lemma PackedIntCut(data: bytes, off: nat, n: u64)
    requires Cut(data, off, EncodePackedInt(n))
    ensures PackedInt(data, off) == if off == |data| then Done(0, off) else Panic
  {
    Pow256Values();
    var e := EncodePackedInt(n);
    if off < |data| {
      assert data[off] == e[0];
    }
  }

  /** The byte for NULL is zero over one byte; the reserved byte is zero over none. */
  lemma PackedIntReserved(data: bytes, off: nat)
    requires off < |data| && data[off] in {251, 255}
    ensures PackedInt(data, off) == Done(0, if data[off] == 251 then off + 1 else off)
  {
  }

  //////////////////////////////////////////////////////////////////////////////
  // Row events
  //////////////////////////////////////////////////////////////////////////////

  /** The fixed part of a row event's header. */
  ghost function EncodeFixed(version: nat, tableId: nat, flags: u16, extra: u16): bytes
    requires tableId < 0x1_0000_0000_0000
  {
    Pow256Values();
    LeBytes(tableId, 6) + LeBytes(flags, 2) + if version == 2 then LeBytes(extra, 2) else []
  }

  /** A row event whose fixed part is cut off is a panic. One that ends behind it has no rows; a
      column count that is NULL, zero or reserved is not passed over, so its byte is taken for the
      first of a row. */
  lemma RowsHeaderCut(data: bytes, version: nat, tableId: nat, flags: u16, extra: u16)
    requires (version == 1 || version == 2) && tableId < 0x1_0000_0000_0000
    ensures Cut(data, 0, EncodeFixed(version, tableId, flags, extra)) ==> RowsHeader(data, version).Panic?
    ensures At(data, 0, EncodeFixed(version, tableId, flags, extra)) ==>
      var p := |EncodeFixed(version, tableId, flags, extra)|;
      p == |data| || data[p] in {0, 251, 255} ==> RowsHeader(data, version) == Done(tableId, p)
  {
    Pow256Values();
    if At(data, 0, EncodeFixed(version, tableId, flags, extra)) {
      FixedPartRead(data, version, tableId, flags, extra);
    }
    hide LeBytes, LeAt, Pow256;
  }

  lemma FixedPartRead(data: bytes, version: nat, tableId: nat, flags: u16, extra: u16)
    requires (version == 1 || version == 2) && tableId < 0x1_0000_0000_0000
    requires At(data, 0, EncodeFixed(version, tableId, flags, extra))
    ensures |EncodeFixed(version, tableId, flags, extra)| == if version == 2 then 10 else 8
    ensures |data| >= |EncodeFixed(version, tableId, flags, extra)| && PackedU48(data) == (tableId, 6)
  {
    Pow256Values();
    AtInside(data, 0, EncodeFixed(version, tableId, flags, extra));
    AtConcat(data, 0, LeBytes(tableId, 6) + LeBytes(flags, 2), if version == 2 then LeBytes(extra, 2) else []);
    AtConcat(data, 0, LeBytes(tableId, 6), LeBytes(flags, 2));
    LeAtOf(data, 0, tableId, 6);
    hide LeBytes, LeAt, Pow256;
  }

  /** A row event that is cut off within its column bitmap has no rows. */
  lemma BitmapCut(tables: Tables, data: bytes, version: nat, tableId: nat, flags: u16, extra: u16, count: u64)
    requires (version == 1 || version == 2) && tableId < 0x1_0000_0000_0000 && count > 0
    requires At(data, 0, EncodeFixed(version, tableId, flags, extra) + EncodePackedInt(count))
    requires |data| < |EncodeFixed(version, tableId, flags, extra)| + |EncodePackedInt(count)| + CeilDiv(count, 8)
    ensures ParseRows(tables, data, version).Done? && ParseRows(tables, data, version).value == (tableId, [])
    ensures ParsePairs(tables, data, version).Done? && ParsePairs(tables, data, version).value == (tableId, [])
  {
    var fixed, packed := EncodeFixed(version, tableId, flags, extra), EncodePackedInt(count);
    AtConcat(data, 0, fixed, packed);
    FixedPartRead(data, version, tableId, flags, extra);
    PackedIntRead(data, |fixed|, count);
    AtInside(data, |fixed|, packed);
    hide At, EncodeFixed, EncodePackedInt, PackedInt, PackedU48, ReadRow;
  }

  //////////////////////////////////////////////////////////////////////////////
  // Table maps
  //////////////////////////////////////////////////////////////////////////////

  /** The start of a table map: table id, flags, and the database's name without its end. */
  ghost function EncodeDatabase(t: TableMapEvent, flags: u16): bytes
    requires ValidTableMap(t)
  {
    Pow256Values();
    LeBytes(t.tableId, 6) + LeBytes(flags, 2) + t.database
  }

  lemma DatabaseRead(data: bytes, t: TableMapEvent, flags: u16, tail: bytes)
    requires ValidTableMap(t) && data == EncodeDatabase(t, flags) + tail
    ensures PackedU48(data) == (t.tableId, 6) && |EncodeDatabase(t, flags)| == 8 + |t.database|
    ensures At(data, 8, t.database) && At(data, 8 + |t.database|, tail)
    ensures |data| == 8 + |t.database| + |tail|
  {
    Pow256Values();
    var id, fl := LeBytes(t.tableId, 6), LeBytes(flags, 2);
    AtPrefix(data, []);
    assert data + [] == data;
    AtConcat(data, 0, EncodeDatabase(t, flags), tail);
    AtConcat(data, 0, id + fl, t.database);
    AtConcat(data, 0, id, fl);
    LeAtOf(data, 0, t.tableId, 6);
    hide LeBytes, LeAt, Pow256;
  }

  lemma {:induction false} NoNulFound(data: bytes, off: nat)
    requires off <= |data| && forall i :: off <= i < |data| ==> data[i] != 0
    ensures ScanNul(data, off) == |data|
    decreases |data| - off
  {
    if off < |data| {
      NoNulFound(data, off + 1);
    }
  }

  /** A table map of less than eight bytes is a panic, and one without an end to a name an error. */
  lemma UnendedTableMap(data: bytes)
    ensures |data| < 8 ==> ParseTableMap(data).Panic?
    ensures 8 <= |data| && ScanNul(data, 8) == |data| ==> ParseTableMap(data) == Fail(NoDatabaseTerminator)
    ensures 8 <= |data| && ScanNul(data, 8) < |data| && ScanNul(data, ScanNul(data, 8) + 1) == |data|
            ==> ParseTableMap(data) == Fail(NoTableTerminator)
  {
    hide ScanNul, ParseColumns, LeAt;
  }

  /** In particular a table map that ends in its database's name, or in its table's, is the error of
      that name. */
  lemma TableMapCut(t: TableMapEvent, flags: u16, table: bytes)
    requires ValidTableMap(t) && NulFree(table)
    ensures ParseTableMap(EncodeDatabase(t, flags)) == Fail(NoDatabaseTerminator)
    ensures ParseTableMap(EncodeDatabase(t, flags) + ([0] + table)) == Fail(NoTableTerminator)
  {
    hide *;
    CutInDatabase(t, flags);
    CutInTable(t, flags, table);
  }

  lemma CutInDatabase(t: TableMapEvent, flags: u16)
    requires ValidTableMap(t)
    ensures ParseTableMap(EncodeDatabase(t, flags)) == Fail(NoDatabaseTerminator)
  {
    var data := EncodeDatabase(t, flags);
    assert NulFree(t.database);
    hide *;
    assert data + [] == data;
    DatabaseRead(data, t, flags, []);
    NameHasNoNul(data, 8, t.database);
    NoNulFound(data, 8);
    UnendedTableMap(data);
  }

  lemma CutInTable(t: TableMapEvent, flags: u16, table: bytes)
    requires ValidTableMap(t) && NulFree(table)
    ensures ParseTableMap(EncodeDatabase(t, flags) + ([0] + table)) == Fail(NoTableTerminator)
  {
    var data, n := EncodeDatabase(t, flags) + ([0] + table), 8 + |t.database|;
    assert NulFree(t.database);
    hide *;
    DatabaseRead(data, t, flags, [0] + table);
    AtConcat(data, n, [0], table);
    AtConcat(data, 8, t.database, [0]);
    CStringOf(t.database);
    ScanNulOfCString(data, 8, t.database);
    NameHasNoNul(data, n + 1, table);
    NoNulFound(data, n + 1);
    UnendedTableMap(data);
  }

  lemma CStringOf(s: bytes)
    ensures EncodeCString(s) == s + [0]
  {
  }

  lemma NameHasNoNul(data: bytes, off: nat, s: bytes)
    requires NulFree(s) && At(data, off, s)
    ensures forall i :: off <= i < off + |s| ==> data[i] != 0
  {
    assert forall i :: off <= i < off + |s| ==> data[i] == s[i - off];
  }

  /** One that ends behind its names is a map of no columns, and a bitmap that is cut off is taken
      for clear. */
  lemma ColumnsCut(data: bytes, p: nat, count: nat)
    ensures p == |data| ==> ParseColumns(data, p) == Done(Columns([], [], []), p)
    ensures p + CeilDiv(count, 8) > |data| ==> |ReadNullBits(data, p, count)| == count
    ensures p + CeilDiv(count, 8) > |data| ==> forall i :: 0 <= i < count ==> !ReadNullBits(data, p, count)[i]
  {
    if p == |data| {
      assert Sub(data, p, 0) == [] && ReadNullBits(data, p, 0) == [];
    }
  }

  //////////////////////////////////////////////////////////////////////////////
  // Small events
  //////////////////////////////////////////////////////////////////////////////

  /** Rotations and XIDs whose number is cut off are taken for the first of all files or number zero;
      a GTID cut off within its number is a panic, and one cut off before that is no event. */
  lemma SmallEventCut(tables: Tables, b: Body, data: bytes)
    requires ValidBody(tables, b) && Cut(data, 0, EncodeBody(tables, b))
    requires b.RotateBody? || b.XidBody? || b.GtidBody?
    ensures var r := EventOf(tables, TypeOf(b), data);
      match b
      case RotateBody(_, _, _) => |data| < 8 ==> r == Done(Some(Rotate([], 0)), 0)
      case XidBody(_, _) => |data| < 8 ==> r == Done(Some(Xid(0)), 0)
      case _ => (|data| < 20 ==> r == Done(None, 0)) && (20 <= |data| < 25 ==> r.Panic?)
  {
    hide TrimNuls;
  }

  //////////////////////////////////////////////////////////////////////////////
  // The walk
  //////////////////////////////////////////////////////////////////////////////

  lemma {:induction false} WalkPast(c: ClientState, packet: bytes, pos: nat, events: seq<RawEvent>)
    requires forall i :: 0 <= i < |events| ==> Sized(events[i]) && Passed(c, events[i])
    requires At(packet, pos, EncodeEvents(events))
    ensures Walk(c, packet, pos) == Walk(c, packet, pos + |EncodeEvents(events)|)
    decreases |events|
  {
    hide Sized, Passed, At, Walk, EncodeEventHeader;
    if events != [] {
      FirstEvent(packet, pos, events);
      WalkStep(c, packet, pos, events[0]);
      WalkPast(c, packet, pos + 19 + |events[0].data|, events[1..]);
    }
  }

  lemma AtWhole(start: bytes, tail: bytes)
    ensures At(start + tail, 0, start) && At(start + tail, |start|, tail)
  {
  }

  lemma WalkTo(c: ClientState, events: seq<RawEvent>, tail: bytes)
    requires forall i :: 0 <= i < |events| ==> Sized(events[i]) && Passed(c, events[i])
    ensures var packet, n := EncodeEvents(events) + tail, |EncodeEvents(events)|;
      Walk(c, packet, 0) == Walk(c, packet, n) && At(packet, n, tail) && |packet| == n + |tail|
  {
    hide *;
    AtWhole(EncodeEvents(events), tail);
    WalkPast(c, EncodeEvents(events) + tail, 0, events);
  }

  /** Behind events that are passed over, an event that claims to be longer than the rest of the
      packet is dropped with all that stands there, and one that claims to be shorter than its own
      header is a panic. */
  lemma WrongSize(c: ClientState, events: seq<RawEvent>, h: EventHeader, rest: bytes)
    requires forall i :: 0 <= i < |events| ==> Sized(events[i]) && Passed(c, events[i])
    requires h.eventSize < 19 || h.eventSize > 19 + |rest|
    ensures Walk(c, EncodeEvents(events) + (EncodeHeader(h) + rest), 0)
         == (c, if h.eventSize < 19 then WalkPanicked else Exhausted)
  {
    var n, header := |EncodeEvents(events)|, EncodeHeader(h);
    var packet := EncodeEvents(events) + (header + rest);
    hide *;
    WalkTo(c, events, header + rest);
    AtConcat(packet, n, header, rest);
    HeaderRead(packet, n, h);
    WalkAtHeader(c, packet, n, h);
  }

  /** Bytes too few for a header are dropped. */
  lemma WrongTail(c: ClientState, events: seq<RawEvent>, rest: bytes)
    requires forall i :: 0 <= i < |events| ==> Sized(events[i]) && Passed(c, events[i])
    requires |rest| < 19
    ensures Walk(c, EncodeEvents(events) + rest, 0) == (c, Exhausted)
  {
    WalkTo(c, events, rest);
    hide EncodeEvents, At;
  }

  lemma WalkAtHeader(c: ClientState, packet: bytes, pos: nat, h: EventHeader)
    ensures pos + 19 <= |packet| && HeaderAt(packet, pos) == h && h.eventSize < 19
            ==> Walk(c, packet, pos) == (c, WalkPanicked)
    ensures pos + 19 <= |packet| && HeaderAt(packet, pos) == h && pos + h.eventSize > |packet|
            ==> Walk(c, packet, pos) == (c, Exhausted)
  {
    hide HeaderAt;
  }
}
