/** Table maps and row events printed in the layout the client reads come back unchanged; packets
    are framed losslessly below 2^24 bytes; and the walk returns the first relevant event. */
module MysqlEventFacts {
  import opened Wrappers
  import opened Bits
  import opened MysqlColumns
  import opened MysqlRows
  import opened MysqlRowFacts
  import opened MysqlCells
  import opened MysqlRowRoundTrip
  import opened MysqlEvents
  import opened MysqlClient

  //////////////////////////////////////////////////////////////////////////////
  // Packed integers
  //////////////////////////////////////////////////////////////////////////////

  lemma LeAtOf(data: bytes, off: nat, v: nat, n: nat)
    requires v < Pow256(n) && At(data, off, LeBytes(v, n))
    ensures LeAt(data, off, n) == v
  {
    SubOfAt(data, off, LeBytes(v, n));
    LeValueOfBytes(v, n);
  }

  ghost function EncodePackedInt(n: nat): (e: bytes)
    requires n < 0x1_0000_0000_0000_0000
    ensures |e| > 0
  {
    Pow256Values();
    if n < 251 then [n]
    else if n < 0x1_0000 then [252] + LeBytes(n, 2)
    else if n < 0x100_0000 then [253] + LeBytes(n, 3)
    else [254] + LeBytes(n, 8)
  }

  /** Every 64-bit integer survives its packed form, in whichever width it takes. */
  lemma PackedIntRead(data: bytes, off: nat, n: nat)
    requires n < 0x1_0000_0000_0000_0000 && At(data, off, EncodePackedInt(n))
    ensures PackedInt(data, off) == Done(n, off + |EncodePackedInt(n)|)
  {
    Pow256Values();
    if n < 251 {
      AtByte(data, off, n);
    } else {
      var w := if n < 0x1_0000 then 2 else if n < 0x100_0000 then 3 else 8;
      var tag: byte := if w == 2 then 252 else if w == 3 then 253 else 254;
      AtConcat(data, off, [tag], LeBytes(n, w));
      AtByte(data, off, tag);
      LeAtOf(data, off + 1, n, w);
      AtInside(data, off + 1, LeBytes(n, w));
    }
  }

  //////////////////////////////////////////////////////////////////////////////
  // Table maps
  //////////////////////////////////////////////////////////////////////////////

  /** The bytes of meta a column type carries in a table map. */
  function MetaBytes(t: byte): nat {
    if t in {0, 16, 246} then 2      // DECIMAL, BIT, NEWDECIMAL
    else if t >= 249 then 1          // blobs, strings, GEOMETRY
    else 0
  }

  ghost predicate MetasFit(types: seq<byte>, metas: seq<u16>) {
    |types| == |metas| && forall i :: 0 <= i < |types| ==> metas[i] < Pow256(MetaBytes(types[i]))
  }

  ghost function EncodeMetas(types: seq<byte>, metas: seq<u16>): bytes
    requires MetasFit(types, metas)
  {
    if types == [] then [] else LeBytes(metas[0], MetaBytes(types[0])) + EncodeMetas(types[1..], metas[1..])
  }

  lemma MetaRead(data: bytes, p: nat, t: byte, m: u16)
    requires m < Pow256(MetaBytes(t)) && At(data, p, LeBytes(m, MetaBytes(t))) && p < |data|
    ensures ReadMeta(data, p, t) == (m, p + MetaBytes(t))
  {
    LeAtOf(data, p, m, MetaBytes(t));
  }

  lemma {:induction false} MetasRead(data: bytes, p: nat, types: seq<byte>, metas: seq<u16>)
    requires MetasFit(types, metas) && At(data, p, EncodeMetas(types, metas))
    requires p + |EncodeMetas(types, metas)| < |data|
    ensures ReadMetas(data, p, types) == (metas, p + |EncodeMetas(types, metas)|)
    decreases |types|
  {
    hide ReadMeta, MetaLength;
    if types != [] {
      var first := LeBytes(metas[0], MetaBytes(types[0]));
      AtConcat(data, p, first, EncodeMetas(types[1..], metas[1..]));
      MetaRead(data, p, types[0], metas[0]);
      MetasRead(data, p + |first|, types[1..], metas[1..]);
      assert [metas[0]] + metas[1..] == metas;
    }
  }

  ghost predicate ValidTableMap(t: TableMapEvent) {
    && t.tableId < 0x1_0000_0000_0000
    && NulFree(t.database)
    && NulFree(t.table)
    && 0 < |t.columnTypes| == |t.nullBits| < 0x1_0000_0000_0000_0000
    && MetasFit(t.columnTypes, t.columnMetas)
  }

  ghost function EncodeColumns(t: TableMapEvent, metaLength: u64): bytes
    requires ValidTableMap(t)
  {
    EncodePackedInt(|t.columnTypes|) + (t.columnTypes + (EncodePackedInt(metaLength)
      + (EncodeMetas(t.columnTypes, t.columnMetas) + PackBits(t.nullBits))))
  }

  /** The announced length of the meta block is free: the client reads and drops it. */
  ghost function EncodeTableMap(t: TableMapEvent, flags: u16, metaLength: u64): bytes
    requires ValidTableMap(t)
  {
    Pow256Values();
    LeBytes(t.tableId, 6) + LeBytes(flags, 2) + (EncodeCString(t.database) + (EncodeCString(t.table)
      + EncodeColumns(t, metaLength)))
  }

  lemma ParseColumnsFrom(data: bytes, p: nat, count: nat, p1: nat, block: nat, p2: nat, metas: seq<u16>, p3: nat)
    requires p <= |data| && PackedInt(data, p) == Done(count, p1) && p1 + count <= |data|
    requires PackedInt(data, p1 + count) == Done(block, p2)
    requires ReadMetas(data, p2, Sub(data, p1, count)) == (metas, p3)
    ensures ParseColumns(data, p) == Done(Columns(Sub(data, p1, count), metas, ReadNullBits(data, p3, count)), p3)
  {
    hide PackedInt;
  }

  lemma ColumnsHead(data: bytes, p: nat, types: bytes, rest: bytes) returns (next: nat)
    requires |types| < 0x1_0000_0000_0000_0000
    requires At(data, p, EncodePackedInt(|types|) + (types + rest))
    ensures p <= |data| && PackedInt(data, p) == Done(|types|, next)
    ensures next == p + |EncodePackedInt(|types|)| && next + |types| <= |data|
    ensures Sub(data, next, |types|) == types && At(data, next + |types|, rest)
  {
    var count := EncodePackedInt(|types|);
    Split3(data, p, count + (types + rest), count, types, rest);
    AtInside(data, p, count);
    next := p + |count|;
    AtInside(data, next, types);
    hide *;
    PackedIntRead(data, p, |types|);
    SubOfAt(data, next, types);
  }

  lemma ColumnsTail(data: bytes, p: nat, types: seq<byte>, metas: seq<u16>, nulls: bytes, metaLength: u64)
    returns (p2: nat, p3: nat)
    requires MetasFit(types, metas) && nulls != []
    requires At(data, p, EncodePackedInt(metaLength) + (EncodeMetas(types, metas) + nulls))
    ensures PackedInt(data, p) == Done(metaLength, p2) && ReadMetas(data, p2, types) == (metas, p3)
    ensures p3 == p + |EncodePackedInt(metaLength)| + |EncodeMetas(types, metas)| && At(data, p3, nulls)
  {
    var block, encoded := EncodePackedInt(metaLength), EncodeMetas(types, metas);
    Split3(data, p, block + (encoded + nulls), block, encoded, nulls);
    p2 := p + |block|;
    p3 := p2 + |encoded|;
    AtInside(data, p3, nulls);
    hide *;
    PackedIntRead(data, p, metaLength);
    MetasRead(data, p2, types, metas);
  }

  lemma ColumnsRead(data: bytes, p: nat, t: TableMapEvent, metaLength: u64)
    requires ValidTableMap(t) && At(data, p, EncodeColumns(t, metaLength))
    ensures p <= |data|
    ensures ParseColumns(data, p)
         == Done(Columns(t.columnTypes, t.columnMetas, t.nullBits),
                 p + |EncodeColumns(t, metaLength)| - CeilDiv(|t.nullBits|, 8))
  {
    var types, metas, nulls := t.columnTypes, t.columnMetas, PackBits(t.nullBits);
    var p1 := ColumnsHead(data, p, types, EncodePackedInt(metaLength) + (EncodeMetas(types, metas) + nulls));
    var p2, p3 := ColumnsTail(data, p1 + |types|, types, metas, nulls, metaLength);
    assert p3 == p + |EncodeColumns(t, metaLength)| - CeilDiv(|t.nullBits|, 8) && |t.nullBits| == |types|;
    hide *;
    NullBitsRead(data, p3, t.nullBits);
    ParseColumnsFrom(data, p, |types|, p1, metaLength, p2, metas, p3);
  }

  lemma NullBitsRead(data: bytes, p: nat, bits: seq<bool>)
    requires At(data, p, PackBits(bits))
    ensures ReadNullBits(data, p, |bits|) == bits
  {
    forall i | 0 <= i < |bits|
      ensures p + i / 8 < |data| && NullBit(data, p, i) == bits[i]
    {
      NullBitOfPacked(data, p, bits, i);
    }
  }

  lemma NameRead(data: bytes, off: nat, s: bytes, rest: bytes)
    requires NulFree(s) && At(data, off, EncodeCString(s) + rest)
    ensures off + |s| < |data| && ScanNul(data, off) == off + |s| && Sub(data, off, |s|) == s
    ensures At(data, off + |s| + 1, rest)
  {
    AtConcat(data, off, EncodeCString(s), rest);
    ScanNulOfCString(data, off, s);
    SubOfAt(data, off, s);
  }

  lemma NamesRead(data: bytes, off: nat, database: bytes, table: bytes, rest: bytes)
    requires NulFree(database) && NulFree(table)
    requires At(data, off, EncodeCString(database) + (EncodeCString(table) + rest))
    ensures var dbEnd := off + |database|;
            var tableEnd := dbEnd + 1 + |table|;
            && dbEnd < |data| && ScanNul(data, off) == dbEnd && Sub(data, off, |database|) == database
            && tableEnd < |data| && ScanNul(data, dbEnd + 1) == tableEnd && Sub(data, dbEnd + 1, |table|) == table
            && At(data, tableEnd + 1, rest)
  {
    hide *;
    NameRead(data, off, database, EncodeCString(table) + rest);
    NameRead(data, off + |database| + 1, table, rest);
  }

  lemma IdRead(data: bytes, id: nat, flags: u16, rest: bytes)
    requires id < Pow256(6) && Pow256(2) == 0x1_0000 && At(data, 0, LeBytes(id, 6) + LeBytes(flags, 2) + rest)
    ensures 8 <= |data| && LeAt(data, 0, 6) == id && At(data, 8, rest)
  {
    var fl := LeBytes(flags, 2);
    AtConcat(data, 0, LeBytes(id, 6) + fl, rest);
    AtConcat(data, 0, LeBytes(id, 6), fl);
    AtInside(data, 0, LeBytes(id, 6) + fl);
    LeAtOf(data, 0, id, 6);
  }

  lemma ParseTableMapFrom(data: bytes, id: nat, dbEnd: nat, tableEnd: nat,
                          types: seq<byte>, metas: seq<u16>, nulls: seq<bool>, next: nat)
    requires 8 <= |data| && LeAt(data, 0, 6) == id
    requires ScanNul(data, 8) == dbEnd < |data| && ScanNul(data, dbEnd + 1) == tableEnd < |data|
    requires ParseColumns(data, tableEnd + 1) == Done(Columns(types, metas, nulls), next)
    ensures ParseTableMap(data) ==
      Done(TableMapEvent(id, Sub(data, 8, dbEnd - 8), Sub(data, dbEnd + 1, tableEnd - (dbEnd + 1)),
                         types, metas, nulls), next)
  {
    hide ParseColumns, ScanNul, LeAt;
  }

  /** A printed table map parses to itself, whatever stands behind it. */
  lemma TableMapRoundTrip(data: bytes, t: TableMapEvent, flags: u16, metaLength: u64)
    requires ValidTableMap(t) && At(data, 0, EncodeTableMap(t, flags, metaLength))
    ensures ParseTableMap(data).Done? && ParseTableMap(data).value == t
  {
    Pow256Values();
    var columns := EncodeColumns(t, metaLength);
    var names := EncodeCString(t.database) + (EncodeCString(t.table) + columns);
    var dbEnd := 8 + |t.database|;
    var tableEnd := dbEnd + 1 + |t.table|;
    assert NulFree(t.database) && NulFree(t.table);
    assert At(data, 0, LeBytes(t.tableId, 6) + LeBytes(flags, 2) + names);
    IdRead(data, t.tableId, flags, names);
    hide *;
    NamesRead(data, 8, t.database, t.table, columns);
    ColumnsRead(data, tableEnd + 1, t, metaLength);
    ParseTableMapFrom(data, t.tableId, dbEnd, tableEnd, t.columnTypes, t.columnMetas, t.nullBits,
                      ParseColumns(data, tableEnd + 1).next);
  }

  //////////////////////////////////////////////////////////////////////////////
  // Row events
  //////////////////////////////////////////////////////////////////////////////

  /** Table id, flags, the two extra bytes of version 2, column count and column bitmap. */
  ghost function EncodeRowsHeader(version: nat, tableId: nat, flags: u16, extra: u16, count: u64, bitmap: bytes): bytes
    requires tableId < 0x1_0000_0000_0000
  {
    Pow256Values();
    LeBytes(tableId, 6) + LeBytes(flags, 2)
      + ((if version == 2 then LeBytes(extra, 2) else []) + (EncodePackedInt(count) + bitmap))
  }

  lemma RowsHeaderRead(data: bytes, version: nat, tableId: nat, flags: u16, extra: u16, count: u64, bitmap: bytes)
    requires tableId < 0x1_0000_0000_0000 && count > 0 && |bitmap| == CeilDiv(count, 8)
    requires At(data, 0, EncodeRowsHeader(version, tableId, flags, extra, count, bitmap))
    ensures RowsHeader(data, version)
         == Done(tableId, |EncodeRowsHeader(version, tableId, flags, extra, count, bitmap)|)
  {
    Pow256Values();
    var id, fl := LeBytes(tableId, 6), LeBytes(flags, 2);
    var ex := if version == 2 then LeBytes(extra, 2) else [];
    var packed := EncodePackedInt(count);
    AtConcat(data, 0, id + fl, ex + (packed + bitmap));
    AtConcat(data, 0, id, fl);
    AtInside(data, 0, id + fl);
    LeAtOf(data, 0, tableId, 6);
    Split3(data, 8, ex + (packed + bitmap), ex, packed, bitmap);
    AtInside(data, 8 + |ex|, packed);
    PackedIntRead(data, 8 + |ex|, count);
    hide At, EncodePackedInt, PackedInt;
  }

  /** The layout a table id is mapped to. */
  ghost predicate Mapped(tables: Tables, tableId: nat, types: seq<byte>, metas: seq<u16>) {
    tableId in tables && tables[tableId].columnTypes == types && tables[tableId].columnMetas == metas
  }

  /** Write and delete events of either version return exactly the encoded rows and consume the
      whole event. */
  lemma RowsEventRoundTrip(tables: Tables, version: nat, tableId: nat, flags: u16, extra: u16, count: u64,
                           bitmap: bytes, rows: seq<seq<Cell>>, types: seq<byte>, metas: seq<u16>)
    requires tableId < 0x1_0000_0000_0000 && count > 0 && |bitmap| == CeilDiv(count, 8)
    requires Layout(types, metas) && forall k :: 0 <= k < |rows| ==> RowFits(rows[k], types, metas)
    requires Mapped(tables, tableId, types, metas)
    ensures var data := EncodeRowsHeader(version, tableId, flags, extra, count, bitmap)
                        + EncodeRows(rows, types, metas);
            ParseRows(tables, data, version) == Done((tableId, JsonRows(rows, types)), |data|)
  {
    var header := EncodeRowsHeader(version, tableId, flags, extra, count, bitmap);
    var body := EncodeRows(rows, types, metas);
    var data := header + body;
    AtPrefix(data, []);
    assert data + [] == data;
    AtConcat(data, 0, header, body);
    RowsHeaderRead(data, version, tableId, flags, extra, count, bitmap);
    RowsRoundTrip(data, |header|, rows, types, metas);
    hide At, EncodeRows, EncodeRowsHeader, RowsHeader, ReadRows;
  }

  /** The same for an update event, whose images share the one column bitmap. */
  lemma PairsEventRoundTrip(tables: Tables, version: nat, tableId: nat, flags: u16, extra: u16, count: u64,
                            bitmap: bytes, pairs: seq<Image>, types: seq<byte>, metas: seq<u16>)
    requires tableId < 0x1_0000_0000_0000 && count > 0 && |bitmap| == CeilDiv(count, 8)
    requires Layout(types, metas) && forall k :: 0 <= k < |pairs| ==> PairFits(pairs[k], types, metas)
    requires Mapped(tables, tableId, types, metas)
    ensures var data := EncodeRowsHeader(version, tableId, flags, extra, count, bitmap)
                        + EncodePairs(pairs, types, metas);
            ParsePairs(tables, data, version) == Done((tableId, JsonPairs(pairs, types)), |data|)
  {
    var header := EncodeRowsHeader(version, tableId, flags, extra, count, bitmap);
    var body := EncodePairs(pairs, types, metas);
    var data := header + body;
    AtPrefix(data, []);
    assert data + [] == data;
    AtConcat(data, 0, header, body);
    RowsHeaderRead(data, version, tableId, flags, extra, count, bitmap);
    PairsRoundTrip(data, |header|, pairs, types, metas);
    hide At, EncodePairs, EncodeRowsHeader, RowsHeader, ReadPairs;
  }

  /** Rows of a table id that was never mapped parse to no rows. */
  lemma UnmappedHasNoRows(tables: Tables, data: bytes, version: nat)
    requires ParseRows(tables, data, version).Done? && ParseRows(tables, data, version).value.0 !in tables
    ensures ParseRows(tables, data, version).value.1 == []
  {
  }

  //////////////////////////////////////////////////////////////////////////////
  // Framing
  //////////////////////////////////////////////////////////////////////////////

  /** A written packet is its length modulo 2^24, sequence number zero and its body; of that, as many
      bytes are read back as the length says. */
  lemma TakeOfFrame(body: bytes, rest: bytes)
    ensures |Frame(body)| == 4 + |body| && Frame(body)[3] == 0 && Frame(body)[4..] == body
    ensures var n := |body| % 0x100_0000;
            TakePacket(Frame(body) + rest) == Some((body[..n], body[n..] + rest))
  {
    Pow256Values();
    var n := |body| % 0x100_0000;
    var input, length := Frame(body) + rest, LeBytes(n, 3);
    assert |Frame(body)| == 4 + |body|;
    assert forall i :: 0 <= i < 3 ==> input[i] == length[i];
    assert At(input, 0, length);
    LeAtOf(input, 0, n, 3);
    assert forall i :: 0 <= i < |body| ==> input[4 + i] == body[i];
    assert Sub(input, 4, n) == body[..n];
    assert Sub(input, 4 + n, |input| - 4 - n) == body[n..] + rest;
  }

  /** A packet is read back as it was written exactly when its body is shorter than 2^24. */
  lemma FrameReadBackIffShort(body: bytes, rest: bytes)
    ensures TakePacket(Frame(body) + rest) == Some((body, rest)) <==> |body| < 0x100_0000
  {
    TakeOfFrame(body, rest);
    if |body| < 0x100_0000 {
      assert body[..|body|] == body && body[|body|..] + rest == rest;
    }
  }

  function Frames(bodies: seq<bytes>): bytes {
    if bodies == [] then [] else Frame(bodies[0]) + Frames(bodies[1..])
  }

  /** Packets off the input until none is left. */
  function TakeAll(input: bytes): (seq<bytes>, bytes)
    decreases |input|
  {
    match TakePacket(input)
    case None => ([], input)
    case Some((packet, rest)) =>
      var (packets, left) := TakeAll(rest);
      ([packet] + packets, left)
  }

  /** Any sequence of written packets shorter than 2^24 is read back in order, with nothing left. */
  lemma {:induction false} FramesReadBack(bodies: seq<bytes>)
    requires forall i :: 0 <= i < |bodies| ==> |bodies[i]| < 0x100_0000
    ensures TakeAll(Frames(bodies)) == (bodies, [])
    decreases |bodies|
  {
    hide Frame, TakePacket;
    if bodies != [] {
      FrameReadBackIffShort(bodies[0], Frames(bodies[1..]));
      FramesReadBack(bodies[1..]);
      assert [bodies[0]] + bodies[1..] == bodies;
    } else {
      assert TakePacket([]) == None by { NothingToTake(); }
    }
  }

  lemma NothingToTake()
    ensures TakePacket([]) == None
  {
  }

  //////////////////////////////////////////////////////////////////////////////
  // The walk
  //////////////////////////////////////////////////////////////////////////////

  datatype RawEvent = RawEvent(timestamp: u32, ty: byte, serverId: u32, logPos: u32, flags: u16, data: bytes)

  ghost predicate Sized(e: RawEvent) { 19 + |e.data| < 0x1_0000_0000 }

  ghost function EncodeHeader(h: EventHeader): (s: bytes)
    ensures |s| == 19
  {
    Pow256Values();
    LeBytes(h.timestamp, 4) + ([h.eventType] + (LeBytes(h.serverId, 4) + (LeBytes(h.eventSize, 4)
      + (LeBytes(h.logPos, 4) + LeBytes(h.flags, 2)))))
  }

  function HeaderOf(e: RawEvent): EventHeader
    requires Sized(e)
  {
    EventHeader(e.timestamp, e.ty, e.serverId, 19 + |e.data|, e.logPos, e.flags)
  }

  ghost function EncodeEventHeader(e: RawEvent): (s: bytes)
    requires Sized(e)
    ensures |s| == 19
  {
    EncodeHeader(HeaderOf(e))
  }

  ghost function EncodeEvents(events: seq<RawEvent>): bytes
    requires forall i :: 0 <= i < |events| ==> Sized(events[i])
  {
    if events == [] then []
    else EncodeEventHeader(events[0]) + (events[0].data + EncodeEvents(events[1..]))
  }

  /** The nineteen bytes of an event header read back field by field. */
  lemma HeaderRead(packet: bytes, pos: nat, h: EventHeader)
    requires At(packet, pos, EncodeHeader(h))
    ensures pos + 19 <= |packet| && HeaderAt(packet, pos) == h
  {
    Pow256Values();
    AtInside(packet, pos, EncodeHeader(h));
    var ts, server, size := LeBytes(h.timestamp, 4), LeBytes(h.serverId, 4), LeBytes(h.eventSize, 4);
    var log, flags := LeBytes(h.logPos, 4), LeBytes(h.flags, 2);
    Split4(packet, pos, EncodeHeader(h), ts, [h.eventType], server, size + (log + flags));
    Split3(packet, pos + 9, size + (log + flags), size, log, flags);
    AtByte(packet, pos + 4, h.eventType);
    LeAtOf(packet, pos, h.timestamp, 4);
    LeAtOf(packet, pos + 5, h.serverId, 4);
    LeAtOf(packet, pos + 9, h.eventSize, 4);
    LeAtOf(packet, pos + 13, h.logPos, 4);
    LeAtOf(packet, pos + 17, h.flags, 2);
    hide LeBytes, LeAt, At;
  }

  /** An event the walk passes over: no event at all, a rotation or a format description. */
  predicate Passed(c: ClientState, e: RawEvent) {
    var r := EventOf(c.tables, e.ty, e.data);
    r.Done? && (r.value.None? || Skipped(r.value.value))
  }

  /** What the walk answers at an event it does not pass over. */
  function Answer(c: ClientState, e: RawEvent): (ClientState, WalkResult)
    requires Sized(e)
  {
    var (c', r) := ParseEvent(c, e.ty, e.data);
    match r
    case Fail(err) => (c', WalkFailed(err))
    case Panic => (c', WalkPanicked)
    case Done(v, _) => (c', if v.Some? then Found(HeaderOf(e), v.value) else Exhausted)
  }

  lemma WalkStep(c: ClientState, packet: bytes, pos: nat, e: RawEvent)
    requires Sized(e) && At(packet, pos, EncodeEventHeader(e)) && At(packet, pos + 19, e.data)
    ensures Passed(c, e) ==> Walk(c, packet, pos) == Walk(c, packet, pos + 19 + |e.data|)
    ensures !Passed(c, e) ==> Walk(c, packet, pos) == Answer(c, e)
  {
    HeaderRead(packet, pos, HeaderOf(e));
    AtInside(packet, pos + 19, e.data);
    SubOfAt(packet, pos + 19, e.data);
    hide At, HeaderAt, EncodeHeader, EventOf;
  }

  /** On a packet of well-formed events the walk returns the first event that is neither passed
      over nor unreadable, with the state before the packet as its starting point: events behind
      it have no effect. */
  lemma {:induction false} WalkFromFirst(c: ClientState, packet: bytes, pos: nat, events: seq<RawEvent>, k: nat)
    requires forall i :: 0 <= i < |events| ==> Sized(events[i])
    requires At(packet, pos, EncodeEvents(events)) && pos + |EncodeEvents(events)| == |packet|
    requires k <= |events| && (forall i :: 0 <= i < k ==> Passed(c, events[i]))
    requires k < |events| ==> !Passed(c, events[k])
    ensures Walk(c, packet, pos) == if k < |events| then Answer(c, events[k]) else (c, Exhausted)
    decreases |events|
  {
    hide *;
    if events == [] {
      WalkAtEnd(c, packet, pos);
    } else {
      FirstEvent(packet, pos, events);
      WalkStep(c, packet, pos, events[0]);
      if k > 0 {
        WalkFromFirst(c, packet, pos + 19 + |events[0].data|, events[1..], k - 1);
      }
    }
  }

  lemma WalkAtEnd(c: ClientState, packet: bytes, pos: nat)
    ensures pos + |EncodeEvents([])| == |packet| ==> Walk(c, packet, pos) == (c, Exhausted)
  {
  }

  lemma FirstEvent(packet: bytes, pos: nat, events: seq<RawEvent>)
    requires events != [] && forall i :: 0 <= i < |events| ==> Sized(events[i])
    requires At(packet, pos, EncodeEvents(events))
    ensures At(packet, pos, EncodeEventHeader(events[0])) && At(packet, pos + 19, events[0].data)
    ensures At(packet, pos + 19 + |events[0].data|, EncodeEvents(events[1..]))
    ensures |EncodeEvents(events)| == 19 + |events[0].data| + |EncodeEvents(events[1..])|
  {
    var e := events[0];
    hide At, EncodeEventHeader;
    Split3(packet, pos, EncodeEvents(events), EncodeEventHeader(e), e.data, EncodeEvents(events[1..]));
  }

  /** The same for a whole packet. */
  lemma WalkReturnsFirst(c: ClientState, events: seq<RawEvent>, k: nat)
    requires forall i :: 0 <= i < |events| ==> Sized(events[i])
    requires k <= |events| && (forall i :: 0 <= i < k ==> Passed(c, events[i]))
    requires k < |events| ==> !Passed(c, events[k])
    ensures Walk(c, EncodeEvents(events), 0) == if k < |events| then Answer(c, events[k]) else (c, Exhausted)
  {
    var packet := EncodeEvents(events);
    AtPrefix(packet, []);
    assert packet + [] == packet;
    WalkFromFirst(c, packet, 0, events, k);
  }
}
