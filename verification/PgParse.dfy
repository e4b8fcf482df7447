/** What the decoder reads at each cursor: the specification of PgDecoder's methods. */
module PgParse {
  import opened Wrappers
  import opened Bits
  import opened PgMessages

  //////////////////////////////////////////////////////////////////////////////
  // Fixed-width readers and strings
  //////////////////////////////////////////////////////////////////////////////

  function ReadByte(data: bytes, off: nat): Read<byte> {
    if off < |data| then Done(data[off], off + 1) else Panic
  }

  function ReadU16Be(data: bytes, off: nat): Read<u16> {
    Pow256Values();
    if off + 2 <= |data| then Done(BeValue([data[off], data[off + 1]]), off + 2) else Panic
  }

  function ReadU32Be(data: bytes, off: nat): Read<u32> {
    Pow256Values();
    if off + 4 <= |data| then Done(BeValue([data[off], data[off + 1], data[off + 2], data[off + 3]]), off + 4)
    else Panic
  }

  function ReadI64Be(data: bytes, off: nat): Read<i64> {
    Pow256Values();
    if off + 8 <= |data| then
      var v := BeValue([data[off], data[off + 1], data[off + 2], data[off + 3],
                        data[off + 4], data[off + 5], data[off + 6], data[off + 7]]);
      Done(AsI64(v), off + 8)
    else Panic
  }

  /** An unterminated string is accepted with a cursor one past the end of the data. */
  function ReadString(data: bytes, off: nat): Read<bytes> {
    if off > |data| then Panic
    else var e := ScanNul(data, off); Done(data[off..e], e + 1)
  }

  //////////////////////////////////////////////////////////////////////////////
  // Relations and tuples
  //////////////////////////////////////////////////////////////////////////////

  function ParseRelationColumn(data: bytes, off: nat): Read<RelationColumn> {
    var (flags, p1) :- ReadByte(data, off);
    var (name, p2) :- ReadString(data, p1);
    var (typeOid, p3) :- ReadU32Be(data, p2);
    var (modifier, p4) :- ReadU32Be(data, p3);
    Done(RelationColumn(AsI8(flags), name, typeOid, AsI32(modifier)), p4)
  }

  function ParseRelationColumns(data: bytes, off: nat, count: nat): Read<seq<RelationColumn>>
    decreases count
  {
    if count == 0 then Done([], off)
    else
      var (c, p) :- ParseRelationColumn(data, off);
      var (cs, q) :- ParseRelationColumns(data, p, count - 1);
      Done([c] + cs, q)
  }

  function ParseTupleColumn(data: bytes, off: nat): Read<TupleColumn> {
    if off >= |data| then Fail(TruncatedTuple)
    else if data[off] == NULL_KIND then Done(TupleColumn(true, false, None), off + 1)
    else if data[off] == TOAST_KIND then Done(TupleColumn(false, true, None), off + 1)
    else if data[off] == TEXT_KIND then
      var (raw, p) :- ReadU32Be(data, off + 1);
      if AsI32(raw) < 0 then Fail(NegativeValueLength)
      else if p + raw > |data| then Fail(ValueExceedsData)
      else Done(TupleColumn(false, false, Some(data[p..p + raw])), p + raw)
    else Fail(UnknownColumnKind(data[off]))
  }

  function ParseTupleColumns(data: bytes, off: nat, count: nat): Read<seq<TupleColumn>>
    decreases count
  {
    if count == 0 then Done([], off)
    else
      var (c, p) :- ParseTupleColumn(data, off);
      var (cs, q) :- ParseTupleColumns(data, p, count - 1);
      Done([c] + cs, q)
  }

  function ParseTuple(data: bytes, off: nat): Read<seq<TupleColumn>> {
    var (count, p) :- ReadU16Be(data, off);
    ParseTupleColumns(data, p, count)
  }

  function ParseOids(data: bytes, off: nat, count: nat): Read<seq<u32>>
    decreases count
  {
    if count == 0 then Done([], off)
    else
      var (oid, p) :- ReadU32Be(data, off);
      var (oids, q) :- ParseOids(data, p, count - 1);
      Done([oid] + oids, q)
  }

  //////////////////////////////////////////////////////////////////////////////
  // Messages
  //////////////////////////////////////////////////////////////////////////////

  function ParseBegin(data: bytes, off: nat): Read<WireMessage> {
    var (lsn, p1) :- ReadI64Be(data, off);
    var (ts, p2) :- ReadI64Be(data, p1);
    var (xid, p3) :- ReadU32Be(data, p2);
    Done(WireMessage(Begin(lsn, ts, xid), Nothing), p3)
  }

  function ParseCommit(data: bytes, off: nat): Read<WireMessage> {
    var (flags, p1) :- ReadByte(data, off);
    var (lsn, p2) :- ReadI64Be(data, p1);
    var (endLsn, p3) :- ReadI64Be(data, p2);
    var (ts, p4) :- ReadI64Be(data, p3);
    Done(WireMessage(Commit(AsI8(flags), lsn, endLsn, ts), Nothing), p4)
  }

  /** Replica identity, column count and columns, as they stand behind the relation's names. */
  function ParseRelationTail(data: bytes, off: nat): Read<(u16, seq<RelationColumn>)> {
    var (identity, p1) :- ReadU16Be(data, off);
    var (count, p2) :- ReadU16Be(data, p1);
    var (columns, p3) :- ParseRelationColumns(data, p2, count);
    Done((identity, columns), p3)
  }

  function ParseRelation(data: bytes, off: nat): Read<WireMessage> {
    var (oid, p1) :- ReadU32Be(data, off);
    var (schema, p2) :- ReadString(data, p1);
    var (name, p3) :- ReadString(data, p2);
    var (tail, p4) :- ParseRelationTail(data, p3);
    Done(WireMessage(Relation(RelationMessage(oid, schema, name, tail.1)), ReplicaIdentity(AsI16(tail.0))), p4)
  }

  function ParseInsert(data: bytes, off: nat): Read<WireMessage> {
    var (oid, p1) :- ReadU32Be(data, off);
    if p1 >= |data| then Fail(TruncatedInsert)
    else if data[p1] != NEW_TUPLE then Fail(ExpectedNewInInsert(data[p1]))
    else
      var (t, p2) :- ParseTuple(data, p1 + 1);
      Done(WireMessage(Insert(oid, t), Nothing), p2)
  }

  function DroppedMarker(marker: byte): Dropped {
    if marker == KEY_TUPLE then KeyTuple else FullTuple
  }

  function ParseUpdate(data: bytes, off: nat): Read<WireMessage> {
    var (oid, p1) :- ReadU32Be(data, off);
    if p1 >= |data| then Fail(TruncatedUpdate)
    else if data[p1] == KEY_TUPLE || data[p1] == OLD_TUPLE then
      var (o, p2) :- ParseTuple(data, p1 + 1);
      if p2 >= |data| then Fail(TruncatedUpdateAfterOld(data[p1]))
      else if data[p2] != NEW_TUPLE then Fail(ExpectedNewAfterOld(data[p1], data[p2]))
      else
        var (t, p3) :- ParseTuple(data, p2 + 1);
        Done(WireMessage(Update(oid, Some(o), t), DroppedMarker(data[p1])), p3)
    else if data[p1] == NEW_TUPLE then
      var (t, p2) :- ParseTuple(data, p1 + 1);
      Done(WireMessage(Update(oid, None, t), Nothing), p2)
    else Fail(UnknownTupleInUpdate(data[p1]))
  }

  function ParseDelete(data: bytes, off: nat): Read<WireMessage> {
    var (oid, p1) :- ReadU32Be(data, off);
    if p1 >= |data| then Fail(TruncatedDelete)
    else if data[p1] == KEY_TUPLE || data[p1] == OLD_TUPLE then
      var (t, p2) :- ParseTuple(data, p1 + 1);
      Done(WireMessage(Delete(oid, t), DroppedMarker(data[p1])), p2)
    else Fail(UnknownTupleInDelete(data[p1]))
  }

  function ParseTruncate(data: bytes, off: nat): Read<WireMessage> {
    var (count, p1) :- ReadU32Be(data, off);
    var (options, p2) :- ReadByte(data, p1);
    var (oids, p3) :- ParseOids(data, p2, count);
    Done(WireMessage(Truncate(oids, AsI8(options)), Nothing), p3)
  }

  predicate KnownType(b: byte) { b in {66, 67, 82, 73, 85, 68, 84} }

  /** Dispatch on the message type byte: 'B', 'C', 'R', 'I', 'U', 'D' or 'T'. */
  function ParseBody(kind: byte, data: bytes, off: nat): Read<WireMessage>
    requires KnownType(kind)
  {
    match kind
    case 66 => ParseBegin(data, off)
    case 67 => ParseCommit(data, off)
    case 82 => ParseRelation(data, off)
    case 73 => ParseInsert(data, off)
    case 85 => ParseUpdate(data, off)
    case 68 => ParseDelete(data, off)
    case _ => ParseTruncate(data, off)
  }

  /** The message at the cursor, type byte included. */
  function Parse(data: bytes, off: nat): Read<WireMessage>
    requires off < |data| && KnownType(data[off])
  {
    ParseBody(data[off], data, off + 1)
  }
}
