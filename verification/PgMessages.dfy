/** Logical replication messages (PostgreSQL 16, section 55.9) in the layout the decoder reads. */
module PgMessages {
  import opened Wrappers
  import opened Bits

  datatype RelationColumn = RelationColumn(flags: i8, name: bytes, typeOid: u32, typeModifier: i32)

  datatype RelationMessage =
    RelationMessage(oid: u32, schema: bytes, name: bytes, columns: seq<RelationColumn>)

  datatype TupleColumn = TupleColumn(isNull: bool, isUnchangedToast: bool, value: Option<bytes>)

  datatype PgOutputMessage =
    | Begin(lsn: i64, timestamp: i64, xid: u32)
    | Commit(flags: i8, commitLsn: i64, endLsn: i64, commitTimestamp: i64)
    | Relation(relation: RelationMessage)
    | Insert(insertOid: u32, inserted: seq<TupleColumn>)
    | Update(updateOid: u32, oldTuple: Option<seq<TupleColumn>>, newTuple: seq<TupleColumn>)
    | Delete(deleteOid: u32, deleted: seq<TupleColumn>)
    | Truncate(relationOids: seq<u32>, options: i8)

  /** What a message carries on the wire and the decoder drops. */
  datatype Dropped = Nothing | ReplicaIdentity(identity: i16) | KeyTuple | FullTuple

  datatype WireMessage = WireMessage(msg: PgOutputMessage, dropped: Dropped)

  datatype DecodeError =
    | TruncatedInsert
    | ExpectedNewInInsert(got: byte)
    | TruncatedUpdate
    | TruncatedUpdateAfterOld(marker: byte)
    | ExpectedNewAfterOld(marker: byte, got: byte)
    | UnknownTupleInUpdate(got: byte)
    | TruncatedDelete
    | UnknownTupleInDelete(got: byte)
    | TruncatedTuple
    | NegativeValueLength
    | ValueExceedsData
    | UnknownColumnKind(got: byte)

  type Read<+T> = Outcome<T, DecodeError>

  // The markers as the decoder knows them.
  const NEW_TUPLE: byte := 78   // 'N'
  const KEY_TUPLE: byte := 75   // 'K'
  const OLD_TUPLE: byte := 79   // 'O'
  const NULL_KIND: byte := 110  // 'n'
  const TOAST_KIND: byte := 117 // 'u'
  const TEXT_KIND: byte := 116  // 't'

  //////////////////////////////////////////////////////////////////////////////
  // Well-formed messages
  //////////////////////////////////////////////////////////////////////////////

  ghost predicate WellFormedRelation(r: RelationMessage) {
    && NulFree(r.schema)
    && NulFree(r.name)
    && |r.columns| < 0x1_0000
    && forall i :: 0 <= i < |r.columns| ==> NulFree(r.columns[i].name)
  }

  ghost predicate WellFormedColumn(c: TupleColumn) {
    || c == TupleColumn(true, false, None)
    || c == TupleColumn(false, true, None)
    || (!c.isNull && !c.isUnchangedToast && c.value.Some? && |c.value.value| < 0x8000_0000)
  }

  ghost predicate WellFormedTuple(t: seq<TupleColumn>) {
    |t| < 0x1_0000 && forall i :: 0 <= i < |t| ==> WellFormedColumn(t[i])
  }

  ghost predicate WellFormed(w: WireMessage) {
    match w.msg
    case Begin(_, _, _) => w.dropped == Nothing
    case Commit(_, _, _, _) => w.dropped == Nothing
    case Relation(r) => WellFormedRelation(r) && w.dropped.ReplicaIdentity?
    case Insert(_, t) => WellFormedTuple(t) && w.dropped == Nothing
    case Update(_, None, t) => WellFormedTuple(t) && w.dropped == Nothing
    case Update(_, Some(o), t) =>
      WellFormedTuple(o) && WellFormedTuple(t) && (w.dropped == KeyTuple || w.dropped == FullTuple)
    case Delete(_, t) => WellFormedTuple(t) && (w.dropped == KeyTuple || w.dropped == FullTuple)
    case Truncate(oids, _) => |oids| < 0x1_0000_0000 && w.dropped == Nothing
  }

  //////////////////////////////////////////////////////////////////////////////
  // The printer
  //////////////////////////////////////////////////////////////////////////////

  ghost function EncodeU16(n: u16): (s: bytes)
    ensures |s| == 2
  {
    Pow256Values(); BeBytes(n, 2)
  }

  ghost function EncodeI16(n: i16): bytes { EncodeU16(FromI16(n)) }

  ghost function EncodeU32(n: u32): (s: bytes)
    ensures |s| == 4
  {
    Pow256Values(); BeBytes(n, 4)
  }

  ghost function EncodeI32(n: i32): bytes { EncodeU32(FromI32(n)) }

  ghost function EncodeI64(n: i64): (s: bytes)
    ensures |s| == 8
  {
    Pow256Values(); BeBytes(FromI64(n), 8)
  }

  ghost function EncodeColumnType(typeOid: u32, typeModifier: i32): bytes {
    EncodeU32(typeOid) + EncodeI32(typeModifier)
  }

  ghost function EncodeRelationColumn(c: RelationColumn): bytes {
    [FromI8(c.flags)] + (EncodeCString(c.name) + EncodeColumnType(c.typeOid, c.typeModifier))
  }

  ghost function EncodeRelationColumns(cs: seq<RelationColumn>): bytes {
    if cs == [] then [] else EncodeRelationColumn(cs[0]) + EncodeRelationColumns(cs[1..])
  }

  ghost function EncodeTupleColumn(c: TupleColumn): bytes
    requires WellFormedColumn(c)
  {
    if c.isNull then [110] // 'n'
    else if c.isUnchangedToast then [117] // 'u'
    else [116] + (EncodeI32(|c.value.value|) + c.value.value) // 't'
  }

  ghost function EncodeTupleColumns(cs: seq<TupleColumn>): bytes
    requires forall i :: 0 <= i < |cs| ==> WellFormedColumn(cs[i])
  {
    if cs == [] then [] else EncodeTupleColumn(cs[0]) + EncodeTupleColumns(cs[1..])
  }

  ghost function EncodeTuple(t: seq<TupleColumn>): bytes
    requires WellFormedTuple(t)
  {
    EncodeU16(|t|) + EncodeTupleColumns(t)
  }

  ghost function EncodeMarked(marker: byte, t: seq<TupleColumn>): bytes
    requires WellFormedTuple(t)
  {
    [marker] + EncodeTuple(t)
  }

  ghost function EncodeOids(oids: seq<u32>): bytes {
    if oids == [] then [] else EncodeU32(oids[0]) + EncodeOids(oids[1..])
  }

  /** 'K' or 'O' */
  ghost function OldMarker(d: Dropped): byte { if d == KeyTuple then 75 else 79 }

  /** 'N' */
  ghost function NewMarker(): byte { 78 }

  ghost function EncodeRelationTail(identity: i16, cs: seq<RelationColumn>): bytes
    requires |cs| < 0x1_0000
  {
    EncodeI16(identity) + (EncodeU16(|cs|) + EncodeRelationColumns(cs))
  }

  ghost function EncodeRelation(r: RelationMessage, identity: i16): bytes
    requires WellFormedRelation(r)
  {
    EncodeU32(r.oid) + (EncodeCString(r.schema) + (EncodeCString(r.name) + EncodeRelationTail(identity, r.columns)))
  }

  /** The message type byte: 'B', 'C', 'R', 'I', 'U', 'D' or 'T'. */
  ghost function TypeByte(m: PgOutputMessage): byte {
    match m
    case Begin(_, _, _) => 66
    case Commit(_, _, _, _) => 67
    case Relation(_) => 82
    case Insert(_, _) => 73
    case Update(_, _, _) => 85
    case Delete(_, _) => 68
    case Truncate(_, _) => 84
  }

  ghost function EncodeBody(w: WireMessage): bytes
    requires WellFormed(w)
  {
    match w.msg
    case Begin(lsn, ts, xid) => EncodeI64(lsn) + (EncodeI64(ts) + EncodeU32(xid))
    case Commit(flags, lsn, endLsn, ts) =>
      [FromI8(flags)] + (EncodeI64(lsn) + (EncodeI64(endLsn) + EncodeI64(ts)))
    case Relation(r) => EncodeRelation(r, w.dropped.identity)
    case Insert(oid, t) => EncodeU32(oid) + EncodeMarked(NewMarker(), t)
    case Update(oid, None, t) => EncodeU32(oid) + EncodeMarked(NewMarker(), t)
    case Update(oid, Some(o), t) =>
      EncodeU32(oid) + (EncodeMarked(OldMarker(w.dropped), o) + EncodeMarked(NewMarker(), t))
    case Delete(oid, t) => EncodeU32(oid) + EncodeMarked(OldMarker(w.dropped), t)
    case Truncate(oids, options) => EncodeU32(|oids|) + ([FromI8(options)] + EncodeOids(oids))
  }

  ghost function Encode(w: WireMessage): bytes
    requires WellFormed(w)
  {
    [TypeByte(w.msg)] + EncodeBody(w)
  }
}
