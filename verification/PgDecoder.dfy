/** The pgoutput decoder: it reads one message per call and caches announced relations. The
    source's sub-slices are modelled as the whole data with a start cursor. */
module PgDecoder {
  import opened Wrappers
  import opened Bits
  import opened PgMessages
  import PgParse
  import PgRoundTrip

  datatype Decoded = Message(msg: PgOutputMessage) | Ignored | Failed(error: DecodeError) | Panicked

  /** The message without what the decoder drops. */
  function Received(r: Read<WireMessage>): Read<PgOutputMessage> {
    if r.Done? then Done(r.value.msg, r.next) else r.PropagateFailure()
  }

  function Decoding(data: bytes): Decoded {
    if data == [] || !PgParse.KnownType(data[0]) then Ignored
    else match PgParse.Parse(data, 0)
      case Done(w, _) => Message(w.msg)
      case Fail(e) => Failed(e)
      case Panic => Panicked
  }

  /** The relations that one decoding announces. */
  function Announced(d: Decoded): seq<RelationMessage> {
    if d.Message? && d.msg.Relation? then [d.msg.relation] else []
  }

  /** The first announcement of an oid in a list of relations. */
  function FirstRelation(rs: seq<RelationMessage>, oid: u32): Option<RelationMessage> {
    if rs == [] then None
    else if rs[0].oid == oid then Some(rs[0])
    else FirstRelation(rs[1..], oid)
  }

  method ReadString(data: bytes, start: nat) returns (r: Read<bytes>)
    ensures r == PgParse.ReadString(data, start)
  {
    var offset := start;
    while offset < |data| && data[offset] != 0
      invariant start <= offset && (start <= |data| ==> offset <= |data|)
      invariant start <= |data| ==> ScanNul(data, start) == ScanNul(data, offset)
      decreases |data| - offset
    {
      offset := offset + 1;
    }
    if start > |data| {
      return Panic;
    }
    r := Done(data[start..offset], offset + 1);
  }

  method DecodeTupleData(data: bytes, start: nat) returns (r: Read<seq<TupleColumn>>)
    ensures r == PgParse.ParseTuple(data, start)
  {
    var count :- PgParse.ReadU16Be(data, start);
    var offset: nat, columns := count.1, [];
    PrependNothing(PgParse.ParseTupleColumns(data, offset, count.0));
    for i := 0 to count.0
      invariant PgParse.ParseTuple(data, start)
             == Prepend(columns, PgParse.ParseTupleColumns(data, offset, count.0 - i))
    {
      var columnRead := DecodeTupleColumn(data, offset);
      var column :- columnRead;
      PrependStep(columns, column.0, PgParse.ParseTupleColumns(data, column.1, count.0 - i - 1));
      columns := columns + [column.0];
      offset := column.1;
    }
    assert columns + [] == columns;
    r := Done(columns, offset);
  }

  method DecodeTupleColumn(data: bytes, start: nat) returns (r: Read<TupleColumn>)
    ensures r == PgParse.ParseTupleColumn(data, start)
  {
    if start >= |data| {
      return Fail(TruncatedTuple);
    }
    var kind, offset := data[start], start + 1;
    if kind == NULL_KIND {
      return Done(TupleColumn(true, false, None), offset);
    } else if kind == TOAST_KIND {
      return Done(TupleColumn(false, true, None), offset);
    } else if kind == TEXT_KIND {
      var size :- PgParse.ReadU32Be(data, offset);
      offset := size.1;
      if AsI32(size.0) < 0 {
        return Fail(NegativeValueLength);
      }
      if offset + size.0 > |data| {
        return Fail(ValueExceedsData);
      }
      return Done(TupleColumn(false, false, Some(data[offset..offset + size.0])), offset + size.0);
    } else {
      return Fail(UnknownColumnKind(kind));
    }
  }

  class PgOutputDecoder {
    var relations: seq<RelationMessage>

    constructor ()
      ensures relations == []
    {
      relations := [];
    }

    method GetRelation(oid: u32) returns (r: Option<RelationMessage>)
      ensures r == FirstRelation(relations, oid)
    {
      for i := 0 to |relations|
        invariant FirstRelation(relations, oid) == FirstRelation(relations[i..], oid)
      {
        if relations[i].oid == oid {
          return Some(relations[i]);
        }
      }
      return None;
    }

    /** One call consumes one message; only a relation message changes the cache. */
    method Decode(data: bytes) returns (r: Decoded)
      modifies this
      ensures r == Decoding(data)
      ensures relations == old(relations) + Announced(r)
    {
      if data == [] {
        return Ignored;
      }
      if !PgParse.KnownType(data[0]) {
        return Ignored;
      }
      var message := DecodeBody(data[0], data, 1);
      match message {
        case Done(m, _) =>
          if m.Relation? {
            relations := relations + [m.relation];
          }
          r := Message(m);
        case Fail(e) => r := Failed(e);
        case Panic => r := Panicked;
      }
    }

    /** The dispatch on the message type. */
    method DecodeBody(kind: byte, data: bytes, start: nat) returns (r: Read<PgOutputMessage>)
      requires PgParse.KnownType(kind)
      ensures r == Received(PgParse.ParseBody(kind, data, start))
    {
      match kind {
        case 66 => r := DecodeBegin(data, start);
        case 67 => r := DecodeCommit(data, start);
        case 82 => r := DecodeRelation(data, start);
        case 73 => r := DecodeInsert(data, start);
        case 85 => r := DecodeUpdate(data, start);
        case 68 => r := DecodeDelete(data, start);
        case _ => r := DecodeTruncate(data, start);
      }
    }

    method DecodeBegin(data: bytes, start: nat) returns (r: Read<PgOutputMessage>)
      ensures r == Received(PgParse.ParseBegin(data, start))
    {
      var lsn :- PgParse.ReadI64Be(data, start);
      var timestamp :- PgParse.ReadI64Be(data, lsn.1);
      var xid :- PgParse.ReadU32Be(data, timestamp.1);
      r := Done(Begin(lsn.0, timestamp.0, xid.0), xid.1);
    }

    method DecodeCommit(data: bytes, start: nat) returns (r: Read<PgOutputMessage>)
      ensures r == Received(PgParse.ParseCommit(data, start))
    {
      var flags :- PgParse.ReadByte(data, start);
      var lsn :- PgParse.ReadI64Be(data, flags.1);
      var endLsn :- PgParse.ReadI64Be(data, lsn.1);
      var timestamp :- PgParse.ReadI64Be(data, endLsn.1);
      r := Done(Commit(AsI8(flags.0), lsn.0, endLsn.0, timestamp.0), timestamp.1);
    }

    method DecodeRelation(data: bytes, start: nat) returns (r: Read<PgOutputMessage>)
      ensures r == Received(PgParse.ParseRelation(data, start))
    {
      var oid :- PgParse.ReadU32Be(data, start);
      var schemaRead := ReadString(data, oid.1);
      var schema := schemaRead.Extract();
      var nameRead := ReadString(data, schema.1);
      var name :- nameRead;
      var identity :- PgParse.ReadU16Be(data, name.1);
      var count :- PgParse.ReadU16Be(data, identity.1);
      var columnsRead := DecodeRelationColumns(data, count.1, count.0);
      var columns :- columnsRead;
      r := Done(Relation(RelationMessage(oid.0, schema.0, name.0, columns.0)), columns.1);
    }

    method DecodeRelationColumns(data: bytes, start: nat, count: u16) returns (r: Read<seq<RelationColumn>>)
      ensures r == PgParse.ParseRelationColumns(data, start, count)
    {
      var offset: nat, columns := start, [];
      PrependNothing(PgParse.ParseRelationColumns(data, offset, count));
      for i := 0 to count
        invariant PgParse.ParseRelationColumns(data, start, count)
               == Prepend(columns, PgParse.ParseRelationColumns(data, offset, count - i))
      {
        var flags :- PgParse.ReadByte(data, offset);
        var columnRead := ReadString(data, flags.1);
        var column := columnRead.Extract();
        var typeOid :- PgParse.ReadU32Be(data, column.1);
        var modifier :- PgParse.ReadU32Be(data, typeOid.1);
        offset := modifier.1;
        var c := RelationColumn(AsI8(flags.0), column.0, typeOid.0, AsI32(modifier.0));
        PrependStep(columns, c, PgParse.ParseRelationColumns(data, offset, count - i - 1));
        columns := columns + [c];
      }
      assert columns + [] == columns;
      r := Done(columns, offset);
    }

    method DecodeInsert(data: bytes, start: nat) returns (r: Read<PgOutputMessage>)
      ensures r == Received(PgParse.ParseInsert(data, start))
    {
      var oid :- PgParse.ReadU32Be(data, start);
      var offset := oid.1;
      if offset >= |data| {
        return Fail(TruncatedInsert);
      }
      if data[offset] != NEW_TUPLE {
        return Fail(ExpectedNewInInsert(data[offset]));
      }
      var newRead := DecodeTupleData(data, offset + 1);
      var newTuple :- newRead;
      r := Done(Insert(oid.0, newTuple.0), newTuple.1);
    }

    method DecodeUpdate(data: bytes, start: nat) returns (r: Read<PgOutputMessage>)
      ensures r == Received(PgParse.ParseUpdate(data, start))
    {
      var oid :- PgParse.ReadU32Be(data, start);
      var offset := oid.1;
      if offset >= |data| {
        return Fail(TruncatedUpdate);
      }
      var marker := data[offset];
      if marker == KEY_TUPLE || marker == OLD_TUPLE {
        var oldRead := DecodeTupleData(data, offset + 1);
        var oldTuple :- oldRead;
        offset := oldTuple.1;
        if offset >= |data| {
          return Fail(TruncatedUpdateAfterOld(marker));
        }
        if data[offset] != NEW_TUPLE {
          return Fail(ExpectedNewAfterOld(marker, data[offset]));
        }
        var newRead := DecodeTupleData(data, offset + 1);
        var newTuple :- newRead;
        r := Done(Update(oid.0, Some(oldTuple.0), newTuple.0), newTuple.1);
      } else if marker == NEW_TUPLE {
        var newRead := DecodeTupleData(data, offset + 1);
        var newTuple :- newRead;
        r := Done(Update(oid.0, None, newTuple.0), newTuple.1);
      } else {
        return Fail(UnknownTupleInUpdate(marker));
      }
    }

    method DecodeDelete(data: bytes, start: nat) returns (r: Read<PgOutputMessage>)
      ensures r == Received(PgParse.ParseDelete(data, start))
    {
      var oid :- PgParse.ReadU32Be(data, start);
      var offset := oid.1;
      if offset >= |data| {
        return Fail(TruncatedDelete);
      }
      if data[offset] != KEY_TUPLE && data[offset] != OLD_TUPLE {
        return Fail(UnknownTupleInDelete(data[offset]));
      }
      var oldRead := DecodeTupleData(data, offset + 1);
      var oldTuple :- oldRead;
      r := Done(Delete(oid.0, oldTuple.0), oldTuple.1);
    }

    method DecodeTruncate(data: bytes, start: nat) returns (r: Read<PgOutputMessage>)
      ensures r == Received(PgParse.ParseTruncate(data, start))
    {
      var count :- PgParse.ReadU32Be(data, start);
      var options :- PgParse.ReadByte(data, count.1);
      var offset: nat, oids := options.1, [];
      PrependNothing(PgParse.ParseOids(data, offset, count.0));
      for i := 0 to count.0
        invariant PgParse.ParseOids(data, options.1, count.0)
               == Prepend(oids, PgParse.ParseOids(data, offset, count.0 - i))
      {
        var oid :- PgParse.ReadU32Be(data, offset);
        PrependStep(oids, oid.0, PgParse.ParseOids(data, oid.1, count.0 - i - 1));
        offset := oid.1;
        oids := oids + [oid.0];
      }
      assert oids + [] == oids;
      r := Done(Truncate(oids, AsI8(options.0)), offset);
    }
  }

  /** Decoding is the inverse of printing, whatever stands behind the message. */
  lemma DecodingOfEncoding(data: bytes, w: WireMessage)
    requires WellFormed(w) && At(data, 0, Encode(w))
    ensures Decoding(data) == Message(w.msg)
  {
    AtConcat(data, 0, [TypeByte(w.msg)], EncodeBody(w));
    AtByte(data, 0, TypeByte(w.msg));
    PgRoundTrip.ParseExactlyEncodings(data, 0, w, |Encode(w)|);
  }

}
