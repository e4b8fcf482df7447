/** The decoder and the printer are inverse: a message is accepted with a given cursor exactly when
    its encoding stands there. Sound and Complete are the halves, as they are for the fields. */
module PgRoundTrip {
  import opened Wrappers
  import opened Bits
  import opened PgMessages
  import opened PgParse
  import opened PgFieldRoundTrip

  /** The accepted message is well formed and its body stands at the cursor. */
  ghost predicate Accepted(data: bytes, off: nat, r: Read<WireMessage>) {
    r.Done? ==> && WellFormed(r.value)
                && At(data, off, EncodeBody(r.value))
                && r.next == off + |EncodeBody(r.value)|
  }

  lemma RelationNamesEndInside(data: bytes, off: nat)
    requires ParseRelation(data, off).Done?
    ensures var p2 := ReadString(data, off + 4).next;
            p2 <= |data| && ReadString(data, p2).next <= |data|
  {
  }

  lemma RelationSound(data: bytes, off: nat)
    requires ParseRelation(data, off).Done?
    ensures ParseRelation(data, off).value.msg.Relation? && Accepted(data, off, ParseRelation(data, off))
  {
    hide At, NulFree, EncodeCString, EncodeU32, EncodeRelationTail, ParseRelationTail, ReadString;
    var w := ParseRelation(data, off).value;
    var r := w.msg.relation;
    var p2 := ReadString(data, off + 4).next;
    var p3 := ReadString(data, p2).next;
    RelationNamesEndInside(data, off);
    U32Sound(data, off);
    StringSound(data, off + 4);
    StringSound(data, p2);
    RelationTailSound(data, p3);
    Join4(data, off, EncodeBody(w), EncodeU32(r.oid), EncodeCString(r.schema), EncodeCString(r.name),
          EncodeRelationTail(w.dropped.identity, r.columns));
  }

  lemma RelationComplete(data: bytes, off: nat, w: WireMessage)
    requires w.msg.Relation? && WellFormed(w) && At(data, off, EncodeBody(w))
    ensures ParseRelation(data, off) == Done(w, off + |EncodeBody(w)|)
  {
    hide At, NulFree, EncodeCString, EncodeU32, EncodeRelationTail, ParseRelationTail, ReadString;
    var r := w.msg.relation;
    var p2 := off + 5 + |r.schema|;
    Split4(data, off, EncodeBody(w), EncodeU32(r.oid), EncodeCString(r.schema), EncodeCString(r.name),
           EncodeRelationTail(w.dropped.identity, r.columns));
    U32Complete(data, off, r.oid);
    StringComplete(data, off + 4, r.schema);
    StringComplete(data, p2, r.name);
    RelationTailComplete(data, p2 + 1 + |r.name|, w.dropped.identity, r.columns);
  }

  lemma BeginSound(data: bytes, off: nat)
    requires ParseBegin(data, off).Done?
    ensures ParseBegin(data, off).value.msg.Begin? && Accepted(data, off, ParseBegin(data, off))
  {
    var w := ParseBegin(data, off).value;
    I64Sound(data, off);
    I64Sound(data, off + 8);
    U32Sound(data, off + 16);
    Join3(data, off, EncodeBody(w), EncodeI64(w.msg.lsn), EncodeI64(w.msg.timestamp), EncodeU32(w.msg.xid));
  }

  lemma BeginComplete(data: bytes, off: nat, w: WireMessage)
    requires w.msg.Begin? && WellFormed(w) && At(data, off, EncodeBody(w))
    ensures ParseBegin(data, off) == Done(w, off + |EncodeBody(w)|)
  {
    Split3(data, off, EncodeBody(w), EncodeI64(w.msg.lsn), EncodeI64(w.msg.timestamp), EncodeU32(w.msg.xid));
    I64Complete(data, off, w.msg.lsn);
    I64Complete(data, off + 8, w.msg.timestamp);
    U32Complete(data, off + 16, w.msg.xid);
  }

  lemma CommitSound(data: bytes, off: nat)
    requires ParseCommit(data, off).Done?
    ensures ParseCommit(data, off).value.msg.Commit? && Accepted(data, off, ParseCommit(data, off))
  {
    var w := ParseCommit(data, off).value;
    I64Sound(data, off + 1);
    I64Sound(data, off + 9);
    I64Sound(data, off + 17);
    Join4(data, off, EncodeBody(w), [FromI8(w.msg.flags)], EncodeI64(w.msg.commitLsn),
          EncodeI64(w.msg.endLsn), EncodeI64(w.msg.commitTimestamp));
  }

  lemma CommitComplete(data: bytes, off: nat, w: WireMessage)
    requires w.msg.Commit? && WellFormed(w) && At(data, off, EncodeBody(w))
    ensures ParseCommit(data, off) == Done(w, off + |EncodeBody(w)|)
  {
    Split4(data, off, EncodeBody(w), [FromI8(w.msg.flags)], EncodeI64(w.msg.commitLsn),
           EncodeI64(w.msg.endLsn), EncodeI64(w.msg.commitTimestamp));
    AtByte(data, off, FromI8(w.msg.flags));
    I64Complete(data, off + 1, w.msg.commitLsn);
    I64Complete(data, off + 9, w.msg.endLsn);
    I64Complete(data, off + 17, w.msg.commitTimestamp);
  }

  lemma InsertSound(data: bytes, off: nat)
    requires ParseInsert(data, off).Done?
    ensures ParseInsert(data, off).value.msg.Insert? && Accepted(data, off, ParseInsert(data, off))
  {
    var w := ParseInsert(data, off).value;
    U32Sound(data, off);
    MarkedSound(data, off + 4);
    Join2(data, off, EncodeBody(w), EncodeU32(w.msg.insertOid), EncodeMarked(NEW_TUPLE, w.msg.inserted));
  }

  lemma InsertComplete(data: bytes, off: nat, w: WireMessage)
    requires w.msg.Insert? && WellFormed(w) && At(data, off, EncodeBody(w))
    ensures ParseInsert(data, off) == Done(w, off + |EncodeBody(w)|)
  {
    AtConcat(data, off, EncodeU32(w.msg.insertOid), EncodeMarked(NEW_TUPLE, w.msg.inserted));
    U32Complete(data, off, w.msg.insertOid);
    MarkedComplete(data, off + 4, NEW_TUPLE, w.msg.inserted);
  }

  lemma UpdateSound(data: bytes, off: nat)
    requires ParseUpdate(data, off).Done?
    ensures ParseUpdate(data, off).value.msg.Update? && Accepted(data, off, ParseUpdate(data, off))
  {
    hide At, EncodeMarked, EncodeU32;
    var w := ParseUpdate(data, off).value;
    U32Sound(data, off);
    MarkedSound(data, off + 4);
    if data[off + 4] == NEW_TUPLE {
      Join2(data, off, EncodeBody(w), EncodeU32(w.msg.updateOid), EncodeMarked(NEW_TUPLE, w.msg.newTuple));
    } else {
      MarkedSound(data, ParseTuple(data, off + 5).next);
      Join3(data, off, EncodeBody(w), EncodeU32(w.msg.updateOid),
            EncodeMarked(data[off + 4], w.msg.oldTuple.value), EncodeMarked(NEW_TUPLE, w.msg.newTuple));
    }
  }

  lemma UpdateOfNew(data: bytes, off: nat, oid: u32, t: seq<TupleColumn>, next: nat)
    requires ReadU32Be(data, off) == Done(oid, off + 4)
    requires off + 4 < |data| && data[off + 4] == NEW_TUPLE && ParseTuple(data, off + 5) == Done(t, next)
    ensures ParseUpdate(data, off) == Done(WireMessage(Update(oid, None, t), Nothing), next)
  {
    hide ReadU32Be, ParseTuple;
  }

  lemma UpdateOfOld(data: bytes, off: nat, oid: u32, o: seq<TupleColumn>, mid: nat, t: seq<TupleColumn>, next: nat)
    requires ReadU32Be(data, off) == Done(oid, off + 4)
    requires off + 4 < |data| && (data[off + 4] == KEY_TUPLE || data[off + 4] == OLD_TUPLE)
    requires ParseTuple(data, off + 5) == Done(o, mid)
    requires mid < |data| && data[mid] == NEW_TUPLE && ParseTuple(data, mid + 1) == Done(t, next)
    ensures ParseUpdate(data, off) == Done(WireMessage(Update(oid, Some(o), t), DroppedMarker(data[off + 4])), next)
  {
    hide ReadU32Be, ParseTuple;
  }

  lemma UpdateNewComplete(data: bytes, off: nat, oid: u32, t: seq<TupleColumn>)
    requires WellFormedTuple(t) && At(data, off, EncodeU32(oid) + EncodeMarked(NEW_TUPLE, t))
    ensures ParseUpdate(data, off)
         == Done(WireMessage(Update(oid, None, t), Nothing), off + 4 + |EncodeMarked(NEW_TUPLE, t)|)
  {
    hide *;
    AtConcat(data, off, EncodeU32(oid), EncodeMarked(NEW_TUPLE, t));
    U32Complete(data, off, oid);
    MarkedComplete(data, off + 4, NEW_TUPLE, t);
    UpdateOfNew(data, off, oid, t, off + 4 + |EncodeMarked(NEW_TUPLE, t)|);
  }

  lemma UpdateOldComplete(data: bytes, off: nat, oid: u32, marker: byte, o: seq<TupleColumn>, t: seq<TupleColumn>)
    requires (marker == KEY_TUPLE || marker == OLD_TUPLE) && WellFormedTuple(o) && WellFormedTuple(t)
    requires At(data, off, EncodeU32(oid) + (EncodeMarked(marker, o) + EncodeMarked(NEW_TUPLE, t)))
    ensures ParseUpdate(data, off)
         == Done(WireMessage(Update(oid, Some(o), t), DroppedMarker(marker)),
                 off + 4 + |EncodeMarked(marker, o)| + |EncodeMarked(NEW_TUPLE, t)|)
  {
    hide *;
    var before, after := EncodeMarked(marker, o), EncodeMarked(NEW_TUPLE, t);
    Split3(data, off, EncodeU32(oid) + (before + after), EncodeU32(oid), before, after);
    U32Complete(data, off, oid);
    MarkedComplete(data, off + 4, marker, o);
    MarkedComplete(data, off + 4 + |before|, NEW_TUPLE, t);
    UpdateOfOld(data, off, oid, o, off + 4 + |before|, t, off + 4 + |before| + |after|);
  }

  lemma UpdateComplete(data: bytes, off: nat, w: WireMessage)
    requires w.msg.Update? && WellFormed(w) && At(data, off, EncodeBody(w))
    ensures ParseUpdate(data, off) == Done(w, off + |EncodeBody(w)|)
  {
    var u := w.msg;
    if u.oldTuple.None? {
      UpdateNewComplete(data, off, u.updateOid, u.newTuple);
      hide At, EncodeMarked, EncodeU32, ParseUpdate, WellFormedTuple;
    } else {
      UpdateOldComplete(data, off, u.updateOid, OldMarker(w.dropped), u.oldTuple.value, u.newTuple);
      assert DroppedMarker(OldMarker(w.dropped)) == w.dropped;
      hide At, EncodeMarked, EncodeU32, ParseUpdate, WellFormedTuple;
    }
  }

  lemma DeleteSound(data: bytes, off: nat)
    requires ParseDelete(data, off).Done?
    ensures ParseDelete(data, off).value.msg.Delete? && Accepted(data, off, ParseDelete(data, off))
  {
    var w := ParseDelete(data, off).value;
    U32Sound(data, off);
    MarkedSound(data, off + 4);
    Join2(data, off, EncodeBody(w), EncodeU32(w.msg.deleteOid), EncodeMarked(data[off + 4], w.msg.deleted));
  }

  lemma DeleteComplete(data: bytes, off: nat, w: WireMessage)
    requires w.msg.Delete? && WellFormed(w) && At(data, off, EncodeBody(w))
    ensures ParseDelete(data, off) == Done(w, off + |EncodeBody(w)|)
  {
    var marker := OldMarker(w.dropped);
    AtConcat(data, off, EncodeU32(w.msg.deleteOid), EncodeMarked(marker, w.msg.deleted));
    U32Complete(data, off, w.msg.deleteOid);
    MarkedComplete(data, off + 4, marker, w.msg.deleted);
  }

  lemma TruncateSound(data: bytes, off: nat)
    requires ParseTruncate(data, off).Done?
    ensures ParseTruncate(data, off).value.msg.Truncate? && Accepted(data, off, ParseTruncate(data, off))
  {
    var w := ParseTruncate(data, off).value;
    U32Sound(data, off);
    OidsSound(data, off + 5, ReadU32Be(data, off).value);
    Join3(data, off, EncodeBody(w), EncodeU32(|w.msg.relationOids|), [FromI8(w.msg.options)],
          EncodeOids(w.msg.relationOids));
  }

  lemma TruncateComplete(data: bytes, off: nat, w: WireMessage)
    requires w.msg.Truncate? && WellFormed(w) && At(data, off, EncodeBody(w))
    ensures ParseTruncate(data, off) == Done(w, off + |EncodeBody(w)|)
  {
    Split3(data, off, EncodeBody(w), EncodeU32(|w.msg.relationOids|), [FromI8(w.msg.options)],
           EncodeOids(w.msg.relationOids));
    AtByte(data, off + 4, FromI8(w.msg.options));
    U32Complete(data, off, |w.msg.relationOids|);
    OidsComplete(data, off + 5, w.msg.relationOids);
  }

  lemma BodySound(kind: byte, data: bytes, off: nat)
    requires KnownType(kind) && ParseBody(kind, data, off).Done?
    ensures Accepted(data, off, ParseBody(kind, data, off))
    ensures TypeByte(ParseBody(kind, data, off).value.msg) == kind
  {
    match kind
    case 66 => BeginSound(data, off);
    case 67 => CommitSound(data, off);
    case 82 => RelationSound(data, off);
    case 73 => InsertSound(data, off);
    case 85 => UpdateSound(data, off);
    case 68 => DeleteSound(data, off);
    case _ => TruncateSound(data, off);
  }

  lemma BodyComplete(data: bytes, off: nat, w: WireMessage)
    requires WellFormed(w) && At(data, off, EncodeBody(w))
    ensures ParseBody(TypeByte(w.msg), data, off) == Done(w, off + |EncodeBody(w)|)
  {
    hide At, EncodeBody, NulFree;
    match w.msg
    case Begin(_, _, _) => BeginComplete(data, off, w);
    case Commit(_, _, _, _) => CommitComplete(data, off, w);
    case Relation(_) => RelationComplete(data, off, w);
    case Insert(_, _) => InsertComplete(data, off, w);
    case Update(_, _, _) => UpdateComplete(data, off, w);
    case Delete(_, _) => DeleteComplete(data, off, w);
    case Truncate(_, _) => TruncateComplete(data, off, w);
  }

  /** The decoder accepts a message at a cursor exactly when the message is well formed and its
      encoding stands there, and then it has consumed exactly that encoding. */
  lemma ParseExactlyEncodings(data: bytes, off: nat, w: WireMessage, next: nat)
    requires off < |data| && KnownType(data[off])
    ensures Parse(data, off) == Done(w, next) <==>
            WellFormed(w) && At(data, off, Encode(w)) && next == off + |Encode(w)|
  {
    if Parse(data, off) == Done(w, next) {
      BodySound(data[off], data, off + 1);
      AtByte(data, off, data[off]);
      Join2(data, off, Encode(w), [data[off]], EncodeBody(w));
    }
    if WellFormed(w) && At(data, off, Encode(w)) {
      AtConcat(data, off, [TypeByte(w.msg)], EncodeBody(w));
      AtByte(data, off, TypeByte(w.msg));
      BodyComplete(data, off + 1, w);
    }
  }

  /** The round trip: an encoding followed by any bytes decodes to its message, and the decoder
      consumes exactly the encoding. */
  lemma DecodeOfEncode(w: WireMessage, tail: bytes)
    requires WellFormed(w)
    ensures Parse(Encode(w) + tail, 0) == Done(w, |Encode(w)|)
  {
    AtPrefix(Encode(w), tail);
    ParseExactlyEncodings(Encode(w) + tail, 0, w, |Encode(w)|);
  }

  /** Self-delimitation on every input: a successful decode stays inside the data and depends on
      no byte behind the ones it consumed. */
  lemma DecodeDependsOnConsumed(data: bytes, other: bytes)
    requires data != [] && KnownType(data[0]) && Parse(data, 0).Done?
    ensures 0 < Parse(data, 0).next <= |data|
    ensures Parse(data, 0).next <= |other|
            && (forall i :: 0 <= i < Parse(data, 0).next ==> other[i] == data[i])
            ==> Parse(other, 0) == Parse(data, 0)
  {
    hide EncodeBody, WellFormed;
    var w, n := Parse(data, 0).value, Parse(data, 0).next;
    ParseExactlyEncodings(data, 0, w, n);
    if n <= |other| && forall i :: 0 <= i < n ==> other[i] == data[i] {
      ParseExactlyEncodings(other, 0, w, n);
    }
  }
}
