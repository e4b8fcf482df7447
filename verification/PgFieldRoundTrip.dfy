/** The fields of messages, read and printed. Every lemma about a reader comes in two halves: Sound
    (what was read is encoded at the cursor) and Complete (what is encoded at the cursor is read). */
module PgFieldRoundTrip {
  import opened Wrappers
  import opened Bits
  import opened PgMessages
  import opened PgParse

  //////////////////////////////////////////////////////////////////////////////
  // Fixed-width readers and strings
  //////////////////////////////////////////////////////////////////////////////

  lemma U16Sound(data: bytes, off: nat)
    requires ReadU16Be(data, off).Done?
    ensures At(data, off, EncodeU16(ReadU16Be(data, off).value))
  {
    hide BeValue, BeBytes;
    BeBytesOfValue([data[off], data[off + 1]]);
  }

  lemma U16Complete(data: bytes, off: nat, v: u16)
    requires At(data, off, EncodeU16(v))
    ensures ReadU16Be(data, off) == Done(v, off + 2)
  {
    hide BeValue, BeBytes;
    Pow256Values();
    BeValueOfBytes(v, 2);
    var e := EncodeU16(v);
    assert e == [e[0], e[1]];
  }

  lemma U32Sound(data: bytes, off: nat)
    requires ReadU32Be(data, off).Done?
    ensures At(data, off, EncodeU32(ReadU32Be(data, off).value))
  {
    hide BeValue, BeBytes;
    BeBytesOfValue([data[off], data[off + 1], data[off + 2], data[off + 3]]);
  }

  lemma U32Complete(data: bytes, off: nat, v: u32)
    requires At(data, off, EncodeU32(v))
    ensures ReadU32Be(data, off) == Done(v, off + 4)
  {
    hide BeValue, BeBytes;
    Pow256Values();
    BeValueOfBytes(v, 4);
    var e := EncodeU32(v);
    assert e == [e[0], e[1], e[2], e[3]];
  }

  lemma I64Sound(data: bytes, off: nat)
    requires ReadI64Be(data, off).Done?
    ensures At(data, off, EncodeI64(ReadI64Be(data, off).value))
  {
    hide BeValue, BeBytes;
    BeBytesOfValue([data[off], data[off + 1], data[off + 2], data[off + 3],
                    data[off + 4], data[off + 5], data[off + 6], data[off + 7]]);
  }

  lemma I64Complete(data: bytes, off: nat, v: i64)
    requires At(data, off, EncodeI64(v))
    ensures ReadI64Be(data, off) == Done(v, off + 8)
  {
    hide BeValue, BeBytes;
    Pow256Values();
    BeValueOfBytes(FromI64(v), 8);
    var e := EncodeI64(v);
    assert e == [e[0], e[1], e[2], e[3], e[4], e[5], e[6], e[7]];
  }

  /** A string that ends inside the data is the NUL-free name standing at the cursor. */
  lemma StringSound(data: bytes, off: nat)
    requires ReadString(data, off).Done? && ReadString(data, off).next <= |data|
    ensures var r := ReadString(data, off);
            NulFree(r.value) && At(data, off, EncodeCString(r.value)) && r.next == off + |r.value| + 1
  {
    var e := ScanNul(data, off);
    assert forall i :: 0 <= i < e - off ==> data[off..e][i] == data[off + i];
  }

  lemma StringComplete(data: bytes, off: nat, s: bytes)
    requires NulFree(s) && At(data, off, EncodeCString(s))
    ensures ReadString(data, off) == Done(s, off + |s| + 1)
  {
    ScanNulOfCString(data, off, s);
    SliceAt(data, off, s);
  }

  //////////////////////////////////////////////////////////////////////////////
  // Relations
  //////////////////////////////////////////////////////////////////////////////

  lemma RelationColumnSound(data: bytes, off: nat)
    requires ParseRelationColumn(data, off).Done?
    ensures var r := ParseRelationColumn(data, off);
            && NulFree(r.value.name) && At(data, off, EncodeRelationColumn(r.value))
            && r.next == off + |EncodeRelationColumn(r.value)|
  {
    var c := ParseRelationColumn(data, off).value;
    var p := ReadString(data, off + 1).next;
    StringSound(data, off + 1);
    U32Sound(data, p);
    U32Sound(data, p + 4);
    Join4(data, off, EncodeRelationColumn(c), [FromI8(c.flags)], EncodeCString(c.name),
          EncodeU32(c.typeOid), EncodeI32(c.typeModifier));
  }

  lemma RelationColumnComplete(data: bytes, off: nat, c: RelationColumn)
    requires NulFree(c.name) && At(data, off, EncodeRelationColumn(c))
    ensures ParseRelationColumn(data, off) == Done(c, off + |EncodeRelationColumn(c)|)
  {
    var p := off + 2 + |c.name|;
    Split4(data, off, EncodeRelationColumn(c), [FromI8(c.flags)], EncodeCString(c.name),
           EncodeU32(c.typeOid), EncodeI32(c.typeModifier));
    AtByte(data, off, FromI8(c.flags));
    StringComplete(data, off + 1, c.name);
    U32Complete(data, p, c.typeOid);
    U32Complete(data, p + 4, FromI32(c.typeModifier));
  }

  lemma {:induction false} RelationColumnsSound(data: bytes, off: nat, count: nat)
    requires off <= |data| && ParseRelationColumns(data, off, count).Done?
    ensures var r := ParseRelationColumns(data, off, count);
            && |r.value| == count
            && (forall i :: 0 <= i < count ==> NulFree(r.value[i].name))
            && At(data, off, EncodeRelationColumns(r.value))
            && r.next == off + |EncodeRelationColumns(r.value)|
    decreases count
  {
    hide At, NulFree, EncodeRelationColumn, ParseRelationColumn;
    if count > 0 {
      var c := ParseRelationColumn(data, off);
      RelationColumnSound(data, off);
      RelationColumnsSound(data, c.next, count - 1);
      var cs := ParseRelationColumns(data, c.next, count - 1).value;
      assert ([c.value] + cs)[1..] == cs;
      Join2(data, off, EncodeRelationColumns([c.value] + cs), EncodeRelationColumn(c.value),
            EncodeRelationColumns(cs));
    } else {
      AtNothing(data, off);
    }
  }

  lemma {:induction false} RelationColumnsComplete(data: bytes, off: nat, cs: seq<RelationColumn>)
    requires forall i :: 0 <= i < |cs| ==> NulFree(cs[i].name)
    requires At(data, off, EncodeRelationColumns(cs))
    ensures ParseRelationColumns(data, off, |cs|) == Done(cs, off + |EncodeRelationColumns(cs)|)
    decreases |cs|
  {
    hide At, NulFree, EncodeRelationColumn, ParseRelationColumn;
    if cs != [] {
      AtConcat(data, off, EncodeRelationColumn(cs[0]), EncodeRelationColumns(cs[1..]));
      RelationColumnComplete(data, off, cs[0]);
      RelationColumnsComplete(data, off + |EncodeRelationColumn(cs[0])|, cs[1..]);
      assert [cs[0]] + cs[1..] == cs;
    } else {
      AtNothing(data, off);
    }
  }

  lemma RelationTailSound(data: bytes, off: nat)
    requires ParseRelationTail(data, off).Done?
    ensures var r := ParseRelationTail(data, off);
            && |r.value.1| < 0x1_0000
            && (forall i :: 0 <= i < |r.value.1| ==> NulFree(r.value.1[i].name))
            && At(data, off, EncodeRelationTail(AsI16(r.value.0), r.value.1))
            && r.next == off + |EncodeRelationTail(AsI16(r.value.0), r.value.1)|
  {
    var r := ParseRelationTail(data, off).value;
    U16Sound(data, off);
    U16Sound(data, off + 2);
    RelationColumnsSound(data, off + 4, ReadU16Be(data, off + 2).value);
    Join3(data, off, EncodeRelationTail(AsI16(r.0), r.1), EncodeI16(AsI16(r.0)), EncodeU16(|r.1|),
          EncodeRelationColumns(r.1));
  }

  lemma RelationTailComplete(data: bytes, off: nat, identity: i16, cs: seq<RelationColumn>)
    requires |cs| < 0x1_0000 && forall i :: 0 <= i < |cs| ==> NulFree(cs[i].name)
    requires At(data, off, EncodeRelationTail(identity, cs))
    ensures ParseRelationTail(data, off)
         == Done((FromI16(identity), cs), off + |EncodeRelationTail(identity, cs)|)
  {
    Split3(data, off, EncodeRelationTail(identity, cs), EncodeI16(identity), EncodeU16(|cs|),
           EncodeRelationColumns(cs));
    U16Complete(data, off, FromI16(identity));
    U16Complete(data, off + 2, |cs|);
    RelationColumnsComplete(data, off + 4, cs);
  }

  //////////////////////////////////////////////////////////////////////////////
  // Tuples
  //////////////////////////////////////////////////////////////////////////////

  lemma TupleColumnSound(data: bytes, off: nat)
    requires ParseTupleColumn(data, off).Done?
    ensures var r := ParseTupleColumn(data, off);
            && WellFormedColumn(r.value) && At(data, off, EncodeTupleColumn(r.value))
            && r.next == off + |EncodeTupleColumn(r.value)|
  {
    var c := ParseTupleColumn(data, off).value;
    AtByte(data, off, data[off]);
    if data[off] == TEXT_KIND {
      U32Sound(data, off + 1);
      AtSlice(data, off + 5, off + 5 + |c.value.value|);
      Join3(data, off, EncodeTupleColumn(c), [TEXT_KIND], EncodeI32(|c.value.value|), c.value.value);
    }
  }

  lemma TupleColumnComplete(data: bytes, off: nat, c: TupleColumn)
    requires WellFormedColumn(c) && At(data, off, EncodeTupleColumn(c))
    ensures ParseTupleColumn(data, off) == Done(c, off + |EncodeTupleColumn(c)|)
  {
    if !c.isNull && !c.isUnchangedToast {
      Split3(data, off, EncodeTupleColumn(c), [TEXT_KIND], EncodeI32(|c.value.value|), c.value.value);
      U32Complete(data, off + 1, |c.value.value|);
      SliceAt(data, off + 5, c.value.value);
    }
    assert data[off] == EncodeTupleColumn(c)[0];
  }

  lemma {:induction false} TupleColumnsSound(data: bytes, off: nat, count: nat)
    requires off <= |data| && ParseTupleColumns(data, off, count).Done?
    ensures var r := ParseTupleColumns(data, off, count);
            && |r.value| == count
            && (forall i :: 0 <= i < count ==> WellFormedColumn(r.value[i]))
            && At(data, off, EncodeTupleColumns(r.value))
            && r.next == off + |EncodeTupleColumns(r.value)|
    decreases count
  {
    if count > 0 {
      hide *;
      FirstTupleColumn(data, off, count);
      var c := ParseTupleColumn(data, off);
      TupleColumnSound(data, off);
      AtInside(data, off, EncodeTupleColumn(c.value));
      TupleColumnsSound(data, c.next, count - 1);
      TupleColumnsCons(data, off, c.value, ParseTupleColumns(data, c.next, count - 1).value);
    }
  }

  lemma FirstTupleColumn(data: bytes, off: nat, count: nat)
    requires count > 0 && ParseTupleColumns(data, off, count).Done?
    ensures var c := ParseTupleColumn(data, off);
            && c.Done?
            && var rest := ParseTupleColumns(data, c.next, count - 1);
               rest.Done? && ParseTupleColumns(data, off, count) == Done([c.value] + rest.value, rest.next)
  {
    hide ParseTupleColumn;
  }

  lemma TupleColumnsCons(data: bytes, off: nat, c: TupleColumn, cs: seq<TupleColumn>)
    requires WellFormedColumn(c) && forall i :: 0 <= i < |cs| ==> WellFormedColumn(cs[i])
    requires At(data, off, EncodeTupleColumn(c))
    requires At(data, off + |EncodeTupleColumn(c)|, EncodeTupleColumns(cs))
    ensures forall i :: 0 <= i < |[c] + cs| ==> WellFormedColumn(([c] + cs)[i])
    ensures At(data, off, EncodeTupleColumns([c] + cs))
    ensures |EncodeTupleColumns([c] + cs)| == |EncodeTupleColumn(c)| + |EncodeTupleColumns(cs)|
  {
    assert ([c] + cs)[1..] == cs;
    Join2(data, off, EncodeTupleColumns([c] + cs), EncodeTupleColumn(c), EncodeTupleColumns(cs));
  }

  lemma {:induction false} TupleColumnsComplete(data: bytes, off: nat, cs: seq<TupleColumn>)
    requires forall i :: 0 <= i < |cs| ==> WellFormedColumn(cs[i])
    requires At(data, off, EncodeTupleColumns(cs))
    ensures ParseTupleColumns(data, off, |cs|) == Done(cs, off + |EncodeTupleColumns(cs)|)
    decreases |cs|
  {
    hide At, WellFormedColumn, EncodeTupleColumn, ParseTupleColumn;
    if cs != [] {
      AtConcat(data, off, EncodeTupleColumn(cs[0]), EncodeTupleColumns(cs[1..]));
      TupleColumnComplete(data, off, cs[0]);
      TupleColumnsComplete(data, off + |EncodeTupleColumn(cs[0])|, cs[1..]);
      assert [cs[0]] + cs[1..] == cs;
    } else {
      AtNothing(data, off);
    }
  }

  /** A tuple behind its marker byte. */
  lemma MarkedSound(data: bytes, off: nat)
    requires off < |data| && ParseTuple(data, off + 1).Done?
    ensures var r := ParseTuple(data, off + 1);
            && WellFormedTuple(r.value) && At(data, off, EncodeMarked(data[off], r.value))
            && r.next == off + |EncodeMarked(data[off], r.value)|
  {
    var t := ParseTuple(data, off + 1).value;
    AtByte(data, off, data[off]);
    U16Sound(data, off + 1);
    TupleColumnsSound(data, off + 3, ReadU16Be(data, off + 1).value);
    Join3(data, off, EncodeMarked(data[off], t), [data[off]], EncodeU16(|t|), EncodeTupleColumns(t));
  }

  lemma MarkedComplete(data: bytes, off: nat, marker: byte, t: seq<TupleColumn>)
    requires WellFormedTuple(t) && At(data, off, EncodeMarked(marker, t))
    ensures off < |data| && data[off] == marker
    ensures ParseTuple(data, off + 1) == Done(t, off + |EncodeMarked(marker, t)|)
  {
    Split3(data, off, EncodeMarked(marker, t), [marker], EncodeU16(|t|), EncodeTupleColumns(t));
    AtByte(data, off, marker);
    U16Complete(data, off + 1, |t|);
    TupleColumnsComplete(data, off + 3, t);
  }

  lemma {:induction false} OidsSound(data: bytes, off: nat, count: nat)
    requires off <= |data| && ParseOids(data, off, count).Done?
    ensures var r := ParseOids(data, off, count);
            && |r.value| == count && At(data, off, EncodeOids(r.value))
            && r.next == off + |EncodeOids(r.value)|
    decreases count
  {
    if count > 0 {
      U32Sound(data, off);
      OidsSound(data, off + 4, count - 1);
      var oid, oids := ReadU32Be(data, off).value, ParseOids(data, off + 4, count - 1).value;
      assert ([oid] + oids)[1..] == oids;
      Join2(data, off, EncodeOids([oid] + oids), EncodeU32(oid), EncodeOids(oids));
    }
  }

  lemma {:induction false} OidsComplete(data: bytes, off: nat, oids: seq<u32>)
    requires At(data, off, EncodeOids(oids))
    ensures ParseOids(data, off, |oids|) == Done(oids, off + |EncodeOids(oids)|)
    decreases |oids|
  {
    if oids != [] {
      AtConcat(data, off, EncodeU32(oids[0]), EncodeOids(oids[1..]));
      U32Complete(data, off, oids[0]);
      OidsComplete(data, off + 4, oids[1..]);
      assert [oids[0]] + oids[1..] == oids;
    }
  }
}
