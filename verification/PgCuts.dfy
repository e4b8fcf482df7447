/** Messages that are cut off: what the decoder does with every proper prefix of an encoding, told by
    the field the cut falls into. */
module PgCuts {
  import opened Wrappers
  import opened Bits
  import opened PgMessages
  import opened PgParse
  import opened PgDecoder
  import PgFieldRoundTrip
  import PgRoundTrip
  import PgStreamer

  /** A field of a message: its size, and the error of the check in front of it. A field without one
      is indexed unchecked, and panics when it is cut off. */
  datatype Segment = Segment(size: nat, error: Option<DecodeError>)

  function Size(ss: seq<Segment>): nat {
    if ss == [] then 0 else ss[0].size + Size(ss[1..])
  }

  /** What a cut behind n bytes runs into: the error of the field it falls into, or nothing. */
  function CutIn(ss: seq<Segment>, n: nat): Option<DecodeError>
    decreases |ss|
  {
    if ss == [] then None
    else if n < ss[0].size then ss[0].error
    else CutIn(ss[1..], n - ss[0].size)
  }

  //////////////////////////////////////////////////////////////////////////////
  // The fields of a message
  //////////////////////////////////////////////////////////////////////////////

  function ColumnSegments(c: TupleColumn): seq<Segment> {
    if c.isNull || c.isUnchangedToast || c.value.None? then [Segment(1, Some(TruncatedTuple))]
    else [Segment(1, Some(TruncatedTuple)), Segment(4, None), Segment(|c.value.value|, Some(ValueExceedsData))]
  }

  function ColumnsSegments(cs: seq<TupleColumn>): seq<Segment> {
    if cs == [] then [] else ColumnSegments(cs[0]) + ColumnsSegments(cs[1..])
  }

  /** Marker, column count and columns. */
  function MarkedSegments(error: DecodeError, t: seq<TupleColumn>): seq<Segment> {
    [Segment(1, Some(error)), Segment(2, None)] + ColumnsSegments(t)
  }

  /** Only the messages with tuples check anything. */
  ghost function BodySegments(w: WireMessage): seq<Segment>
    requires WellFormed(w)
  {
    match w.msg
    case Insert(_, t) => [Segment(4, None)] + MarkedSegments(TruncatedInsert, t)
    case Update(_, None, t) => [Segment(4, None)] + MarkedSegments(TruncatedUpdate, t)
    case Update(_, Some(o), t) =>
      [Segment(4, None)] + (MarkedSegments(TruncatedUpdate, o)
        + MarkedSegments(TruncatedUpdateAfterOld(OldMarker(w.dropped)), t))
    case Delete(_, t) => [Segment(4, None)] + MarkedSegments(TruncatedDelete, t)
    case _ => [Segment(|EncodeBody(w)|, None)]
  }

  lemma {:induction false} SizeOfConcat(a: seq<Segment>, b: seq<Segment>)
    ensures Size(a + b) == Size(a) + Size(b)
    decreases |a|
  {
    if a == [] {
      assert a + b == b;
    } else {
      assert (a + b)[1..] == a[1..] + b;
      SizeOfConcat(a[1..], b);
    }
  }

  lemma {:induction false} CutInConcat(a: seq<Segment>, b: seq<Segment>, n: nat)
    ensures CutIn(a + b, n) == if n < Size(a) then CutIn(a, n) else CutIn(b, n - Size(a))
    decreases |a|
  {
    if a == [] {
      assert a + b == b;
    } else {
      assert (a + b)[1..] == a[1..] + b;
      if n >= a[0].size {
        CutInConcat(a[1..], b, n - a[0].size);
      }
    }
  }

  lemma ThreeSegments(a: Segment, b: Segment, c: Segment, n: nat)
    ensures Size([a, b, c]) == a.size + b.size + c.size
    ensures CutIn([a, b, c], n) ==
      if n < a.size then a.error
      else if n < a.size + b.size then b.error
      else if n < a.size + b.size + c.size then c.error
      else None
  {
    assert [a, b, c][1..] == [b, c] && [b, c][1..] == [c] && [c][1..] == [];
    assert Size([c]) == c.size && Size([b, c]) == b.size + Size([c]);
    if n >= a.size {
      assert CutIn([a, b, c], n) == CutIn([b, c], n - a.size);
      if n >= a.size + b.size {
        assert CutIn([b, c], n - a.size) == CutIn([c], n - a.size - b.size);
      }
    }
  }

  lemma OneSegment(a: Segment, n: nat)
    ensures Size([a]) == a.size && CutIn([a], n) == if n < a.size then a.error else None
  {
    assert [a][1..] == [];
  }

  lemma SizeOfColumn(c: TupleColumn)
    requires WellFormedColumn(c)
    ensures Size(ColumnSegments(c)) == |EncodeTupleColumn(c)|
  {
    if c.value.Some? {
      ThreeSegments(Segment(1, Some(TruncatedTuple)), Segment(4, None),
                    Segment(|c.value.value|, Some(ValueExceedsData)), 0);
    } else {
      OneSegment(Segment(1, Some(TruncatedTuple)), 0);
    }
    hide Size;
  }

  lemma {:induction false} SizeOfColumns(cs: seq<TupleColumn>)
    requires forall i :: 0 <= i < |cs| ==> WellFormedColumn(cs[i])
    ensures Size(ColumnsSegments(cs)) == |EncodeTupleColumns(cs)|
  {
    if cs != [] {
      SizeOfColumn(cs[0]);
      SizeOfColumns(cs[1..]);
      SizeOfConcat(ColumnSegments(cs[0]), ColumnsSegments(cs[1..]));
    }
  }

  lemma SizeOfMarked(error: DecodeError, marker: byte, t: seq<TupleColumn>)
    requires WellFormedTuple(t)
    ensures Size(MarkedSegments(error, t)) == |EncodeMarked(marker, t)|
  {
    var head := [Segment(1, Some(error)), Segment(2, None)];
    assert head[1..][1..] == [];
    SizeOfConcat(head, ColumnsSegments(t));
    SizeOfColumns(t);
  }

  //////////////////////////////////////////////////////////////////////////////
  // Bytes that end inside an encoding
  //////////////////////////////////////////////////////////////////////////////

  /** A read ends in an error, or in a panic when there is none. */
  predicate Ends<T(==)>(r: Read<T>, o: Option<DecodeError>) {
    match o
    case Some(e) => r == Fail(e)
    case None => r.Panic?
  }

  lemma TextColumnCut(data: bytes, off: nat, v: bytes)
    requires |v| < 0x8000_0000
    requires Cut(data, off, [TEXT_KIND] + (EncodeI32(|v|) + v))
    ensures Ends(ParseTupleColumn(data, off),
                 if off == |data| then Some(TruncatedTuple)
                 else if |data| - off < 5 then None else Some(ValueExceedsData))
  {
    CutConcat(data, off, [TEXT_KIND], EncodeI32(|v|) + v);
    if off < |data| {
      AtByte(data, off, TEXT_KIND);
      CutConcat(data, off + 1, EncodeI32(|v|), v);
      if |data| - off >= 5 {
        PgFieldRoundTrip.U32Complete(data, off + 1, |v|);
      }
    }
    hide EncodeU32, At, Cut;
  }

  lemma ColumnCut(data: bytes, off: nat, n: nat, c: TupleColumn)
    requires WellFormedColumn(c) && Cut(data, off, EncodeTupleColumn(c)) && off + n == |data|
    ensures Ends(ParseTupleColumn(data, off), CutIn(ColumnSegments(c), n))
  {
    var kind := Segment(1, Some(TruncatedTuple));
    if c.value.Some? {
      TextColumnCut(data, off, c.value.value);
      ThreeSegments(kind, Segment(4, None), Segment(|c.value.value|, Some(ValueExceedsData)), n);
      hide ParseTupleColumn, CutIn;
    } else {
      OneSegment(kind, 0);
      assert off == |data|;
      hide CutIn;
    }
  }

  lemma ColumnsEnd(data: bytes, off: nat, count: nat, o: Option<DecodeError>)
    requires count > 0 && Ends(ParseTupleColumn(data, off), o)
    ensures Ends(ParseTupleColumns(data, off, count), o)
  {
    hide ParseTupleColumn;
  }

  lemma ColumnsGoOn(data: bytes, off: nat, count: nat, o: Option<DecodeError>)
    requires count > 0 && ParseTupleColumn(data, off).Done?
    requires Ends(ParseTupleColumns(data, ParseTupleColumn(data, off).next, count - 1), o)
    ensures Ends(ParseTupleColumns(data, off, count), o)
  {
    hide ParseTupleColumn;
  }

  ghost predicate AllWellFormed(cs: seq<TupleColumn>) {
    forall i :: 0 <= i < |cs| ==> WellFormedColumn(cs[i])
  }

  ghost function Printed(cs: seq<TupleColumn>): bytes
    requires AllWellFormed(cs)
  {
    EncodeTupleColumns(cs)
  }

  lemma FirstColumn(data: bytes, off: nat, cs: seq<TupleColumn>)
    requires AllWellFormed(cs) && Cut(data, off, Printed(cs))
    ensures cs != [] && WellFormedColumn(cs[0]) && AllWellFormed(cs[1..])
    ensures Printed(cs) == EncodeTupleColumn(cs[0]) + Printed(cs[1..])
    ensures ColumnsSegments(cs) == ColumnSegments(cs[0]) + ColumnsSegments(cs[1..])
  {
    hide WellFormedColumn, EncodeTupleColumn, ColumnSegments;
  }

  /** One column: the cut falls into it, or behind it. */
  lemma PastColumn(data: bytes, off: nat, n: nat, c: TupleColumn, tail: bytes, ss: seq<Segment>)
    returns (past: bool, p: nat, m: nat)
    requires WellFormedColumn(c) && Cut(data, off, EncodeTupleColumn(c) + tail) && off + n == |data|
    ensures !past ==> Ends(ParseTupleColumn(data, off), CutIn(ColumnSegments(c) + ss, n))
    ensures past ==>
      && ParseTupleColumn(data, off).Done? && ParseTupleColumn(data, off).next == p
      && Cut(data, p, tail) && p + m == |data| && CutIn(ColumnSegments(c) + ss, n) == CutIn(ss, m)
  {
    hide *;
    SizeOfColumn(c);
    CutConcat(data, off, EncodeTupleColumn(c), tail);
    CutInConcat(ColumnSegments(c), ss, n);
    past, p, m := |EncodeTupleColumn(c)| <= n, 0, 0;
    if past {
      p, m := off + |EncodeTupleColumn(c)|, n - |EncodeTupleColumn(c)|;
      PgFieldRoundTrip.TupleColumnComplete(data, off, c);
    } else {
      ColumnCut(data, off, n, c);
    }
  }

  lemma {:induction false} ColumnsCut(data: bytes, off: nat, n: nat, cs: seq<TupleColumn>)
    requires AllWellFormed(cs) && Cut(data, off, Printed(cs)) && off + n == |data|
    ensures Ends(ParseTupleColumns(data, off, |cs|), CutIn(ColumnsSegments(cs), n))
    decreases |cs|
  {
    hide *;
    FirstColumn(data, off, cs);
    var past, p, m := PastColumn(data, off, n, cs[0], Printed(cs[1..]), ColumnsSegments(cs[1..]));
    if past {
      ColumnsCut(data, p, m, cs[1..]);
      ColumnsGoOn(data, off, |cs|, CutIn(ColumnsSegments(cs), n));
    } else {
      ColumnsEnd(data, off, |cs|, CutIn(ColumnsSegments(cs), n));
    }
  }

  /** A tuple behind a marker: cut off in front of the marker, or behind it. */
  lemma MarkedCut(data: bytes, off: nat, n: nat, error: DecodeError, marker: byte, t: seq<TupleColumn>)
    requires WellFormedTuple(t) && Cut(data, off, EncodeMarked(marker, t)) && off + n == |data|
    ensures n == 0 ==> CutIn(MarkedSegments(error, t), n) == Some(error)
    ensures n > 0 ==> data[off] == marker && Ends(ParseTuple(data, off + 1), CutIn(MarkedSegments(error, t), n))
  {
    assert EncodeMarked(marker, t) == [marker] + EncodeTuple(t);
    assert AllWellFormed(t) && EncodeTuple(t) == EncodeU16(|t|) + Printed(t);
    hide *;
    InMarked(error, t, n);
    CutConcat(data, off, [marker], EncodeTuple(t));
    if n > 0 {
      var at := off + 1;
      AtByte(data, off, marker);
      CutConcat(data, at, EncodeU16(|t|), Printed(t));
      if n >= 3 {
        PgFieldRoundTrip.U16Complete(data, at, |t|);
        ColumnsCut(data, at + 2, n - 3, t);
        TupleEnds(data, at, at + 2, |t|, CutIn(ColumnsSegments(t), n - 3));
      } else {
        TupleEndsInCount(data, at);
      }
    }
  }

  lemma InMarked(error: DecodeError, t: seq<TupleColumn>, n: nat)
    ensures CutIn(MarkedSegments(error, t), n) ==
      if n < 1 then Some(error) else if n < 3 then None else CutIn(ColumnsSegments(t), n - 3)
  {
    var ss := MarkedSegments(error, t);
    assert ss[1..] == [Segment(2, None)] + ColumnsSegments(t) && ss[1..][1..] == ColumnsSegments(t);
    hide ColumnsSegments;
    if n >= 1 {
      assert CutIn(ss, n) == CutIn(ss[1..], n - 1);
    }
  }

  lemma TupleEnds(data: bytes, off: nat, p: nat, count: u16, o: Option<DecodeError>)
    requires ReadU16Be(data, off) == Done(count, p) && Ends(ParseTupleColumns(data, p, count), o)
    ensures Ends(ParseTuple(data, off), o)
  {
    hide ReadU16Be, ParseTupleColumns;
  }

  lemma TupleEndsInCount(data: bytes, off: nat)
    requires |data| < off + 2
    ensures Ends(ParseTuple(data, off), None)
  {
  }

  //////////////////////////////////////////////////////////////////////////////
  // Messages with tuples
  //////////////////////////////////////////////////////////////////////////////

  lemma OidCut(data: bytes, off: nat, n: nat, oid: u32, rest: bytes, ss: seq<Segment>)
    requires Cut(data, off, EncodeU32(oid) + rest) && off + n == |data|
    ensures n < 4 ==> ReadU32Be(data, off).Panic? && CutIn([Segment(4, None)] + ss, n) == None
    ensures n >= 4 ==>
      && ReadU32Be(data, off) == Done(oid, off + 4) && Cut(data, off + 4, rest)
      && CutIn([Segment(4, None)] + ss, n) == CutIn(ss, n - 4)
  {
    CutConcat(data, off, EncodeU32(oid), rest);
    if n >= 4 {
      PgFieldRoundTrip.U32Complete(data, off, oid);
    }
    assert ([Segment(4, None)] + ss)[1..] == ss;
    hide Cut, At, EncodeU32;
  }

  lemma InsertCut(data: bytes, off: nat, n: nat, w: WireMessage)
    requires w.msg.Insert? && WellFormed(w) && Cut(data, off, EncodeBody(w)) && off + n == |data|
    ensures Ends(ParseInsert(data, off), CutIn(BodySegments(w), n))
  {
    var t := w.msg.inserted;
    OidCut(data, off, n, w.msg.insertOid, EncodeMarked(NEW_TUPLE, t), MarkedSegments(TruncatedInsert, t));
    if n >= 4 {
      MarkedCut(data, off + 4, n - 4, TruncatedInsert, NEW_TUPLE, t);
    }
    hide Cut, EncodeU32, EncodeMarked, CutIn, MarkedSegments, ReadU32Be, ParseTuple;
  }

  lemma DeleteCut(data: bytes, off: nat, n: nat, w: WireMessage)
    requires w.msg.Delete? && WellFormed(w) && Cut(data, off, EncodeBody(w)) && off + n == |data|
    ensures Ends(ParseDelete(data, off), CutIn(BodySegments(w), n))
  {
    var marker, t := OldMarker(w.dropped), w.msg.deleted;
    OidCut(data, off, n, w.msg.deleteOid, EncodeMarked(marker, t), MarkedSegments(TruncatedDelete, t));
    if n >= 4 {
      MarkedCut(data, off + 4, n - 4, TruncatedDelete, marker, t);
    }
    hide Cut, EncodeU32, EncodeMarked, CutIn, MarkedSegments, ReadU32Be, ParseTuple;
  }

  lemma UpdateNewCut(data: bytes, off: nat, n: nat, oid: u32, t: seq<TupleColumn>)
    requires WellFormedTuple(t) && Cut(data, off, EncodeU32(oid) + EncodeMarked(NEW_TUPLE, t)) && off + n == |data|
    ensures Ends(ParseUpdate(data, off), CutIn([Segment(4, None)] + MarkedSegments(TruncatedUpdate, t), n))
  {
    OidCut(data, off, n, oid, EncodeMarked(NEW_TUPLE, t), MarkedSegments(TruncatedUpdate, t));
    if n >= 4 {
      MarkedCut(data, off + 4, n - 4, TruncatedUpdate, NEW_TUPLE, t);
    }
    hide Cut, EncodeU32, EncodeMarked, CutIn, MarkedSegments, ReadU32Be, ParseTuple;
  }

  lemma UpdateEndsInOid(data: bytes, off: nat)
    ensures ReadU32Be(data, off).Panic? ==> Ends(ParseUpdate(data, off), None)
  {
  }

  lemma UpdateEndsFirst(data: bytes, off: nat, at: nat, o: Option<DecodeError>)
    requires ReadU32Be(data, off).Done? && ReadU32Be(data, off).next == at <= |data|
    requires at == |data| ==> o == Some(TruncatedUpdate)
    requires at < |data| ==> (data[at] == KEY_TUPLE || data[at] == OLD_TUPLE) && Ends(ParseTuple(data, at + 1), o)
    ensures Ends(ParseUpdate(data, off), o)
  {
    hide ReadU32Be, ParseTuple;
  }

  lemma UpdateEndsSecond(data: bytes, off: nat, at: nat, mid: nat, o: Option<DecodeError>)
    requires ReadU32Be(data, off).Done? && ReadU32Be(data, off).next == at < |data|
    requires data[at] == KEY_TUPLE || data[at] == OLD_TUPLE
    requires ParseTuple(data, at + 1).Done? && ParseTuple(data, at + 1).next == mid <= |data|
    requires mid == |data| ==> o == Some(TruncatedUpdateAfterOld(data[at]))
    requires mid < |data| ==> data[mid] == NEW_TUPLE && Ends(ParseTuple(data, mid + 1), o)
    ensures Ends(ParseUpdate(data, off), o)
  {
    hide ReadU32Be, ParseTuple;
  }

  lemma UpdateOldCut(data: bytes, off: nat, n: nat, oid: u32, marker: byte, o: seq<TupleColumn>, t: seq<TupleColumn>)
    requires (marker == KEY_TUPLE || marker == OLD_TUPLE) && WellFormedTuple(o) && WellFormedTuple(t)
    requires Cut(data, off, EncodeU32(oid) + (EncodeMarked(marker, o) + EncodeMarked(NEW_TUPLE, t)))
    requires off + n == |data|
    ensures Ends(ParseUpdate(data, off),
                 CutIn([Segment(4, None)] + (MarkedSegments(TruncatedUpdate, o)
                         + MarkedSegments(TruncatedUpdateAfterOld(marker), t)), n))
  {
    var before, after := EncodeMarked(marker, o), EncodeMarked(NEW_TUPLE, t);
    var a, b := MarkedSegments(TruncatedUpdate, o), MarkedSegments(TruncatedUpdateAfterOld(marker), t);
    hide *;
    OidCut(data, off, n, oid, before + after, a + b);
    if n < 4 {
      UpdateEndsInOid(data, off);
    } else {
      BehindOidCut(data, off, off + 4, n - 4, marker, o, t);
    }
  }

  lemma BehindOidCut(data: bytes, off: nat, at: nat, n: nat, marker: byte, o: seq<TupleColumn>, t: seq<TupleColumn>)
    requires (marker == KEY_TUPLE || marker == OLD_TUPLE) && WellFormedTuple(o) && WellFormedTuple(t)
    requires ReadU32Be(data, off).Done? && ReadU32Be(data, off).next == at && at + n == |data|
    requires Cut(data, at, EncodeMarked(marker, o) + EncodeMarked(NEW_TUPLE, t))
    ensures Ends(ParseUpdate(data, off),
                 CutIn(MarkedSegments(TruncatedUpdate, o) + MarkedSegments(TruncatedUpdateAfterOld(marker), t), n))
  {
    var before, after := EncodeMarked(marker, o), EncodeMarked(NEW_TUPLE, t);
    var a, b := MarkedSegments(TruncatedUpdate, o), MarkedSegments(TruncatedUpdateAfterOld(marker), t);
    assert |before| > 0;
    hide *;
    CutConcat(data, at, before, after);
    SizeOfMarked(TruncatedUpdate, marker, o);
    CutInConcat(a, b, n);
    if n < |before| {
      MarkedCut(data, at, n, TruncatedUpdate, marker, o);
      UpdateEndsFirst(data, off, at, CutIn(a, n));
    } else {
      BehindOldCut(data, off, at, at + |before|, n - |before|, marker, o, t);
    }
  }

  lemma BehindOldCut(data: bytes, off: nat, at: nat, mid: nat, n: nat, marker: byte,
                     o: seq<TupleColumn>, t: seq<TupleColumn>)
    requires (marker == KEY_TUPLE || marker == OLD_TUPLE) && WellFormedTuple(o) && WellFormedTuple(t)
    requires ReadU32Be(data, off).Done? && ReadU32Be(data, off).next == at
    requires At(data, at, EncodeMarked(marker, o)) && mid == at + |EncodeMarked(marker, o)| && mid + n == |data|
    requires Cut(data, mid, EncodeMarked(NEW_TUPLE, t))
    ensures Ends(ParseUpdate(data, off), CutIn(MarkedSegments(TruncatedUpdateAfterOld(marker), t), n))
  {
    hide *;
    PgFieldRoundTrip.MarkedComplete(data, at, marker, o);
    MarkedCut(data, mid, n, TruncatedUpdateAfterOld(marker), NEW_TUPLE, t);
    UpdateEndsSecond(data, off, at, mid, CutIn(MarkedSegments(TruncatedUpdateAfterOld(marker), t), n));
  }

  //////////////////////////////////////////////////////////////////////////////
  // Messages without
  //////////////////////////////////////////////////////////////////////////////

  lemma {:induction false} ColumnsNeverFail(data: bytes, off: nat, count: nat)
    ensures !ParseRelationColumns(data, off, count).Fail?
    decreases count
  {
    if count > 0 {
      var c := ParseRelationColumn(data, off);
      if c.Done? {
        ColumnsNeverFail(data, c.next, count - 1);
      }
    }
  }

  lemma {:induction false} OidsNeverFail(data: bytes, off: nat, count: nat)
    ensures !ParseOids(data, off, count).Fail?
    decreases count
  {
    if count > 0 && ReadU32Be(data, off).Done? {
      OidsNeverFail(data, off + 4, count - 1);
    }
  }

  lemma RelationNeverFails(data: bytes, off: nat)
    ensures !ParseRelation(data, off).Fail?
  {
    forall p: nat, count: nat ensures !ParseRelationColumns(data, p, count).Fail? {
      ColumnsNeverFail(data, p, count);
    }
    hide ParseRelationColumns;
  }

  lemma TruncateNeverFails(data: bytes, off: nat)
    ensures !ParseTruncate(data, off).Fail?
  {
    if ReadU32Be(data, off).Done? {
      OidsNeverFail(data, off + 5, ReadU32Be(data, off).value);
    }
  }

  /** A proper prefix of an encoding is no message. */
  lemma PrefixIsNoMessage(w: WireMessage, n: nat)
    requires WellFormed(w) && 0 < n < |Encode(w)|
    ensures Encode(w)[0] == TypeByte(w.msg) && !Parse(Encode(w)[..n], 0).Done?
  {
    var whole, data := Encode(w), Encode(w)[..n];
    assert whole[0] == TypeByte(w.msg) && data[0] == whole[0];
    PgRoundTrip.DecodeOfEncode(w, []);
    assert whole + [] == whole;
    hide Encode, Parse;
    if Parse(data, 0).Done? {
      PgRoundTrip.DecodeDependsOnConsumed(data, whole);
    }
  }

  //////////////////////////////////////////////////////////////////////////////
  // Every message
  //////////////////////////////////////////////////////////////////////////////

  predicate IsPlain(m: PgOutputMessage) { m.Begin? || m.Commit? || m.Relation? || m.Truncate? }

  lemma PlainNeverFails(data: bytes, off: nat, m: PgOutputMessage)
    requires IsPlain(m)
    ensures !ParseBody(TypeByte(m), data, off).Fail?
  {
    RelationNeverFails(data, off);
    TruncateNeverFails(data, off);
    hide ParseRelation, ParseTruncate;
  }

  lemma PlainIsUnchecked(w: WireMessage, n: nat)
    requires WellFormed(w) && IsPlain(w.msg)
    ensures CutIn(BodySegments(w), n) == None
  {
    OneSegment(Segment(|EncodeBody(w)|, None), n);
    hide EncodeBody, CutIn;
  }

  lemma BodyCut(data: bytes, off: nat, n: nat, w: WireMessage)
    requires WellFormed(w) && Cut(data, off, EncodeBody(w)) && off + n == |data|
    requires !ParseBody(TypeByte(w.msg), data, off).Done?
    ensures Ends(ParseBody(TypeByte(w.msg), data, off), CutIn(BodySegments(w), n))
  {
    if IsPlain(w.msg) {
      PlainNeverFails(data, off, w.msg);
      PlainIsUnchecked(w, n);
      hide ParseBody, CutIn, BodySegments, EncodeBody, Cut;
    } else {
      TupleBodyCut(data, off, n, w);
      hide ParseBody, CutIn, BodySegments, EncodeBody, Cut, Ends;
    }
  }

  lemma TupleBodyCut(data: bytes, off: nat, n: nat, w: WireMessage)
    requires WellFormed(w) && !IsPlain(w.msg) && Cut(data, off, EncodeBody(w)) && off + n == |data|
    ensures Ends(ParseBody(TypeByte(w.msg), data, off), CutIn(BodySegments(w), n))
  {
    hide ParseInsert, ParseUpdate, ParseDelete, EncodeMarked, MarkedSegments, CutIn, Cut, Ends, EncodeU32,
      WellFormedTuple;
    match w.msg
    case Insert(_, _) => InsertCut(data, off, n, w);
    case Update(oid, None, t) => UpdateNewCut(data, off, n, oid, t);
    case Update(oid, Some(o), t) => UpdateOldCut(data, off, n, oid, OldMarker(w.dropped), o, t);
    case Delete(_, _) => DeleteCut(data, off, n, w);
  }

  /** Every message cut off anywhere behind its type byte: the decoder returns the error of the field
      the cut falls into when that field is checked, and panics exactly when it is not. */
  lemma CutMessage(w: WireMessage, n: nat)
    requires WellFormed(w) && 0 < n < |Encode(w)|
    ensures Decoding(Encode(w)[..n]) ==
      match CutIn(BodySegments(w), n - 1) case Some(e) => Failed(e) case None => Panicked
  {
    var data := Encode(w)[..n];
    PrefixIsNoMessage(w, n);
    assert Cut(data, 0, [TypeByte(w.msg)] + EncodeBody(w));
    CutConcat(data, 0, [TypeByte(w.msg)], EncodeBody(w));
    assert data[0] == TypeByte(w.msg);
    hide Cut, At, EncodeBody, CutIn, BodySegments, WellFormed, ParseBody;
    BodyCut(data, 1, n - 1, w);
  }

  /** The streamer then stops, with nothing sent and nothing remembered of the message. */
  lemma CutChunk(db: bytes, s: PgStreamer.StreamState, w: WireMessage, n: nat)
    requires WellFormed(w) && 0 < n < |Encode(w)|
    ensures PgStreamer.Step(db, s, Encode(w)[..n]) ==
      (s, match CutIn(BodySegments(w), n - 1)
          case Some(e) => PgStreamer.DecodeFailed(e)
          case None => PgStreamer.Crashed)
  {
    hide *;
    CutMessage(w, n);
    PrefixIsNoMessage(w, n);
    TypeIsNoKeepalive(w.msg);
    StepEnds(db, s, Encode(w)[..n]);
  }

  lemma TypeIsNoKeepalive(m: PgOutputMessage)
    ensures TypeByte(m) != PgStreamer.KEEPALIVE
  {
  }

  lemma StepEnds(db: bytes, s: PgStreamer.StreamState, chunk: bytes)
    requires chunk != [] && chunk[0] != PgStreamer.KEEPALIVE
    ensures var d := Decoding(chunk);
      && (d.Failed? ==> PgStreamer.Step(db, s, chunk) == (s, PgStreamer.DecodeFailed(d.error)))
      && (d.Panicked? ==> PgStreamer.Step(db, s, chunk) == (s, PgStreamer.Crashed))
  {
    hide Decoding;
  }
}
