/** Messages that are whole but wrong: which error the decoder names for which byte. */
module PgFaults {
  import opened Wrappers
  import opened Bits
  import opened PgMessages
  import opened PgParse
  import opened PgDecoder
  import opened PgCuts
  import PgFieldRoundTrip

  /** The start of an insert 'I', update 'U' or delete 'D': its type and the oid of its relation. */
  ghost function Start(kind: byte, oid: u32): bytes { [kind] + EncodeU32(oid) }

  /** The markers that may stand in front of the first tuple of a message. */
  predicate FirstMarker(kind: byte, marker: byte) {
    || (kind == 73 && marker == 78)
    || (kind == 85 && marker in {75, 78, 79})
    || (kind == 68 && marker in {75, 79})
  }

  lemma AfterStart(data: bytes, kind: byte, oid: u32, b: byte)
    requires At(data, 0, Start(kind, oid) + [b])
    ensures data != [] && data[0] == kind && ReadU32Be(data, 1) == Done(oid, 5) && 5 < |data| && data[5] == b
  {
    hide EncodeU32, ReadU32Be, At;
    AtConcat(data, 0, Start(kind, oid), [b]);
    AtConcat(data, 0, [kind], EncodeU32(oid));
    AtByte(data, 0, kind);
    AtByte(data, 5, b);
    PgFieldRoundTrip.U32Complete(data, 1, oid);
  }

  /** A first marker the message cannot have is an error that names it. */
  lemma WrongMarker(data: bytes, kind: byte, oid: u32, b: byte)
    requires kind in {73, 85, 68} && !FirstMarker(kind, b)
    requires At(data, 0, Start(kind, oid) + [b])
    ensures Decoding(data) == Failed(
      match kind
      case 73 => ExpectedNewInInsert(b)
      case 85 => UnknownTupleInUpdate(b)
      case _ => UnknownTupleInDelete(b))
  {
    AfterStart(data, kind, oid, b);
    hide At, ReadU32Be, ParseTuple;
  }

  /** An error in the first tuple is the error of the message. */
  lemma WrongFirstTuple(data: bytes, kind: byte, oid: u32, marker: byte, e: DecodeError)
    requires FirstMarker(kind, marker) && At(data, 0, Start(kind, oid) + [marker])
    requires ParseTuple(data, 6) == Fail(e)
    ensures Decoding(data) == Failed(e)
  {
    AfterStart(data, kind, oid, marker);
    hide At, ReadU32Be, ParseTuple;
  }

  /** Behind the old tuple of an update only 'N' may stand; any other byte is named in the error. */
  lemma WrongSecondMarker(data: bytes, oid: u32, marker: byte, was: seq<TupleColumn>, b: byte)
    requires marker in {75, 79} && WellFormedTuple(was) && b != 78
    requires At(data, 0, Start(85, oid) + (EncodeMarked(marker, was) + [b]))
    ensures Decoding(data) == Failed(ExpectedNewAfterOld(marker, b))
  {
    var start, before := Start(85, oid), EncodeMarked(marker, was);
    assert |start| == 5 && before == [marker] + EncodeTuple(was);
    hide *;
    AtConcat(data, 0, start, before + [b]);
    AtConcat(data, 5, before, [b]);
    AtConcat(data, 5, [marker], EncodeTuple(was));
    AtConcat(data, 0, start, [marker]);
    PgFieldRoundTrip.MarkedComplete(data, 5, marker, was);
    AtByte(data, 5 + |before|, b);
    AfterStart(data, 85, oid, marker);
    assert 6 == 5 + 1;
    SecondMarkerStep(data, oid, marker, was, 5 + |before|, b);
  }

  lemma SecondMarkerStep(data: bytes, oid: u32, marker: byte, was: seq<TupleColumn>, mid: nat, b: byte)
    requires |data| > 5 && data[0] == 85 && data[5] == marker && marker in {75, 79}
    requires ReadU32Be(data, 1) == Done(oid, 5) && ParseTuple(data, 6) == Done(was, mid)
    requires mid < |data| && data[mid] == b && b != 78
    ensures Decoding(data) == Failed(ExpectedNewAfterOld(marker, b))
  {
    hide ReadU32Be, ParseTuple;
  }

  //////////////////////////////////////////////////////////////////////////////
  // Columns
  //////////////////////////////////////////////////////////////////////////////

  /** A column with a kind that is not 'n', 'u' or 't', or a text of negative length. */
  datatype Fault = UnknownKind(kind: byte) | NegativeLength(n: i32)

  predicate IsFault(f: Fault) {
    match f
    case UnknownKind(b) => b !in {110, 116, 117}
    case NegativeLength(n) => n < 0
  }

  ghost function FaultBytes(f: Fault): bytes {
    match f
    case UnknownKind(b) => [b]
    case NegativeLength(n) => [116] + EncodeI32(n)
  }

  function FaultError(f: Fault): DecodeError {
    match f
    case UnknownKind(b) => UnknownColumnKind(b)
    case NegativeLength(_) => NegativeValueLength
  }

  lemma WrongColumn(data: bytes, off: nat, f: Fault)
    requires IsFault(f) && At(data, off, FaultBytes(f))
    ensures ParseTupleColumn(data, off) == Fail(FaultError(f))
  {
    match f
    case UnknownKind(b) =>
      AtByte(data, off, b);
    case NegativeLength(n) =>
      AtConcat(data, off, [116], EncodeI32(n));
      AtByte(data, off, 116);
      PgFieldRoundTrip.U32Complete(data, off + 1, FromI32(n));
      hide EncodeU32, ReadU32Be, At;
  }

  /** The first faulty column ends the tuple, whatever stands in front of it or behind. */
  lemma {:induction false} WrongColumns(data: bytes, off: nat, count: nat, cs: seq<TupleColumn>, f: Fault)
    requires AllWellFormed(cs) && |cs| < count && IsFault(f)
    requires At(data, off, Printed(cs) + FaultBytes(f))
    ensures ParseTupleColumns(data, off, count) == Fail(FaultError(f))
    decreases |cs|
  {
    hide *;
    if cs == [] {
      NothingPrinted(FaultBytes(f));
      WrongColumn(data, off, f);
      FailEnds(ParseTupleColumn(data, off), FaultError(f));
      ColumnsEnd(data, off, count, Some(FaultError(f)));
      FailEnds(ParseTupleColumns(data, off, count), FaultError(f));
    } else {
      FirstPrinted(cs, FaultBytes(f));
      var first, rest := EncodeTupleColumn(cs[0]), Printed(cs[1..]) + FaultBytes(f);
      AtConcat(data, off, first, rest);
      PgFieldRoundTrip.TupleColumnComplete(data, off, cs[0]);
      WrongColumns(data, off + |first|, count - 1, cs[1..], f);
      FailEnds(ParseTupleColumns(data, off + |first|, count - 1), FaultError(f));
      ColumnsGoOn(data, off, count, Some(FaultError(f)));
      FailEnds(ParseTupleColumns(data, off, count), FaultError(f));
    }
  }

  lemma FailEnds<T>(r: Read<T>, e: DecodeError)
    ensures Ends(r, Some(e)) <==> r == Fail(e)
  {
  }

  lemma NothingPrinted(tail: bytes)
    ensures AllWellFormed([]) && Printed([]) + tail == tail
  {
  }

  lemma FirstPrinted(cs: seq<TupleColumn>, tail: bytes)
    requires cs != [] && AllWellFormed(cs)
    ensures WellFormedColumn(cs[0]) && AllWellFormed(cs[1..])
    ensures Printed(cs) + tail == EncodeTupleColumn(cs[0]) + (Printed(cs[1..]) + tail)
  {
    hide WellFormedColumn, EncodeTupleColumn;
  }

  /** Every message with a faulty column in its first tuple: the first fault, behind any number of
      good columns, is the error. */
  lemma FaultyColumn(data: bytes, kind: byte, oid: u32, marker: byte, count: u16, cs: seq<TupleColumn>, f: Fault)
    requires FirstMarker(kind, marker) && AllWellFormed(cs) && |cs| < count && IsFault(f)
    requires At(data, 0, Start(kind, oid) + ([marker] + (EncodeU16(count) + (Printed(cs) + FaultBytes(f)))))
    ensures Decoding(data) == Failed(FaultError(f))
  {
    var start, columns := Start(kind, oid), Printed(cs) + FaultBytes(f);
    assert |start| == 5;
    hide *;
    AtConcat(data, 0, start, [marker] + (EncodeU16(count) + columns));
    Split3(data, 5, [marker] + (EncodeU16(count) + columns), [marker], EncodeU16(count), columns);
    AtConcat(data, 0, start, [marker]);
    PgFieldRoundTrip.U16Complete(data, 6, count);
    WrongColumns(data, 8, count, cs, f);
    FailEnds(ParseTupleColumns(data, 8, count), FaultError(f));
    TupleEnds(data, 6, 8, count, Some(FaultError(f)));
    FailEnds(ParseTuple(data, 6), FaultError(f));
    WrongFirstTuple(data, kind, oid, marker, FaultError(f));
  }
}
