/** Column values of pgoutput: the text of a value read by the type of its column. */
module PgValues {
  import opened Wrappers
  import opened Bits
  import opened ChangeEvents
  import opened Numerals

  const BOOL_OID: u32 := 16
  const INT8_OID: u32 := 20
  const INT2_OID: u32 := 21
  const INT4_OID: u32 := 23
  const OID_OID: u32 := 26
  const XID_OID: u32 := 28
  const JSON_OID: u32 := 114
  const FLOAT4_OID: u32 := 700
  const FLOAT8_OID: u32 := 701
  const JSONB_OID: u32 := 3802

  /** The bytes as characters; a byte outside ASCII becomes a character that is no digit or sign. */
  function Chars(raw: bytes): string {
    seq(|raw|, i requires 0 <= i < |raw| => raw[i] as char)
  }

  function NumberOrNull(n: Option<int>): Json {
    if n.Some? then Number(n.value) else Null
  }

  function PgValue(raw: bytes, typeOid: u32): Json {
    var s := Chars(raw);
    if typeOid == BOOL_OID then Bool(s == "t" || s == "true")
    else if typeOid == INT2_OID || typeOid == INT4_OID then NumberOrNull(ParseSigned(s, 0x8000_0000))
    else if typeOid == INT8_OID || typeOid == XID_OID then NumberOrNull(ParseSigned(s, 0x8000_0000_0000_0000))
    else if typeOid == FLOAT4_OID then Symbolic("float4", raw)
    else if typeOid == FLOAT8_OID then Symbolic("float8", raw)
    else if typeOid == JSON_OID || typeOid == JSONB_OID then Symbolic("json", raw)
    else if typeOid == OID_OID then
      match ParseUnsigned(s, 10, 0x1_0000_0000)
      case Some(n) => Number(n)
      case None => Null
    else Text(raw)
  }

  //////////////////////////////////////////////////////////////////////////////
  // What a column holds, by the oids of the catalog pg_type
  //////////////////////////////////////////////////////////////////////////////

  /** int8, int2, int4, oid and xid */
  predicate IsInteger(typeOid: u32) { typeOid in {20, 21, 23, 26, 28} }

  /** The range an integer column is read in; a two-byte integer has the range of a four-byte one,
      and only an oid is unsigned. */
  predicate InRange(n: int, typeOid: u32)
    requires IsInteger(typeOid)
  {
    match typeOid
    case 21 | 23 => -0x8000_0000 <= n < 0x8000_0000
    case 20 | 28 => -0x8000_0000_0000_0000 <= n < 0x8000_0000_0000_0000
    case _ => 0 <= n < 0x1_0000_0000
  }

  ghost predicate Numeral(raw: bytes, n: int, typeOid: u32) {
    if typeOid == 26 then DenotesUnsigned(Chars(raw), 10, n) else DenotesSigned(Chars(raw), n)
  }

  /** An integer column is a number exactly when its text is a numeral of that number, in the range
      of its type and with a sign the type can have; else it is null. */
  lemma IntegerColumn(raw: bytes, typeOid: u32, n: int)
    requires IsInteger(typeOid)
    ensures PgValue(raw, typeOid) == Number(n) <==> InRange(n, typeOid) && Numeral(raw, n, typeOid)
    ensures PgValue(raw, typeOid).Number? || PgValue(raw, typeOid).Null?
  {
    var s := Chars(raw);
    hide ParseSigned, ParseUnsigned, DenotesUnsigned, DenotesSigned;
    match typeOid {
      case 21 | 23 => SignedIff(s, 0x8000_0000, n);
      case 20 | 28 => SignedIff(s, 0x8000_0000_0000_0000, n);
      case _ =>
        UnsignedIff(s, 10, 0x1_0000_0000, n);
        UnsignedIsNatural(s, n);
    }
  }

  lemma UnsignedIsNatural(s: string, n: int)
    ensures DenotesUnsigned(s, 10, n) ==> n >= 0
  {
    NaturalNumeral(s, n);
    if s != "" {
      NaturalNumeral(s[1..], n);
    }
    hide Denotes;
  }

  /** In particular the text PostgreSQL prints for an integer comes out as that number exactly when
      it is in range. */
  lemma IntegerReadsBack(raw: bytes, n: int, typeOid: u32)
    requires IsInteger(typeOid) && Chars(raw) == ShowSigned(n)
    ensures PgValue(raw, typeOid) == if InRange(n, typeOid) then Number(n) else Null
  {
    match typeOid {
      case 21 | 23 => SignedReadsBack(n, 0x8000_0000);
      case 20 | 28 => SignedReadsBack(n, 0x8000_0000_0000_0000);
      case _ =>
        if n >= 0 {
          DecimalReadBack(n, 0x1_0000_0000);
        } else {
          NegativeIsNotUnsigned(Decimal(-n), 0x1_0000_0000);
        }
    }
    hide ParseSigned, ParseUnsigned;
  }

  lemma NegativeIsNotUnsigned(digits: string, limit: nat)
    requires limit > 0
    ensures ParseUnsigned("-" + digits, 10, limit) == None
  {
    assert DigitOf('-', 10) == None;
    assert ParseDigits("-" + digits, 10, limit, 0) == None;
  }

  /** A boolean is true exactly for the two texts the decoder knows. */
  lemma BooleanText(raw: bytes)
    ensures PgValue(raw, 16) == Bool(raw == [116] || raw == [116, 114, 117, 101])
  {
    assert |Chars(raw)| == |raw|;
    assert forall i :: 0 <= i < |raw| ==> Chars(raw)[i] as int == raw[i];
    assert Chars(raw) == "t" <==> |raw| == 1 && raw[0] == 116;
    assert Chars(raw) == "true" <==> |raw| == 4 && raw[0] == 116 && raw[1] == 114 && raw[2] == 117 && raw[3] == 101;
  }

  /** A column of any type that is no integer: booleans are truth values, floats and embedded JSON
      are conversions of their text, and everything else is its text. */
  lemma OtherColumn(raw: bytes, typeOid: u32)
    requires !IsInteger(typeOid)
    ensures PgValue(raw, typeOid) ==
      match typeOid
      case 16 => Bool(raw == [116] || raw == [116, 114, 117, 101])
      case 700 => Symbolic("float4", raw)
      case 701 => Symbolic("float8", raw)
      case 114 | 3802 => Symbolic("json", raw)
      case _ => Text(raw)
  {
    BooleanText(raw);
    hide Chars;
  }
}
