/** Column values printed by the type codes of the binlog, and what the parser reads of them. */
module MysqlCells {
  import opened Wrappers
  import opened Bits
  import opened ChangeEvents
  import opened MysqlColumns
  import opened MysqlRows
  import opened MysqlValueFacts
  import Numerals

  /** An abstract column value; a raw one is known by its bytes alone. */
  datatype Cell = NullCell | IntCell(n: int) | TextCell(text: bytes) | RawCell(raw: bytes)

  //////////////////////////////////////////////////////////////////////////////
  // The types
  //////////////////////////////////////////////////////////////////////////////

  /** The bytes of a cell whose type has a width of its own. */
  function CellWidth(t: byte, meta: u16): nat {
    match t
    case 1 => 1                                       // TINY
    case 2 | 13 => 2                                  // SHORT, YEAR
    case 3 | 4 | 7 | 9 | 10 | 11 => 4                 // LONG, FLOAT, TIMESTAMP, INT24, DATE, TIME
    case 5 | 8 | 12 => 8                              // DOUBLE, LONGLONG, DATETIME
    case 16 => (meta / 256 * 8 + meta % 256 + 7) / 8  // BIT, by bytes and bits
    case 17 | 18 | 19 => 5 + (meta % 256 + 1) / 2     // TIMESTAMP2, DATETIME2, TIME2
    case 246 => meta / 256 + 4                        // NEWDECIMAL
    case _ => 0
  }

  /** The bytes in front of a string or blob that carry its length. */
  function LengthBytes(t: byte): nat {
    match t
    case 15 | 253 | 254 => 1  // VARCHAR, VAR_STRING, STRING
    case 249 => 1             // TINY_BLOB
    case 252 => 2             // BLOB
    case 250 => 3             // MEDIUM_BLOB
    case 251 => 4             // LONG_BLOB
    case _ => 0
  }

  predicate IsText(t: byte) { LengthBytes(t) > 0 }

  predicate IsInteger(t: byte) { t in {1, 2, 3, 7, 8, 9, 16} }

  /** Types of a width of their own whose cells are given by their bytes. */
  predicate IsRaw(t: byte) { t in {4, 5, 10, 11, 12, 13, 17, 18, 19, 246} }

  /** Column types whose values round-trip: all but bit columns of no or more than eight bytes, and
      the types the parser gives no width. */
  predicate Supported(t: byte, meta: u16) {
    (IsInteger(t) && 1 <= CellWidth(t, meta) <= 8) || IsText(t) || IsRaw(t)
  }

  /** Types of which different cells may have one value: floats and decimals, whose values are not
      modelled, and types of which the decoder drops bytes or bits. */
  predicate Merges(t: byte) { t in {4, 5, 13, 17, 18, 246} }

  /** What a column of the type can hold and the parser reads back; of long blobs only empty ones. */
  ghost predicate Representable(c: Cell, t: byte, meta: u16)
    requires Supported(t, meta)
  {
    match c
    case NullCell => true
    case IntCell(n) =>
      if t == 1 && MarkedSigned(meta) then -0x80 <= n < 0x80
      else if t == 2 && MarkedSigned(meta) then -0x8000 <= n < 0x8000
      else IsInteger(t) && 0 <= n < Pow256(CellWidth(t, meta))
    case TextCell(s) => IsText(t) && |s| < Pow256(LengthBytes(t)) && (t == 251 ==> s == [])
    case RawCell(raw) => IsRaw(t) && |raw| == CellWidth(t, meta)
  }

  function First(s: bytes, n: nat): bytes { if |s| <= n then s else s[..n] }

  /** The two lower-case hexadecimal digits of each byte. */
  function HexOf(raw: bytes): (s: bytes)
    ensures |s| == 2 * |raw|
  {
    seq(2 * |raw|, i requires 0 <= i < 2 * |raw| =>
      "0123456789abcdef"[if i % 2 == 0 then raw[i / 2] / 16 else raw[i / 2] % 16] as int)
  }

  /** The value of a cell given by its bytes. */
  function RawJson(raw: bytes, t: byte): Json {
    match t
    case 4 => if LeValue(raw) / 0x80_0000 % 0x100 == 0xff then Null else Symbolic("float", raw)
    case 5 => if LeValue(raw) / 0x10_0000_0000_0000 % 0x800 == 0x7ff then Null else Symbolic("double", raw)
    case 10 => DateTimeText(DateParts(LeValue(raw)))
    case 12 => DateTimeText(DateTimeFields(AsI64(LeValue(raw) % 0x1_0000_0000_0000_0000)))
    case 13 => Number(1900 + LeValue(First(raw, 1)))
    case 17 => Number(LeValue(First(raw, 4)))
    case 18 =>
      DateTimeText(DateTime2Fields(BeValue(First(raw, 5)))
        + if |raw| > 5 then [BeValue(raw[5..]) % 0x1_0000_0000_0000_0000] else [])
    case 246 => Symbolic("decimal", raw)
    case _ => Text(HexOf(raw))
  }

  /** The JSON value of a cell: an integer of eight bytes above the signed range is decimal text. */
  function JsonOf(c: Cell, t: byte): Json {
    match c
    case NullCell => Null
    case IntCell(n) =>
      if (t == 8 || t == 16) && n >= 0x8000_0000_0000_0000 then Text(Ascii(Numerals.Decimal(n))) else Number(n)
    case TextCell(s) => Text(s)
    case RawCell(raw) => RawJson(raw, t)
  }

  /** The parser's widths and prefixes are those of the type codes. In particular its value decoder
      never sees a string, a blob, JSON, an ENUM or a SET of a row. */
  lemma WidthsByCode(t: byte, meta: u16)
    ensures ColumnDataLength(t, meta) == CellWidth(t, meta)
    ensures IsString(t) <==> t in {15, 253, 254}
    ensures IsBlob(t) <==> t in {249, 250, 251, 252}
    ensures IsBlob(t) ==> BlobPrefix(t) == LengthBytes(t)
  {
    assert forall n: nat {:trigger CeilDiv(n, 2)} :: CeilDiv(n, 2) == (n + 1) / 2;
  }

  //////////////////////////////////////////////////////////////////////////////
  // Values keep cells apart
  //////////////////////////////////////////////////////////////////////////////

  /** No two cells of one column share a JSON value, text being its bytes. Nothing is said of the
      columns whose values are not modelled or drop bytes: there different cells may share one. */
  lemma JsonInjective(a: Cell, b: Cell, t: byte, meta: u16)
    requires Supported(t, meta) && Representable(a, t, meta) && Representable(b, t, meta)
    requires !Merges(t)
    requires JsonOf(a, t) == JsonOf(b, t)
    ensures a == b
  {
    if a.RawCell? && b.RawCell? {
      RawInjective(a.raw, b.raw, t);
    }
    if a.IntCell? && b.IntCell? && a.n >= 0x8000_0000_0000_0000 {
      DecimalAscii(a.n);
      DecimalAscii(b.n);
      AsciiInjective(Numerals.Decimal(a.n), Numerals.Decimal(b.n));
      Numerals.DecimalInjective(a.n, b.n);
    }
    hide DateParts, DateTimeFields, RawJson, Pow256, Numerals.Decimal, Ascii;
  }

  lemma RawInjective(a: bytes, b: bytes, t: byte)
    requires IsRaw(t) && !Merges(t) && |a| == |b| && RawJson(a, t) == RawJson(b, t)
    requires t == 12 ==> |a| == 8
    ensures a == b
  {
    assert t in {10, 11, 12, 19};
    RawValues(a);
    RawValues(b);
    hide *;
    if t == 10 {
      DatePartsInjective(LeValue(a), LeValue(b));
      LeValueInjective(a, b);
    } else if t == 12 {
      var m, n := AsI64(LeValue(a) % 0x1_0000_0000_0000_0000), AsI64(LeValue(b) % 0x1_0000_0000_0000_0000);
      DateTimeFieldsInjective(m, n);
      SignedWord(a);
      SignedWord(b);
      LeValueInjective(a, b);
    } else {
      HexInjective(a, b);
    }
  }

  lemma RawValues(raw: bytes)
    ensures RawJson(raw, 10) == DateTimeText(DateParts(LeValue(raw)))
    ensures RawJson(raw, 12) == DateTimeText(DateTimeFields(AsI64(LeValue(raw) % 0x1_0000_0000_0000_0000)))
    ensures RawJson(raw, 11) == RawJson(raw, 19) == Text(HexOf(raw))
  {
    hide LeValue, DateParts, DateTimeFields, HexOf;
  }

  lemma SignedWord(raw: bytes)
    requires |raw| == 8
    ensures var n := LeValue(raw);
      n == n % 0x1_0000_0000_0000_0000 == FromI64(AsI64(n % 0x1_0000_0000_0000_0000))
  {
    LeFits(raw);
  }

  lemma HexPair(raw: bytes, i: nat)
    requires i < |raw|
    ensures HexOf(raw)[2 * i] == "0123456789abcdef"[raw[i] / 16] as int
    ensures HexOf(raw)[2 * i + 1] == "0123456789abcdef"[raw[i] % 16] as int
  {
  }

  lemma HexDigitsDiffer(a: nat, b: nat)
    requires a < 16 && b < 16 && "0123456789abcdef"[a] == "0123456789abcdef"[b]
    ensures a == b
  {
  }

  lemma HexInjective(a: bytes, b: bytes)
    requires HexOf(a) == HexOf(b)
    ensures a == b
  {
    assert |a| == |b|;
    hide HexOf;
    forall i | 0 <= i < |a| ensures a[i] == b[i] {
      HexPair(a, i);
      HexPair(b, i);
      HexDigitsDiffer(a[i] / 16, b[i] / 16);
      HexDigitsDiffer(a[i] % 16, b[i] % 16);
    }
  }

  lemma LeValueHead(a: bytes)
    requires a != []
    ensures LeValue(a) % 256 == a[0] && LeValue(a) / 256 == LeValue(a[1..])
  {
    DivModUnique(LeValue(a), 256, LeValue(a[1..]), a[0]);
  }

  lemma {:induction false} LeValueInjective(a: bytes, b: bytes)
    requires |a| == |b| && LeValue(a) == LeValue(b)
    ensures a == b
  {
    hide LeValue;
    if a != [] {
      LeValueHead(a);
      LeValueHead(b);
      LeValueInjective(a[1..], b[1..]);
      assert a == [a[0]] + a[1..] && b == [b[0]] + b[1..];
    }
  }

  //////////////////////////////////////////////////////////////////////////////
  // Dates keep apart
  //////////////////////////////////////////////////////////////////////////////

  /** The date of a day number from 366 on: the year by the mean length of a year, months of thirty
      days behind the days of the years before. Below that the year is 1970 and the rest negative. */
  lemma DateMeaning(days: nat)
    requires days > 0
    ensures var y, m, d, n := DateParts(days)[0], DateParts(days)[1], DateParts(days)[2], days - 366;
      && |DateParts(days)| == 3
      && n == 365 * (y - 1970) + (y - 1969) / 4 + 30 * (m - 1) + (d - 1)
      && (n >= 0 ==> 36525 * (y - 1970) <= 100 * n + 50 < 36525 * (y - 1969) && 1 <= d <= 30)
      && (n < 0 ==> y == 1970 && -29 <= d - 1 <= 0)
  {
    var n := days - 366;
    var parts := DateParts(days);
    var y := parts[0];
    if n >= 0 {
      var q: nat := (100 * n + 50) / 36525;
      assert y == 1970 + q;
      YearsPass(n, q);
    } else {
      assert y == 1970 by { assert -36525 < n * 100 + 50 < 36525; }
    }
  }

  lemma YearsPass(n: nat, q: nat)
    requires q == (100 * n + 50) / 36525
    ensures n >= 365 * q + (q + 1) / 4
  {
  }

  /** Approximate as it is, the formula for dates keeps all days apart. */
  lemma DatePartsInjective(a: nat, b: nat)
    requires DateParts(a) == DateParts(b)
    ensures a == b
  {
    if a > 0 {
      DateMeaning(a);
    }
    if b > 0 {
      DateMeaning(b);
    }
    hide DateParts;
  }

  lemma DigitPairs(x: int)
    ensures x == 10000 * TruncDiv(x, 10000) + 100 * TruncDiv(TruncMod(x, 10000), 100) + TruncMod(x, 100)
  {
    var z: nat := if x < 0 then -x else x;
    var r := z % 10000;
    DivModUnique(z, 100, 100 * (z / 10000) + r / 100, r % 100);
    assert TruncMod(x, 10000) == if x < 0 then -r else r;
  }

  /** A negative word has the fields of its opposite, each negated. */
  lemma NegatedFields(packed: i64)
    requires packed > 0
    ensures var f, g := DateTimeFields(packed), DateTimeFields(-packed);
      |f| == |g| == 6 && forall i :: 0 <= i < 6 ==> g[i] == -f[i]
  {
    var d, t := TruncDiv(packed, 1000000), TruncMod(packed, 1000000);
    Negated(packed, 1000000);
    Negated(d, 10000);
    Negated(TruncMod(d, 10000), 100);
    Negated(d, 100);
    Negated(t, 10000);
    Negated(TruncMod(t, 10000), 100);
    Negated(t, 100);
    hide TruncDiv, TruncMod;
  }

  lemma Negated(x: int, b: nat)
    requires b > 0 && x >= 0
    ensures TruncDiv(-x, b) == -TruncDiv(x, b) <= 0 && TruncMod(-x, b) == -TruncMod(x, b) <= 0
  {
  }

  lemma PackedOfFields(packed: i64)
    ensures var f := DateTimeFields(packed);
      packed == 1000000 * (10000 * f[0] + 100 * f[1] + f[2]) + (10000 * f[3] + 100 * f[4] + f[5])
  {
    DigitPairs(TruncDiv(packed, 1000000));
    DigitPairs(TruncMod(packed, 1000000));
    assert packed == 1000000 * TruncDiv(packed, 1000000) + TruncMod(packed, 1000000);
    hide TruncDiv, TruncMod;
  }

  lemma DateTimeFieldsInjective(a: i64, b: i64)
    requires DateTimeFields(a) == DateTimeFields(b)
    ensures a == b
  {
    PackedOfFields(a);
    PackedOfFields(b);
    hide DateTimeFields;
  }

  //////////////////////////////////////////////////////////////////////////////
  // Printed cells
  //////////////////////////////////////////////////////////////////////////////

  /** Two's complement of an integer in the width of its column. */
  function Unsigned(n: int, width: nat): int { if n < 0 then n + Pow256(width) else n }

  lemma UnsignedFits(c: Cell, t: byte, meta: u16)
    requires Supported(t, meta) && Representable(c, t, meta) && c.IntCell?
    ensures 0 <= Unsigned(c.n, CellWidth(t, meta)) < Pow256(CellWidth(t, meta))
  {
    Pow256Values();
  }

  ghost function EncodeCell(c: Cell, t: byte, meta: u16): bytes
    requires Supported(t, meta) && Representable(c, t, meta) && c != NullCell
  {
    match c
    case IntCell(n) =>
      UnsignedFits(c, t, meta);
      LeBytes(Unsigned(n, CellWidth(t, meta)), CellWidth(t, meta))
    case TextCell(s) => LeBytes(|s|, LengthBytes(t)) + s
    case RawCell(raw) => raw
  }

  /** Decoding the bytes of an integer cell. */
  lemma DecodeOfInt(c: Cell, t: byte, meta: u16)
    requires Supported(t, meta) && Representable(c, t, meta) && c.IntCell?
    ensures DecodeValue(EncodeCell(c, t, meta), t, meta) == Some(JsonOf(c, t))
  {
    var w := CellWidth(t, meta);
    var data := EncodeCell(c, t, meta);
    Pow256Values();
    WidthsByCode(t, meta);
    BitWidthsAgree(meta);
    SignMark(meta);
    UnsignedFits(c, t, meta);
    LeValueOfBytes(Unsigned(c.n, w), w);
    if c.n >= 0 {
      DecimalAscii(c.n);
    }
    assert Sub(data, 0, w) == data;
    if t == 1 {
      assert data[0] == Unsigned(c.n, 1) by {
        assert LeBytes(Unsigned(c.n, 1), 1)[0] == Unsigned(c.n, 1) % 256;
      }
    }
    hide LeValue, LeBytes, Pow256, AsciiDecimal, Ascii, Numerals.Decimal;
  }

  lemma SubOfAt(data: bytes, pos: nat, e: bytes)
    requires At(data, pos, e)
    ensures Sub(data, pos, |e|) == e
  {
  }

  /** A printed cell is read as its value, and the cursor passes exactly its bytes. */
  lemma CellRead(data: bytes, pos: nat, c: Cell, t: byte, meta: u16)
    requires Supported(t, meta) && Representable(c, t, meta) && c != NullCell
    requires At(data, pos, EncodeCell(c, t, meta))
    ensures |EncodeCell(c, t, meta)| > 0
    ensures ReadCell(data, pos, t, meta) == Done(JsonOf(c, t), pos + |EncodeCell(c, t, meta)|)
  {
    var e := EncodeCell(c, t, meta);
    WidthsByCode(t, meta);
    match c
    case IntCell(n) =>
      DecodeOfInt(c, t, meta);
      SubOfAt(data, pos, e);
      FixedRead(data, pos, e, t, meta);
    case TextCell(s) =>
      TextRead(data, pos, s, t, meta);
    case RawCell(raw) =>
      DecodeOfRaw(raw, t, meta);
      SubOfAt(data, pos, e);
      FixedRead(data, pos, e, t, meta);
  }

  lemma FixedRead(data: bytes, pos: nat, e: bytes, t: byte, meta: u16)
    requires At(data, pos, e) && |e| == ColumnDataLength(t, meta) > 0 && DecodeValue(e, t, meta).Some?
    ensures ReadCell(data, pos, t, meta) == Done(DecodeValue(e, t, meta).value, pos + |e|)
  {
    SubOfAt(data, pos, e);
    hide DecodeValue, ColumnDataLength;
  }

  lemma DecodeOfRaw(raw: bytes, t: byte, meta: u16)
    requires IsRaw(t) && |raw| == CellWidth(t, meta)
    ensures raw != [] && DecodeValue(raw, t, meta) == Some(RawJson(raw, t))
  {
    assert Sub(raw, 0, |raw|) == raw;
    if t == 12 {
      PackedDecoded(raw);
    } else if t == 13 {
      assert First(raw, 1) == [raw[0]];
      assert [raw[0]][1..] == [];
      assert LeValue([raw[0]]) == raw[0];
    } else if t == 17 {
      assert First(raw, 4) == Sub(raw, 0, 4);
    } else if t == 18 {
      WordDecoded(raw, meta);
    } else if t == 11 || t == 19 {
      HexDigits(raw);
    }
    hide LeValue, BeValue, DateParts, DateTimeFields, DateTime2Fields, HexText, HexOf;
  }

  lemma PackedDecoded(raw: bytes)
    requires |raw| == 8
    ensures DecodeDateTime(raw) == DateTimeText(DateTimeFields(AsI64(LeValue(raw) % 0x1_0000_0000_0000_0000)))
  {
    hide LeValue, DateTimeFields, Pow256;
    assert Sub(raw, 0, 8) == raw;
    SignedWord(raw);
    ZeroFields();
  }

  lemma ZeroFields()
    ensures DateTimeFields(0) == [0, 0, 0, 0, 0, 0]
  {
  }

  lemma WordDecoded(raw: bytes, meta: u16)
    requires |raw| == CellWidth(18, meta)
    ensures DecodeDateTime2(raw, MetaLow(meta)) == RawJson(raw, 18)
  {
    assert First(raw, 5) == Sub(raw, 0, 5);
    var frac := MetaLow(meta);
    if frac > 0 {
      assert |raw| == 5 + CeilDiv(frac, 2) && |raw| > 5;
      assert raw[5..] == Sub(raw, 5, CeilDiv(frac, 2));
    } else {
      assert |raw| == 5;
    }
    hide BeValue, DateTime2Fields;
  }

  lemma HexDigits(raw: bytes)
    ensures HexText(raw) == HexOf(raw)
  {
    assert forall d: nat :: d < 16 ==> HexDigit(d) == "0123456789abcdef"[d] as int;
  }

  lemma TextRead(data: bytes, pos: nat, s: bytes, t: byte, meta: u16)
    requires Supported(t, meta) && Representable(TextCell(s), t, meta)
    requires At(data, pos, EncodeCell(TextCell(s), t, meta))
    ensures ReadCell(data, pos, t, meta) == Done(Text(s), pos + LengthBytes(t) + |s|)
  {
    var k := LengthBytes(t);
    var prefix := LeBytes(|s|, k);
    AtConcat(data, pos, prefix, s);
    AtInside(data, pos, prefix);
    AtInside(data, pos + k, s);
    SubOfAt(data, pos, prefix);
    SubOfAt(data, pos + k, s);
    LeValueOfBytes(|s|, k);
    TextStep(data, pos, t, meta);
    if k == 1 {
      Pow256Values();
      assert data[pos] == prefix[0] == |s| % 256 == |s|;
    }
    hide LeValue, LeBytes, Pow256, ReadCell;
  }

  /** A float or double column comes out as null, as if it were NULL, exactly when its exponent bits
      are all set: an infinity or no number. */
  lemma FloatIsNullIff(raw: bytes, t: byte, meta: u16)
    requires (t == 4 || t == 5) && |raw| == CellWidth(t, meta)
    ensures DecodeValue(raw, t, meta) == Some(Null) <==>
      if t == 4 then LeValue(raw) / 0x80_0000 % 0x100 == 0xff
      else LeValue(raw) / 0x10_0000_0000_0000 % 0x800 == 0x7ff
  {
    DecodeOfRaw(raw, t, meta);
  }

  //////////////////////////////////////////////////////////////////////////////
  // Cells that are cut off, and types without a width
  //////////////////////////////////////////////////////////////////////////////

  /** A cell the data ends in: null with the cursor left in front of it if its width is fixed or the
      data ends there; else an empty string behind its length, or null behind a blob's length, the
      length taken as whole even where it is cut off. */
  lemma CellCut(data: bytes, pos: nat, c: Cell, t: byte, meta: u16)
    requires Supported(t, meta) && Representable(c, t, meta) && c != NullCell
    requires Cut(data, pos, EncodeCell(c, t, meta))
    ensures ReadCell(data, pos, t, meta) ==
      if c.IntCell? || c.RawCell? || pos == |data| then Done(Null, pos)
      else if t in {15, 253, 254} then Done(Text([]), pos + 1)
      else Done(Null, pos + LengthBytes(t))
  {
    WidthsByCode(t, meta);
    if c.TextCell? {
      if pos < |data| {
        TextCut(data, pos, c.text, t, meta);
      }
    } else {
      FixedBytes(c, t, meta);
    }
    hide DecodeValue, CellWidth, ColumnDataLength;
  }

  lemma FixedBytes(c: Cell, t: byte, meta: u16)
    requires Supported(t, meta) && Representable(c, t, meta) && (c.IntCell? || c.RawCell?)
    ensures |EncodeCell(c, t, meta)| == CellWidth(t, meta) > 0
  {
  }

  lemma TextCut(data: bytes, pos: nat, s: bytes, t: byte, meta: u16)
    requires Supported(t, meta) && Representable(TextCell(s), t, meta) && pos < |data|
    requires Cut(data, pos, LeBytes(|s|, LengthBytes(t)) + s)
    ensures ReadCell(data, pos, t, meta) ==
      if t in {15, 253, 254} then Done(Text([]), pos + 1) else Done(Null, pos + LengthBytes(t))
  {
    var k := LengthBytes(t);
    TextStep(data, pos, t, meta);
    assert 1 <= k <= 4 && |s| < Pow256(k);
    assert t in {15, 253, 254} ==> k == 1;
    assert t == 251 <==> k == 4;
    assert t == 251 ==> s == [];
    hide LeValue, LeBytes, Pow256, Cut, ReadCell, LengthBytes, Supported, Representable;
    if |data| >= pos + k {
      LengthRead(data, pos, s, k);
    }
  }

  /** How a string or blob is read, the length in front of it standing at the cursor. */
  lemma TextStep(data: bytes, pos: nat, t: byte, meta: u16)
    requires IsText(t) && pos < |data|
    ensures ReadCell(data, pos, t, meta) ==
      var k := LengthBytes(t);
      if t in {15, 253, 254} then
        var n: nat := data[pos];
        if pos + 1 + n > |data| then Done(Text([]), pos + 1) else Done(Text(Sub(data, pos + 1, n)), pos + 1 + n)
      else if pos + k > |data| then Done(Null, pos + k)
      else
        var n := if t == 251 then 0 else LeValue(Sub(data, pos, k));
        if pos + k + n > |data| then Done(Null, pos + k) else Done(Text(Sub(data, pos + k, n)), pos + k + n)
  {
    WidthsByCode(t, meta);
    hide LeValue, ColumnDataLength;
  }

  lemma LengthRead(data: bytes, pos: nat, s: bytes, k: nat)
    requires 1 <= k <= 4 && |s| < Pow256(k) && pos + k <= |data| && Cut(data, pos, LeBytes(|s|, k) + s)
    ensures LeValue(Sub(data, pos, k)) == |s| && pos + k + |s| > |data| && (k == 1 ==> data[pos] == |s|)
  {
    var prefix := LeBytes(|s|, k);
    CutConcat(data, pos, prefix, s);
    SubOfAt(data, pos, prefix);
    LeValueOfBytes(|s|, k);
    if k == 1 {
      Pow256Values();
      assert data[pos] == prefix[0] == |s| % 256;
    }
    hide LeValue, Pow256;
  }

  /** A column of a type the parser knows no width for is read as null over one byte, whatever it
      holds: JSON, ENUM and SET among them, and a bit column of no bits. */
  lemma NoWidthReadAsNull(data: bytes, pos: nat, t: byte, meta: u16)
    requires !IsText(t) && CellWidth(t, meta) == 0
    ensures ReadCell(data, pos, t, meta) == Done(Null, if pos < |data| then pos + 1 else pos)
  {
    WidthsByCode(t, meta);
  }

  /** What the value decoder makes of the types no row brings to it: a string behind its length byte,
      nothing of one that is cut off, the index of an ENUM, the first byte of a SET, and hexadecimal
      text of a blob or of a type it does not know. */
  lemma ValuesOutsideRows(data: bytes, s: bytes, t: byte, meta: u16)
    requires !IsInteger(t) && !IsRaw(t)
    ensures t in {15, 253, 254} && |s| < 256 ==> DecodeValue([|s|] + s, t, meta) == Some(Text(s))
    ensures t in {15, 253, 254} && (data == [] || data[0] as int >= |data|)
            ==> DecodeValue(data, t, meta) == Some(Text([]))
    ensures t in {247, 248} ==> DecodeValue(data, t, meta) == if data == [] then None else Some(Number(data[0]))
    ensures t == 245 ==> DecodeValue(data, t, meta) == Some(Symbolic("json", data))
    ensures t !in {15, 245, 247, 248, 253, 254} ==> DecodeValue(data, t, meta) == Some(Text(HexOf(data)))
  {
    HexDigits(data);
    if |s| < 256 {
      assert Sub([|s|] + s, 1, |s|) == s;
    }
    hide HexOf, HexText;
  }

  lemma LongBlobRead(data: bytes, pos: nat, meta: u16)
    requires pos + 4 <= |data|
    ensures ReadCell(data, pos, 251, meta) == Done(Text([]), pos + 4)
  {
    assert Sub(data, pos + 4, 0) == [];
  }

  /** The content of a long blob, whose length the parser takes to be zero, comes back exactly when
      it is empty. */
  lemma LongBlobReadIffEmpty(data: bytes, pos: nat, s: bytes, meta: u16)
    requires |s| < Pow256(4)
    requires At(data, pos, LeBytes(|s|, 4) + s)
    ensures ReadCell(data, pos, 251, meta) == Done(Text(s), pos + 4 + |s|) <==> s == []
  {
    AtInside(data, pos, LeBytes(|s|, 4) + s);
    LongBlobRead(data, pos, meta);
    hide *;
  }

  /** A row of one long blob that holds one byte is read as two rows: the byte that was passed over
      is taken for the null bitmap of a second. */
  lemma LongBlobSplitsRow()
    ensures Pow256(4) == 0x1_0000_0000
    ensures ReadRows([0] + LeBytes(1, 4) + [1], 0, [251], [0]) == Done([[Text([])], [Null]], 6)
  {
    Pow256Values();
    var data := [0] + LeBytes(1, 4) + [1];
    var types, metas := [251], [0];
    var empty: JsonRow, none: seq<JsonRow> := [], [];
    assert [Text([])] + empty == [Text([])] && [Null] + empty == [Null];
    assert [[Null]] + none == [[Null]] && [[Text([])]] + [[Null]] == [[Text([])], [Null]];
    assert CeilDiv(|types|, 8) == 1;
    LongBlobRead(data, 1, 0);
    assert !NullBit(data, 0, 0) && NullBit(data, 5, 0);
    assert ReadCells(data, 0, types, metas, 1, 5) == Done([], 5);
    assert ReadCells(data, 0, types, metas, 0, 1) == Done([Text([])], 5);
    assert ReadCells(data, 5, types, metas, 1, 6) == Done([], 6);
    assert ReadCells(data, 5, types, metas, 0, 6) == Done([Null], 6);
    hide ReadCells;
    assert ReadRow(data, 0, types, metas) == Done([Text([])], 5);
    assert ReadRow(data, 5, types, metas) == Done([Null], 6);
    assert ReadRows(data, 6, types, metas) == Done([], 6);
    assert ReadRows(data, 5, types, metas) == Done([[Null]], 6);
  }
}
