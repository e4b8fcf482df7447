/** Column values of row events: widths and decoding. A panic of the source (an index out of range,
    or a shift by 64 bits and more with overflow checks on) is modelled as None. */
module MysqlColumns {
  import opened Wrappers
  import opened Bits
  import opened ChangeEvents
  import Numerals

  const TINY: byte := 1
  const SHORT: byte := 2
  const LONG: byte := 3
  const FLOAT: byte := 4
  const DOUBLE: byte := 5
  const TIMESTAMP: byte := 7
  const LONGLONG: byte := 8
  const INT24: byte := 9
  const DATE: byte := 10
  const TIME: byte := 11
  const DATETIME: byte := 12
  const YEAR: byte := 13
  const VARCHAR: byte := 15
  const BIT: byte := 16
  const TIMESTAMP2: byte := 17
  const DATETIME2: byte := 18
  const TIME2: byte := 19
  const JSON: byte := 245
  const NEWDECIMAL: byte := 246
  const ENUM: byte := 247
  const SET: byte := 248
  const TINY_BLOB: byte := 249
  const MEDIUM_BLOB: byte := 250
  const LONG_BLOB: byte := 251
  const BLOB: byte := 252
  const VAR_STRING: byte := 253
  const STRING: byte := 254

  predicate IsString(t: byte) { t == VARCHAR || t == VAR_STRING || t == STRING }

  predicate IsBlob(t: byte) { t == BLOB || t == TINY_BLOB || t == MEDIUM_BLOB || t == LONG_BLOB }

  //////////////////////////////////////////////////////////////////////////////
  // Widths
  //////////////////////////////////////////////////////////////////////////////

  function CeilDiv(n: nat, d: nat): nat
    requires d > 0
  {
    DivNonnegative(n + (d - 1), d);
    (n + (d - 1)) / d
  }

  /** `meta >> 8` and `meta & 0xff` */
  function MetaHigh(meta: u16): byte { meta / 256 }

  function MetaLow(meta: u16): byte { meta % 256 }

  /** `meta & 0x80 != 0` */
  predicate MetaSigned(meta: u16) { (meta / 128) % 2 == 1 }

  function ColumnDataLength(t: byte, meta: u16): nat {
    if t == TINY then 1
    else if t == SHORT || t == YEAR then 2
    else if t == LONG || t == INT24 || t == FLOAT || t == DATE || t == TIME || t == TIMESTAMP then 4
    else if t == LONGLONG || t == DOUBLE || t == DATETIME then 8
    else if t == BIT then (MetaHigh(meta) * 8 + MetaLow(meta) + 7) / 8
    else if t == NEWDECIMAL then MetaHigh(meta) + 4
    else if t == TIMESTAMP2 || t == DATETIME2 || t == TIME2 then
      if MetaLow(meta) > 0 then 5 + CeilDiv(MetaLow(meta), 2) else 5
    else 0
  }

  /** The width of a bit column as its decoder computes it. */
  function BitByteLength(meta: u16): nat { CeilDiv(MetaHigh(meta) * 8 + MetaLow(meta), 8) }

  //////////////////////////////////////////////////////////////////////////////
  // Dates
  //////////////////////////////////////////////////////////////////////////////

  /** Division and remainder that truncate toward zero. */
  function TruncDiv(a: int, b: int): int
    requires b > 0
  {
    if a >= 0 then a / b else -((-a) / b)
  }

  function TruncMod(a: int, b: int): int
    requires b > 0
  {
    a - b * TruncDiv(a, b)
  }

  /** Year, month and day by the decoder's approximate formula; zero prints as zeros. */
  function DateParts(days: nat): seq<int> {
    if days == 0 then [0, 0, 0]
    else
      var d := days - 366;
      var year := TruncDiv(d * 100 + 50, 36525) + 1970;
      var yday := d - ((year - 1970) * 365 + TruncDiv(year - 1969, 4));
      [year, TruncDiv(yday, 30) + 1, TruncMod(yday, 30) + 1]
  }

  function DateTimeFields(packed: i64): seq<int> {
    var d, t := TruncDiv(packed, 1000000), TruncMod(packed, 1000000);
    [TruncDiv(d, 10000), TruncDiv(TruncMod(d, 10000), 100), TruncMod(d, 100),
     TruncDiv(t, 10000), TruncDiv(TruncMod(t, 10000), 100), TruncMod(t, 100)]
  }

  function DecodeDateTime(data: bytes): Json {
    if |data| < 8 then DateTimeText([0, 0, 0, 0, 0, 0])
    else
      Pow256Values();
      var packed := AsI64(LeValue(Sub(data, 0, 8)));
      if packed == 0 then DateTimeText([0, 0, 0, 0, 0, 0]) else DateTimeText(DateTimeFields(packed))
  }

  /** The six fields of a 40-bit word, shifts and masks as written. */
  function DateTime2Fields(packed: nat): seq<int> {
    var d := Shr(packed, 17);
    var t := BitAnd(Shr(packed, 5), 0xfff);
    [d / 13 / 32, (d / 32) % 13, d % 32,
     Shr(t, 7), BitAnd(Shr(t, 1), 0x3f),
     BitOr(BitAnd(Shl(t, 3), 0x38), Shr(BitAnd(packed, 0x1f), 2))]
  }

  function DecodeDateTime2(data: bytes, frac: byte): Json {
    if |data| < 5 then DateTimeText([0, 0, 0, 0, 0, 0])
    else
      var fields := DateTime2Fields(BeValue(Sub(data, 0, 5)));
      var fracBytes := CeilDiv(frac, 2);
      if frac > 0 && |data| >= 5 + fracBytes then
        DateTimeText(fields + [BeValue(Sub(data, 5, fracBytes)) % 0x1_0000_0000_0000_0000])
      else DateTimeText(fields)
  }

  //////////////////////////////////////////////////////////////////////////////
  // Values
  //////////////////////////////////////////////////////////////////////////////

  function AsciiDecimal(n: nat): bytes {
    var ds := Numerals.Digits(n, 10);
    seq(|ds|, i requires 0 <= i < |ds| => 48 + ds[i])
  }

  /** An unsigned 64-bit value: a number, or decimal text above the signed range. */
  function U64Json(v: nat): Json {
    if v >= 0x8000_0000_0000_0000 then Text(AsciiDecimal(v)) else Number(v)
  }

  /** The string and the bytes it takes; a truncated string takes its length byte only. */
  function LengthEncodedString(data: bytes, off: nat): (nat, bytes)
    requires off < |data|
  {
    var n: nat := data[off];
    if off + 1 + n > |data| then (1, []) else (1 + n, Sub(data, off + 1, n))
  }

  /** Lower-case hexadecimal, two digits to a byte. */
  function HexText(data: bytes): (s: bytes)
    ensures |s| == 2 * |data|
  {
    seq(2 * |data|, i requires 0 <= i < 2 * |data| =>
      HexDigit(if i % 2 == 0 then data[i / 2] / 16 else data[i / 2] % 16))
  }

  function HexDigit(d: nat): byte
    requires d < 16
  {
    if d < 10 then 48 + d else 87 + d
  }

  /** A float whose exponent bits are all set is no JSON number and comes out as null; the value of
      any other is a function of its bytes that is not modelled. */
  function FloatJson(raw: bytes): Json {
    if LeValue(raw) / 0x80_0000 % 0x100 == 0xff then Null else Symbolic("float", raw)
  }

  function DoubleJson(raw: bytes): Json {
    if LeValue(raw) / 0x10_0000_0000_0000 % 0x800 == 0x7ff then Null else Symbolic("double", raw)
  }

  function DecodeValue(data: bytes, t: byte, meta: u16): Option<Json> {
    if t == TINY then
      if |data| < 1 then None
      else Some(Number(if MetaSigned(meta) then AsI8(data[0]) else data[0]))
    else if t == SHORT then
      if |data| < 2 then None
      else
        Pow256Values();
        var v := LeValue(Sub(data, 0, 2));
        Some(Number(if MetaSigned(meta) then AsI16(v) else v))
    else if t == LONG || t == INT24 || t == TIMESTAMP then
      if |data| < 4 then None else Some(Number(LeValue(Sub(data, 0, 4))))
    else if t == LONGLONG then
      if |data| < 8 then None else Some(U64Json(LeValue(Sub(data, 0, 8))))
    else if t == FLOAT then
      if |data| < 4 then None else Some(FloatJson(Sub(data, 0, 4)))
    else if t == DOUBLE then
      if |data| < 8 then None else Some(DoubleJson(Sub(data, 0, 8)))
    else if t == DATE then
      if |data| < 4 then None else Some(DateTimeText(DateParts(LeValue(Sub(data, 0, 4)))))
    else if t == DATETIME then Some(DecodeDateTime(data))
    else if t == DATETIME2 then Some(DecodeDateTime2(data, MetaLow(meta)))
    else if t == TIMESTAMP2 then
      Some(Number(if |data| < 4 then 0 else LeValue(Sub(data, 0, 4))))
    else if IsString(t) then
      Some(Text(if data == [] then [] else LengthEncodedString(data, 0).1))
    else if t == BIT then
      var n := if |data| < BitByteLength(meta) then |data| else BitByteLength(meta);
      if n > 8 then None else Some(U64Json(LeValue(Sub(data, 0, n))))
    else if t == JSON then Some(Symbolic("json", data))
    else if t == ENUM || t == SET then
      if |data| < 1 then None else Some(Number(data[0]))
    else if t == NEWDECIMAL then
      Some(if data == [] then Number(0) else Symbolic("decimal", data))
    else if t == YEAR then
      if |data| < 1 then None else Some(Number(data[0] as int + 1900))
    else Some(Text(HexText(data)))
  }

  /** The bit column's loop: bytes are shifted into a 64-bit word one by one. */
  method DecodeBits(data: bytes, byteLength: nat) returns (r: Option<u64>)
    ensures var n := if |data| < byteLength then |data| else byteLength;
            r == if n > 8 then None else (LeFits(Sub(data, 0, n)); Some(LeValue(Sub(data, 0, n))))
  {
    var n := if |data| < byteLength then |data| else byteLength;
    var val: nat := 0;
    for i := 0 to n
      invariant i <= 8
      invariant val == LeValue(Sub(data, 0, i)) < Pow256(i)
    {
      if i * 8 >= 64 {
        return None;
      }
      LeSnoc(data, i);
      Pow256IsPow2(i);
      BitOrDisjoint(data[i], val, i * 8);
      BitOrComm(val, Shl(data[i], i * 8));
      val := BitOr(val, Shl(data[i], i * 8));
    }
    LeFits(Sub(data, 0, n));
    r := Some(val);
  }

  /** The fraction's loop: the word keeps its low 64 bits at every shift. */
  method DecodeFraction(data: bytes, start: nat, count: nat) returns (frac: nat)
    requires start + count <= |data|
    ensures frac == BeValue(Sub(data, start, count)) % 0x1_0000_0000_0000_0000
  {
    frac := 0;
    for i := 0 to count
      invariant frac == BeValue(Sub(data, start, i)) % 0x1_0000_0000_0000_0000
    {
      hide BitOr, BeValue, Shl;
      BeSnoc(data, start, i);
      ShiftByte(frac, data[start + i]);
      KeepLow(BeValue(Sub(data, start, i)), data[start + i]);
      frac := BitOr(Shl(frac, 8) % 0x1_0000_0000_0000_0000, data[start + i]);
    }
  }

  method DecodeBinlogValue(data: bytes, t: byte, meta: u16) returns (r: Option<Json>)
    ensures r == DecodeValue(data, t, meta)
  {
    if t == BIT {
      var bits := DecodeBits(data, BitByteLength(meta));
      r := if bits.Some? then Some(U64Json(bits.value)) else None;
    } else if t == DATETIME2 && |data| >= 5 {
      var fields := DateTime2Fields(BeValue(Sub(data, 0, 5)));
      var fracBytes := CeilDiv(MetaLow(meta), 2);
      if MetaLow(meta) > 0 && |data| >= 5 + fracBytes {
        var frac := DecodeFraction(data, 5, fracBytes);
        r := Some(DateTimeText(fields + [frac]));
      } else {
        r := Some(DateTimeText(fields));
      }
    } else {
      r := DecodeValue(data, t, meta);
    }
  }

  //////////////////////////////////////////////////////////////////////////////
  // Steps of the loops
  //////////////////////////////////////////////////////////////////////////////

  lemma LeFits(s: bytes)
    ensures |s| <= 8 ==> LeValue(s) < 0x1_0000_0000_0000_0000
  {
    if |s| <= 8 {
      Pow256Monotone(|s|, 8);
      Pow256Values();
    }
  }

  lemma {:induction false} Pow256Monotone(m: nat, n: nat)
    requires m <= n
    ensures Pow256(m) <= Pow256(n)
    decreases n
  {
    if m < n {
      Pow256Monotone(m, n - 1);
    }
  }

  lemma {:induction false} Pow256IsPow2(n: nat)
    ensures Pow256(n) == Pow2(8 * n)
    decreases n
  {
    if n > 0 {
      Pow256IsPow2(n - 1);
      Pow2Four(8 * n - 8);
      Pow2Four(8 * n - 4);
    }
  }

  lemma {:induction false} LeAppend(s: bytes, b: byte)
    ensures LeValue(s + [b]) == LeValue(s) + b * Pow256(|s|)
    decreases |s|
  {
    if s == [] {
      assert [b][1..] == [];
    } else {
      assert (s + [b])[1..] == s[1..] + [b];
      LeAppend(s[1..], b);
      var p := Pow256(|s| - 1);
      assert 256 * (b * p) == b * (256 * p);
    }
  }

  lemma LeSnoc(data: bytes, i: nat)
    requires i < |data|
    ensures LeValue(Sub(data, 0, i + 1)) == LeValue(Sub(data, 0, i)) + Shl(data[i], i * 8)
  {
    assert Sub(data, 0, i + 1) == Sub(data, 0, i) + [data[i]];
    LeAppend(Sub(data, 0, i), data[i]);
    Pow256IsPow2(i);
  }

  lemma BeSnoc(data: bytes, start: nat, i: nat)
    requires start + i < |data|
    ensures BeValue(Sub(data, start, i + 1)) == 256 * BeValue(Sub(data, start, i)) + data[start + i]
  {
    var s := Sub(data, start, i + 1);
    assert s[..|s| - 1] == Sub(data, start, i);
  }

  /** Dropping the high bits before or after a shift makes no difference to the low bits. */
  lemma KeepLow(v: nat, b: byte)
    ensures (256 * (v % 0x1_0000_0000_0000_0000) + b) % 0x1_0000_0000_0000_0000
         == (256 * v + b) % 0x1_0000_0000_0000_0000
  {
    var m: nat := 0x1_0000_0000_0000_0000;
    var q, r := v / m, v % m;
    var low := 256 * r + b;
    assert 256 * v + b == m * (256 * q + low / m) + low % m;
    DivModUnique(256 * v + b, m, 256 * q + low / m, low % m);
  }

  lemma ShiftByte(v: nat, b: byte)
    ensures BitOr(Shl(v, 8) % 0x1_0000_0000_0000_0000, b) == (256 * v + b) % 0x1_0000_0000_0000_0000
  {
    hide Pow2, BitOr, Shl;
    var m: nat, k: nat := 0x1_0000_0000_0000_0000, 0x100_0000_0000_0000;
    var q, w := v / k, v % k;
    assert 256 * v == m * q + 256 * w;
    DivModUnique(256 * v, m, q, 256 * w);
    assert 256 * v + b == m * q + (256 * w + b);
    DivModUnique(256 * v + b, m, q, 256 * w + b);
    ShlByte(v);
    ShlByte(w);
    BitOrDisjoint(w, b, 8);
  }

  lemma ShlByte(v: nat)
    ensures Shl(v, 8) == 256 * v && Pow2(8) == 256
  {
    Pow2Zero();
    Pow2Four(0);
    Pow2Four(4);
  }
}
