/** What the column decoders mean: widths, signs, dates. */
module MysqlValueFacts {
  import opened Wrappers
  import opened Bits
  import opened ChangeEvents
  import opened MysqlColumns
  import Numerals

  //////////////////////////////////////////////////////////////////////////////
  // Widths
  //////////////////////////////////////////////////////////////////////////////

  /** The two formulas for the width of a bit column agree. */
  lemma BitWidthsAgree(meta: u16)
    ensures ColumnDataLength(BIT, meta) == BitByteLength(meta)
  {
  }

  /** A slice of a column's announced width is always long enough for its decoder; the decoder
      can only fail on a bit column wider than eight bytes. */
  lemma WidthSuffices(data: bytes, t: byte, meta: u16)
    requires |data| == ColumnDataLength(t, meta) > 0
    ensures DecodeValue(data, t, meta).None? <==> t == BIT && |data| > 8
  {
    BitWidthsAgree(meta);
  }

  /** The bytes of a text in ASCII. */
  function Ascii(s: string): (b: bytes)
    requires forall i :: 0 <= i < |s| ==> s[i] as int < 128
    ensures |b| == |s|
  {
    seq(|s|, i requires 0 <= i < |s| => s[i] as int)
  }

  lemma AsciiInjective(a: string, b: string)
    requires forall i :: 0 <= i < |a| ==> a[i] as int < 128
    requires forall i :: 0 <= i < |b| ==> b[i] as int < 128
    requires Ascii(a) == Ascii(b)
    ensures a == b
  {
    assert |a| == |b| && forall i :: 0 <= i < |a| ==> a[i] as int == Ascii(a)[i] == Ascii(b)[i] == b[i] as int;
  }

  lemma DecimalAscii(n: nat)
    ensures forall i :: 0 <= i < |Numerals.Decimal(n)| ==> '0' <= Numerals.Decimal(n)[i] <= '9'
    ensures AsciiDecimal(n) == Ascii(Numerals.Decimal(n))
  {
    assert forall d: nat :: d < 10 ==> Numerals.DIGIT_CHARS[d] as int == 48 + d;
  }

  /** An unsigned word is a number, or decimal text above the signed range. */
  lemma WordJson(n: u64)
    ensures U64Json(n) ==
      if n < 0x8000_0000_0000_0000 then Number(n) else (DecimalAscii(n); Text(Ascii(Numerals.Decimal(n))))
  {
    DecimalAscii(n);
    hide AsciiDecimal, Ascii, Numerals.Decimal;
  }

  /** A bit column of up to eight bytes is the little-endian value of its slice, as a number or,
      above the signed range, as decimal text. */
  lemma BitIsLittleEndian(data: bytes, meta: u16)
    requires |data| == ColumnDataLength(16, meta) <= 8
    ensures LeValue(data) < 0x1_0000_0000_0000_0000
    ensures DecodeValue(data, 16, meta) == Some(
      var n := LeValue(data);
      if n < 0x8000_0000_0000_0000 then Number(n) else (DecimalAscii(n); Text(Ascii(Numerals.Decimal(n)))))
  {
    BitWidthsAgree(meta);
    LeFits(data);
    assert Sub(data, 0, |data|) == data;
    hide LeValue, U64Json, Ascii, Numerals.Decimal, Pow256;
    WordJson(LeValue(data));
  }

  //////////////////////////////////////////////////////////////////////////////
  // Signs
  //////////////////////////////////////////////////////////////////////////////

  /** The meta marks an integer column as signed. */
  predicate MarkedSigned(meta: u16) { meta % 256 >= 128 }

  lemma SignMark(meta: u16)
    ensures MetaSigned(meta) <==> MarkedSigned(meta)
  {
  }

  /** A signed tiny integer is recovered exactly when it is not negative or the meta says so. */
  lemma TinySign(x: i8, meta: u16)
    ensures DecodeValue([FromI8(x)], 1, meta) == Some(Number(x)) <==> x >= 0 || MarkedSigned(meta)
  {
  }

  /** The same for two bytes. */
  lemma ShortSign(x: i16, meta: u16)
    ensures Pow256(2) == 0x1_0000
    ensures DecodeValue(LeBytes(FromI16(x), 2), 2, meta) == Some(Number(x)) <==> x >= 0 || MarkedSigned(meta)
  {
    Pow256Values();
    LeValueOfBytes(FromI16(x), 2);
    assert Sub(LeBytes(FromI16(x), 2), 0, 2) == LeBytes(FromI16(x), 2);
    hide LeValue, LeBytes;
  }

  /** The table map carries no meta for integers, so negative values come out unsigned; for a
      32-bit column no meta helps. */
  lemma LongSign(x: i32, meta: u16)
    ensures Pow256(4) == 0x1_0000_0000
    ensures DecodeValue(LeBytes(FromI32(x), 4), 3, meta) == Some(Number(x)) <==> x >= 0
  {
    Pow256Values();
    LeValueOfBytes(FromI32(x), 4);
    assert Sub(LeBytes(FromI32(x), 4), 0, 4) == LeBytes(FromI32(x), 4);
    hide LeValue, LeBytes;
  }

  //////////////////////////////////////////////////////////////////////////////
  // DATETIME
  //////////////////////////////////////////////////////////////////////////////

  /** YYYYMMDDhhmmss */
  function PackDateTime(y: nat, mo: nat, d: nat, h: nat, mi: nat, s: nat): nat {
    1000000 * (10000 * y + 100 * mo + d) + (10000 * h + 100 * mi + s)
  }

  lemma TruncOfNat(a: nat, b: nat)
    requires b > 0
    ensures TruncDiv(a, b) == a / b && TruncMod(a, b) == a % b
  {
  }

  /** Digits of a number below the first, two at a time. */
  lemma InPairs(a: nat, b: nat, c: nat)
    requires b < 100 && c < 100
    ensures var n := 10000 * a + 100 * b + c;
            n / 10000 == a && n % 10000 == 100 * b + c && n % 10000 / 100 == b && n % 100 == c
  {
    var n := 10000 * a + 100 * b + c;
    DivModUnique(n, 10000, a, 100 * b + c);
    DivModUnique(100 * b + c, 100, b, c);
    DivModUnique(n, 100, 100 * a + b, c);
  }

  lemma FieldsByDivision(packed: i64, date: nat, time: nat)
    requires packed >= 0 && date == packed / 1000000 && time == packed % 1000000
    ensures DateTimeFields(packed)
         == [date / 10000, date % 10000 / 100, date % 100, time / 10000, time % 10000 / 100, time % 100]
  {
    TruncOfNat(packed, 1000000);
    TruncOfNat(date, 10000);
    TruncOfNat(date % 10000, 100);
    TruncOfNat(date, 100);
    TruncOfNat(time, 10000);
    TruncOfNat(time % 10000, 100);
    TruncOfNat(time, 100);
    hide TruncDiv, TruncMod;
  }

  /** Every packing gives all six fields back; the zero packing prints as zeros. */
  lemma DateTimeRecovered(y: nat, mo: nat, d: nat, h: nat, mi: nat, s: nat)
    requires mo < 100 && d < 100 && h < 100 && mi < 100 && s < 100
    requires PackDateTime(y, mo, d, h, mi, s) < 0x8000_0000_0000_0000
    ensures Pow256(8) == 0x1_0000_0000_0000_0000
    ensures DecodeDateTime(LeBytes(PackDateTime(y, mo, d, h, mi, s), 8)) == DateTimeText([y, mo, d, h, mi, s])
  {
    var date, time, packed := 10000 * y + 100 * mo + d, 10000 * h + 100 * mi + s, PackDateTime(y, mo, d, h, mi, s);
    hide *;
    SplitPacking(y, mo, d, h, mi, s);
    FieldsByDivision(packed, date, time);
    InPairs(y, mo, d);
    InPairs(h, mi, s);
    ZeroPacking(y, mo, d, h, mi, s);
    DecodeOfWord(packed);
  }

  lemma SplitPacking(y: nat, mo: nat, d: nat, h: nat, mi: nat, s: nat)
    requires h < 100 && mi < 100 && s < 100
    ensures PackDateTime(y, mo, d, h, mi, s) / 1000000 == 10000 * y + 100 * mo + d
    ensures PackDateTime(y, mo, d, h, mi, s) % 1000000 == 10000 * h + 100 * mi + s
  {
    var date, time, packed := 10000 * y + 100 * mo + d, 10000 * h + 100 * mi + s, PackDateTime(y, mo, d, h, mi, s);
    assert packed == 1000000 * date + time && time < 1000000;
    hide *;
    DivModUnique(packed, 1000000, date, time);
  }

  lemma ZeroPacking(y: nat, mo: nat, d: nat, h: nat, mi: nat, s: nat)
    ensures PackDateTime(y, mo, d, h, mi, s) == 0 ==> [y, mo, d, h, mi, s] == [0, 0, 0, 0, 0, 0]
  {
  }

  lemma DecodeOfWord(packed: nat)
    requires packed < 0x8000_0000_0000_0000
    ensures Pow256(8) == 0x1_0000_0000_0000_0000
    ensures DecodeDateTime(LeBytes(packed, 8))
         == DateTimeText(if packed == 0 then [0, 0, 0, 0, 0, 0] else DateTimeFields(packed))
  {
    Pow256Values();
    LeValueOfBytes(packed, 8);
    assert Sub(LeBytes(packed, 8), 0, 8) == LeBytes(packed, 8);
    hide LeValue, LeBytes, Pow256, DateTimeFields;
  }

  //////////////////////////////////////////////////////////////////////////////
  // DATETIME2
  //////////////////////////////////////////////////////////////////////////////

  lemma ShiftValues()
    ensures Pow2(1) == 2 && Pow2(2) == 4 && Pow2(3) == 8 && Pow2(5) == 32 && Pow2(6) == 64
    ensures Pow2(7) == 128 && Pow2(12) == 4096 && Pow2(17) == 131072
  {
    Pow2Zero();
    assert Pow2(1) == 2 && Pow2(2) == 2 * Pow2(1) && Pow2(3) == 2 * Pow2(2);
    Pow2Four(1);
    Pow2Four(2);
    Pow2Four(3);
    Pow2Four(4);
    Pow2Four(0);
    Pow2Four(8);
    Pow2Four(5);
    Pow2Four(9);
    Pow2Four(13);
  }

  /** The fields by arithmetic: year, month and day are the 13/32 mixed radix of the top bits, hour
      is bits 12 to 16, minute bits 6 to 11, and second bits 2 to 7. */
  lemma DateTime2Arithmetic(packed: nat)
    ensures DateTime2Fields(packed)
         == [packed / 131072 / 13 / 32, (packed / 131072 / 32) % 13, (packed / 131072) % 32,
             (packed / 32) % 4096 / 128, (packed / 32) % 4096 / 2 % 64,
             8 * ((packed / 32) % 4096 % 8) + packed % 32 / 4]
  {
    ShiftValues();
    var t := (packed / 32) % 4096;
    BitAndLowMask(packed / 32, 12);
    BitAndLowMask(t / 2, 6);
    BitAndLowMask(packed, 5);
    BitAndLowMask(t, 3);
    BitAndShifted(t, 7, 3);
    BitOrDisjoint(t % 8, packed % 32 / 4, 3);
    hide Pow2, BitAnd, BitOr;
    assert Shl(7, 3) == 56;
  }

  /** Dividing by 13 and then by 32 is dividing by 32 and then by 13. */
  lemma DivisionsCommute(d: nat)
    ensures d / 13 / 32 == d / 32 / 13
  {
    var a, b := d / 13, d / 32;
    var q, p := a / 32, b / 13;
    assert d == 416 * q + (13 * (a % 32) + d % 13);
    assert d == 416 * p + (32 * (b % 13) + d % 32);
  }

  /** The 40-bit word: year and month (with the sign bit on top) in 18 bits, then 5 bits of day,
      5 of hour, 6 of minute and 6 of second. */
  function PackDateTime2(yearMonth: nat, day: nat, hour: nat, minute: nat, second: nat): nat {
    4194304 * yearMonth + 131072 * day + 4096 * hour + 64 * minute + second
  }

  /** All fields but the second come out of the word as they went in; the second is built from
      two bits of the minute and four bits of the second. */
  lemma DateTime2Recovered(yearMonth: nat, day: nat, hour: nat, minute: nat, second: nat)
    requires day < 32 && hour < 32 && minute < 64 && second < 64
    ensures DateTime2Fields(PackDateTime2(yearMonth, day, hour, minute, second))
         == [yearMonth / 13, yearMonth % 13, day, hour, minute, 16 * (minute % 4) + second / 4]
  {
    var packed := PackDateTime2(yearMonth, day, hour, minute, second);
    DateTime2Arithmetic(packed);
    var d := 32 * yearMonth + day;
    var low := 4096 * hour + 64 * minute + second;
    DivModUnique(packed, 131072, d, low);
    DivModUnique(d, 32, yearMonth, day);
    DivisionsCommute(d);
    var u := 4096 * d + (128 * hour + 2 * minute + second / 32);
    DivModUnique(packed, 32, u, second % 32);
    var t := 128 * hour + 2 * minute + second / 32;
    DivModUnique(u, 4096, d, t);
    DivModUnique(t, 128, hour, 2 * minute + second / 32);
    DivModUnique(t, 2, 64 * hour + minute, second / 32);
    DivModUnique(64 * hour + minute, 64, hour, minute);
    DivModUnique(t, 8, 16 * hour + minute / 4, 2 * (minute % 4) + second / 32);
    DateTime2Second(minute, second);
  }

  lemma DateTime2Second(minute: nat, second: nat)
    requires minute < 64 && second < 64
    ensures 8 * (2 * (minute % 4) + second / 32) + second % 32 / 4 == 16 * (minute % 4) + second / 4
  {
  }

  /** The decoded second is the stored one exactly when it is 21 times the minute modulo four. */
  lemma DateTime2SecondExact(yearMonth: nat, day: nat, hour: nat, minute: nat, second: nat)
    requires day < 32 && hour < 32 && minute < 64 && second < 64
    ensures DateTime2Fields(PackDateTime2(yearMonth, day, hour, minute, second))[5] == second
            <==> second == 21 * (minute % 4)
  {
    DateTime2Recovered(yearMonth, day, hour, minute, second);
  }

  /** Year and month are recovered exactly when the sign bit is clear: with it set the month is
      off by six modulo 13 and the year by at least 10082. */
  lemma DateTime2SignBit(sign: bool, year: nat, month: nat, day: nat, hour: nat, minute: nat, second: nat)
    requires month < 13 && 13 * year + month < 131072
    requires day < 32 && hour < 32 && minute < 64 && second < 64
    ensures var fields := DateTime2Fields(
              PackDateTime2((if sign then 131072 else 0) + 13 * year + month, day, hour, minute, second));
            && (fields[0] == year && fields[1] == month <==> !sign)
            && (sign ==> fields[0] >= year + 10082 && fields[1] == (month + 6) % 13)
  {
    var ym := 13 * year + month;
    DateTime2Recovered((if sign then 131072 else 0) + ym, day, hour, minute, second);
    DivModUnique(ym, 13, year, month);
    if sign {
      var carry := (month + 6) / 13;
      DivModUnique(131072 + ym, 13, year + 10082 + carry, (month + 6) % 13);
    }
  }
}
