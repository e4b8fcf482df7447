/** WAL positions: the snapshot joins two hexadecimal halves, the streamer splits the position
    again and prints both halves in decimal for the server to read. */
module Lsn {
  import opened Wrappers
  import opened Bits
  import opened Numerals

  datatype LsnError = InvalidHigh | InvalidLow | InvalidFormat

  const U32_LIMIT: nat := 0x1_0000_0000

  //////////////////////////////////////////////////////////////////////////////
  // The snapshot's side: parse and join
  //////////////////////////////////////////////////////////////////////////////

  function Split(s: string, separator: char): (parts: seq<string>)
    ensures |parts| > 0
  {
    if s == "" then [""]
    else
      var parts := Split(s[1..], separator);
      if s[0] == separator then [""] + parts else [[s[0]] + parts[0]] + parts[1..]
  }

  function Join(high: u32, low: u32): i64 {
    JoinFits(high, low);
    AsI64(BitOr(Shl(high, 32), low))
  }

  lemma JoinFits(high: u32, low: u32)
    ensures BitOr(Shl(high, 32), low) == 0x1_0000_0000 * high + low < 0x1_0000_0000_0000_0000
  {
    Pow2Of32();
    BitOrDisjoint(high, low, 32);
  }

  function ParseLsn(s: string): Result<i64, LsnError> {
    var parts := Split(s, '/');
    if |parts| != 2 then Err(InvalidFormat)
    else match ParseUnsigned(parts[0], 16, U32_LIMIT)
      case None => Err(InvalidHigh)
      case Some(high) =>
        match ParseUnsigned(parts[1], 16, U32_LIMIT)
        case None => Err(InvalidLow)
        case Some(low) => Ok(Join(high, low))
  }

  //////////////////////////////////////////////////////////////////////////////
  // The streamer's side: split and print
  //////////////////////////////////////////////////////////////////////////////

  /** `(lsn >> 32) as u32`: an arithmetic shift is a floor division. */
  function High(lsn: i64): u32 { (lsn / 0x1_0000_0000) % 0x1_0000_0000 }

  /** `(lsn & 0xFFFF_FFFF) as u32` */
  function Low(lsn: i64): u32 {
    Pow2Of32();
    BitAndLowMask(FromI64(lsn), 32);
    BitAnd(FromI64(lsn), 0xFFFF_FFFF)
  }

  function ResumeText(offset: Option<i64>): string {
    match offset
    case Some(lsn) => Decimal(High(lsn)) + "/" + Decimal(Low(lsn))
    case None => "0/0"
  }

  //////////////////////////////////////////////////////////////////////////////
  // Split and join
  //////////////////////////////////////////////////////////////////////////////

  lemma LowIsRemainder(lsn: i64)
    ensures Low(lsn) == FromI64(lsn) % 0x1_0000_0000
  {
    Pow2Of32();
    BitAndLowMask(FromI64(lsn), 32);
  }

  lemma HighIsQuotient(lsn: i64)
    ensures High(lsn) == FromI64(lsn) / 0x1_0000_0000
  {
    var u: int := FromI64(lsn);
    var q, r := u / 0x1_0000_0000, u % 0x1_0000_0000;
    if lsn < 0 {
      assert lsn == 0x1_0000_0000 * (q - 0x1_0000_0000) + r;
      assert lsn / 0x1_0000_0000 == q - 0x1_0000_0000;
    }
  }

  lemma UnsignedAgain(u: u64)
    ensures FromI64(AsI64(u)) == u && (AsI64(u) < 0 <==> u >= 0x8000_0000_0000_0000)
  {
  }

  /** A joined position is, as an unsigned word, 2^32 times the first half plus the second; splitting
      it returns both halves, also when its sign bit is set. */
  lemma SplitOfJoin(high: u32, low: u32)
    ensures FromI64(Join(high, low)) == 0x1_0000_0000 * high + low
    ensures High(Join(high, low)) == high && Low(Join(high, low)) == low
    ensures Join(high, low) < 0 <==> high >= 0x8000_0000
  {
    var u := 0x1_0000_0000 * high + low;
    JoinFits(high, low);
    assert Join(high, low) == AsI64(u);
    hide *;
    UnsignedAgain(u);
    HighIsQuotient(AsI64(u));
    LowIsRemainder(AsI64(u));
    DivModUnique(u, 0x1_0000_0000, high, low);
  }

  /** Joining the halves of any position gives the position back. */
  lemma JoinOfSplit(lsn: i64)
    ensures Join(High(lsn), Low(lsn)) == lsn
  {
    HighIsQuotient(lsn);
    LowIsRemainder(lsn);
    JoinFits(High(lsn), Low(lsn));
    hide BitOr, Shl, Low, High;
  }

  //////////////////////////////////////////////////////////////////////////////
  // Text
  //////////////////////////////////////////////////////////////////////////////

  lemma {:induction false} SplitWithout(s: string, separator: char)
    requires separator !in s
    ensures Split(s, separator) == [s]
    decreases |s|
  {
    if s != "" {
      SplitWithout(s[1..], separator);
      assert [s[0]] + s[1..] == s;
    }
  }

  lemma {:induction false} SplitOnce(a: string, b: string, separator: char)
    requires separator !in a && separator !in b
    ensures Split(a + [separator] + b, separator) == [a, b]
    decreases |a|
  {
    var s := a + [separator] + b;
    if a == "" {
      assert s[1..] == b;
      SplitWithout(b, separator);
    } else {
      assert s[1..] == a[1..] + [separator] + b;
      SplitOnce(a[1..], b, separator);
      assert [a[0]] + a[1..] == a;
    }
  }

  lemma {:induction false} SplitCount(s: string, separator: char)
    ensures |Split(s, separator)| == 1 + multiset(s)[separator]
    decreases |s|
  {
    if s != "" {
      assert s == [s[0]] + s[1..];
      SplitCount(s[1..], separator);
    }
  }

  /** A text is refused for its format exactly when it has not one slash. */
  lemma FormatIff(s: string)
    ensures ParseLsn(s) == Err(InvalidFormat) <==> multiset(s)['/'] != 1
  {
    SplitCount(s, '/');
    hide Split, ParseUnsigned, Join;
  }

  /** A half of a position: a hexadecimal numeral in either case, perhaps with a plus, of 32 bits. */
  ghost predicate IsHalf(s: string, n: int) { n < 0x1_0000_0000 && DenotesUnsigned(s, 16, n) }

  /** Around the one slash, exactly the halves are accepted, the first of them at fault named. */
  lemma HalvesIff(a: string, b: string, high: int, low: int)
    requires '/' !in a && '/' !in b
    ensures ParseLsn(a + "/" + b) == Err(InvalidHigh) <==> !exists n :: IsHalf(a, n)
    ensures ParseLsn(a + "/" + b) == Err(InvalidLow) <==> (exists n :: IsHalf(a, n)) && !exists n :: IsHalf(b, n)
    ensures IsHalf(a, high) && IsHalf(b, low) ==>
      0 <= high < 0x1_0000_0000 && 0 <= low < 0x1_0000_0000 && ParseLsn(a + "/" + b) == Ok(Join(high, low))
  {
    SplitOnce(a, b, '/');
    HalfIff(a, high);
    HalfIff(b, low);
    hide Split, ParseUnsigned, Join, IsHalf;
    var h, l := ParseUnsigned(a, 16, U32_LIMIT), ParseUnsigned(b, 16, U32_LIMIT);
    if h.Some? {
      HalfIff(a, h.value);
    }
    if l.Some? {
      HalfIff(b, l.value);
    }
    forall n | IsHalf(a, n) ensures h.Some? { HalfIff(a, n); }
    forall n | IsHalf(b, n) ensures l.Some? { HalfIff(b, n); }
  }

  lemma HalfIff(s: string, n: int)
    ensures IsHalf(s, n) <==> ParseUnsigned(s, 16, U32_LIMIT) == Some(n)
  {
    UnsignedIff(s, 16, U32_LIMIT, n);
    hide ParseUnsigned, DenotesUnsigned;
  }

  lemma TextHasNoSlash(ds: seq<nat>)
    requires forall i :: 0 <= i < |ds| ==> ds[i] < 16
    ensures '/' !in Text(ds)
  {
    assert forall d: nat :: d < 16 ==> DIGIT_CHARS[d] != '/';
  }

  /** Reading two printed halves: both must fit 32 bits under the hexadecimal rule. */
  lemma ParseOfHalves(high: seq<nat>, low: seq<nat>)
    requires high != [] && low != []
    requires forall i :: 0 <= i < |high| ==> high[i] < 16
    requires forall i :: 0 <= i < |low| ==> low[i] < 16
    ensures ParseLsn(Text(high) + "/" + Text(low))
         == if Value(high, 16) >= U32_LIMIT then Err(InvalidHigh)
            else if Value(low, 16) >= U32_LIMIT then Err(InvalidLow)
            else Ok(Join(Value(high, 16), Value(low, 16)))
  {
    TextHasNoSlash(high);
    TextHasNoSlash(low);
    SplitOnce(Text(high), Text(low), '/');
    ParseUnsignedOfText(high, 16, U32_LIMIT);
    ParseUnsignedOfText(low, 16, U32_LIMIT);
  }

  /** The snapshot reads back every position the server prints (section 8.20 of the PostgreSQL 16
      documentation: two hexadecimal numbers separated by a slash). */
  lemma SnapshotReadsServerText(high: u32, low: u32)
    ensures ParseLsn(Hex(high) + "/" + Hex(low)) == Ok(Join(high, low))
  {
    ValueOfDigits(high, 16);
    ValueOfDigits(low, 16);
    ParseOfHalves(Digits(high, 16), Digits(low, 16));
  }

  //////////////////////////////////////////////////////////////////////////////
  // Decimal digits under the hexadecimal rule
  //////////////////////////////////////////////////////////////////////////////

  /** What a half becomes when its decimal print is read in hexadecimal. */
  function Misread(n: nat): nat { Value(Digits(n, 10), 16) }

  lemma MisreadStep(n: nat)
    ensures Misread(n) == if n < 10 then n else 16 * Misread(n / 10) + n % 10
  {
    if n < 10 {
      assert [n][..0] == [];
    } else {
      assert Digits(n, 10)[..|Digits(n, 10)| - 1] == Digits(n / 10, 10);
    }
  }

  /** A misread half is never smaller than the half, and equal to it exactly below ten. */
  lemma {:induction false} MisreadAtLeast(n: nat)
    ensures Misread(n) >= n && (Misread(n) == n <==> n < 10)
    decreases n
  {
    MisreadStep(n);
    if n >= 10 {
      MisreadAtLeast(n / 10);
    }
  }

  /** Misreading keeps the order of halves, and no two are confused. */
  lemma {:induction false} MisreadMonotone(m: nat, n: nat)
    requires m < n
    ensures Misread(m) < Misread(n)
    decreases n
  {
    MisreadStep(m);
    MisreadStep(n);
    if m >= 10 {
      if m / 10 < n / 10 {
        MisreadMonotone(m / 10, n / 10);
      }
    } else if n >= 10 {
      MisreadAtLeast(n / 10);
    }
  }

  lemma {:induction false} MisreadOfPower(k: nat)
    ensures Misread(Pow10(k)) == Pow16(k)
    decreases k
  {
    MisreadStep(Pow10(k));
    if k > 0 {
      MisreadOfPower(k - 1);
    }
  }

  function Pow10(k: nat): (p: nat)
    ensures p >= 1
  {
    if k == 0 then 1 else 10 * Pow10(k - 1)
  }

  function Pow16(k: nat): nat { if k == 0 then 1 else 16 * Pow16(k - 1) }

  /** The misread half fits 32 bits exactly when the half is below 10^8. */
  lemma MisreadFits(n: nat)
    ensures Misread(n) < U32_LIMIT <==> n < 100_000_000
  {
    MisreadOfPower(8);
    assert Pow10(8) == 100_000_000 && Pow16(8) == U32_LIMIT;
    if n < 100_000_000 {
      MisreadMonotone(n, 100_000_000);
    } else if n > 100_000_000 {
      MisreadMonotone(100_000_000, n);
    }
  }

  /** The position the server resumes from. It refuses the text exactly when a half is at least
      10^8; otherwise it reads a position whose halves are the misread halves. */
  lemma ResumePosition(lsn: i64)
    ensures ParseLsn(ResumeText(Some(lsn)))
         == if High(lsn) >= 100_000_000 then Err(InvalidHigh)
            else if Low(lsn) >= 100_000_000 then Err(InvalidLow)
            else (MisreadFits(High(lsn)); MisreadFits(Low(lsn)); Ok(Join(Misread(High(lsn)), Misread(Low(lsn)))))
  {
    MisreadFits(High(lsn));
    MisreadFits(Low(lsn));
    ParseOfHalves(Digits(High(lsn), 10), Digits(Low(lsn), 10));
  }

  /** Streaming resumes where the snapshot stood exactly when both halves are below ten. */
  lemma ResumesAtSnapshotIffSmall(lsn: i64)
    ensures ParseLsn(ResumeText(Some(lsn))) == Ok(lsn) <==> High(lsn) < 10 && Low(lsn) < 10
  {
    ResumePosition(lsn);
    JoinOfSplit(lsn);
    MisreadAtLeast(High(lsn));
    MisreadAtLeast(Low(lsn));
    if High(lsn) < 100_000_000 && Low(lsn) < 100_000_000 {
      MisreadFits(High(lsn));
      MisreadFits(Low(lsn));
      SplitOfJoin(Misread(High(lsn)), Misread(Low(lsn)));
    }
  }

  /** Without an offset the server resumes from position zero. */
  lemma ResumeFromStart()
    ensures ParseLsn(ResumeText(None)) == Ok(0)
  {
    assert Text(Digits(0, 10)) + "/" + Text(Digits(0, 10)) == "0/0";
    ParseOfHalves([0], [0]);
    assert [0][..0] == [];
    JoinFits(0, 0);
  }
}
