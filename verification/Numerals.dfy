/** Positional numerals: printing, and the reading rule of an unsigned radix parse. */
module Numerals {
  import opened Wrappers

  /** The digits of n, most significant first; zero prints as one digit. */
  function Digits(n: nat, base: nat): (ds: seq<nat>)
    requires base >= 2
    ensures |ds| > 0 && forall i :: 0 <= i < |ds| ==> ds[i] < base
    decreases n
  {
    if n < base then [n] else DivShrinks(n, base); Digits(n / base, base) + [n % base]
  }

  lemma DivShrinks(n: nat, base: nat)
    requires base >= 2 && n >= base
    ensures 0 < n / base < n
  {
    var q, r := n / base, n % base;
    assert n == base * q + r;
    TimesGrows(base, q);
  }

  lemma {:induction false} TimesGrows(base: nat, q: nat)
    requires base >= 2
    ensures base * q >= 2 * q
    decreases q
  {
    if q > 0 {
      TimesGrows(base, q - 1);
      assert base * q == base * (q - 1) + base;
    }
  }

  function Value(ds: seq<nat>, base: nat): nat {
    if ds == [] then 0 else base * Value(ds[..|ds| - 1], base) + ds[|ds| - 1]
  }

  lemma ValueSnoc(ds: seq<nat>, d: nat, base: nat)
    ensures Value(ds + [d], base) == base * Value(ds, base) + d
  {
    assert (ds + [d])[..|ds|] == ds;
  }

  lemma QuotientAndRemainder(n: nat, base: nat)
    requires base > 0
    ensures base * (n / base) + n % base == n
  {
  }

  lemma {:induction false} ValueOfDigits(n: nat, base: nat)
    requires base >= 2
    ensures Value(Digits(n, base), base) == n
    decreases n
  {
    if n < base {
      ValueSnoc([], n, base);
      assert [] + [n] == [n] && base * 0 == 0;
    } else {
      var q, r := n / base, n % base;
      DivShrinks(n, base);
      QuotientAndRemainder(n, base);
      assert Digits(n, base) == Digits(q, base) + [r];
      hide Digits;
      ValueSnoc(Digits(q, base), r, base);
      ValueOfDigits(q, base);
      hide Value;
    }
  }

  //////////////////////////////////////////////////////////////////////////////
  // Text
  //////////////////////////////////////////////////////////////////////////////

  const DIGIT_CHARS: string := "0123456789ABCDEF"

  function Text(ds: seq<nat>): string
    requires forall i :: 0 <= i < |ds| ==> ds[i] < 16
  {
    seq(|ds|, i requires 0 <= i < |ds| => DIGIT_CHARS[ds[i]])
  }

  function Decimal(n: nat): string { Text(Digits(n, 10)) }

  function Hex(n: nat): string { Text(Digits(n, 16)) }

  /** The digit a character stands for in a radix up to 16, in either case. */
  function DigitOf(c: char, base: nat): Option<nat> {
    var d := if '0' <= c <= '9' then c as int - '0' as int
             else if 'A' <= c <= 'F' then c as int - 'A' as int + 10
             else if 'a' <= c <= 'f' then c as int - 'a' as int + 10
             else base;
    if d < base then Some(d) else None
  }

  /** The running value of a checked parse: every step must stay below the limit. */
  function ParseDigits(s: string, base: nat, limit: nat, acc: nat): (r: Option<nat>)
    requires acc < limit
    ensures r.Some? ==> r.value < limit
    decreases |s|
  {
    if s == "" then Some(acc)
    else match DigitOf(s[0], base)
      case None => None
      case Some(d) =>
        if base * acc + d < limit then ParseDigits(s[1..], base, limit, base * acc + d) else None
  }

  /** An unsigned radix parse: an optional plus sign, at least one digit, no overflow. */
  function ParseUnsigned(s: string, base: nat, limit: nat): (r: Option<nat>)
    requires limit > 0
    ensures r.Some? ==> r.value < limit
  {
    var digits := if s != "" && s[0] == '+' then s[1..] else s;
    if digits == "" then None else ParseDigits(digits, base, limit, 0)
  }

  lemma DigitOfChar(d: nat, base: nat)
    requires d < base <= 16
    ensures DigitOf(DIGIT_CHARS[d], base) == Some(d)
  {
    assert DIGIT_CHARS[d] == if d < 10 then ('0' as int + d) as char else ('A' as int + d - 10) as char;
  }

  /** The value of digits read behind digits already accumulated. */
  function Horner(ds: seq<nat>, base: nat, acc: nat): nat
    decreases |ds|
  {
    if ds == [] then acc else Horner(ds[1..], base, base * acc + ds[0])
  }

  lemma {:induction false} HornerSnoc(ds: seq<nat>, d: nat, base: nat, acc: nat)
    ensures Horner(ds + [d], base, acc) == base * Horner(ds, base, acc) + d
    decreases |ds|
  {
    if ds == [] {
      assert [d][1..] == [];
    } else {
      assert (ds + [d])[1..] == ds[1..] + [d];
      HornerSnoc(ds[1..], d, base, base * acc + ds[0]);
    }
  }

  lemma {:induction false} HornerIsValue(ds: seq<nat>, base: nat)
    ensures Horner(ds, base, 0) == Value(ds, base)
    decreases |ds|
  {
    if ds != [] {
      var init := ds[..|ds| - 1];
      assert ds == init + [ds[|ds| - 1]];
      HornerSnoc(init, ds[|ds| - 1], base, 0);
      HornerIsValue(init, base);
    }
  }

  lemma {:induction false} HornerGrows(ds: seq<nat>, base: nat, acc: nat)
    requires base >= 1
    ensures Horner(ds, base, acc) >= acc
    decreases |ds|
  {
    if ds != [] {
      assert base * acc >= acc;
      HornerGrows(ds[1..], base, base * acc + ds[0]);
    }
  }

  lemma ParseStep(s: string, d: nat, base: nat, limit: nat, acc: nat)
    requires s != "" && DigitOf(s[0], base) == Some(d) && acc < limit
    ensures ParseDigits(s, base, limit, acc) ==
      if base * acc + d < limit then ParseDigits(s[1..], base, limit, base * acc + d) else None
  {
    hide DigitOf;
  }

  /** The characters that stand for a digit: upper or lower case above nine. */
  predicate Stands(c: char, d: nat) {
    d < 16 && (c == "0123456789ABCDEF"[d] || c == "0123456789abcdef"[d])
  }

  ghost predicate Spells(s: string, ds: seq<nat>, base: nat) {
    |s| == |ds| && forall i :: 0 <= i < |ds| ==> ds[i] < base && Stands(s[i], ds[i])
  }

  lemma DigitIff(c: char, d: nat, base: nat)
    requires base <= 16
    ensures DigitOf(c, base) == Some(d) <==> d < base && Stands(c, d)
  {
  }

  /** Reading spelled digits: the Horner value, if it stays below the limit. */
  lemma {:induction false} ParseDigitsOfSpelled(s: string, ds: seq<nat>, base: nat, limit: nat, acc: nat)
    requires 1 <= base <= 16 && Spells(s, ds, base) && acc < limit
    ensures ParseDigits(s, base, limit, acc)
         == if Horner(ds, base, acc) < limit then Some(Horner(ds, base, acc)) else None
    decreases |ds|
  {
    if ds != [] {
      var acc' := base * acc + ds[0];
      assert Horner(ds, base, acc) == Horner(ds[1..], base, acc');
      assert Spells(s[1..], ds[1..], base);
      DigitIff(s[0], ds[0], base);
      hide *;
      ParseStep(s, ds[0], base, limit, acc);
      if acc' < limit {
        ParseDigitsOfSpelled(s[1..], ds[1..], base, limit, acc');
      } else {
        HornerGrows(ds[1..], base, acc');
      }
    }
  }

  /** Nothing is read that does not spell digits. */
  lemma {:induction false} SpelledIfParsed(s: string, base: nat, limit: nat, acc: nat) returns (ds: seq<nat>)
    requires base <= 16 && acc < limit && ParseDigits(s, base, limit, acc).Some?
    ensures Spells(s, ds, base)
    decreases |s|
  {
    if s == "" {
      ds := [];
    } else {
      var d := DigitOf(s[0], base).value;
      DigitIff(s[0], d, base);
      ds := SpelledIfParsed(s[1..], base, limit, base * acc + d);
      hide DigitOf, Stands;
      assert forall i :: 0 < i < |s| ==> s[i] == s[1..][i - 1];
      ds := [d] + ds;
    }
  }

  /** A numeral without a sign: at least one digit, and the value of the digits. */
  ghost predicate Denotes(s: string, base: nat, n: int) {
    exists ds :: Spells(s, ds, base) && ds != [] && n == Value(ds, base)
  }

  ghost predicate DenotesUnsigned(s: string, base: nat, n: int) {
    Denotes(s, base, n) || (s != "" && s[0] == '+' && Denotes(s[1..], base, n))
  }

  ghost predicate DenotesSigned(s: string, n: int) {
    DenotesUnsigned(s, 10, n) || (s != "" && s[0] == '-' && Denotes(s[1..], 10, -n))
  }

  lemma DigitsIff(s: string, base: nat, limit: nat, n: int)
    requires 1 <= base <= 16 && limit > 0 && s != ""
    ensures ParseDigits(s, base, limit, 0) == Some(n) <==> n < limit && Denotes(s, base, n)
  {
    hide ParseDigits, Spells, Horner, Value;
    if ParseDigits(s, base, limit, 0) == Some(n) {
      var ds := SpelledIfParsed(s, base, limit, 0);
      assert ds != [] by { SpelledLength(s, ds, base); }
      ParseDigitsOfSpelled(s, ds, base, limit, 0);
      HornerIsValue(ds, base);
    }
    if n < limit && Denotes(s, base, n) {
      var ds :| Spells(s, ds, base) && ds != [] && n == Value(ds, base);
      ParseDigitsOfSpelled(s, ds, base, limit, 0);
      HornerIsValue(ds, base);
    }
  }

  lemma SpelledLength(s: string, ds: seq<nat>, base: nat)
    requires Spells(s, ds, base)
    ensures |s| == |ds|
  {
  }

  lemma NoSignInNumeral(s: string, base: nat, n: int)
    requires Denotes(s, base, n)
    ensures s != "" && s[0] != '+' && s[0] != '-'
  {
    var ds :| Spells(s, ds, base) && ds != [] && n == Value(ds, base);
    assert Stands(s[0], ds[0]);
  }

  /** An unsigned parse accepts exactly the numerals, signed with a plus or not, below the limit. */
  lemma UnsignedIff(s: string, base: nat, limit: nat, n: int)
    requires 1 <= base <= 16 && limit > 0
    ensures ParseUnsigned(s, base, limit) == Some(n) <==> n < limit && DenotesUnsigned(s, base, n)
  {
    var digits := if s != "" && s[0] == '+' then s[1..] else s;
    hide ParseDigits, Denotes;
    if digits != "" {
      DigitsIff(digits, base, limit, n);
    }
    if Denotes(s, base, n) {
      NoSignInNumeral(s, base, n);
    }
    if Denotes(digits, base, n) {
      NoSignInNumeral(digits, base, n);
    }
  }

  lemma TextSpells(ds: seq<nat>, base: nat)
    requires base <= 16 && forall i :: 0 <= i < |ds| ==> ds[i] < base
    ensures Spells(Text(ds), ds, base)
  {
  }

  lemma ParseUnsignedOfText(ds: seq<nat>, base: nat, limit: nat)
    requires 1 <= base <= 16 && ds != [] && forall i :: 0 <= i < |ds| ==> ds[i] < base
    requires limit > 0
    ensures ParseUnsigned(Text(ds), base, limit)
         == if Value(ds, base) < limit then Some(Value(ds, base)) else None
  {
    DigitOfChar(ds[0], base);
    assert Text(ds)[0] == DIGIT_CHARS[ds[0]] != '+';
    TextSpells(ds, base);
    ParseDigitsOfSpelled(Text(ds), ds, base, limit, 0);
    HornerIsValue(ds, base);
  }

  //////////////////////////////////////////////////////////////////////////////
  // Signed decimal text
  //////////////////////////////////////////////////////////////////////////////

  /** A signed decimal parse: a sign of either kind, then digits; every step must stay in range. */
  function ParseSigned(s: string, limit: nat): (r: Option<int>)
    requires limit > 0
    ensures r.Some? ==> 0 - limit <= r.value < limit
  {
    if |s| > 1 && s[0] == '-' then
      match ParseDigits(s[1..], 10, limit + 1, 0)
      case Some(n) => Some(-(n as int))
      case None => None
    else
      match ParseUnsigned(s, 10, limit)
      case Some(n) => Some(n as int)
      case None => None
  }

  function ShowSigned(n: int): string {
    if n < 0 then "-" + Decimal(-n) else Decimal(n)
  }

  lemma DecimalReadBack(n: nat, limit: nat)
    requires limit > 0
    ensures ParseDigits(Decimal(n), 10, limit, 0) == if n < limit then Some(n) else None
    ensures ParseUnsigned(Decimal(n), 10, limit) == if n < limit then Some(n) else None
    ensures Decimal(n) != "" && Decimal(n)[0] != '-'
  {
    var ds := Digits(n, 10);
    TextSpells(ds, 10);
    ParseDigitsOfSpelled(Text(ds), ds, 10, limit, 0);
    ParseUnsignedOfText(ds, 10, limit);
    HornerIsValue(ds, 10);
    ValueOfDigits(n, 10);
    DigitOfChar(ds[0], 10);
    assert Decimal(n)[0] == DIGIT_CHARS[ds[0]];
  }

  lemma DecimalInjective(m: nat, n: nat)
    requires Decimal(m) == Decimal(n)
    ensures m == n
  {
    DecimalReadBack(m, m + n + 1);
    DecimalReadBack(n, m + n + 1);
  }

  /** Printed integers are read back exactly within the range. */
  lemma SignedReadsBack(n: int, limit: nat)
    requires limit > 0
    ensures ParseSigned(ShowSigned(n), limit) == if 0 - limit <= n < limit then Some(n) else None
  {
    hide *;
    ShownDigits(n);
    if n < 0 {
      DecimalReadBack(-n, limit + 1);
      SignedStep(Decimal(-n), limit);
    } else {
      DecimalReadBack(n, limit);
      UnsignedStep(Decimal(n), limit);
    }
  }

  lemma ShownDigits(n: int)
    ensures ShowSigned(n) == if n < 0 then "-" + Decimal(-n) else Decimal(n)
  {
    hide Decimal;
  }

  /** A signed parse accepts exactly the numerals, signed or not, within the range. */
  lemma SignedIff(s: string, limit: nat, n: int)
    requires limit > 0
    ensures ParseSigned(s, limit) == Some(n) <==> 0 - limit <= n < limit && DenotesSigned(s, n)
  {
    hide ParseDigits, ParseUnsigned, Denotes;
    UnsignedIff(s, 10, limit, n);
    if |s| > 1 && s[0] == '-' {
      DigitsIff(s[1..], 10, limit + 1, -n);
    }
    NaturalNumeral(s, n);
    if s != "" {
      NaturalNumeral(s[1..], n);
      NaturalNumeral(s[1..], -n);
    }
  }

  lemma NaturalNumeral(s: string, n: int)
    ensures Denotes(s, 10, n) ==> n >= 0 && s != "" && s[0] != '+' && s[0] != '-'
  {
    if Denotes(s, 10, n) {
      NoSignInNumeral(s, 10, n);
    }
  }

  lemma UnsignedStep(digits: string, limit: nat)
    requires limit > 0 && digits != "" && digits[0] != '-'
    ensures ParseSigned(digits, limit) ==
      match ParseUnsigned(digits, 10, limit) case Some(n) => Some(n as int) case None => None
  {
    hide ParseUnsigned;
  }

  lemma SignedStep(digits: string, limit: nat)
    requires limit > 0 && digits != ""
    ensures ParseSigned("-" + digits, limit) ==
      match ParseDigits(digits, 10, limit + 1, 0) case Some(n) => Some(-(n as int)) case None => None
  {
    assert ("-" + digits)[1..] == digits;
    hide ParseDigits;
  }
}
