/** Bitwise operators on natural numbers, and fixed-width byte order. */
module Bits {

  type byte = b: int | 0 <= b < 256
  type bytes = seq<byte>

  type u16 = n: int | 0 <= n < 0x1_0000
  type u32 = n: int | 0 <= n < 0x1_0000_0000
  type u64 = n: int | 0 <= n < 0x1_0000_0000_0000_0000
  type i8 = n: int | -0x80 <= n < 0x80
  type i16 = n: int | -0x8000 <= n < 0x8000
  type i32 = n: int | -0x8000_0000 <= n < 0x8000_0000
  type i64 = n: int | -0x8000_0000_0000_0000 <= n < 0x8000_0000_0000_0000

  //////////////////////////////////////////////////////////////////////////////
  // Two's complement reinterpretation
  //////////////////////////////////////////////////////////////////////////////

  function AsI8(n: byte): i8 { if n < 0x80 then n else n - 0x100 }

  function AsI16(n: u16): i16 { if n < 0x8000 then n else n - 0x1_0000 }

  function AsI32(n: u32): i32 { if n < 0x8000_0000 then n else n - 0x1_0000_0000 }

  function AsI64(n: u64): i64 {
    if n < 0x8000_0000_0000_0000 then n else n - 0x1_0000_0000_0000_0000
  }

  function FromI8(n: i8): byte { if n < 0 then n + 0x100 else n }

  function FromI16(n: i16): u16 { if n < 0 then n + 0x1_0000 else n }

  function FromI32(n: i32): u32 { if n < 0 then n + 0x1_0000_0000 else n }

  function FromI64(n: i64): u64 { if n < 0 then n + 0x1_0000_0000_0000_0000 else n }

  //////////////////////////////////////////////////////////////////////////////
  // Shifts, masks and disjunctions
  //////////////////////////////////////////////////////////////////////////////

  function Pow2(k: nat): (p: nat)
    ensures p > 0
  {
    if k == 0 then 1 else 2 * Pow2(k - 1)
  }

  function Shl(x: nat, k: nat): nat { x * Pow2(k) }

  function Shr(x: nat, k: nat): nat { DivNonnegative(x, Pow2(k)); x / Pow2(k) }

  lemma DivNonnegative(x: nat, d: nat)
    requires d > 0
    ensures x / d >= 0
  {
  }

  function BitAnd(x: nat, y: nat): nat {
    if x == 0 || y == 0 then 0
    else (x % 2) * (y % 2) + 2 * BitAnd(x / 2, y / 2)
  }

  function BitOr(x: nat, y: nat): nat
    decreases x + y
  {
    if x == 0 then y else if y == 0 then x
    else (if x % 2 == 1 || y % 2 == 1 then 1 else 0) + 2 * BitOr(x / 2, y / 2)
  }

  /** Masking with k ones keeps the k low bits. */
  lemma {:induction false} BitAndLowMask(x: nat, k: nat)
    ensures BitAnd(x, Pow2(k) - 1) == x % Pow2(k)
    decreases k
  {
    if k > 0 {
      var p := Pow2(k - 1);
      BitAndLowMask(x / 2, k - 1);
      assert (2 * p - 1) / 2 == p - 1 && (2 * p - 1) % 2 == 1;
      ModDouble(x, p);
    }
  }

  /** A remainder by 2p is the low bit and twice the remainder of the half by p. */
  lemma ModDouble(x: nat, p: nat)
    requires p > 0
    ensures x % (2 * p) == x % 2 + 2 * ((x / 2) % p)
    ensures x / (2 * p) == (x / 2) / p
  {
    var q, r := (x / 2) / p, (x / 2) % p;
    assert x == 2 * (p * q + r) + x % 2;
    assert x == (2 * p) * q + (2 * r + x % 2);
    DivModUnique(x, 2 * p, q, 2 * r + x % 2);
  }

  lemma MulMonotone(d: nat, a: int, b: int)
    requires a <= b
    ensures d * a <= d * b
  {
  }

  lemma DivModUnique(x: nat, d: nat, q: nat, r: nat)
    requires d > 0 && r < d && x == d * q + r
    ensures x / d == q && x % d == r
  {
    var k := x / d;
    assert d * k <= x < d * k + d;
    if k < q {
      MulMonotone(d, k + 1, q);
    } else if q < k {
      MulMonotone(d, q + 1, k);
    }
  }

  /** Masking a shifted value with a shifted mask is the shifted masking. */
  lemma {:induction false} BitAndShifted(x: nat, y: nat, k: nat)
    ensures BitAnd(Shl(x, k), Shl(y, k)) == Shl(BitAnd(x, y), k)
    decreases k
  {
    if k > 0 {
      var a, b := Shl(x, k - 1), Shl(y, k - 1);
      ShlStep(x, k);
      ShlStep(y, k);
      BitAndShifted(x, y, k - 1);
      BitAndDouble(a, b);
      ShlStep(BitAnd(x, y), k);
    } else {
      assert Pow2(0) == 1;
    }
  }

  lemma BitAndDouble(a: nat, b: nat)
    ensures BitAnd(2 * a, 2 * b) == 2 * BitAnd(a, b)
  {
  }

  lemma ShlStep(x: nat, k: nat)
    requires k > 0
    ensures Shl(x, k) == 2 * Shl(x, k - 1)
  {
    var p := Pow2(k - 1);
    assert x * (2 * p) == 2 * (x * p);
  }

  /** A disjunction of two values that share no bit is their sum. */
  lemma {:induction false} BitOrDisjoint(x: nat, y: nat, k: nat)
    requires y < Pow2(k)
    ensures BitOr(Shl(x, k), y) == Shl(x, k) + y
    decreases k
  {
    if k > 0 && Shl(x, k) != 0 && y != 0 {
      ShlStep(x, k);
      BitOrDisjoint(x, y / 2, k - 1);
    }
  }

  lemma {:induction false} BitOrComm(x: nat, y: nat)
    ensures BitOr(x, y) == BitOr(y, x)
    decreases x + y
  {
    if x != 0 && y != 0 {
      BitOrComm(x / 2, y / 2);
    }
  }

  lemma {:induction false} Pow2Add(a: nat, b: nat)
    ensures Pow2(a + b) == Pow2(a) * Pow2(b)
    decreases b
  {
    if b > 0 {
      Pow2Add(a, b - 1);
      assert Pow2(a + b) == 2 * Pow2(a + b - 1);
      assert 2 * (Pow2(a) * Pow2(b - 1)) == Pow2(a) * (2 * Pow2(b - 1));
    } else {
      assert Pow2(b) == 1;
    }
  }

  lemma Pow2Of32()
    ensures Pow2(32) == 0x1_0000_0000
  {
    hide Pow2;
    Pow2Zero();
    Pow2Four(0);
    Pow2Four(4);
    Pow2Four(8);
    Pow2Four(12);
    Pow2Four(16);
    Pow2Four(20);
    Pow2Four(24);
    Pow2Four(28);
  }

  lemma Pow2Zero()
    ensures Pow2(0) == 1
  {
  }

  lemma Pow2Four(k: nat)
    ensures Pow2(k + 4) == 16 * Pow2(k)
  {
    assert Pow2(k + 4) == 2 * Pow2(k + 3) == 4 * Pow2(k + 2) == 8 * Pow2(k + 1);
  }

  //////////////////////////////////////////////////////////////////////////////
  // Byte order
  //////////////////////////////////////////////////////////////////////////////

  function Pow256(n: nat): (p: nat)
    ensures p > 0
  {
    if n == 0 then 1 else 256 * Pow256(n - 1)
  }

  lemma Pow256Values()
    ensures Pow256(1) == 0x100 && Pow256(2) == 0x1_0000 && Pow256(3) == 0x100_0000
    ensures Pow256(4) == 0x1_0000_0000 && Pow256(5) == 0x100_0000_0000
    ensures Pow256(6) == 0x1_0000_0000_0000
    ensures Pow256(8) == 0x1_0000_0000_0000_0000
  {
    assert Pow256(1) == 0x100;
    assert Pow256(2) == 256 * Pow256(1);
    assert Pow256(3) == 256 * Pow256(2);
    assert Pow256(4) == 256 * Pow256(3);
    assert Pow256(5) == 256 * Pow256(4);
    assert Pow256(6) == 256 * Pow256(5);
    assert Pow256(7) == 256 * Pow256(6);
    assert Pow256(8) == 256 * Pow256(7);
  }

  /** Big-endian value: the last byte is the least significant. */
  function BeValue(s: bytes): (v: nat)
    ensures v < Pow256(|s|)
  {
    if s == [] then 0 else 256 * BeValue(s[..|s| - 1]) + s[|s| - 1]
  }

  function BeBytes(v: nat, n: nat): (s: bytes)
    requires v < Pow256(n)
    ensures |s| == n
  {
    if n == 0 then [] else BeBytes(v / 256, n - 1) + [v % 256]
  }

  lemma {:induction false} BeValueOfBytes(v: nat, n: nat)
    requires v < Pow256(n)
    ensures BeValue(BeBytes(v, n)) == v
    decreases n
  {
    if n > 0 {
      BeValueOfBytes(v / 256, n - 1);
      assert BeBytes(v, n)[..n - 1] == BeBytes(v / 256, n - 1);
    }
  }

  lemma {:induction false} BeBytesOfValue(s: bytes)
    ensures BeBytes(BeValue(s), |s|) == s
    decreases |s|
  {
    if s != [] {
      var init, b := s[..|s| - 1], s[|s| - 1];
      var v := BeValue(init);
      assert BeValue(s) == 256 * v + b && (256 * v + b) / 256 == v && (256 * v + b) % 256 == b;
      BeBytesOfValue(init);
      assert s == init + [b];
    }
  }

  /** Little-endian value: the first byte is the least significant. */
  function LeValue(s: bytes): (v: nat)
    ensures v < Pow256(|s|)
  {
    if s == [] then 0 else s[0] + 256 * LeValue(s[1..])
  }

  function LeBytes(v: nat, n: nat): (s: bytes)
    requires v < Pow256(n)
    ensures |s| == n
  {
    if n == 0 then [] else [v % 256] + LeBytes(v / 256, n - 1)
  }

  lemma {:induction false} LeValueOfBytes(v: nat, n: nat)
    requires v < Pow256(n)
    ensures LeValue(LeBytes(v, n)) == v
    decreases n
  {
    if n > 0 {
      LeValueOfBytes(v / 256, n - 1);
      assert LeBytes(v, n)[1..] == LeBytes(v / 256, n - 1);
    }
  }

  /** The first NUL at or behind the cursor, or the end of the data. */
  function ScanNul(data: bytes, off: nat): (e: nat)
    requires off <= |data|
    ensures off <= e <= |data|
    ensures forall i :: off <= i < e ==> data[i] != 0
    ensures e < |data| ==> data[e] == 0
    decreases |data| - off
  {
    if off < |data| && data[off] != 0 then ScanNul(data, off + 1) else off
  }

  //////////////////////////////////////////////////////////////////////////////
  // Occurrence of a byte string at a cursor
  //////////////////////////////////////////////////////////////////////////////

  /** `e` stands in `data` at cursor `off`. */
  ghost predicate At(data: bytes, off: nat, e: bytes) {
    off + |e| <= |data| && forall i {:trigger e[i]} :: 0 <= i < |e| ==> data[off + i] == e[i]
  }

  lemma AtConcat(data: bytes, off: nat, a: bytes, b: bytes)
    ensures At(data, off, a + b) <==> At(data, off, a) && At(data, off + |a|, b)
  {
    if At(data, off, a + b) {
      assert forall i :: 0 <= i < |a| ==> (a + b)[i] == a[i];
      assert forall i :: 0 <= i < |b| ==> (a + b)[|a| + i] == b[i];
    }
  }

  lemma AtInside(data: bytes, off: nat, e: bytes)
    requires At(data, off, e)
    ensures off + |e| <= |data|
  {
  }

  lemma AtByte(data: bytes, off: nat, b: byte)
    ensures At(data, off, [b]) <==> off < |data| && data[off] == b
  {
    assert [b][0] == b;
  }

  lemma AtSlice(data: bytes, from: nat, to: nat)
    requires from <= to <= |data|
    ensures At(data, from, data[from..to])
  {
  }

  lemma AtNothing(data: bytes, off: nat)
    ensures At(data, off, []) <==> off <= |data|
  {
  }

  /** The data ends inside `e`, which stands at the cursor as far as the data goes. */
  ghost predicate Cut(data: bytes, off: nat, e: bytes) {
    off <= |data| < off + |e| && forall i {:trigger e[i]} :: 0 <= i < |data| - off ==> data[off + i] == e[i]
  }

  lemma CutConcat(data: bytes, off: nat, a: bytes, b: bytes)
    requires Cut(data, off, a + b)
    ensures if |data| < off + |a| then Cut(data, off, a) else At(data, off, a) && Cut(data, off + |a|, b)
  {
    assert forall i :: 0 <= i < |a| ==> (a + b)[i] == a[i];
    assert forall i :: 0 <= i < |b| ==> (a + b)[|a| + i] == b[i];
  }

  /** The n bytes at a cursor. */
  function Sub(data: bytes, off: nat, n: nat): (s: bytes)
    requires off + n <= |data|
    ensures |s| == n && forall i :: 0 <= i < n ==> s[i] == data[off + i]
  {
    seq(n, i requires 0 <= i < n => data[off + i])
  }

  /** What stands at the cursor is the slice there. */
  lemma SliceAt(data: bytes, off: nat, e: bytes)
    requires At(data, off, e)
    ensures data[off..off + |e|] == e
  {
    assert forall i :: 0 <= i < |e| ==> data[off + i] == e[i];
  }

  lemma AtPrefix(data: bytes, tail: bytes)
    ensures At(data + tail, 0, data)
  {
  }

  lemma Join2(data: bytes, off: nat, whole: bytes, a: bytes, b: bytes)
    requires whole == a + b
    requires At(data, off, a) && At(data, off + |a|, b)
    ensures At(data, off, whole) && off + |whole| == off + |a| + |b|
  {
    AtConcat(data, off, a, b);
  }

  lemma Join3(data: bytes, off: nat, whole: bytes, a: bytes, b: bytes, c: bytes)
    requires whole == a + (b + c)
    requires At(data, off, a) && At(data, off + |a|, b) && At(data, off + |a| + |b|, c)
    ensures At(data, off, whole) && off + |whole| == off + |a| + |b| + |c|
  {
    AtConcat(data, off + |a|, b, c);
    AtConcat(data, off, a, b + c);
  }

  lemma Join4(data: bytes, off: nat, whole: bytes, a: bytes, b: bytes, c: bytes, d: bytes)
    requires whole == a + (b + (c + d))
    requires At(data, off, a) && At(data, off + |a|, b)
    requires At(data, off + |a| + |b|, c) && At(data, off + |a| + |b| + |c|, d)
    ensures At(data, off, whole) && off + |whole| == off + |a| + |b| + |c| + |d|
  {
    Join3(data, off + |a|, b + (c + d), b, c, d);
    AtConcat(data, off, a, b + (c + d));
  }

  lemma Split3(data: bytes, off: nat, whole: bytes, a: bytes, b: bytes, c: bytes)
    requires whole == a + (b + c) && At(data, off, whole)
    ensures At(data, off, a) && At(data, off + |a|, b) && At(data, off + |a| + |b|, c)
    ensures |whole| == |a| + |b| + |c|
  {
    AtConcat(data, off, a, b + c);
    AtConcat(data, off + |a|, b, c);
  }

  lemma Split4(data: bytes, off: nat, whole: bytes, a: bytes, b: bytes, c: bytes, d: bytes)
    requires whole == a + (b + (c + d)) && At(data, off, whole)
    ensures At(data, off, a) && At(data, off + |a|, b)
    ensures At(data, off + |a| + |b|, c) && At(data, off + |a| + |b| + |c|, d)
    ensures |whole| == |a| + |b| + |c| + |d|
  {
    AtConcat(data, off, a, b + (c + d));
    Split3(data, off + |a|, b + (c + d), b, c, d);
  }

  //////////////////////////////////////////////////////////////////////////////
  // NUL-terminated strings
  //////////////////////////////////////////////////////////////////////////////

  ghost predicate NulFree(s: bytes) {
    forall i :: 0 <= i < |s| ==> s[i] != 0
  }

  ghost function EncodeCString(s: bytes): (e: bytes)
    ensures |e| == |s| + 1
  {
    s + [0]
  }

  /** The scan stops at the terminator of a NUL-free string. */
  lemma ScanNulOfCString(data: bytes, off: nat, s: bytes)
    requires NulFree(s) && At(data, off, EncodeCString(s))
    ensures off + |s| < |data| && ScanNul(data, off) == off + |s|
    ensures At(data, off, s)
  {
    var end, c := off + |s|, EncodeCString(s);
    assert c[|s|] == 0 && forall i :: 0 <= i < |s| ==> c[i] == s[i];
    assert forall i :: off <= i < end ==> data[i] == c[i - off];
    AtConcat(data, off, s, [0]);
  }
}
