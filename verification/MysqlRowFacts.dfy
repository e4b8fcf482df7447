/** Cursor arithmetic of the row readers: progress, bounds, and when the loops panic. */
module MysqlRowFacts {
  import opened Wrappers
  import opened Bits
  import opened ChangeEvents
  import opened MysqlColumns
  import opened MysqlRows
  import opened MysqlValueFacts

  //////////////////////////////////////////////////////////////////////////////
  // Null bitmaps
  //////////////////////////////////////////////////////////////////////////////

  /** The value of n bits from a position on, lowest first; missing bits are clear. */
  function BitsValue(bits: seq<bool>, from: nat, n: nat): (v: nat)
    ensures v < Pow2(n)
    decreases n
  {
    if n == 0 then 0
    else (if from < |bits| && bits[from] then 1 else 0) + 2 * BitsValue(bits, from + 1, n - 1)
  }

  /** Bits packed into bytes. */
  function PackBits(bits: seq<bool>): (s: bytes)
    ensures |s| == CeilDiv(|bits|, 8)
  {
    seq(CeilDiv(|bits|, 8), k requires k >= 0 => PackedByte(bits, k))
  }

  function PackedByte(bits: seq<bool>, k: nat): byte {
    MysqlColumns.ShlByte(0);
    BitsValue(bits, 8 * k, 8)
  }

  lemma {:induction false} BitOfValue(bits: seq<bool>, from: nat, n: nat, m: nat)
    requires m < n
    ensures Shr(BitsValue(bits, from, n), m) % 2 == 1 <==> from + m < |bits| && bits[from + m]
    decreases m
  {
    var v, half := BitsValue(bits, from, n), BitsValue(bits, from + 1, n - 1);
    if m == 0 {
      Pow2Zero();
      assert v / 1 == v;
    } else {
      ModDouble(v, Pow2(m - 1));
      assert v / 2 == half;
      BitOfValue(bits, from + 1, n - 1, m - 1);
    }
  }

  /** Reading a packed bitmap gives its bits back. */
  lemma NullBitOfPacked(data: bytes, start: nat, bits: seq<bool>, i: nat)
    requires i < |bits| && At(data, start, PackBits(bits))
    ensures start + i / 8 < |data|
    ensures NullBit(data, start, i) <==> bits[i]
  {
    assert PackBits(bits)[i / 8] == PackedByte(bits, i / 8);
    BitOfValue(bits, 8 * (i / 8), 8, i % 8);
  }

  //////////////////////////////////////////////////////////////////////////////
  // Missing metas
  //////////////////////////////////////////////////////////////////////////////

  /** Metas that are missing count as zero. */
  lemma {:induction false} MissingMetas(data: bytes, start: nat, types: seq<byte>, metas: seq<u16>, zeros: seq<u16>,
                                        i: nat, pos: nat)
    requires i <= |types| && start + CeilDiv(|types|, 8) <= |data|
    requires |metas + zeros| == |types| && forall k :: 0 <= k < |zeros| ==> zeros[k] == 0
    ensures ReadCells(data, start, types, metas, i, pos) == ReadCells(data, start, types, metas + zeros, i, pos)
    decreases |types| - i
  {
    hide ReadCell, NullBit;
    if i < |types| {
      assert MetaOf(metas, i) == MetaOf(metas + zeros, i);
      MissingMetas(data, start, types, metas, zeros, i + 1, pos);
      var cell := ReadCell(data, pos, types[i], MetaOf(metas, i));
      if cell.Done? {
        MissingMetas(data, start, types, metas, zeros, i + 1, cell.next);
      }
    }
  }

  //////////////////////////////////////////////////////////////////////////////
  // Progress
  //////////////////////////////////////////////////////////////////////////////

  /** With a non-empty layout, a row read leaves the cursor in place exactly when no whole null
      bitmap is left; otherwise it yields one value per column, passes the bitmap, and ends at
      most three bytes behind the data. */
  lemma RowCursor(data: bytes, start: nat, types: seq<byte>, metas: seq<u16>)
    requires start <= |data| && types != [] && ReadRow(data, start, types, metas).Done?
    ensures var r, n := ReadRow(data, start, types, metas), CeilDiv(|types|, 8);
            && (r.next == start <==> |data| - start < n)
            && (r.next == start ==> r.value == [])
            && (r.next != start ==> |r.value| == |types| && start + n <= r.next <= |data| + 3)
  {
  }

  lemma ReadRowProgress(data: bytes, start: nat, types: seq<byte>, metas: seq<u16>)
    requires start <= |data| && ReadRow(data, start, types, metas).Done?
    requires ReadRow(data, start, types, metas).next != start
    ensures |ReadRow(data, start, types, metas).value| == |types|
    ensures start + CeilDiv(|types|, 8) <= |data|
    ensures ReadRow(data, start, types, metas).next >= start + CeilDiv(|types|, 8)
  {
  }

  /** At most one row per null bitmap's worth of bytes, and every row has one value per column. */
  lemma {:induction false} RowsBounded(data: bytes, pos: nat, types: seq<byte>, metas: seq<u16>)
    requires pos <= |data| && ReadRows(data, pos, types, metas).Done?
    ensures var rows := ReadRows(data, pos, types, metas).value;
            && |rows| * CeilDiv(|types|, 8) <= |data| - pos
            && forall k :: 0 <= k < |rows| ==> |rows[k]| == |types|
    decreases |data| - pos
  {
    hide ReadRow;
    var row := ReadRow(data, pos, types, metas);
    if pos < |data| && row.next != pos {
      ReadRowProgress(data, pos, types, metas);
      var n := CeilDiv(|types|, 8);
      var rest := ReadRows(data, row.next, types, metas).value;
      assert ReadRows(data, pos, types, metas).value == [row.value] + rest;
      assert |[row.value] + rest| * n == n + |rest| * n;
      if row.next <= |data| {
        RowsBounded(data, row.next, types, metas);
      } else {
        assert rest == [];
      }
    }
  }

  /** At most one pair for twice as many bytes, and both images have one value per column. */
  lemma {:induction false} PairsBounded(data: bytes, pos: nat, types: seq<byte>, metas: seq<u16>)
    requires pos <= |data| && ReadPairs(data, pos, types, metas).Done?
    ensures var pairs := ReadPairs(data, pos, types, metas).value;
            && |pairs| * (2 * CeilDiv(|types|, 8)) <= |data| - pos
            && forall k :: 0 <= k < |pairs| ==> |pairs[k].0| == |pairs[k].1| == |types|
    decreases |data| - pos
  {
    hide ReadRow;
    var before := ReadRow(data, pos, types, metas);
    if pos < |data| && before.next != pos {
      var after := ReadRow(data, before.next, types, metas);
      if after.next != before.next {
        ReadRowProgress(data, pos, types, metas);
        ReadRowProgress(data, before.next, types, metas);
        var n := CeilDiv(|types|, 8);
        var rest := ReadPairs(data, after.next, types, metas).value;
        var pair := (before.value, after.value);
        assert ReadPairs(data, pos, types, metas).value == [pair] + rest;
        assert |[pair] + rest| * (2 * n) == 2 * n + |rest| * (2 * n);
        if after.next <= |data| {
          PairsBounded(data, after.next, types, metas);
        } else {
          assert rest == [];
        }
      }
    }
  }

  //////////////////////////////////////////////////////////////////////////////
  // Panics
  //////////////////////////////////////////////////////////////////////////////

  /** No bit column is wider than eight bytes. */
  ghost predicate NarrowBits(types: seq<byte>, metas: seq<u16>) {
    forall i :: 0 <= i < |types| && types[i] == BIT ==> ColumnDataLength(BIT, MetaOf(metas, i)) <= 8
  }

  /** A blob column whose length prefix takes more than one byte. */
  predicate WidePrefix(t: byte) { IsBlob(t) && BlobPrefix(t) > 1 }

  lemma {:induction false} CellsInside(data: bytes, start: nat, types: seq<byte>, metas: seq<u16>, i: nat, pos: nat)
    requires i <= |types| && start + CeilDiv(|types|, 8) <= |data|
    requires NarrowBits(types, metas)
    ensures var r := ReadCells(data, start, types, metas, i, pos);
            && r.Done?
            && ((forall k :: 0 <= k < |types| ==> !WidePrefix(types[k])) && pos <= |data| ==> r.next <= |data|)
    decreases |types| - i
  {
    if i < |types| {
      CellsInside(data, start, types, metas, i + 1, pos);
      var cell := ReadCell(data, pos, types[i], MetaOf(metas, i));
      if cell.Done? {
        CellsInside(data, start, types, metas, i + 1, cell.next);
      }
    }
  }

  lemma RowInside(data: bytes, start: nat, types: seq<byte>, metas: seq<u16>)
    requires start <= |data| && NarrowBits(types, metas)
    ensures var r := ReadRow(data, start, types, metas);
            r.Done? && ((forall k :: 0 <= k < |types| ==> !WidePrefix(types[k])) ==> r.next <= |data|)
  {
    var n := CeilDiv(|types|, 8);
    if start + n <= |data| {
      CellsInside(data, start, types, metas, 0, start + n);
    }
  }

  /** Over bit columns of at most eight bytes the loops of write and delete events never panic. */
  lemma {:induction false} RowsNeverPanic(data: bytes, pos: nat, types: seq<byte>, metas: seq<u16>)
    requires NarrowBits(types, metas)
    ensures ReadRows(data, pos, types, metas).Done?
    decreases |data| - pos
  {
    if pos < |data| {
      RowInside(data, pos, types, metas);
      var row := ReadRow(data, pos, types, metas);
      if row.next != pos {
        RowsNeverPanic(data, row.next, types, metas);
      }
    }
  }

  lemma {:induction false} PairsNeverPanic(data: bytes, pos: nat, types: seq<byte>, metas: seq<u16>)
    requires NarrowBits(types, metas) && forall k :: 0 <= k < |types| ==> !WidePrefix(types[k])
    ensures ReadPairs(data, pos, types, metas).Done?
    decreases |data| - pos
  {
    if pos < |data| {
      RowInside(data, pos, types, metas);
      var before := ReadRow(data, pos, types, metas);
      if before.next != pos {
        RowInside(data, before.next, types, metas);
        var after := ReadRow(data, before.next, types, metas);
        if after.next != before.next {
          PairsNeverPanic(data, after.next, types, metas);
        }
      }
    }
  }

  /** A row image in which only column j is not null, cut off in front of its value. */
  function BareImage(types: seq<byte>, j: nat): bytes {
    PackBits(seq(|types|, i => i != j))
  }

  /** The image cut off in the length prefix of column j. */
  function TruncatedImage(types: seq<byte>, j: nat): bytes {
    BareImage(types, j) + [0]
  }

  /** The image with all the bytes of column j. */
  function WideImage(types: seq<byte>, metas: seq<u16>, j: nat): bytes {
    BareImage(types, j) + seq(ColumnDataLength(BIT, MetaOf(metas, j)), i => 0)
  }

  lemma BareImageBits(types: seq<byte>, j: nat, tail: bytes)
    ensures var data := BareImage(types, j) + tail;
            && CeilDiv(|types|, 8) + |tail| == |data|
            && forall k :: 0 <= k < |types| ==> (NullBit(data, 0, k) <==> k != j)
  {
    var bits := seq(|types|, i => i != j);
    var data := BareImage(types, j) + tail;
    AtPrefix(PackBits(bits), tail);
    forall k | 0 <= k < |types|
      ensures NullBit(data, 0, k) <==> k != j
    {
      NullBitOfPacked(data, 0, bits, k);
    }
  }

  lemma {:induction false} NullsOnly(data: bytes, types: seq<byte>, metas: seq<u16>, i: nat, pos: nat)
    requires i <= |types| && CeilDiv(|types|, 8) <= |data|
    requires forall k :: i <= k < |types| ==> NullBit(data, 0, k)
    ensures ReadCells(data, 0, types, metas, i, pos).Done?
    ensures ReadCells(data, 0, types, metas, i, pos).next == pos
    decreases |types| - i
  {
    if i < |types| {
      NullsOnly(data, types, metas, i + 1, pos);
    }
  }

  /** With only column j not null, a row read ends as the read of that column does. */
  lemma {:induction false} NullsUntil(data: bytes, types: seq<byte>, metas: seq<u16>, i: nat, j: nat, pos: nat)
    requires i <= j < |types| && CeilDiv(|types|, 8) <= |data|
    requires forall k :: 0 <= k < |types| ==> (NullBit(data, 0, k) <==> k != j)
    ensures var cell, row := ReadCell(data, pos, types[j], MetaOf(metas, j)), ReadCells(data, 0, types, metas, i, pos);
            (cell.Panic? ==> row.Panic?) && (cell.Done? ==> row.Done? && row.next == cell.next)
    decreases |types| - i
  {
    if i < j {
      NullsUntil(data, types, metas, i + 1, j, pos);
    } else {
      var cell := ReadCell(data, pos, types[j], MetaOf(metas, j));
      if cell.Done? {
        NullsOnly(data, types, metas, j + 1, cell.next);
      }
    }
  }

  lemma TruncatedImagePanics(types: seq<byte>, metas: seq<u16>, j: nat)
    requires j < |types| && WidePrefix(types[j])
    ensures ReadPairs(TruncatedImage(types, j), 0, types, metas).Panic?
  {
    var data, n := TruncatedImage(types, j), CeilDiv(|types|, 8);
    BareImageBits(types, j, [0]);
    var cell := ReadCell(data, n, types[j], MetaOf(metas, j));
    assert cell == Done(Null, n + BlobPrefix(types[j]));
    NullsUntil(data, types, metas, 0, j, n);
  }

  /** A bit column of more than eight bytes shifts a byte out of its word, in either loop. */
  lemma WideImagePanics(types: seq<byte>, metas: seq<u16>, j: nat)
    requires j < |types| && types[j] == BIT && ColumnDataLength(BIT, MetaOf(metas, j)) > 8
    ensures ReadRows(WideImage(types, metas, j), 0, types, metas).Panic?
    ensures ReadPairs(WideImage(types, metas, j), 0, types, metas).Panic?
  {
    var meta, data, n := MetaOf(metas, j), WideImage(types, metas, j), CeilDiv(|types|, 8);
    var width := ColumnDataLength(BIT, meta);
    BareImageBits(types, j, seq(width, i => 0));
    WidthSuffices(Sub(data, n, width), BIT, meta);
    assert ReadCell(data, n, BIT, meta).Panic?;
    NullsUntil(data, types, metas, 0, j, n);
    assert ReadRow(data, 0, types, metas).Panic?;
  }

  ghost predicate SomeRowsPanic(types: seq<byte>, metas: seq<u16>) {
    exists data: bytes, pos: nat :: ReadRows(data, pos, types, metas).Panic?
  }

  ghost predicate SomePairsPanic(types: seq<byte>, metas: seq<u16>) {
    exists data: bytes, pos: nat :: ReadPairs(data, pos, types, metas).Panic?
  }

  /** A write or delete event over a layout can make the parser panic exactly when the layout has a
      bit column of more than eight bytes. That panic is a shift overflow: it happens in builds
      with overflow checks; in others the shift wraps around. */
  lemma RowsPanicIffWideBits(types: seq<byte>, metas: seq<u16>)
    ensures SomeRowsPanic(types, metas) <==> !NarrowBits(types, metas)
  {
    if NarrowBits(types, metas) {
      forall data: bytes, pos: nat
        ensures !ReadRows(data, pos, types, metas).Panic?
      {
        RowsNeverPanic(data, pos, types, metas);
      }
    } else {
      var j :| 0 <= j < |types| && types[j] == BIT && ColumnDataLength(BIT, MetaOf(metas, j)) > 8;
      WideImagePanics(types, metas, j);
    }
  }

  /** Over narrow bit columns an update event can make the parser panic exactly when the layout has
      a blob column with a length prefix of more than one byte. */
  lemma UpdatePanicsIffWidePrefix(types: seq<byte>, metas: seq<u16>)
    requires NarrowBits(types, metas)
    ensures SomePairsPanic(types, metas) <==> exists j :: 0 <= j < |types| && WidePrefix(types[j])
  {
    if j :| 0 <= j < |types| && WidePrefix(types[j]) {
      TruncatedImagePanics(types, metas, j);
    } else {
      forall data: bytes, pos: nat
        ensures !ReadPairs(data, pos, types, metas).Panic?
      {
        PairsNeverPanic(data, pos, types, metas);
      }
    }
  }

  /** An update event over a layout can make the parser panic exactly when the layout has a bit
      column of more than eight bytes or a blob column with a length prefix of more than one. The
      former happens in builds with overflow checks, the latter, a slice out of range, in all. */
  lemma UpdatePanicsIffWide(types: seq<byte>, metas: seq<u16>)
    ensures SomePairsPanic(types, metas)
      <==> !NarrowBits(types, metas) || exists j :: 0 <= j < |types| && WidePrefix(types[j])
  {
    if NarrowBits(types, metas) {
      UpdatePanicsIffWidePrefix(types, metas);
    } else {
      var j :| 0 <= j < |types| && types[j] == BIT && ColumnDataLength(BIT, MetaOf(metas, j)) > 8;
      WideImagePanics(types, metas, j);
    }
  }
}
