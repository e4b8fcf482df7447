/** Rows printed in the layout the parser reads come back unchanged. */
module MysqlRowRoundTrip {
  import opened Wrappers
  import opened Bits
  import opened ChangeEvents
  import opened MysqlColumns
  import opened MysqlRows
  import opened MysqlRowFacts
  import opened MysqlCells

  //////////////////////////////////////////////////////////////////////////////
  // One row
  //////////////////////////////////////////////////////////////////////////////

  /** A layout: one supported type and its meta per column. */
  ghost predicate Layout(types: seq<byte>, metas: seq<u16>) {
    && types != []
    && |metas| == |types|
    && forall i :: 0 <= i < |types| ==> Supported(types[i], metas[i])
  }

  ghost predicate RowFits(row: seq<Cell>, types: seq<byte>, metas: seq<u16>)
    requires Layout(types, metas)
  {
    |row| == |types| && forall i :: 0 <= i < |row| ==> Representable(row[i], types[i], metas[i])
  }

  /** The cells from column i on, null cells taking no bytes. */
  ghost function EncodeCells(row: seq<Cell>, types: seq<byte>, metas: seq<u16>, i: nat): bytes
    requires Layout(types, metas) && RowFits(row, types, metas) && i <= |row|
    decreases |row| - i
  {
    if i == |row| then []
    else if row[i] == NullCell then EncodeCells(row, types, metas, i + 1)
    else EncodeCell(row[i], types[i], metas[i]) + EncodeCells(row, types, metas, i + 1)
  }

  function Nulls(row: seq<Cell>): seq<bool> {
    seq(|row|, i requires 0 <= i < |row| => row[i] == NullCell)
  }

  ghost function EncodeRow(row: seq<Cell>, types: seq<byte>, metas: seq<u16>): bytes
    requires Layout(types, metas) && RowFits(row, types, metas)
  {
    PackBits(Nulls(row)) + EncodeCells(row, types, metas, 0)
  }

  /** The values of a row from column i on. */
  function JsonFrom(row: seq<Cell>, types: seq<byte>, i: nat): JsonRow
    decreases |row| - i
  {
    if i >= |row| || i >= |types| then [] else [JsonOf(row[i], types[i])] + JsonFrom(row, types, i + 1)
  }

  function JsonRowOf(row: seq<Cell>, types: seq<byte>): JsonRow { JsonFrom(row, types, 0) }

  lemma {:induction false} CellsRead(data: bytes, start: nat, row: seq<Cell>, types: seq<byte>, metas: seq<u16>,
                                     i: nat, pos: nat)
    requires Layout(types, metas) && RowFits(row, types, metas) && i <= |row|
    requires At(data, start, PackBits(Nulls(row))) && At(data, pos, EncodeCells(row, types, metas, i))
    ensures start + CeilDiv(|types|, 8) <= |data|
    ensures ReadCells(data, start, types, metas, i, pos)
         == Done(JsonFrom(row, types, i), pos + |EncodeCells(row, types, metas, i)|)
    decreases |row| - i
  {
    hide Representable, Supported, EncodeCell, ReadCell, NullBit, PackBits;
    if i < |row| {
      NullBitOfPacked(data, start, Nulls(row), i);
      if row[i] == NullCell {
        CellsRead(data, start, row, types, metas, i + 1, pos);
      } else {
        var e := EncodeCell(row[i], types[i], metas[i]);
        AtConcat(data, pos, e, EncodeCells(row, types, metas, i + 1));
        CellRead(data, pos, row[i], types[i], metas[i]);
        CellsRead(data, start, row, types, metas, i + 1, pos + |e|);
      }
    }
  }

  lemma RowRead(data: bytes, pos: nat, row: seq<Cell>, types: seq<byte>, metas: seq<u16>)
    requires Layout(types, metas) && RowFits(row, types, metas)
    requires At(data, pos, EncodeRow(row, types, metas))
    ensures |EncodeRow(row, types, metas)| >= CeilDiv(|types|, 8) >= 1
    ensures ReadRow(data, pos, types, metas) == Done(JsonRowOf(row, types), pos + |EncodeRow(row, types, metas)|)
  {
    hide *;
    RowParts(row, types, metas);
    var bitmap, cells := PackBits(Nulls(row)), EncodeCells(row, types, metas, 0);
    AtConcat(data, pos, bitmap, cells);
    CellsRead(data, pos, row, types, metas, 0, pos + |bitmap|);
    RowOfCells(data, pos, types, metas);
  }

  lemma RowParts(row: seq<Cell>, types: seq<byte>, metas: seq<u16>)
    requires Layout(types, metas) && RowFits(row, types, metas)
    ensures types != [] && |PackBits(Nulls(row))| == CeilDiv(|types|, 8) >= 1
    ensures EncodeRow(row, types, metas) == PackBits(Nulls(row)) + EncodeCells(row, types, metas, 0)
    ensures JsonRowOf(row, types) == JsonFrom(row, types, 0)
  {
    hide PackBits, EncodeCells, JsonFrom;
  }

  lemma RowOfCells(data: bytes, pos: nat, types: seq<byte>, metas: seq<u16>)
    requires types != [] && CeilDiv(|types|, 8) >= 1 && pos + CeilDiv(|types|, 8) <= |data|
    ensures ReadRow(data, pos, types, metas) == ReadCells(data, pos, types, metas, 0, pos + CeilDiv(|types|, 8))
  {
    hide ReadCells;
  }

  //////////////////////////////////////////////////////////////////////////////
  // All rows of an event
  //////////////////////////////////////////////////////////////////////////////

  ghost function EncodeRows(rows: seq<seq<Cell>>, types: seq<byte>, metas: seq<u16>): bytes
    requires Layout(types, metas) && forall k :: 0 <= k < |rows| ==> RowFits(rows[k], types, metas)
  {
    if rows == [] then [] else EncodeRow(rows[0], types, metas) + EncodeRows(rows[1..], types, metas)
  }

  function JsonRows(rows: seq<seq<Cell>>, types: seq<byte>): seq<JsonRow> {
    if rows == [] then [] else [JsonRowOf(rows[0], types)] + JsonRows(rows[1..], types)
  }

  /** Write and delete events: the loop returns exactly the rows and consumes every byte. */
  lemma {:induction false} RowsRoundTrip(data: bytes, pos: nat, rows: seq<seq<Cell>>, types: seq<byte>, metas: seq<u16>)
    requires Layout(types, metas) && forall k :: 0 <= k < |rows| ==> RowFits(rows[k], types, metas)
    requires At(data, pos, EncodeRows(rows, types, metas))
    requires pos + |EncodeRows(rows, types, metas)| == |data|
    ensures ReadRows(data, pos, types, metas) == Done(JsonRows(rows, types), |data|)
    decreases |rows|
  {
    hide RowFits, ReadRow, EncodeRow;
    if rows != [] {
      var row := EncodeRow(rows[0], types, metas);
      AtConcat(data, pos, row, EncodeRows(rows[1..], types, metas));
      RowRead(data, pos, rows[0], types, metas);
      RowsRoundTrip(data, pos + |row|, rows[1..], types, metas);
    }
  }

  /** A row before and after an update. */
  datatype Image = Image(before: seq<Cell>, after: seq<Cell>)

  ghost predicate PairFits(pair: Image, types: seq<byte>, metas: seq<u16>)
    requires Layout(types, metas)
  {
    RowFits(pair.before, types, metas) && RowFits(pair.after, types, metas)
  }

  ghost function EncodePair(pair: Image, types: seq<byte>, metas: seq<u16>): bytes
    requires Layout(types, metas) && PairFits(pair, types, metas)
  {
    EncodeRow(pair.before, types, metas) + EncodeRow(pair.after, types, metas)
  }

  ghost function EncodePairs(pairs: seq<Image>, types: seq<byte>, metas: seq<u16>): bytes
    requires Layout(types, metas) && forall k :: 0 <= k < |pairs| ==> PairFits(pairs[k], types, metas)
  {
    if pairs == [] then []
    else EncodePair(pairs[0], types, metas) + EncodePairs(pairs[1..], types, metas)
  }

  function JsonPairs(pairs: seq<Image>, types: seq<byte>): seq<(JsonRow, JsonRow)> {
    if pairs == [] then []
    else [(JsonRowOf(pairs[0].before, types), JsonRowOf(pairs[0].after, types))] + JsonPairs(pairs[1..], types)
  }

  lemma ReadPairsStep(data: bytes, pos: nat, types: seq<byte>, metas: seq<u16>,
                      before: Parse<JsonRow>, after: Parse<JsonRow>)
    requires before.Done? && after.Done? && pos < before.next < after.next && before.next <= |data|
    requires ReadRow(data, pos, types, metas) == before
    requires ReadRow(data, before.next, types, metas) == after
    ensures ReadPairs(data, pos, types, metas)
         == Prepend([(before.value, after.value)], ReadPairs(data, after.next, types, metas))
  {
    hide ReadRow;
  }

  lemma PairRead(data: bytes, pos: nat, pair: Image, types: seq<byte>, metas: seq<u16>)
    requires Layout(types, metas) && PairFits(pair, types, metas)
    requires At(data, pos, EncodePair(pair, types, metas))
    ensures ReadPairs(data, pos, types, metas)
         == Prepend([(JsonRowOf(pair.before, types), JsonRowOf(pair.after, types))],
                    ReadPairs(data, pos + |EncodePair(pair, types, metas)|, types, metas))
  {
    hide *;
    ImagesRead(data, pos, pair, types, metas);
    var mid := pos + |EncodeRow(pair.before, types, metas)|;
    var end := pos + |EncodePair(pair, types, metas)|;
    var before, after := ReadRow(data, pos, types, metas), ReadRow(data, mid, types, metas);
    ReadPairsStep(data, pos, types, metas, before, after);
  }

  lemma ImagesRead(data: bytes, pos: nat, pair: Image, types: seq<byte>, metas: seq<u16>)
    requires Layout(types, metas) && PairFits(pair, types, metas)
    requires At(data, pos, EncodePair(pair, types, metas))
    ensures RowFits(pair.before, types, metas)
    ensures var mid := pos + |EncodeRow(pair.before, types, metas)|;
            var end := pos + |EncodePair(pair, types, metas)|;
            && pos < mid < end <= |data|
            && ReadRow(data, pos, types, metas) == Done(JsonRowOf(pair.before, types), mid)
            && ReadRow(data, mid, types, metas) == Done(JsonRowOf(pair.after, types), end)
  {
    hide At, RowFits, ReadRow, EncodeRow, JsonRowOf;
    var before, after := EncodeRow(pair.before, types, metas), EncodeRow(pair.after, types, metas);
    AtConcat(data, pos, before, after);
    AtInside(data, pos, EncodePair(pair, types, metas));
    RowRead(data, pos, pair.before, types, metas);
    RowRead(data, pos + |before|, pair.after, types, metas);
  }

  lemma PairsSplit(data: bytes, pos: nat, pairs: seq<Image>, types: seq<byte>, metas: seq<u16>)
    requires Layout(types, metas) && forall k :: 0 <= k < |pairs| ==> PairFits(pairs[k], types, metas)
    requires pairs != [] && At(data, pos, EncodePairs(pairs, types, metas))
    ensures At(data, pos, EncodePair(pairs[0], types, metas))
    ensures At(data, pos + |EncodePair(pairs[0], types, metas)|, EncodePairs(pairs[1..], types, metas))
    ensures |EncodePairs(pairs, types, metas)|
         == |EncodePair(pairs[0], types, metas)| + |EncodePairs(pairs[1..], types, metas)|
  {
    hide At, PairFits, EncodePair;
    AtConcat(data, pos, EncodePair(pairs[0], types, metas), EncodePairs(pairs[1..], types, metas));
  }

  /** Update events: before and after images come back pairwise. */
  lemma {:induction false} PairsRoundTrip(data: bytes, pos: nat, pairs: seq<Image>, types: seq<byte>, metas: seq<u16>)
    requires Layout(types, metas) && forall k :: 0 <= k < |pairs| ==> PairFits(pairs[k], types, metas)
    requires At(data, pos, EncodePairs(pairs, types, metas))
    requires pos + |EncodePairs(pairs, types, metas)| == |data|
    ensures ReadPairs(data, pos, types, metas) == Done(JsonPairs(pairs, types), |data|)
    decreases |pairs|
  {
    hide *;
    if pairs == [] {
      NoPairs(data, pos, types, metas);
    } else {
      var first, rest := pairs[0], pairs[1..];
      FirstPair(pairs, types, metas);
      PairsSplit(data, pos, pairs, types, metas);
      PairRead(data, pos, first, types, metas);
      PairsRoundTrip(data, pos + |EncodePair(first, types, metas)|, rest, types, metas);
      PrependDone([(JsonRowOf(first.before, types), JsonRowOf(first.after, types))], JsonPairs(rest, types), |data|);
    }
  }

  lemma NoPairs(data: bytes, pos: nat, types: seq<byte>, metas: seq<u16>)
    requires Layout(types, metas)
    ensures EncodePairs([], types, metas) == [] && JsonPairs([], types) == []
    ensures pos == |data| ==> ReadPairs(data, pos, types, metas) == Done([], |data|)
  {
  }

  lemma FirstPair(pairs: seq<Image>, types: seq<byte>, metas: seq<u16>)
    requires Layout(types, metas) && forall k :: 0 <= k < |pairs| ==> PairFits(pairs[k], types, metas)
    requires pairs != []
    ensures PairFits(pairs[0], types, metas)
    ensures forall k :: 0 <= k < |pairs[1..]| ==> PairFits(pairs[1..][k], types, metas)
    ensures JsonPairs(pairs, types)
         == [(JsonRowOf(pairs[0].before, types), JsonRowOf(pairs[0].after, types))] + JsonPairs(pairs[1..], types)
  {
    hide PairFits, JsonRowOf;
  }

  lemma PrependDone<T>(xs: seq<T>, ys: seq<T>, next: nat)
    ensures Prepend<T, BinlogError>(xs, Done(ys, next)) == Done(xs + ys, next)
  {
  }
}
