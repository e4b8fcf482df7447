/** Rows of a row event: null bitmap, cells by column type, and the loops over rows. */
module MysqlRows {
  import opened Wrappers
  import opened Bits
  import opened ChangeEvents
  import opened MysqlColumns

  datatype BinlogError = NoDatabaseTerminator | NoTableTerminator | ConnectionClosed

  type Parse<+T> = Outcome<T, BinlogError>

  type JsonRow = seq<Json>

  //////////////////////////////////////////////////////////////////////////////
  // One cell
  //////////////////////////////////////////////////////////////////////////////

  /** `(b >> i) & 1 == 1` for bit i % 8 of byte i / 8 behind the start. */
  predicate NullBit(data: bytes, start: nat, i: nat)
    requires start + i / 8 < |data|
  {
    Shr(data[start + i / 8], i % 8) % 2 == 1
  }

  function BlobPrefix(t: byte): nat {
    if t == TINY_BLOB then 1 else if t == MEDIUM_BLOB then 3 else if t == LONG_BLOB then 4 else 2
  }

  /** A long blob's length is taken to be zero, and a length prefix cut off by the end of the data
      still moves the cursor over its full width. */
  function ReadBlob(data: bytes, pos: nat, t: byte): (Json, nat)
    requires pos < |data|
  {
    var k := BlobPrefix(t);
    if pos + k <= |data| then
      var size := if k == 4 then 0 else LeValue(Sub(data, pos, k));
      if pos + k + size <= |data| then (Text(Sub(data, pos + k, size)), pos + k + size)
      else (Null, pos + k)
    else (Null, pos + k)
  }

  function ReadCell(data: bytes, pos: nat, t: byte, meta: u16): (r: Parse<Json>)
    ensures r.Done? ==> pos <= r.next && (r.next == pos || r.next <= |data| + 3)
    ensures r.Done? && r.next > |data| ==> r.next == pos || (IsBlob(t) && BlobPrefix(t) > 1)
    ensures !r.Done? ==> r.Panic? && t == BIT && ColumnDataLength(t, meta) > 8
  {
    var width := ColumnDataLength(t, meta);
    if width > 0 && pos + width <= |data| then
      match DecodeValue(Sub(data, pos, width), t, meta)
      case Some(v) => Done(v, pos + width)
      case None => Panic
    else if width == 0 && pos < |data| then
      if IsString(t) then
        var (n, s) := LengthEncodedString(data, pos);
        Done(Text(s), pos + n)
      else if IsBlob(t) then
        var (v, next) := ReadBlob(data, pos, t);
        Done(v, next)
      else Done(Null, pos + 1)
    else Done(Null, pos)
  }

  method ReadCellValue(data: bytes, pos: nat, t: byte, meta: u16) returns (r: Parse<Json>)
    ensures r == ReadCell(data, pos, t, meta)
  {
    var width := ColumnDataLength(t, meta);
    if width > 0 && pos + width <= |data| {
      var v := DecodeBinlogValue(Sub(data, pos, width), t, meta);
      r := if v.Some? then Done(v.value, pos + width) else Panic;
    } else {
      r := ReadCell(data, pos, t, meta);
    }
  }

  //////////////////////////////////////////////////////////////////////////////
  // One row
  //////////////////////////////////////////////////////////////////////////////

  function MetaOf(metas: seq<u16>, i: nat): u16 { if i < |metas| then metas[i] else 0 }

  /** The columns from i on, the null bitmap standing at start. */
  function ReadCells(data: bytes, start: nat, types: seq<byte>, metas: seq<u16>, i: nat, pos: nat): (r: Parse<JsonRow>)
    requires i <= |types| && start + CeilDiv(|types|, 8) <= |data|
    ensures r.Done? ==> pos <= r.next && (r.next == pos || r.next <= |data| + 3) && |r.value| == |types| - i
    decreases |types| - i
  {
    if i == |types| then Done([], pos)
    else if NullBit(data, start, i) then
      var rest := ReadCells(data, start, types, metas, i + 1, pos);
      if rest.Done? then Done([Null] + rest.value, rest.next) else rest
    else
      var cell := ReadCell(data, pos, types[i], MetaOf(metas, i));
      if !cell.Done? then cell.PropagateFailure()
      else
        var rest := ReadCells(data, start, types, metas, i + 1, cell.next);
        if rest.Done? then Done([cell.value] + rest.value, rest.next) else rest
  }

  /** The row at the cursor; the cursor does not move when there is none. */
  function ReadRow(data: bytes, start: nat, types: seq<byte>, metas: seq<u16>): (r: Parse<JsonRow>)
    requires start <= |data|
    ensures r.Done? ==> start <= r.next <= |data| + 3
  {
    if start == |data| || types == [] then Done([], start)
    else
      var nullBytes := CeilDiv(|types|, 8);
      if |data| - start < nullBytes then Done([], start)
      else ReadCells(data, start, types, metas, 0, start + nullBytes)
  }

  method ReadRowAt(data: bytes, start: nat, types: seq<byte>, metas: seq<u16>) returns (r: Parse<JsonRow>)
    requires start <= |data|
    ensures r == ReadRow(data, start, types, metas)
  {
    if start == |data| || types == [] {
      return Done([], start);
    }
    var nullBytes := CeilDiv(|types|, 8);
    if |data| - start < nullBytes {
      return Done([], start);
    }
    var nullBits := seq(|types|, i requires 0 <= i < |types| => NullBit(data, start, i));
    var pos: nat, values := start + nullBytes, [];
    PrependNothing(ReadCells(data, start, types, metas, 0, pos));
    for i := 0 to |types|
      invariant ReadRow(data, start, types, metas)
             == Prepend(values, ReadCells(data, start, types, metas, i, pos))
    {
      if nullBits[i] {
        PrependStep(values, Null, ReadCells(data, start, types, metas, i + 1, pos));
        values := values + [Null];
      } else {
        var cellRead := ReadCellValue(data, pos, types[i], MetaOf(metas, i));
        var cell :- cellRead;
        PrependStep(values, cell.0, ReadCells(data, start, types, metas, i + 1, cell.1));
        values := values + [cell.0];
        pos := cell.1;
      }
    }
    assert values + [] == values;
    r := Done(values, pos);
  }

  //////////////////////////////////////////////////////////////////////////////
  // The loops over rows
  //////////////////////////////////////////////////////////////////////////////

  /** Rows until the data ends or no row can be read. */
  function ReadRows(data: bytes, pos: nat, types: seq<byte>, metas: seq<u16>): Parse<seq<JsonRow>>
    decreases |data| - pos
  {
    if pos >= |data| then Done([], pos)
    else
      var row := ReadRow(data, pos, types, metas);
      if !row.Done? then row.PropagateFailure()
      else if row.next == pos then Done([], pos)
      else Prepend([row.value], ReadRows(data, row.next, types, metas))
  }

  /** Before and after images in turn. The second image is sliced without a check, so a before
      image that ends behind the data is a panic. */
  function ReadPairs(data: bytes, pos: nat, types: seq<byte>, metas: seq<u16>): Parse<seq<(JsonRow, JsonRow)>>
    decreases |data| - pos
  {
    if pos >= |data| then Done([], pos)
    else
      var before := ReadRow(data, pos, types, metas);
      if !before.Done? then before.PropagateFailure()
      else if before.next == pos then Done([], pos)
      else if before.next > |data| then Panic
      else
        var after := ReadRow(data, before.next, types, metas);
        if !after.Done? then after.PropagateFailure()
        else if after.next == before.next then Done([], before.next)
        else Prepend([(before.value, after.value)], ReadPairs(data, after.next, types, metas))
  }

  method ReadRowsFrom(data: bytes, start: nat, types: seq<byte>, metas: seq<u16>) returns (r: Parse<seq<JsonRow>>)
    ensures r == ReadRows(data, start, types, metas)
  {
    var pos, rows := start, [];
    PrependNothing(ReadRows(data, start, types, metas));
    while pos < |data|
      invariant ReadRows(data, start, types, metas) == Prepend(rows, ReadRows(data, pos, types, metas))
      decreases |data| - pos
    {
      var rowRead := ReadRowAt(data, pos, types, metas);
      var row :- rowRead;
      if row.1 == pos {
        break;
      }
      PrependStep(rows, row.0, ReadRows(data, row.1, types, metas));
      rows := rows + [row.0];
      pos := row.1;
    }
    assert rows + [] == rows;
    r := Done(rows, pos);
  }

  method ReadPairsFrom(data: bytes, start: nat, types: seq<byte>, metas: seq<u16>)
    returns (r: Parse<seq<(JsonRow, JsonRow)>>)
    ensures r == ReadPairs(data, start, types, metas)
  {
    var pos, rows := start, [];
    PrependNothing(ReadPairs(data, start, types, metas));
    while pos < |data|
      invariant ReadPairs(data, start, types, metas) == Prepend(rows, ReadPairs(data, pos, types, metas))
      decreases |data| - pos
    {
      var beforeRead := ReadRowAt(data, pos, types, metas);
      var before :- beforeRead;
      if before.1 == pos {
        break;
      }
      if before.1 > |data| {
        return Panic;
      }
      var afterRead := ReadRowAt(data, before.1, types, metas);
      var after :- afterRead;
      if after.1 == before.1 {
        pos := before.1;
        assert rows + [] == rows;
        return Done(rows, pos);
      }
      PrependStep(rows, (before.0, after.0), ReadPairs(data, after.1, types, metas));
      rows := rows + [(before.0, after.0)];
      pos := after.1;
    }
    assert rows + [] == rows;
    r := Done(rows, pos);
  }
}
