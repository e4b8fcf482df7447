/** The binlog client: framing, event parsing and the walk, over a socket modelled as the bytes
    still to be read and the bytes written so far. */
module MysqlClient {
  import opened Wrappers
  import opened Bits
  import opened MysqlColumns
  import opened MysqlRows
  import opened MysqlEvents

  /** A framed body: its length modulo 2^24 in three bytes, sequence number zero, the body. */
  function Frame(body: bytes): bytes {
    Pow256Values();
    LeBytes(|body| % 0x100_0000, 3) + ([0] + body)
  }

  /** The header's shifts and masks write the length in little-endian order. */
  lemma HeaderBytes(n: nat)
    ensures Pow256(3) == 0x100_0000
    ensures BitAnd(n, 0xff) < 256 && BitAnd(Shr(n, 8), 0xff) < 256 && BitAnd(Shr(n, 16), 0xff) < 256
    ensures [BitAnd(n, 0xff), BitAnd(Shr(n, 8), 0xff), BitAnd(Shr(n, 16), 0xff)] == LeBytes(n % 0x100_0000, 3)
  {
    Pow256Values();
    MaskedBytes(n);
    hide BitAnd, Shr, LeBytes;
    ByteSplit(n);
    var b0, b1, b2 := n % 256, n / 256 % 256, n / 0x1_0000 % 256;
    LeBytes3(n % 0x100_0000, b0, b1, b2);
  }

  lemma MaskedBytes(n: nat)
    ensures BitAnd(n, 0xff) == n % 256
    ensures BitAnd(Shr(n, 8), 0xff) == n / 256 % 256
    ensures BitAnd(Shr(n, 16), 0xff) == n / 0x1_0000 % 256
  {
    ShlByte(0);
    Pow2Four(8);
    Pow2Four(12);
    BitAndLowMask(n, 8);
    BitAndLowMask(Shr(n, 8), 8);
    BitAndLowMask(Shr(n, 16), 8);
    hide BitAnd, Pow2;
  }

  lemma ByteSplit(n: nat)
    ensures var m := n % 0x100_0000;
            && m % 256 == n % 256
            && m / 256 % 256 == n / 256 % 256
            && m / 256 / 256 % 256 == n / 0x1_0000 % 256
  {
    var q1, b0 := n / 256, n % 256;
    var q2, b1 := q1 / 256, q1 % 256;
    var q3, b2 := q2 / 256, q2 % 256;
    assert n == 256 * q1 + b0 && q1 == 256 * q2 + b1 && q2 == 256 * q3 + b2;
    DivModUnique(n, 0x1_0000, q2, 256 * b1 + b0);
    DivModUnique(n, 0x100_0000, q3, 0x1_0000 * b2 + 256 * b1 + b0);
    var m := 0x1_0000 * b2 + 256 * b1 + b0;
    DivModUnique(m, 256, 256 * b2 + b1, b0);
    DivModUnique(256 * b2 + b1, 256, b2, b1);
  }

  lemma LeBytes3(m: nat, b0: byte, b1: byte, b2: byte)
    requires m < Pow256(3)
    requires m % 256 == b0 && m / 256 % 256 == b1 && m / 256 / 256 % 256 == b2
    ensures LeBytes(m, 3) == [b0, b1, b2]
  {
    assert LeBytes(m / 256 / 256, 1) == [b2];
    assert LeBytes(m / 256, 2) == [b1] + LeBytes(m / 256 / 256, 1);
    assert LeBytes(m, 3) == [b0] + LeBytes(m / 256, 2);
  }

  class BinlogClient {
    var input: bytes
    var written: bytes
    var currentGtid: Option<(bytes, nat)>
    var tables: Tables

    constructor (input: bytes)
      ensures this.input == input && written == [] && State() == ClientState(map[], None)
    {
      this.input, written, currentGtid, tables := input, [], None, map[];
    }

    ghost function State(): ClientState
      reads this
    {
      ClientState(tables, currentGtid)
    }

    //////////////////////////////////////////////////////////////////////////////
    // Framing
    //////////////////////////////////////////////////////////////////////////////

    method ReadPacket() returns (r: Option<bytes>)
      modifies this`input
      ensures match TakePacket(old(input))
              case None => r == None && input == old(input)
              case Some((packet, rest)) => r == Some(packet) && input == rest
    {
      if |input| < 4 {
        return None;
      }
      var n := LeAt(input, 0, 3);
      if 4 + n > |input| {
        return None;
      }
      r := Some(Sub(input, 4, n));
      input := Sub(input, 4 + n, |input| - 4 - n);
    }

    method WriteCommand(command: byte, args: bytes)
      modifies this`written
      ensures written == old(written) + Frame([command] + args)
    {
      var packet := [command] + args;
      HeaderBytes(|packet|);
      var header: bytes := [BitAnd(|packet|, 0xff), BitAnd(Shr(|packet|, 8), 0xff), BitAnd(Shr(|packet|, 16), 0xff), 0];
      assert header + packet == Frame(packet);
      written := written + header;
      written := written + packet;
      assert old(written) + header + packet == old(written) + (header + packet);
    }

    //////////////////////////////////////////////////////////////////////////////
    // Events
    //////////////////////////////////////////////////////////////////////////////

    method ReadColumnMetas(data: bytes, start: nat, types: seq<byte>) returns (r: (seq<u16>, nat))
      ensures r == ReadMetas(data, start, types)
    {
      var p: nat, metas := start, [];
      assert types[0..] == types && [] + ReadMetas(data, start, types).0 == ReadMetas(data, start, types).0;
      for i := 0 to |types|
        invariant |metas| == i
        invariant ReadMetas(data, start, types)
               == (var rest := ReadMetas(data, p, types[i..]); (metas + rest.0, rest.1))
      {
        var (meta, next) := ReadMeta(data, p, types[i]);
        assert types[i..][1..] == types[i + 1..];
        ghost var rest := ReadMetas(data, next, types[i + 1..]).0;
        assert metas + ([meta] + rest) == metas + [meta] + rest;
        metas := metas + [meta];
        p := next;
      }
      assert types[|types|..] == [] && metas + [] == metas;
      r := (metas, p);
    }

    /** A table map that parses replaces the layout of its table id; a failed one changes nothing. */
    method ReadTableMap(data: bytes) returns (r: Parse<Option<BinlogEvent>>)
      modifies this`tables
      ensures r == EventOf(old(tables), 0x13, data)
      ensures State() == (if r.Done? then Effect(old(State()), r.value.value) else old(State()))
    {
      var parsed := ParseTable(data);
      var event :- parsed;
      tables := tables[event.0.tableId := event.0];
      r := Done(Some(TableMap(event.0)), event.1);
    }

    method ParseTable(data: bytes) returns (r: Parse<TableMapEvent>)
      ensures r == ParseTableMap(data)
    {
      hide ParseColumns, ScanNul, LeAt, Sub;
      var (tableId, pos) := PackedU48(data);
      if pos + 2 > |data| {
        return Panic;
      }
      var p := pos + 2;
      var dbEnd := ScanNul(data, p);
      if dbEnd == |data| {
        return Fail(NoDatabaseTerminator);
      }
      var database := Sub(data, p, dbEnd - p);
      p := dbEnd + 1;
      var tableEnd := ScanNul(data, p);
      if tableEnd == |data| {
        return Fail(NoTableTerminator);
      }
      var table := Sub(data, p, tableEnd - p);
      p := tableEnd + 1;
      var columnsRead := ReadColumns(data, p);
      var columns :- columnsRead;
      var c := columns.0;
      r := Done(TableMapEvent(tableId, database, table, c.types, c.metas, c.nullBits), columns.1);
    }

    method ReadColumns(data: bytes, p: nat) returns (r: Parse<Columns>)
      requires p <= |data|
      ensures r == ParseColumns(data, p)
    {
      var count :- PackedInt(data, p);
      if count.1 + count.0 > |data| {
        return Panic;
      }
      var types := Sub(data, count.1, count.0);
      var metaLength :- PackedInt(data, count.1 + count.0);
      var metas := ReadColumnMetas(data, metaLength.1, types);
      r := Done(Columns(types, metas.0, ReadNullBits(data, metas.1, count.0)), metas.1);
    }

    method ReadRowsEvent(data: bytes, version: nat) returns (r: Parse<(nat, seq<JsonRow>)>)
      ensures r == ParseRows(tables, data, version)
    {
      var header :- RowsHeader(data, version);
      var read := ReadRowsFrom(data, header.1, TypesOf(tables, header.0), MetasOf(tables, header.0));
      var rows :- read;
      r := Done((header.0, rows.0), rows.1);
    }

    method ReadPairsEvent(data: bytes, version: nat) returns (r: Parse<(nat, seq<(JsonRow, JsonRow)>)>)
      ensures r == ParsePairs(tables, data, version)
    {
      var header :- RowsHeader(data, version);
      var read := ReadPairsFrom(data, header.1, TypesOf(tables, header.0), MetasOf(tables, header.0));
      var pairs :- read;
      r := Done((header.0, pairs.0), pairs.1);
    }

    method ReadGtid(data: bytes) returns (r: Parse<Option<BinlogEvent>>)
      modifies this`currentGtid
      ensures r == ParseGtid(data)
      ensures State() == (if r.Done? && r.value.Some? then Effect(old(State()), r.value.value) else old(State()))
    {
      r := ParseGtid(data);
      if r.Done? && r.value.Some? {
        currentGtid := Some((r.value.value.uuid, r.value.value.gno));
      }
    }

    method ReadEvent(ty: byte, data: bytes) returns (r: Parse<Option<BinlogEvent>>)
      modifies this`tables, this`currentGtid
      ensures (State(), r) == ParseEvent(old(State()), ty, data)
    {
      match ty {
        case 0x0f => r := Done(Some(FormatDescription), 0);
        case 0x04 => r := Done(Some(ParseRotate(data)), 0);
        case 0x13 => r := ReadTableMap(data);
        case 0x17 => var rows := ReadRowsEvent(data, 1); r := WriteEvent(rows);
        case 0x18 => var pairs := ReadPairsEvent(data, 1); r := UpdatePairsEvent(pairs);
        case 0x19 => var rows := ReadRowsEvent(data, 1); r := DeleteRowsEvent(rows);
        case 0x1e => var rows := ReadRowsEvent(data, 2); r := WriteEvent(rows);
        case 0x1f => var pairs := ReadPairsEvent(data, 2); r := UpdatePairsEvent(pairs);
        case 0x20 => var rows := ReadRowsEvent(data, 2); r := DeleteRowsEvent(rows);
        case 0x21 => r := ReadGtid(data);
        case 0x10 => r := Done(Some(ParseXid(data)), 0);
        case 0x1b => r := Done(Some(Heartbeat), 0);
        case _ => r := Done(Some(Unknown(ty)), 0);
      }
    }

    //////////////////////////////////////////////////////////////////////////////
    // The walk
    //////////////////////////////////////////////////////////////////////////////

    method WalkPacket(packet: bytes) returns (w: WalkResult)
      modifies this`tables, this`currentGtid
      ensures (State(), w) == Walk(old(State()), packet, 0)
    {
      var pos: nat := 0;
      while pos + 19 <= |packet|
        invariant Walk(old(State()), packet, 0) == Walk(State(), packet, pos)
        decreases |packet| - pos
      {
        var header := HeaderAt(packet, pos);
        var size := header.eventSize;
        if pos + size > |packet| {
          break;
        }
        if size < 19 {
          return WalkPanicked;
        }
        var event := ReadEvent(header.eventType, Sub(packet, pos + 19, size - 19));
        match event {
          case Fail(e) => return WalkFailed(e);
          case Panic => return WalkPanicked;
          case Done(e, _) =>
            if e.Some? && !Skipped(e.value) {
              return Found(header, e.value);
            }
        }
        pos := pos + size;
      }
      return Exhausted;
    }

    method ReadNext() returns (r: Next)
      modifies this`input, this`tables, this`currentGtid
      ensures (State(), input, r) == NextEvent(old(State()), old(input))
    {
      while true
        invariant NextEvent(old(State()), old(input)) == NextEvent(State(), input)
        decreases |input|
      {
        var taken := ReadPacket();
        if taken.None? {
          return Broken(ConnectionClosed);
        }
        var packet := taken.value;
        if packet == [] {
          return NoEvent;
        }
        if packet[0] == 0 {
          if |packet| < 2 {
            continue;
          }
          if packet[1] == 0 {
            continue;
          }
        }
        var w := WalkPacket(packet);
        match w {
          case Found(header, event) => return Event(header, event);
          case WalkFailed(e) => return Broken(e);
          case WalkPanicked => return Crashed;
          case Exhausted =>
        }
      }
    }
  }
}
