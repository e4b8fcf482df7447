/** The replication streamer: it feeds copy-out chunks to the decoder and emits change events. */
module PgStreamer {
  import opened Wrappers
  import opened Bits
  import opened PgMessages
  import opened PgDecoder
  import opened ChangeEvents
  import opened PgValues
  import PgParse

  const KEEPALIVE: byte := 107 // 'k'

  datatype Status = Running | DecodeFailed(error: DecodeError) | Crashed

  datatype StreamState =
    StreamState(relations: seq<RelationMessage>, walLsn: Option<i64>, sent: seq<ChangeEvent>)

  //////////////////////////////////////////////////////////////////////////////
  // Rows as JSON objects
  //////////////////////////////////////////////////////////////////////////////

  function ColumnValue(c: RelationColumn, t: TupleColumn): Json {
    if t.isNull || t.isUnchangedToast || t.value.None? then Null
    else PgValue(t.value.value, c.typeOid)
  }

  function MinLength<A, B>(xs: seq<A>, ys: seq<B>): (n: nat)
    ensures n <= |xs| && n <= |ys| && (n == |xs| || n == |ys|)
  {
    if |xs| < |ys| then |xs| else |ys|
  }

  /** The first n columns zipped with the tuple; a later column overrides an equal name. */
  function RowPrefix(columns: seq<RelationColumn>, tuple: seq<TupleColumn>, n: nat): map<bytes, Json>
    requires n <= MinLength(columns, tuple)
  {
    if n == 0 then map[]
    else RowPrefix(columns, tuple, n - 1)[columns[n - 1].name := ColumnValue(columns[n - 1], tuple[n - 1])]
  }

  function Row(columns: seq<RelationColumn>, tuple: seq<TupleColumn>): Json {
    Object(RowPrefix(columns, tuple, MinLength(columns, tuple)))
  }

  method ColumnsToJson(columns: seq<RelationColumn>, tuple: seq<TupleColumn>) returns (r: Json)
    ensures r == Row(columns, tuple)
  {
    var fields: map<bytes, Json> := map[];
    for i := 0 to |columns|
      invariant i <= MinLength(columns, tuple)
      invariant fields == RowPrefix(columns, tuple, i)
    {
      if i >= |tuple| {
        return Object(fields);
      }
      var value := Null;
      if !(tuple[i].isNull || tuple[i].isUnchangedToast) {
        match tuple[i].value {
          case Some(raw) => value := PgValue(raw, columns[i].typeOid);
          case None =>
        }
      }
      fields := fields[columns[i].name := value];
    }
    r := Object(fields);
  }

  /** A name is a key of the row exactly when one of the zipped columns carries it. */
  lemma {:induction false} RowKeys(columns: seq<RelationColumn>, tuple: seq<TupleColumn>, n: nat, name: bytes)
    requires n <= MinLength(columns, tuple)
    ensures name in RowPrefix(columns, tuple, n) <==> exists i :: 0 <= i < n && columns[i].name == name
    decreases n
  {
    if n > 0 {
      RowKeys(columns, tuple, n - 1, name);
    }
  }

  /** A name maps to the value of the last zipped column that carries it. */
  lemma {:induction false} RowLastWins(columns: seq<RelationColumn>, tuple: seq<TupleColumn>, n: nat, i: nat)
    requires i < n <= MinLength(columns, tuple)
    requires forall j :: i < j < n ==> columns[j].name != columns[i].name
    ensures columns[i].name in RowPrefix(columns, tuple, n)
    ensures RowPrefix(columns, tuple, n)[columns[i].name] == ColumnValue(columns[i], tuple[i])
    decreases n
  {
    if i < n - 1 {
      RowLastWins(columns, tuple, n - 1, i);
    }
  }

  //////////////////////////////////////////////////////////////////////////////
  // One chunk
  //////////////////////////////////////////////////////////////////////////////

  function Source(db: bytes, rel: RelationMessage): SourceInfo {
    SourceInfo(Postgres, db, Some(rel.schema), rel.name)
  }

  /** The oid a row message names. */
  function RowOid(m: PgOutputMessage): Option<u32> {
    match m
    case Insert(oid, _) => Some(oid)
    case Update(oid, _, _) => Some(oid)
    case Delete(oid, _) => Some(oid)
    case _ => None
  }

  function RowEvent(db: bytes, rel: RelationMessage, m: PgOutputMessage): ChangeEvent
    requires RowOid(m).Some?
  {
    match m
    case Insert(_, t) => CreateEvent(Row(rel.columns, t), Source(db, rel))
    case Update(_, before, t) =>
      UpdateEvent(if before.Some? then Some(Row(rel.columns, before.value)) else None,
                  Row(rel.columns, t), Source(db, rel))
    case Delete(_, t) => DeleteEvent(Row(rel.columns, t), Source(db, rel))
  }

  /** The events of one message, its relation looked up in a list of announcements. */
  function Events(db: bytes, relations: seq<RelationMessage>, m: PgOutputMessage): seq<ChangeEvent> {
    if RowOid(m).None? then []
    else match FirstRelation(relations, RowOid(m).value)
      case Some(rel) => [RowEvent(db, rel, m)]
      case None => []
  }

  /** The WAL position a message carries. */
  function MessageLsn(m: PgOutputMessage): Option<i64> {
    match m
    case Begin(lsn, _, _) => Some(lsn)
    case Commit(_, _, endLsn, _) => Some(endLsn)
    case _ => None
  }

  function Or<T>(later: Option<T>, earlier: Option<T>): Option<T> {
    if later.Some? then later else earlier
  }

  function Step(db: bytes, s: StreamState, chunk: bytes): (StreamState, Status) {
    if chunk == [] then (s, Running)
    else if chunk[0] == KEEPALIVE then
      var lsn := PgParse.ReadI64Be(chunk, 1);
      (if lsn.Done? then s.(walLsn := Some(lsn.value)) else s, Running)
    else match Decoding(chunk)
      case Message(m) =>
        (StreamState(s.relations + Announced(Decoded.Message(m)), Or(MessageLsn(m), s.walLsn),
                     s.sent + Events(db, s.relations, m)), Running)
      case Ignored => (s, Running)
      case Failed(e) => (s, DecodeFailed(e))
      case Panicked => (s, Crashed)
  }

  function Run(db: bytes, s: StreamState, chunks: seq<bytes>): (StreamState, Status)
    decreases |chunks|
  {
    if chunks == [] then (s, Running)
    else
      var (s', status) := Step(db, s, chunks[0]);
      if status.Running? then Run(db, s', chunks[1..]) else (s', status)
  }

  class Streamer {
    const database: bytes
    const decoder: PgOutputDecoder
    var walLsn: Option<i64>
    var sent: seq<ChangeEvent>

    constructor (database: bytes)
      ensures this.database == database && fresh(decoder)
      ensures State() == StreamState([], None, [])
    {
      this.database := database;
      decoder := new PgOutputDecoder();
      walLsn, sent := None, [];
    }

    ghost function State(): StreamState
      reads this, decoder
    {
      StreamState(decoder.relations, walLsn, sent)
    }

    method ProcessChunk(data: bytes) returns (status: Status)
      modifies this, decoder
      ensures (State(), status) == Step(database, old(State()), data)
    {
      if data == [] {
        return Running;
      }
      if data[0] == KEEPALIVE {
        ProcessKeepalive(data);
        return Running;
      }
      ghost var relations, events := decoder.relations, sent;
      assert relations + [] == relations && events + [] == events;
      var decoded := decoder.Decode(data);
      match decoded {
        case Message(Begin(lsn, _, _)) =>
          walLsn := Some(lsn);
        case Message(Commit(_, _, endLsn, _)) =>
          walLsn := Some(endLsn);
        case Message(Insert(oid, newTuple)) =>
          var found := decoder.GetRelation(oid);
          if found.Some? {
            var rel := found.value;
            var after := ColumnsToJson(rel.columns, newTuple);
            sent := sent + [CreateEvent(after, Source(database, rel))];
          }
        case Message(Update(oid, oldTuple, newTuple)) =>
          var found := decoder.GetRelation(oid);
          if found.Some? {
            var rel := found.value;
            var beforeRow := None;
            if oldTuple.Some? {
              var row := ColumnsToJson(rel.columns, oldTuple.value);
              beforeRow := Some(row);
            }
            var after := ColumnsToJson(rel.columns, newTuple);
            sent := sent + [UpdateEvent(beforeRow, after, Source(database, rel))];
          }
        case Message(Delete(oid, oldTuple)) =>
          var found := decoder.GetRelation(oid);
          if found.Some? {
            var rel := found.value;
            var row := ColumnsToJson(rel.columns, oldTuple);
            sent := sent + [DeleteEvent(row, Source(database, rel))];
          }
        case Message(_) =>
        case Ignored =>
        case Failed(e) =>
          return DecodeFailed(e);
        case Panicked =>
          return Crashed;
      }
      return Running;
    }

    method ProcessKeepalive(data: bytes)
      requires data != []
      modifies this`walLsn
      ensures walLsn == (if |data| >= 9 then Some(PgParse.ReadI64Be(data, 1).value) else old(walLsn))
    {
      if |data| >= 9 {
        walLsn := Some(PgParse.ReadI64Be(data, 1).value);
      }
    }

    method ProcessStream(chunks: seq<bytes>) returns (status: Status)
      modifies this, decoder
      ensures (State(), status) == Run(database, old(State()), chunks)
    {
      for i := 0 to |chunks|
        invariant Run(database, old(State()), chunks) == Run(database, State(), chunks[i..])
      {
        status := ProcessChunk(chunks[i]);
        assert chunks[i..][1..] == chunks[i + 1..];
        if !status.Running? {
          return;
        }
      }
      return Running;
    }
  }
}
