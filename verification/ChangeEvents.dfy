/** Change events as connectors emit them. Conversions of column text that are not modelled
    (embedded JSON, floating point, decimal text) stay symbolic: a value is named by the conversion
    and its raw input. Equal names are equal values; different names may still be the same value. */
module ChangeEvents {
  import opened Wrappers
  import opened Bits

  datatype Json =
    | Null
    | Bool(b: bool)
    | Number(n: int)
    | Text(text: bytes)
    | Symbolic(kind: string, raw: bytes)
    | DateTimeText(parts: seq<int>)
    | Object(fields: map<bytes, Json>)

  datatype Operation = Create | Update | Delete | Read | Truncate | Message

  datatype ConnectorType = Postgres | Mysql

  datatype SourceInfo = SourceInfo(connector: ConnectorType, db: bytes, schema: Option<bytes>, table: bytes)

  datatype ChangeEvent =
    ChangeEvent(op: Operation, source: SourceInfo, before: Option<Json>, after: Option<Json>)

  function CreateEvent(after: Json, source: SourceInfo): ChangeEvent {
    ChangeEvent(Operation.Create, source, None, Some(after))
  }

  function UpdateEvent(before: Option<Json>, after: Json, source: SourceInfo): ChangeEvent {
    ChangeEvent(Operation.Update, source, before, Some(after))
  }

  function DeleteEvent(before: Json, source: SourceInfo): ChangeEvent {
    ChangeEvent(Operation.Delete, source, Some(before), None)
  }
}
