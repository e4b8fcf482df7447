/** Debezium schemas: the type names, the fields, and how a field's type is resolved. */
module Schemas {
  import opened Wrappers

  /** A JSON value as far as a field's type looks into it. */
  datatype Value = Str(s: string) | Arr(items: seq<Value>) | Other(text: string)

  datatype SchemaType =
    | Struct | Array | Map | String | Bytes | Int8 | Int16 | Int32 | Int64 | Float | Double
    | Boolean | Decimal | Timestamp | Date | Time | MicroTimestamp | MicroTime
    | NanoTimestamp | NanoTime | Json | Unknown(name: string)

  datatype Field = Field(
    fieldName: string, fieldType: Value, fields: Option<seq<Field>>, optional: Option<bool>,
    name: Option<string>, version: Option<nat>, doc: Option<string>,
    parameters: Option<map<string, string>>, default: Option<Value>)

  datatype Schema = Schema(
    schemaType: SchemaType, fields: Option<seq<Field>>, optional: Option<bool>,
    name: Option<string>, version: Option<nat>, doc: Option<string>, field: Option<string>,
    default: Option<Value>, parameters: Option<map<string, string>>)

  function AsStr(t: SchemaType): string {
    match t
    case Struct => "struct"
    case Array => "array"
    case Map => "map"
    case String => "string"
    case Bytes => "bytes"
    case Int8 => "int8"
    case Int16 => "int16"
    case Int32 => "int32"
    case Int64 => "int64"
    case Float => "float"
    case Double => "double"
    case Boolean => "boolean"
    case Decimal => "decimal"
    case Timestamp => "timestamp"
    case Date => "date"
    case Time => "time"
    case MicroTimestamp => "microtimestamp"
    case MicroTime => "microtime"
    case NanoTimestamp => "nanotimestamp"
    case NanoTime => "nanotime"
    case Json => "json"
    case Unknown(s) => s
  }

  function FromStr(s: string): SchemaType {
    match s
    case "struct" => Struct
    case "array" => Array
    case "map" => Map
    case "string" => String
    case "bytes" => Bytes
    case "int8" => Int8
    case "int16" => Int16
    case "int32" => Int32
    case "int64" => Int64
    case "float" => Float
    case "double" => Double
    case "boolean" => Boolean
    case "decimal" => Decimal
    case "timestamp" => Timestamp
    case "date" => Date
    case "time" => Time
    case "microtimestamp" => MicroTimestamp
    case "microtime" => MicroTime
    case "nanotimestamp" => NanoTimestamp
    case "nanotime" => NanoTime
    case "json" => Json
    case _ => Unknown(s)
  }

  const UNRESOLVED: SchemaType := Unknown("unresolved")

  /** A field's type: its name, or the first of a union of names. */
  function ResolveType(f: Field): SchemaType {
    match f.fieldType
    case Str(s) => FromStr(s)
    case Arr(items) => if items != [] && items[0].Str? then FromStr(items[0].s) else UNRESOLVED
    case Other(_) => UNRESOLVED
  }

  /** Every name reads as a type that prints as the name again. */
  lemma NameOfType(s: string)
    ensures AsStr(FromStr(s)) == s
  {
  }

  /** A type survives printing and reading unless it is an unknown type that bears a known name. */
  lemma TypeOfName(t: SchemaType)
    ensures FromStr(AsStr(t)) == t <==> (t.Unknown? ==> FromStr(t.name).Unknown?)
  {
    NameOfType(AsStr(t));
  }
}
