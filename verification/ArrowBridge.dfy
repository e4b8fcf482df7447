/** Debezium schemas as Arrow schemas and back: the mapping loses types, and one trip loses all
    there is to lose. */
module ArrowBridge {
  import opened Wrappers
  import opened Bits
  import opened Numerals
  import opened Schemas

  datatype TimeUnit = Second | Millisecond | Microsecond | Nanosecond

  datatype DataType =
    | Int8Type | Int16Type | Int32Type | Int64Type | UInt8Type | UInt16Type | UInt32Type | UInt64Type
    | Float16Type | Float32Type | Float64Type | BooleanType
    | Utf8Type | Utf8ViewType | LargeUtf8Type
    | BinaryType | LargeBinaryType | FixedSizeBinaryType(width: int)
    | Date32Type | Date64Type | Time32Type(unit: TimeUnit) | Time64Type(unit: TimeUnit)
    | TimestampType(unit: TimeUnit, zone: Option<string>)
    | Decimal128Type(precision: byte, scale: i8) | Decimal256Type(precision: byte, scale: i8)
    | StructType(fields: seq<ArrowField>)
    | ListType(item: ArrowField) | LargeListType(item: ArrowField) | FixedSizeListType(item: ArrowField, size: int)
    | MapType(entries: ArrowField, sorted: bool)
    | OtherType(text: string)

  datatype ArrowField = ArrowField(name: string, dataType: DataType, nullable: bool, metadata: map<string, string>)

  datatype ArrowSchema = ArrowSchema(fields: seq<ArrowField>, metadata: map<string, string>)

  //////////////////////////////////////////////////////////////////////////////
  // Small integers as text
  //////////////////////////////////////////////////////////////////////////////

  function ParseU8(s: string): Option<byte> {
    ParseUnsigned(s, 10, 256)
  }

  function ParseI8(s: string): Option<i8> {
    match ParseSigned(s, 128)
    case Some(n) => Some(n)
    case None => None
  }

  /** A precision survives its decimal print. */
  lemma U8ReadsBack(p: byte)
    ensures ParseU8(Numerals.Decimal(p)) == Some(p)
  {
    DecimalReadBack(p, 256);
  }

  /** A scale survives its decimal print, whatever its sign. */
  lemma I8ReadsBack(n: i8)
    ensures ParseI8(ShowSigned(n)) == Some(n)
  {
    SignedReadsBack(n, 128);
  }

  //////////////////////////////////////////////////////////////////////////////
  // The two mappings
  //////////////////////////////////////////////////////////////////////////////

  type Parameters = map<string, string>

  function Parameter(parameters: Option<Parameters>, key: string): Option<string> {
    if parameters.Some? && key in parameters.value then Some(parameters.value[key]) else None
  }

  function DecimalType(parameters: Option<Parameters>): DataType {
    var precision := Parameter(parameters, "precision");
    var scale := Parameter(parameters, "scale");
    var p := if precision.Some? then ParseU8(precision.value) else None;
    var s := if scale.Some? then ParseI8(scale.value) else None;
    Decimal128Type(if p.Some? then p.value else 38, if s.Some? then s.value else 0)
  }

  function TypeToArrow(t: SchemaType, parameters: Option<Parameters>): DataType {
    match t
    case Int8 => Int8Type
    case Int16 => Int16Type
    case Int32 => Int32Type
    case Int64 => Int64Type
    case Float => Float32Type
    case Double => Float64Type
    case Boolean => BooleanType
    case String => Utf8Type
    case Bytes => BinaryType
    case Decimal => DecimalType(parameters)
    case Timestamp | MicroTimestamp => TimestampType(Microsecond, None)
    case NanoTimestamp => TimestampType(Nanosecond, None)
    case Date => Date64Type
    case Time | MicroTime => Time64Type(Microsecond)
    case NanoTime => Time64Type(Nanosecond)
    case Json => Utf8Type
    case Struct | Map | Array => Utf8Type
    case Unknown(_) => Utf8Type
  }

  function FieldToArrow(f: Field): ArrowField {
    ArrowField(f.fieldName, TypeToArrow(ResolveType(f), f.parameters),
               if f.optional.Some? then f.optional.value else true,
               if f.doc.Some? then map["doc" := f.doc.value] else map[])
  }

  function FieldsToArrow(fields: seq<Field>): (r: seq<ArrowField>)
    ensures |r| == |fields|
  {
    seq(|fields|, i requires 0 <= i < |fields| => FieldToArrow(fields[i]))
  }

  function SchemaToArrow(s: Schema): ArrowSchema {
    ArrowSchema(FieldsToArrow(if s.fields.Some? then s.fields.value else []),
                (if s.name.Some? then map["debezium.name" := s.name.value] else map[])
                + (if s.doc.Some? then map["debezium.doc" := s.doc.value] else map[]))
  }

  function TypeFromArrow(t: DataType): SchemaType {
    match t
    case Int8Type => Int8
    case Int16Type => Int16
    case Int32Type => Int32
    case Int64Type => Int64
    case UInt8Type => Int16
    case UInt16Type => Int32
    case UInt32Type | UInt64Type => Int64
    case Float16Type | Float32Type => Float
    case Float64Type => Double
    case BooleanType => Boolean
    case Utf8Type | Utf8ViewType | LargeUtf8Type => String
    case BinaryType | LargeBinaryType | FixedSizeBinaryType(_) => Bytes
    case Date32Type | Date64Type => Date
    case Time32Type(_) => Time
    case Time64Type(Millisecond) => Time
    case Time64Type(Microsecond) => MicroTime
    case Time64Type(Nanosecond) => NanoTime
    case TimestampType(Millisecond, _) => Timestamp
    case TimestampType(Second, _) => Timestamp
    case TimestampType(Microsecond, _) => MicroTimestamp
    case TimestampType(Nanosecond, _) => NanoTimestamp
    case Decimal128Type(_, _) | Decimal256Type(_, _) => Decimal
    case StructType(_) => Struct
    case ListType(_) | LargeListType(_) | FixedSizeListType(_, _) => Array
    case MapType(_, _) => Map
    case _ => String
  }

  function FieldFromArrow(f: ArrowField): Field
    decreases f
  {
    Field(f.name, Str(AsStr(TypeFromArrow(f.dataType))),
          if f.dataType.StructType? then Some(FieldsFromArrow(f.dataType.fields)) else None,
          Some(f.nullable), None, None,
          if "doc" in f.metadata then Some(f.metadata["doc"]) else None,
          if f.dataType.Decimal128Type?
          then Some(map["precision" := Numerals.Decimal(f.dataType.precision), "scale" := ShowSigned(f.dataType.scale)])
          else None,
          None)
  }

  function FieldsFromArrow(fields: seq<ArrowField>): (r: seq<Field>)
    decreases fields
  {
    if fields == [] then [] else [FieldFromArrow(fields[0])] + FieldsFromArrow(fields[1..])
  }

  function SchemaFromArrow(s: ArrowSchema): Schema {
    Schema(Struct, Some(FieldsFromArrow(s.fields)), None,
           if "debezium.name" in s.metadata then Some(s.metadata["debezium.name"]) else None,
           None, None, None, None, None)
  }

  //////////////////////////////////////////////////////////////////////////////
  // Round trips
  //////////////////////////////////////////////////////////////////////////////

  /** The Arrow types that come back as they are. */
  predicate Canonical(t: DataType) {
    match t
    case Int8Type | Int16Type | Int32Type | Int64Type => true
    case Float32Type | Float64Type | BooleanType | Utf8Type | BinaryType | Date64Type => true
    case Decimal128Type(_, _) => true
    case Time64Type(unit) => unit.Microsecond? || unit.Nanosecond?
    case TimestampType(unit, zone) => (unit.Microsecond? || unit.Nanosecond?) && zone.None?
    case _ => false
  }

  /** An Arrow field taken to Debezium and back. */
  function Again(f: ArrowField): ArrowField {
    FieldToArrow(FieldFromArrow(f))
  }

  lemma TypeReadsBack(f: ArrowField)
    ensures ResolveType(FieldFromArrow(f)) == TypeFromArrow(f.dataType)
  {
    TypeOfName(TypeFromArrow(f.dataType));
  }

  lemma DecimalReadsBack(p: byte, s: i8)
    ensures DecimalType(Some(map["precision" := Numerals.Decimal(p), "scale" := ShowSigned(s)])) == Decimal128Type(p, s)
  {
    U8ReadsBack(p);
    I8ReadsBack(s);
  }

  lemma AgainType(f: ArrowField)
    ensures Canonical(Again(f).dataType)
    ensures Again(f).dataType == f.dataType <==> Canonical(f.dataType)
  {
    TypeReadsBack(f);
    if f.dataType.Decimal128Type? {
      DecimalReadsBack(f.dataType.precision, f.dataType.scale);
    }
  }

  /** Every Arrow field: name and nullability survive a trip; the field as a whole exactly when
      its type is canonical and it has no metadata but a doc. */
  lemma AgainIffCanonical(f: ArrowField)
    ensures Again(f).name == f.name && Again(f).nullable == f.nullable
    ensures Again(f) == f <==> Canonical(f.dataType) && f.metadata.Keys <= {"doc"}
  {
    AgainType(f);
    assert Again(f).metadata == if "doc" in f.metadata then map["doc" := f.metadata["doc"]] else map[];
  }

  lemma ToArrowIsCanonical(f: Field)
    ensures Canonical(FieldToArrow(f).dataType) && FieldToArrow(f).metadata.Keys <= {"doc"}
  {
  }

  lemma {:induction false} FromArrowAt(fields: seq<ArrowField>, i: nat)
    requires i < |fields|
    ensures |FieldsFromArrow(fields)| == |fields| && FieldsFromArrow(fields)[i] == FieldFromArrow(fields[i])
    decreases |fields|
  {
    if |fields| > 1 {
      FromArrowAt(fields[1..], if i == 0 then 0 else i - 1);
    }
  }

  function AgainSchema(a: ArrowSchema): ArrowSchema {
    SchemaToArrow(SchemaFromArrow(a))
  }

  lemma AgainFields(a: ArrowSchema)
    ensures |AgainSchema(a).fields| == |a.fields|
    ensures forall i :: 0 <= i < |a.fields| ==> AgainSchema(a).fields[i] == Again(a.fields[i])
  {
    forall i | 0 <= i < |a.fields|
      ensures |AgainSchema(a).fields| == |a.fields| && AgainSchema(a).fields[i] == Again(a.fields[i])
    {
      FromArrowAt(a.fields, i);
    }
  }

  /** Every Arrow schema: a trip over Debezium changes nothing exactly when every field comes back
      as it is and the schema has no metadata but a name. */
  lemma SchemaSurvivesIff(a: ArrowSchema)
    ensures AgainSchema(a) == a <==>
      && (forall i :: 0 <= i < |a.fields| ==> Canonical(a.fields[i].dataType) && a.fields[i].metadata.Keys <= {"doc"})
      && a.metadata.Keys <= {"debezium.name"}
  {
    var b := AgainSchema(a);
    AgainFields(a);
    forall i | 0 <= i < |a.fields|
      ensures b.fields[i] == a.fields[i] <==> Canonical(a.fields[i].dataType) && a.fields[i].metadata.Keys <= {"doc"}
    {
      AgainIffCanonical(a.fields[i]);
    }
    assert b.metadata ==
      if "debezium.name" in a.metadata then map["debezium.name" := a.metadata["debezium.name"]] else map[];
  }

  /** Every Debezium schema: its Arrow schema comes back field for field, with only the schema's
      doc gone. */
  lemma BridgeStabilises(s: Schema)
    ensures var a := SchemaToArrow(s);
      AgainSchema(a) == a.(metadata := a.metadata - {"debezium.doc"})
  {
    var a := SchemaToArrow(s);
    AgainFields(a);
    forall i | 0 <= i < |a.fields| ensures AgainSchema(a).fields[i] == a.fields[i] {
      ToArrowIsCanonical(s.fields.value[i]);
      AgainIffCanonical(a.fields[i]);
    }
    assert AgainSchema(a).fields == a.fields;
    assert AgainSchema(a).metadata == a.metadata - {"debezium.doc"};
  }

  /** Every Arrow schema is stable from the first trip on. */
  lemma OneTripIsEnough(a: ArrowSchema)
    ensures AgainSchema(AgainSchema(a)) == AgainSchema(a)
  {
    BridgeStabilises(SchemaFromArrow(a));
    assert AgainSchema(a).metadata - {"debezium.doc"} == AgainSchema(a).metadata;
  }
}
