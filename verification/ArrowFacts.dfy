/** What the bridge makes of each type, told by the names Debezium writes. */
module ArrowFacts {
  import opened Wrappers
  import opened Numerals
  import opened Schemas
  import opened ArrowBridge

  //////////////////////////////////////////////////////////////////////////////
  // From Debezium to Arrow
  //////////////////////////////////////////////////////////////////////////////

  /** The name a field's type goes by: its own, or the first of a union. */
  function TypeName(f: Field): string {
    match f.fieldType
    case Str(s) => s
    case Arr(items) => if items != [] && items[0].Str? then items[0].s else "unresolved"
    case Other(_) => "unresolved"
  }

  /** A type is resolved by that name. */
  lemma ResolvedByName(f: Field)
    ensures AsStr(ResolveType(f)) == TypeName(f)
  {
    NameOfType(TypeName(f));
    hide AsStr, FromStr;
    assert AsStr(UNRESOLVED) == "unresolved" by { UnknownName("unresolved"); }
  }

  lemma UnknownName(s: string)
    ensures AsStr(SchemaType.Unknown(s)) == s
  {
  }

  /** The Arrow type of a name: integers keep their width, times in milliseconds become
      microseconds, and whatever has a structure, or a name that is not known, becomes text. */
  function ArrowTypeOf(name: string): DataType {
    match name
    case "int8" => Int8Type
    case "int16" => Int16Type
    case "int32" => Int32Type
    case "int64" => Int64Type
    case "float" => Float32Type
    case "double" => Float64Type
    case "boolean" => BooleanType
    case "bytes" => BinaryType
    case "date" => Date64Type
    case "timestamp" => TimestampType(Microsecond, None)
    case "microtimestamp" => TimestampType(Microsecond, None)
    case "nanotimestamp" => TimestampType(Nanosecond, None)
    case "time" => Time64Type(Microsecond)
    case "microtime" => Time64Type(Microsecond)
    case "nanotime" => Time64Type(Nanosecond)
    case _ => Utf8Type
  }

  /** Every Debezium field: its Arrow field has its name, may be null unless it is declared as
      required, carries its doc alone, and has the type its type's name stands for. */
  lemma ToArrowByName(f: Field)
    ensures var a := FieldToArrow(f);
      && a.name == f.fieldName
      && (a.nullable <==> f.optional != Some(false))
      && a.metadata == (match f.doc case Some(doc) => map["doc" := doc] case None => map[])
      && (TypeName(f) != "decimal" ==> a.dataType == ArrowTypeOf(TypeName(f)))
      && (TypeName(f) == "decimal" ==> a.dataType.Decimal128Type?)
  {
    ResolvedByName(f);
    ResolvedIsKnown(f);
    KnownNames(ResolveType(f), f.parameters);
    hide ArrowTypeOf, TypeToArrow, AsStr, ResolveType, TypeName;
    if f.optional.Some? {
      assert f.optional == Some(f.optional.value);
    }
    if ResolveType(f) == Decimal {
      hide *;
      DecimalToArrow(f);
    }
  }

  lemma DecimalToArrow(f: Field)
    requires ResolveType(f) == Decimal
    ensures FieldToArrow(f).dataType == DecimalType(f.parameters)
  {
  }

  /** Resolving yields a type that is known whenever its name is. */
  lemma ResolvedIsKnown(f: Field)
    ensures ResolveType(f) == FromStr(AsStr(ResolveType(f)))
  {
  }

  lemma KnownNames(t: SchemaType, parameters: Option<Parameters>)
    requires t == FromStr(AsStr(t))
    ensures AsStr(t) == "decimal" <==> t == Decimal
    ensures AsStr(t) != "decimal" ==> TypeToArrow(t, parameters) == ArrowTypeOf(AsStr(t))
  {
  }

  /** A parameter is there and its text is a numeral of n in the range of a precision or a scale. */
  ghost predicate IsPrecision(ps: Option<Parameters>, n: int) {
    && ps.Some? && "precision" in ps.value
    && n < 256 && DenotesUnsigned(ps.value["precision"], 10, n)
  }

  ghost predicate IsScale(ps: Option<Parameters>, n: int) {
    && ps.Some? && "scale" in ps.value
    && -128 <= n < 128 && DenotesSigned(ps.value["scale"], n)
  }

  /** A decimal has the precision and scale its parameters give, and 38 and 0 where they give none. */
  lemma DecimalByParameters(ps: Option<Parameters>, n: int)
    ensures DecimalType(ps).Decimal128Type?
    ensures DecimalType(ps).precision == n <==> IsPrecision(ps, n) || (n == 38 && !exists m :: IsPrecision(ps, m))
    ensures DecimalType(ps).scale == n <==> IsScale(ps, n) || (n == 0 && !exists m :: IsScale(ps, m))
  {
    hide ParseU8, ParseI8, IsPrecision, IsScale;
    if ps.Some? && "precision" in ps.value {
      var parsed := ParseU8(ps.value["precision"]);
      forall m ensures IsPrecision(ps, m) <==> parsed == Some(m) {
        PrecisionRead(ps, m);
      }
      assert parsed.Some? ==> IsPrecision(ps, parsed.value);
    } else {
      NoParameter(ps);
    }
    if ps.Some? && "scale" in ps.value {
      var parsed := ParseI8(ps.value["scale"]);
      forall m ensures IsScale(ps, m) <==> parsed == Some(m) {
        ScaleRead(ps, m);
      }
      assert parsed.Some? ==> IsScale(ps, parsed.value);
    } else {
      NoParameter(ps);
    }
  }

  lemma NoParameter(ps: Option<Parameters>)
    ensures (ps.None? || "precision" !in ps.value) ==> forall m :: !IsPrecision(ps, m)
    ensures (ps.None? || "scale" !in ps.value) ==> forall m :: !IsScale(ps, m)
  {
  }

  lemma PrecisionRead(ps: Option<Parameters>, m: int)
    requires ps.Some? && "precision" in ps.value
    ensures IsPrecision(ps, m) <==> ParseU8(ps.value["precision"]) == Some(m)
  {
    UnsignedIff(ps.value["precision"], 10, 256, m);
    hide ParseUnsigned, DenotesUnsigned;
  }

  lemma ScaleRead(ps: Option<Parameters>, m: int)
    requires ps.Some? && "scale" in ps.value
    ensures IsScale(ps, m) <==> ParseI8(ps.value["scale"]) == Some(m)
  {
    SignedIff(ps.value["scale"], 128, m);
    hide ParseSigned, DenotesSigned;
  }

  //////////////////////////////////////////////////////////////////////////////
  // From Arrow to Debezium
  //////////////////////////////////////////////////////////////////////////////

  /** The bits of an Arrow integer, and whether it is signed. */
  function IntegerOf(t: DataType): Option<(nat, bool)> {
    match t
    case Int8Type => Some((8, true))
    case Int16Type => Some((16, true))
    case Int32Type => Some((32, true))
    case Int64Type => Some((64, true))
    case UInt8Type => Some((8, false))
    case UInt16Type => Some((16, false))
    case UInt32Type => Some((32, false))
    case UInt64Type => Some((64, false))
    case _ => None
  }

  /** A signed integer of so many bits holds all values of the type. */
  predicate Holds(bits: nat, t: DataType)
    requires IntegerOf(t).Some?
  {
    var (n, signed) := IntegerOf(t).value;
    if signed then n <= bits else n < bits
  }

  /** The type name of a field that came from Arrow. */
  function NameFrom(t: DataType): string {
    TypeName(FieldFromArrow(ArrowField("", t, false, map[])))
  }

  /** The smallest of the signed integers that holds all values of the type, else the largest. */
  function Least(t: DataType): nat
    requires IntegerOf(t).Some?
  {
    if Holds(8, t) then 8 else if Holds(16, t) then 16 else if Holds(32, t) then 32 else 64
  }

  lemma LeastIsNamed(t: DataType)
    requires IntegerOf(t).Some?
    ensures NameFrom(t) == "int" + Numerals.Decimal(Least(t))
    ensures t.UInt64Type? <==> !Holds(Least(t), t)
  {
    BitsInDecimal();
    hide Numerals.Decimal;
  }

  lemma NamesOfBits(a: nat, b: nat)
    requires a in {8, 16, 32, 64} && b in {8, 16, 32, 64}
    ensures "int" + Numerals.Decimal(a) == "int" + Numerals.Decimal(b) ==> a == b
  {
    if "int" + Numerals.Decimal(a) == "int" + Numerals.Decimal(b) {
      assert ("int" + Numerals.Decimal(a))[3..] == Numerals.Decimal(a);
      assert ("int" + Numerals.Decimal(b))[3..] == Numerals.Decimal(b);
      Numerals.DecimalInjective(a, b);
    }
    hide Numerals.Decimal;
  }

  /** An integer becomes the smallest signed integer that holds all its values, but for the unsigned
      one of 64 bits, which no Debezium integer holds and the largest stands for. */
  lemma IntegersWiden(t: DataType, bits: nat)
    requires IntegerOf(t).Some? && bits in {8, 16, 32, 64}
    ensures NameFrom(t) == "int" + Numerals.Decimal(bits) <==>
      if t.UInt64Type? then bits == 64
      else Holds(bits, t) && forall fewer :: fewer in {8, 16, 32, 64} && Holds(fewer, t) ==> bits <= fewer
  {
    LeastIsNamed(t);
    NamesOfBits(bits, Least(t));
    hide NameFrom, Numerals.Decimal;
  }

  lemma BitsInDecimal()
    ensures Numerals.Decimal(8) == "8" && Numerals.Decimal(16) == "16"
    ensures Numerals.Decimal(32) == "32" && Numerals.Decimal(64) == "64"
  {
    assert Digits(1, 10) == [1] && Digits(3, 10) == [3] && Digits(6, 10) == [6];
    assert Digits(8, 10) == [8] && Digits(16, 10) == [1, 6] && Digits(32, 10) == [3, 2] && Digits(64, 10) == [6, 4];
    hide Digits;
  }

  /** The name of every type that is no integer. A time or timestamp keeps its unit, seconds counting
      as milliseconds, but for a 64-bit time of seconds, which becomes text. */
  lemma NamesFromArrow(t: DataType)
    requires IntegerOf(t).None?
    ensures NameFrom(t) ==
      match t
      case Float16Type | Float32Type => "float"
      case Float64Type => "double"
      case BooleanType => "boolean"
      case BinaryType | LargeBinaryType | FixedSizeBinaryType(_) => "bytes"
      case Date32Type | Date64Type => "date"
      case Time32Type(_) => "time"
      case Time64Type(unit) => TimeName(unit)
      case TimestampType(unit, _) => TimestampName(unit)
      case Decimal128Type(_, _) | Decimal256Type(_, _) => "decimal"
      case StructType(_) => "struct"
      case ListType(_) | LargeListType(_) | FixedSizeListType(_, _) => "array"
      case MapType(_, _) => "map"
      case _ => "string"
  {
  }

  function TimeName(unit: TimeUnit): string {
    match unit
    case Second => "string"
    case Millisecond => "time"
    case Microsecond => "microtime"
    case Nanosecond => "nanotime"
  }

  function TimestampName(unit: TimeUnit): string {
    match unit
    case Second => "timestamp"
    case Millisecond => "timestamp"
    case Microsecond => "microtimestamp"
    case Nanosecond => "nanotimestamp"
  }

  /** The rest of a field that came from Arrow: its name, its nullability declared, its doc, the
      fields of a struct and of nothing else, and the parameters of a 128-bit decimal and of nothing
      else, which read back as its precision and scale. */
  lemma FromArrow(f: ArrowField, i: nat)
    ensures var d := FieldFromArrow(f);
      && TypeName(d) == NameFrom(f.dataType)
      && d.fieldName == f.name && d.optional == Some(f.nullable)
      && d.doc == (if "doc" in f.metadata then Some(f.metadata["doc"]) else None)
      && (d.fields.Some? <==> f.dataType.StructType?)
      && (d.parameters.Some? <==> f.dataType.Decimal128Type?)
      && (f.dataType.StructType? ==> |d.fields.value| == |f.dataType.fields|)
      && (f.dataType.StructType? && i < |d.fields.value| ==> d.fields.value[i] == FieldFromArrow(f.dataType.fields[i]))
      && (f.dataType.Decimal128Type? ==> DecimalType(d.parameters) == f.dataType)
  {
    match f.dataType {
      case StructType(fields) =>
        FromArrowLength(fields);
        if i < |fields| {
          FromArrowAt(fields, i);
        }
      case Decimal128Type(p, s) => DecimalReadsBack(p, s);
      case _ =>
    }
    hide FieldsFromArrow, DecimalType, Numerals.Decimal, ShowSigned;
  }

  lemma {:induction false} FromArrowLength(fields: seq<ArrowField>)
    ensures |FieldsFromArrow(fields)| == |fields|
  {
    if fields != [] {
      FromArrowLength(fields[1..]);
    }
  }

  /** A schema that came from Arrow is a struct of its fields, with nothing else but the name. */
  lemma SchemaParts(a: ArrowSchema, i: nat)
    ensures var s := SchemaFromArrow(a);
      && s.schemaType == SchemaType.Struct
      && s.fields.Some? && |s.fields.value| == |a.fields|
      && (i < |a.fields| ==> s.fields.value[i] == FieldFromArrow(a.fields[i]))
      && s.name == (if "debezium.name" in a.metadata then Some(a.metadata["debezium.name"]) else None)
      && s.optional.None? && s.version.None? && s.doc.None? && s.field.None? && s.default.None? && s.parameters.None?
  {
    FromArrowLength(a.fields);
    if i < |a.fields| {
      FromArrowAt(a.fields, i);
    }
  }

  //////////////////////////////////////////////////////////////////////////////
  // There and back from Debezium
  //////////////////////////////////////////////////////////////////////////////

  /** A Debezium field keeps its type over a trip through Arrow exactly when the type's name is one
      of these; a time or timestamp in milliseconds becomes one in microseconds, and what has no Arrow
      type of its own becomes a string. */
  lemma TypeSurvivesIff(f: Field)
    ensures var again := TypeName(FieldFromArrow(FieldToArrow(f)));
      && (again == TypeName(f) <==> TypeName(f) in {
            "int8", "int16", "int32", "int64", "float", "double", "boolean", "string", "bytes", "decimal",
            "date", "microtimestamp", "nanotimestamp", "microtime", "nanotime"})
      && (again != TypeName(f) ==>
            again == match TypeName(f)
                     case "timestamp" => "microtimestamp"
                     case "time" => "microtime"
                     case _ => "string")
  {
    var a := FieldToArrow(f);
    ToArrowByName(f);
    FromArrow(a, 0);
    var name := TypeName(f);
    hide TypeName, FieldToArrow, FieldFromArrow;
    if name == "decimal" {
      NamesFromArrow(a.dataType);
    } else {
      NameOfArrowType(name);
    }
  }

  lemma NameOfArrowType(name: string)
    ensures NameFrom(ArrowTypeOf(name)) ==
      match name
      case "int8" | "int16" | "int32" | "int64" | "float" | "double" | "boolean" | "bytes" => name
      case "date" | "microtimestamp" | "nanotimestamp" | "microtime" | "nanotime" => name
      case "timestamp" => "microtimestamp"
      case "time" => "microtime"
      case _ => "string"
  {
  }
}
