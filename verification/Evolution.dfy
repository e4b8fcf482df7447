/** Comparing two schemas and evolving one by the other. Hash maps are iterated in any order: the
    methods pick it, and their specifications take it as an argument. */
module Evolution {
  import opened Wrappers
  import opened Schemas

  datatype SchemaChange =
    | FieldAdded(field: Field)
    | FieldRemoved(field: Field)
    | FieldTypeChanged(name: string, oldType: SchemaType, newType: SchemaType)
    | FieldNullabilityChanged(name: string, wasOptional: bool, nowOptional: bool)

  datatype SchemaDiff = SchemaDiff(changes: seq<SchemaChange>, isBreaking: bool)

  datatype Policy = AutoAdd | Warn | Fail

  type FieldMap = map<string, Field>

  //////////////////////////////////////////////////////////////////////////////
  // Specification
  //////////////////////////////////////////////////////////////////////////////

  function FieldList(s: Schema): seq<Field> {
    if s.fields.Some? then s.fields.value else []
  }

  /** Fields by name; of several with one name the last is kept. */
  function MapOf(fields: seq<Field>): FieldMap {
    if fields == [] then map[]
    else MapOf(fields[..|fields| - 1])[fields[|fields| - 1].fieldName := fields[|fields| - 1]]
  }

  function Fields(s: Schema): FieldMap {
    MapOf(FieldList(s))
  }

  /** An order in which a hash map may yield its keys. */
  ghost predicate IsOrder(order: seq<string>, keys: set<string>) {
    && (forall i, j :: 0 <= i < j < |order| ==> order[i] != order[j])
    && (forall n :: n in order <==> n in keys)
  }

  function AddedIn(source: FieldMap, target: FieldMap, order: seq<string>): seq<Field>
    requires forall n :: n in order ==> n in target
  {
    if order == [] then []
    else
      var n := order[|order| - 1];
      AddedIn(source, target, order[..|order| - 1]) + if n in source then [] else [target[n]]
  }

  function Additions(fields: seq<Field>): seq<SchemaChange> {
    seq(|fields|, i requires 0 <= i < |fields| => FieldAdded(fields[i]))
  }

  function Compared(f: Field, g: Field, name: string): seq<SchemaChange> {
    (if ResolveType(f) != ResolveType(g) then [FieldTypeChanged(name, ResolveType(f), ResolveType(g))] else [])
    + (if f.optional != g.optional
       then [FieldNullabilityChanged(name, f.optional == Some(true), g.optional == Some(true))] else [])
  }

  function ComparedIn(source: FieldMap, target: FieldMap, order: seq<string>): seq<SchemaChange>
    requires forall n :: n in order ==> n in source
  {
    if order == [] then []
    else
      var n := order[|order| - 1];
      ComparedIn(source, target, order[..|order| - 1])
      + if n in target then Compared(source[n], target[n], n) else [FieldRemoved(source[n])]
  }

  /** A field is gone, has another type, or was declared required and may now be absent. */
  predicate Breaks(source: FieldMap, target: FieldMap, n: string)
    requires n in source
  {
    || n !in target
    || ResolveType(source[n]) != ResolveType(target[n])
    || (source[n].optional == Some(false) && target[n].optional == Some(true))
  }

  predicate IsBreaking(source: FieldMap, target: FieldMap) {
    exists n :: n in source && Breaks(source, target, n)
  }

  ghost predicate Orders(source: FieldMap, target: FieldMap, targetOrder: seq<string>, sourceOrder: seq<string>) {
    IsOrder(targetOrder, target.Keys) && IsOrder(sourceOrder, source.Keys)
  }

  ghost function DiffOf(source: FieldMap, target: FieldMap, targetOrder: seq<string>, sourceOrder: seq<string>)
    : SchemaDiff
    requires Orders(source, target, targetOrder, sourceOrder)
  {
    SchemaDiff(Additions(AddedIn(source, target, targetOrder)) + ComparedIn(source, target, sourceOrder),
               IsBreaking(source, target))
  }

  ghost function EvolveOf(policy: Policy, current: Schema, source: Schema,
                          sourceOrder: seq<string>, currentOrder: seq<string>): Result<Schema, seq<SchemaChange>>
    requires Orders(Fields(current), Fields(source), sourceOrder, currentOrder)
  {
    var diff := DiffOf(Fields(current), Fields(source), sourceOrder, currentOrder);
    if diff.isBreaking && policy.Fail? then Err(diff.changes)
    else if diff.changes == [] then Ok(current)
    else if policy.Fail? then Err(diff.changes)
    else Ok(current.(fields := Some(FieldList(current) + AddedIn(Fields(current), Fields(source), sourceOrder))))
  }

  /** A comparison of two field maps, for some order of each. */
  ghost predicate IsDiff(source: FieldMap, target: FieldMap, diff: SchemaDiff) {
    exists targetOrder, sourceOrder ::
      Orders(source, target, targetOrder, sourceOrder) && diff == DiffOf(source, target, targetOrder, sourceOrder)
  }

  /** Some order of the hash maps makes evolving return r. */
  ghost predicate EvolvesTo(policy: Policy, current: Schema, source: Schema, r: Result<Schema, seq<SchemaChange>>) {
    exists sourceOrder, currentOrder ::
      && Orders(Fields(current), Fields(source), sourceOrder, currentOrder)
      && r == EvolveOf(policy, current, source, sourceOrder, currentOrder)
  }

  //////////////////////////////////////////////////////////////////////////////
  // The code
  //////////////////////////////////////////////////////////////////////////////

  method FieldMapOf(schema: Schema) returns (m: FieldMap)
    ensures m == Fields(schema)
  {
    m := map[];
    if schema.fields.Some? {
      var fields := schema.fields.value;
      for i := 0 to |fields|
        invariant m == MapOf(fields[..i])
      {
        assert fields[..i + 1][..i] == fields[..i];
        m := m[fields[i].fieldName := fields[i]];
      }
      assert fields[..|fields|] == fields;
    }
  }

  method CollectAdded(sourceFields: FieldMap, targetFields: FieldMap) returns (changes: seq<SchemaChange>)
    ensures exists order ::
      IsOrder(order, targetFields.Keys) && changes == Additions(AddedIn(sourceFields, targetFields, order))
  {
    changes := [];
    ghost var order: seq<string> := [];
    var rest := targetFields.Keys;
    while rest != {}
      invariant rest <= targetFields.Keys
      invariant IsOrder(order, targetFields.Keys - rest)
      invariant changes == Additions(AddedIn(sourceFields, targetFields, order))
    {
      var name :| name in rest;
      OrderGrows(order, targetFields.Keys - rest, name);
      rest := rest - {name};
      order := order + [name];
      if name !in sourceFields {
        changes := changes + [FieldAdded(targetFields[name])];
      }
    }
  }

  method CompareField(name: string, field: Field, targetField: Field)
    returns (changes: seq<SchemaChange>, isBreaking: bool)
    ensures changes == Compared(field, targetField, name)
    ensures isBreaking == Breaks(map[name := field], map[name := targetField], name)
  {
    changes, isBreaking := [], false;
    var sourceType, targetType := ResolveType(field), ResolveType(targetField);
    if sourceType != targetType {
      changes := changes + [FieldTypeChanged(name, sourceType, targetType)];
      isBreaking := true;
    }
    if field.optional != targetField.optional {
      var was, now := UnwrapOr(field.optional, false), UnwrapOr(targetField.optional, false);
      changes := changes + [FieldNullabilityChanged(name, was, now)];
      if field.optional == Some(false) && targetField.optional == Some(true) {
        isBreaking := true;
      }
    }
  }

  method CollectCompared(sourceFields: FieldMap, targetFields: FieldMap)
    returns (changes: seq<SchemaChange>, isBreaking: bool)
    ensures exists order ::
      IsOrder(order, sourceFields.Keys) && changes == ComparedIn(sourceFields, targetFields, order)
    ensures isBreaking <==> IsBreaking(sourceFields, targetFields)
  {
    changes, isBreaking := [], false;
    ghost var order: seq<string> := [];
    var rest := sourceFields.Keys;
    while rest != {}
      invariant rest <= sourceFields.Keys
      invariant IsOrder(order, sourceFields.Keys - rest)
      invariant changes == ComparedIn(sourceFields, targetFields, order)
      invariant isBreaking <==> exists n :: n in sourceFields && n !in rest && Breaks(sourceFields, targetFields, n)
    {
      var name :| name in rest;
      OrderGrows(order, sourceFields.Keys - rest, name);
      var added, breaks := [FieldRemoved(sourceFields[name])], true;
      if name in targetFields {
        added, breaks := CompareField(name, sourceFields[name], targetFields[name]);
      }
      assert breaks == Breaks(sourceFields, targetFields, name);
      rest := rest - {name};
      order := order + [name];
      changes := changes + added;
      isBreaking := isBreaking || breaks;
    }
  }

  method Diff(source: Schema, target: Schema) returns (diff: SchemaDiff)
    ensures IsDiff(Fields(source), Fields(target), diff)
  {
    var sourceFields := FieldMapOf(source);
    var targetFields := FieldMapOf(target);
    var added := CollectAdded(sourceFields, targetFields);
    var compared, isBreaking := CollectCompared(sourceFields, targetFields);
    diff := SchemaDiff(added + compared, isBreaking);
    ghost var targetOrder :| IsOrder(targetOrder, targetFields.Keys)
      && added == Additions(AddedIn(sourceFields, targetFields, targetOrder));
    ghost var sourceOrder :| IsOrder(sourceOrder, sourceFields.Keys)
      && compared == ComparedIn(sourceFields, targetFields, sourceOrder);
    assert Orders(sourceFields, targetFields, targetOrder, sourceOrder);
  }

  function UnwrapOr<T>(o: Option<T>, default_: T): T {
    if o.Some? then o.value else default_
  }

  /** The fields a list of changes adds, in order. */
  function AddedOf(changes: seq<SchemaChange>): seq<Field> {
    if changes == [] then []
    else
      var c := changes[|changes| - 1];
      AddedOf(changes[..|changes| - 1]) + if c.FieldAdded? then [c.field] else []
  }

  method PushAdded(fields: seq<Field>, changes: seq<SchemaChange>) returns (r: seq<Field>)
    ensures r == fields + AddedOf(changes)
  {
    r := fields;
    for i := 0 to |changes|
      invariant r == fields + AddedOf(changes[..i])
    {
      assert changes[..i + 1][..i] == changes[..i];
      match changes[i] {
        case FieldAdded(field) =>
          r := r + [field];
        case _ =>
      }
    }
    assert changes[..|changes|] == changes;
  }

  lemma {:induction false} AddedAmong(added: seq<Field>, others: seq<SchemaChange>)
    requires forall c :: c in others ==> !c.FieldAdded?
    ensures AddedOf(Additions(added) + others) == added
    decreases |added| + |others|
  {
    var changes := Additions(added) + others;
    if others != [] {
      assert changes[..|changes| - 1] == Additions(added) + others[..|others| - 1];
      AddedAmong(added, others[..|others| - 1]);
    } else if added != [] {
      assert changes[..|changes| - 1] == Additions(added[..|added| - 1]) + [];
      AddedAmong(added[..|added| - 1], []);
    }
  }

  method Evolve(policy: Policy, current: Schema, source: Schema) returns (r: Result<Schema, seq<SchemaChange>>)
    ensures EvolvesTo(policy, current, source, r)
  {
    var diff := Diff(current, source);
    ghost var sourceOrder, currentOrder :| Orders(Fields(current), Fields(source), sourceOrder, currentOrder)
      && diff == DiffOf(Fields(current), Fields(source), sourceOrder, currentOrder);
    if diff.isBreaking && policy.Fail? {
      return Err(diff.changes);
    }
    if diff.changes == [] {
      return Ok(current);
    }
    match policy {
      case AutoAdd | Warn =>
        var fields := PushAdded(FieldList(current), diff.changes);
        ComparedAddsNothing(Fields(current), Fields(source), currentOrder);
        AddedAmong(AddedIn(Fields(current), Fields(source), sourceOrder),
                   ComparedIn(Fields(current), Fields(source), currentOrder));
        return Ok(current.(fields := Some(fields)));
      case Fail =>
        return Err(diff.changes);
    }
  }

  lemma OrderGrows(order: seq<string>, keys: set<string>, n: string)
    requires IsOrder(order, keys) && n !in keys
    ensures IsOrder(order + [n], keys + {n})
  {
    assert forall i :: 0 <= i < |order| ==> order[i] in order;
  }

  lemma {:induction false} ComparedAddsNothing(source: FieldMap, target: FieldMap, order: seq<string>)
    requires forall n :: n in order ==> n in source
    ensures forall c :: c in ComparedIn(source, target, order) ==> !c.FieldAdded?
    decreases |order|
  {
    if order != [] {
      ComparedAddsNothing(source, target, order[..|order| - 1]);
    }
  }
}
