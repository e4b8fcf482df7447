/** What comparing and evolving schemas amounts to, for every order a hash map may yield its keys
    in, and over whole runs of schemas. */
module EvolutionFacts {
  import opened Wrappers
  import opened Schemas
  import opened Evolution

  //////////////////////////////////////////////////////////////////////////////
  // Field maps
  //////////////////////////////////////////////////////////////////////////////

  predicate IsLast(fields: seq<Field>, n: string, i: int) {
    0 <= i < |fields| && fields[i].fieldName == n && forall j :: i < j < |fields| ==> fields[j].fieldName != n
  }

  /** The map of a list: the last field of each name. */
  lemma {:induction false} LastFieldWins(fields: seq<Field>, n: string)
    ensures n in MapOf(fields) <==> exists i :: 0 <= i < |fields| && fields[i].fieldName == n
    ensures n in MapOf(fields) ==> exists i :: IsLast(fields, n, i) && MapOf(fields)[n] == fields[i]
    decreases |fields|
  {
    if fields != [] {
      var init := fields[..|fields| - 1];
      LastFieldWins(init, n);
      if fields[|fields| - 1].fieldName == n {
        assert IsLast(fields, n, |fields| - 1);
      } else if n in MapOf(fields) {
        var i :| IsLast(init, n, i) && MapOf(init)[n] == init[i];
        assert IsLast(fields, n, i);
      } else {
        assert forall i :: 0 <= i < |init| ==> fields[i] == init[i];
      }
    }
  }

  predicate Keyed(m: FieldMap) {
    forall n :: n in m ==> m[n].fieldName == n
  }

  lemma MapIsKeyed(fields: seq<Field>)
    ensures Keyed(MapOf(fields))
  {
    forall n | n in MapOf(fields) ensures MapOf(fields)[n].fieldName == n {
      LastFieldWins(fields, n);
    }
  }

  lemma {:induction false} MapOfConcat(a: seq<Field>, b: seq<Field>)
    ensures MapOf(a + b) == MapOf(a) + MapOf(b)
    decreases |b|
  {
    if b == [] {
      assert a + b == a;
    } else {
      assert (a + b)[..|a + b| - 1] == a + b[..|b| - 1];
      MapOfConcat(a, b[..|b| - 1]);
    }
  }

  //////////////////////////////////////////////////////////////////////////////
  // The fields one step adds
  //////////////////////////////////////////////////////////////////////////////

  ghost predicate Distinct<T>(s: seq<T>) {
    forall i, j :: 0 <= i < j < |s| ==> s[i] != s[j]
  }

  /** The added fields are those of the unknown names. */
  lemma {:induction false} AddedMembers(source: FieldMap, target: FieldMap, order: seq<string>)
    requires forall n :: n in order ==> n in target
    ensures forall f ::
      f in AddedIn(source, target, order) <==> exists n :: n in order && n !in source && f == target[n]
    decreases |order|
  {
    if order != [] {
      var init, n := order[..|order| - 1], order[|order| - 1];
      AddedMembers(source, target, init);
      assert order == init + [n];
    }
  }

  /** Each is added once. */
  lemma {:induction false} AddedOnce(source: FieldMap, target: FieldMap, order: seq<string>)
    requires Keyed(target) && Distinct(order) && forall n :: n in order ==> n in target
    ensures Distinct(AddedIn(source, target, order))
    decreases |order|
  {
    if order != [] {
      var init, n := order[..|order| - 1], order[|order| - 1];
      AddedOnce(source, target, init);
      AddedMembers(source, target, init);
      assert n !in init;
      assert target[n] !in AddedIn(source, target, init);
    }
  }

  lemma {:induction false} AddedMap(source: FieldMap, target: FieldMap, order: seq<string>)
    requires Keyed(target) && Distinct(order) && forall n :: n in order ==> n in target
    ensures forall n :: n in MapOf(AddedIn(source, target, order)) <==> n in order && n !in source
    ensures forall n ::
      n in MapOf(AddedIn(source, target, order)) ==> MapOf(AddedIn(source, target, order))[n] == target[n]
    decreases |order|
  {
    if order != [] {
      var init, n := order[..|order| - 1], order[|order| - 1];
      AddedMap(source, target, init);
      var before, added := AddedIn(source, target, init), AddedIn(source, target, order);
      assert forall x :: x in order <==> x in init || x == n;
      assert added == before + if n in source then [] else [target[n]];
      if n !in source {
        assert added[..|added| - 1] == before;
        assert MapOf(added) == MapOf(before)[n := target[n]];
      } else {
        assert added == before;
      }
      hide *;
    }
  }

  /** One step of a lenient policy, in any order: it succeeds, changes nothing but the field
      list, keeps that list as a prefix, adds fields of distinct new names only, and knows every
      field of the source whose name was not known before. */
  lemma EvolvedKnows(policy: Policy, current: Schema, source: Schema,
                     sourceOrder: seq<string>, currentOrder: seq<string>)
    requires !policy.Fail? && Orders(Fields(current), Fields(source), sourceOrder, currentOrder)
    ensures var r := EvolveOf(policy, current, source, sourceOrder, currentOrder);
      && r.Ok? && r.value == current.(fields := r.value.fields)
      && FieldList(r.value) == FieldList(current) + AddedIn(Fields(current), Fields(source), sourceOrder)
      && Distinct(AddedIn(Fields(current), Fields(source), sourceOrder))
      && Fields(r.value) == Fields(source) + Fields(current)
  {
    var known, given := Fields(current), Fields(source);
    var added := AddedIn(known, given, sourceOrder);
    MapIsKeyed(FieldList(source));
    AddedOnce(known, given, sourceOrder);
    AddedMap(known, given, sourceOrder);
    assert |Additions(added)| == |added|;
    assert known + MapOf(added) == given + known;
    MapOfConcat(FieldList(current), added);
    var r := EvolveOf(policy, current, source, sourceOrder, currentOrder);
    assert (r == Ok(current) && added == []) || r == Ok(current.(fields := Some(FieldList(current) + added)));
    hide *;
    assert FieldList(current) + [] == FieldList(current);
  }

  /** Known names are never added again: evolving by a schema all of whose names are known
      changes nothing. */
  lemma KnownChangesNothing(policy: Policy, current: Schema, source: Schema,
                            sourceOrder: seq<string>, currentOrder: seq<string>)
    requires !policy.Fail? && Orders(Fields(current), Fields(source), sourceOrder, currentOrder)
    requires Fields(source).Keys <= Fields(current).Keys
    ensures EvolveOf(policy, current, source, sourceOrder, currentOrder) == Ok(current)
  {
    var added := AddedIn(Fields(current), Fields(source), sourceOrder);
    MapIsKeyed(FieldList(source));
    AddedMembers(Fields(current), Fields(source), sourceOrder);
    EmptyOrMember(added);
    assert FieldList(current) + [] == FieldList(current);
    if current.fields.None? {
      assert Fields(source).Keys == {};
      EmptyOrMember(currentOrder);
    }
  }

  lemma EmptyOrMember<T>(s: seq<T>)
    ensures s == [] || exists x :: x in s
  {
    if s != [] {
      assert s[0] in s;
    }
  }

  //////////////////////////////////////////////////////////////////////////////
  // Runs
  //////////////////////////////////////////////////////////////////////////////

  /** A schema evolved by one input after another, the order chosen anew at each step. */
  ghost predicate IsRun(policy: Policy, states: seq<Schema>, inputs: seq<Schema>) {
    |states| == |inputs| + 1
    && forall i :: 0 < i < |states| ==> EvolvesTo(policy, states[i - 1], inputs[i - 1], Ok(states[i]))
  }

  lemma StepKeeps(policy: Policy, current: Schema, source: Schema, next: Schema)
    requires !policy.Fail? && EvolvesTo(policy, current, source, Ok(next))
    ensures FieldList(current) <= FieldList(next)
    ensures next == current.(fields := next.fields)
    ensures Fields(next) == Fields(source) + Fields(current)
  {
    var sourceOrder, currentOrder :|
      && Orders(Fields(current), Fields(source), sourceOrder, currentOrder)
      && EvolveOf(policy, current, source, sourceOrder, currentOrder) == Ok(next);
    EvolvedKnows(policy, current, source, sourceOrder, currentOrder);
  }

  /** An earlier field list is a prefix of every later one. */
  lemma {:induction false} EarlierIsPrefix(policy: Policy, states: seq<Schema>, inputs: seq<Schema>, i: nat, j: nat)
    requires !policy.Fail? && IsRun(policy, states, inputs) && i <= j < |states|
    ensures FieldList(states[i]) <= FieldList(states[j])
    decreases j
  {
    if i < j {
      EarlierIsPrefix(policy, states, inputs, i, j - 1);
      StepKeeps(policy, states[j - 1], inputs[j - 1], states[j]);
    }
  }

  /** The fields known after a run: an earlier definition of a name overrides a later one. */
  function Known(start: FieldMap, inputs: seq<Schema>): FieldMap {
    if inputs == [] then start
    else Fields(inputs[|inputs| - 1]) + Known(start, inputs[..|inputs| - 1])
  }

  /** After any number of steps the fields known depend on the start and the inputs alone. */
  lemma {:induction false} RunKnows(policy: Policy, states: seq<Schema>, inputs: seq<Schema>, i: nat)
    requires !policy.Fail? && IsRun(policy, states, inputs) && i < |states|
    ensures Fields(states[i]) == Known(Fields(states[0]), inputs[..i])
  {
    if i > 0 {
      RunKnows(policy, states, inputs, i - 1);
      assert inputs[..i][..i - 1] == inputs[..i - 1];
      StepKeeps(policy, states[i - 1], inputs[i - 1], states[i]);
    }
  }

  /** The names known are exactly the union of the names of the start and of all inputs. */
  lemma {:induction false} KnownNames(start: FieldMap, inputs: seq<Schema>, n: string)
    ensures n in Known(start, inputs) <==> n in start || exists i :: 0 <= i < |inputs| && n in Fields(inputs[i])
    decreases |inputs|
  {
    if inputs != [] {
      KnownNames(start, inputs[..|inputs| - 1], n);
    }
  }

  /** A name means what the first schema that had it said, whatever later ones say. */
  lemma {:induction false} FirstDefinitionWins(start: FieldMap, inputs: seq<Schema>, n: string, i: nat)
    requires i < |inputs| && n !in start && n in Fields(inputs[i])
    requires forall j :: 0 <= j < i ==> n !in Fields(inputs[j])
    ensures n in Known(start, inputs) && Known(start, inputs)[n] == Fields(inputs[i])[n]
    decreases |inputs|
  {
    var init := inputs[..|inputs| - 1];
    if i < |init| {
      FirstDefinitionWins(start, init, n, i);
    } else {
      KnownNames(start, init, n);
    }
  }

  /** Evolving by any schema already seen, in any order, changes nothing. */
  lemma SeenChangesNothing(policy: Policy, states: seq<Schema>, inputs: seq<Schema>, i: nat,
                           sourceOrder: seq<string>, currentOrder: seq<string>)
    requires !policy.Fail? && IsRun(policy, states, inputs) && i < |inputs|
    requires Orders(Fields(states[|inputs|]), Fields(inputs[i]), sourceOrder, currentOrder)
    ensures EvolveOf(policy, states[|inputs|], inputs[i], sourceOrder, currentOrder) == Ok(states[|inputs|])
  {
    var last := states[|inputs|];
    RunKnows(policy, states, inputs, |inputs|);
    assert inputs[..|inputs|] == inputs;
    forall n | n in Fields(inputs[i]) ensures n in Fields(last) {
      KnownNames(Fields(states[0]), inputs, n);
    }
    KnownChangesNothing(policy, last, inputs[i], sourceOrder, currentOrder);
  }

  lemma {:induction false} DistinctCount<T>(s: seq<T>, x: T)
    requires Distinct(s)
    ensures multiset(s)[x] == if x in s then 1 else 0
  {
    if s != [] {
      var init := s[..|s| - 1];
      assert s == init + [s[|s| - 1]];
      DistinctCount(init, x);
    }
  }

  lemma SameMembers<T>(a: seq<T>, b: seq<T>)
    requires Distinct(a) && Distinct(b) && forall x :: x in a <==> x in b
    ensures multiset(a) == multiset(b)
  {
    forall x ensures multiset(a)[x] == multiset(b)[x] {
      DistinctCount(a, x);
      DistinctCount(b, x);
    }
  }

  /** Two runs over the same schemas know the same fields by name, and their field lists are
      permutations of each other. */
  lemma {:induction false} RunsAgree(policy: Policy, a: seq<Schema>, b: seq<Schema>, inputs: seq<Schema>, i: nat)
    requires !policy.Fail? && IsRun(policy, a, inputs) && IsRun(policy, b, inputs)
    requires a[0] == b[0] && i < |a|
    ensures Fields(a[i]) == Fields(b[i])
    ensures multiset(FieldList(a[i])) == multiset(FieldList(b[i]))
  {
    if i > 0 {
      RunsAgree(policy, a, b, inputs, i - 1);
      assert EvolvesTo(policy, a[i - 1], inputs[i - 1], Ok(a[i]));
      assert EvolvesTo(policy, b[i - 1], inputs[i - 1], Ok(b[i]));
      hide *;
      StepsAgree(policy, a[i - 1], b[i - 1], inputs[i - 1], a[i], b[i]);
    }
  }

  lemma StepsAgree(policy: Policy, a: Schema, b: Schema, source: Schema, a': Schema, b': Schema)
    requires !policy.Fail? && EvolvesTo(policy, a, source, Ok(a')) && EvolvesTo(policy, b, source, Ok(b'))
    requires Fields(a) == Fields(b) && multiset(FieldList(a)) == multiset(FieldList(b))
    ensures Fields(a') == Fields(b') && multiset(FieldList(a')) == multiset(FieldList(b'))
  {
    hide *;
    StepKeeps(policy, a, source, a');
    StepKeeps(policy, b, source, b');
    var added := StepAdds(policy, a, source, a');
    var added' := StepAdds(policy, b, source, b');
    SameMembers(added, added');
  }

  ghost predicate IsNew(known: FieldMap, given: FieldMap, f: Field) {
    exists n :: n in given && n !in known && f == given[n]
  }

  lemma StepAdds(policy: Policy, current: Schema, source: Schema, next: Schema) returns (added: seq<Field>)
    requires !policy.Fail? && EvolvesTo(policy, current, source, Ok(next))
    ensures FieldList(next) == FieldList(current) + added && Distinct(added)
    ensures forall f :: f in added <==> IsNew(Fields(current), Fields(source), f)
  {
    var sourceOrder, currentOrder :|
      && Orders(Fields(current), Fields(source), sourceOrder, currentOrder)
      && EvolveOf(policy, current, source, sourceOrder, currentOrder) == Ok(next);
    EvolvedKnows(policy, current, source, sourceOrder, currentOrder);
    added := AddedIn(Fields(current), Fields(source), sourceOrder);
    AddedMembers(Fields(current), Fields(source), sourceOrder);
  }

  //////////////////////////////////////////////////////////////////////////////
  // What a comparison reports
  //////////////////////////////////////////////////////////////////////////////

  ghost predicate Expected(source: FieldMap, target: FieldMap, c: SchemaChange) {
    match c
    case FieldAdded(f) => exists n :: n in target && n !in source && f == target[n]
    case FieldRemoved(f) => exists n :: n in source && n !in target && f == source[n]
    case FieldTypeChanged(n, o, t) =>
      n in source && n in target && o == ResolveType(source[n]) && t == ResolveType(target[n]) && o != t
    case FieldNullabilityChanged(n, was, now) =>
      && n in source && n in target && source[n].optional != target[n].optional
      && was == (source[n].optional == Some(true)) && now == (target[n].optional == Some(true))
  }

  predicate ReportedAt(source: FieldMap, target: FieldMap, n: string, c: SchemaChange)
    requires n in source
  {
    if n in target then c in Compared(source[n], target[n], n) else c == FieldRemoved(source[n])
  }

  lemma {:induction false} ComparedMembers(source: FieldMap, target: FieldMap, order: seq<string>, c: SchemaChange)
    requires forall n :: n in order ==> n in source
    ensures c in ComparedIn(source, target, order) <==> exists n :: n in order && ReportedAt(source, target, n, c)
    decreases |order|
  {
    if order != [] {
      var init, n := order[..|order| - 1], order[|order| - 1];
      ComparedMembers(source, target, init, c);
      assert forall m :: m in order <==> m in init || m == n;
      var before := ComparedIn(source, target, init);
      var here := if n in target then Compared(source[n], target[n], n) else [FieldRemoved(source[n])];
      assert ComparedIn(source, target, order) == before + here;
      assert c in here <==> ReportedAt(source, target, n, c);
      hide ComparedIn, Compared, ReportedAt;
    }
  }

  /** In any order, the comparison reports exactly the differences between the two field maps. */
  lemma DiffReportsDifferences(source: FieldMap, target: FieldMap, targetOrder: seq<string>, sourceOrder: seq<string>,
                               c: SchemaChange)
    requires Orders(source, target, targetOrder, sourceOrder)
    ensures c in DiffOf(source, target, targetOrder, sourceOrder).changes <==> Expected(source, target, c)
  {
    var added, compared := AddedIn(source, target, targetOrder), ComparedIn(source, target, sourceOrder);
    AddedMembers(source, target, targetOrder);
    ComparedMembers(source, target, sourceOrder, c);
    assert c in Additions(added) <==> c.FieldAdded? && c.field in added by {
      if c.FieldAdded? && c.field in added {
        var i :| 0 <= i < |added| && added[i] == c.field;
        assert Additions(added)[i] == c;
      }
    }
  }

  /** A change that breaks readers whatever else changes: a field is gone or has another type. */
  predicate BreaksAlways(c: SchemaChange) { c.FieldRemoved? || c.FieldTypeChanged? }

  /** A field declared as required may now be absent. */
  predicate Relaxed(source: FieldMap, target: FieldMap, n: string) {
    n in source && n in target && source[n].optional == Some(false) && target[n].optional == Some(true)
  }

  /** In any order, a comparison is breaking exactly when it reports a field removed or of another
      type, or a field goes from required to optional in so many words. */
  lemma BreakingIff(source: FieldMap, target: FieldMap, targetOrder: seq<string>, sourceOrder: seq<string>)
    requires Orders(source, target, targetOrder, sourceOrder)
    ensures var diff := DiffOf(source, target, targetOrder, sourceOrder);
      diff.isBreaking <==> (exists c :: c in diff.changes && BreaksAlways(c)) || exists n :: Relaxed(source, target, n)
  {
    var diff := DiffOf(source, target, targetOrder, sourceOrder);
    forall c ensures c in diff.changes <==> Expected(source, target, c) {
      DiffReportsDifferences(source, target, targetOrder, sourceOrder, c);
    }
    if diff.isBreaking {
      var n :| n in source && Breaks(source, target, n);
      if n !in target {
        assert Expected(source, target, FieldRemoved(source[n]));
      } else if ResolveType(source[n]) != ResolveType(target[n]) {
        assert Expected(source, target, FieldTypeChanged(n, ResolveType(source[n]), ResolveType(target[n])));
      } else {
        assert Relaxed(source, target, n);
      }
    }
    if c :| c in diff.changes && BreaksAlways(c) {
      assert Expected(source, target, c);
    }
  }

  function NameOf(c: SchemaChange): string {
    match c
    case FieldAdded(f) => f.fieldName
    case FieldRemoved(f) => f.fieldName
    case FieldTypeChanged(n, _, _) => n
    case FieldNullabilityChanged(n, _, _) => n
  }

  lemma DistinctConcat<T>(a: seq<T>, b: seq<T>)
    requires Distinct(a) && Distinct(b) && forall x :: x in a ==> x !in b
    ensures Distinct(a + b)
  {
    forall i, j | 0 <= i < j < |a + b| ensures (a + b)[i] != (a + b)[j] {
      if i < |a| <= j {
        assert a[i] in a && b[j - |a|] in b;
      }
    }
  }

  lemma ComparedNames(source: FieldMap, target: FieldMap, order: seq<string>, c: SchemaChange)
    requires Keyed(source) && forall n :: n in order ==> n in source
    requires c in ComparedIn(source, target, order)
    ensures NameOf(c) in order
  {
    ComparedMembers(source, target, order, c);
  }

  lemma {:induction false} ComparedOnce(source: FieldMap, target: FieldMap, order: seq<string>)
    requires Keyed(source) && Distinct(order) && forall n :: n in order ==> n in source
    ensures Distinct(ComparedIn(source, target, order))
    decreases |order|
  {
    if order != [] {
      var init, n := order[..|order| - 1], order[|order| - 1];
      ComparedOnce(source, target, init);
      var before := ComparedIn(source, target, init);
      var here := if n in target then Compared(source[n], target[n], n) else [FieldRemoved(source[n])];
      assert Distinct(here) && forall c :: c in here ==> NameOf(c) == n;
      assert ComparedIn(source, target, order) == before + here;
      assert n !in init;
      hide ComparedIn, Compared, Distinct, NameOf;
      forall c | c in before ensures NameOf(c) != n {
        ComparedNames(source, target, init, c);
      }
      DistinctConcat(before, here);
    }
  }

  /** It reports each difference once. */
  lemma DiffReportsOnce(source: FieldMap, target: FieldMap, targetOrder: seq<string>, sourceOrder: seq<string>)
    requires Keyed(source) && Keyed(target) && Orders(source, target, targetOrder, sourceOrder)
    ensures Distinct(DiffOf(source, target, targetOrder, sourceOrder).changes)
  {
    var added, compared := AddedIn(source, target, targetOrder), ComparedIn(source, target, sourceOrder);
    AddedOnce(source, target, targetOrder);
    ComparedOnce(source, target, sourceOrder);
    ComparedAddsNothing(source, target, sourceOrder);
    assert Distinct(Additions(added)) && forall c :: c in Additions(added) ==> c.FieldAdded?;
    DistinctConcat(Additions(added), compared);
  }

  /** The two maps have the same names, and each name the same resolved type and the same
      `optional` entry. */
  predicate Agree(source: FieldMap, target: FieldMap) {
    source.Keys == target.Keys
    && forall n :: n in source && n in target ==>
         ResolveType(source[n]) == ResolveType(target[n]) && source[n].optional == target[n].optional
  }

  /** In any order, nothing is reported exactly when the two maps agree. */
  lemma NoChangeIffAgree(source: FieldMap, target: FieldMap, targetOrder: seq<string>, sourceOrder: seq<string>)
    requires Orders(source, target, targetOrder, sourceOrder)
    ensures DiffOf(source, target, targetOrder, sourceOrder).changes == [] <==> Agree(source, target)
  {
    var changes := DiffOf(source, target, targetOrder, sourceOrder).changes;
    if Agree(source, target) {
      forall c ensures c !in changes {
        DiffReportsDifferences(source, target, targetOrder, sourceOrder, c);
      }
      EmptyOrMember(changes);
    } else if n :| n in target && n !in source {
      DiffReportsDifferences(source, target, targetOrder, sourceOrder, FieldAdded(target[n]));
    } else if n :| n in source && n !in target {
      DiffReportsDifferences(source, target, targetOrder, sourceOrder, FieldRemoved(source[n]));
    } else {
      var n :| n in source && n in target
        && !(ResolveType(source[n]) == ResolveType(target[n]) && source[n].optional == target[n].optional);
      DiffReportsDifferences(source, target, targetOrder, sourceOrder,
        FieldTypeChanged(n, ResolveType(source[n]), ResolveType(target[n])));
      DiffReportsDifferences(source, target, targetOrder, sourceOrder,
        FieldNullabilityChanged(n, source[n].optional == Some(true), target[n].optional == Some(true)));
    }
  }

  /** Under the strict policy, in any order, a schema is accepted exactly when the two agree, and
      then nothing changes; otherwise the changes are returned. */
  lemma FailAcceptsIffAgree(current: Schema, source: Schema, sourceOrder: seq<string>, currentOrder: seq<string>)
    requires Orders(Fields(current), Fields(source), sourceOrder, currentOrder)
    ensures EvolveOf(Policy.Fail, current, source, sourceOrder, currentOrder) ==
      if Agree(Fields(current), Fields(source)) then Ok(current)
      else Err(DiffOf(Fields(current), Fields(source), sourceOrder, currentOrder).changes)
  {
    NoChangeIffAgree(Fields(current), Fields(source), sourceOrder, currentOrder);
  }

  /** A nullability change that reports no difference comes exactly from an absent entry set
      against an explicit false; it breaks nothing, and still the strict policy refuses it. */
  lemma SilentNullabilityChange(source: FieldMap, target: FieldMap, targetOrder: seq<string>, sourceOrder: seq<string>,
                                n: string, b: bool)
    requires Orders(source, target, targetOrder, sourceOrder)
    ensures FieldNullabilityChanged(n, b, b) in DiffOf(source, target, targetOrder, sourceOrder).changes <==>
      && n in source && n in target && !b
      && ((source[n].optional == None && target[n].optional == Some(false))
          || (source[n].optional == Some(false) && target[n].optional == None))
  {
    DiffReportsDifferences(source, target, targetOrder, sourceOrder, FieldNullabilityChanged(n, b, b));
    if n in source && n in target {
      OptionalCases(source[n].optional);
      OptionalCases(target[n].optional);
    }
  }

  lemma OptionalCases(o: Option<bool>)
    ensures o == None || o == Some(true) || o == Some(false)
  {
    if o.Some? && o.value {
      assert o == Some(true);
    }
  }
}
