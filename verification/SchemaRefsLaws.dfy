/** What resolving a schema's references achieves: no reference is left, nothing else changes, and walking the
    resolved schema is walking the original one while following references on the way. */
module SchemaRefLaws {
  import opened Wrappers
  import opened SchemaRefs

  /** No reference at any position a walk over `j` visits. */
  ghost predicate RefFree(j: Json) {
    j.Object? ==> Find(j.fields, REF) == None && forall f :: f in j.fields ==> FieldRefFree(f)
  }

  ghost predicate FieldRefFree(f: Field) {
    match f.value
    case Object(fields) =>
      if f.key == "properties" then forall p :: p in fields ==> RefFree(p.value) else RefFree(f.value)
    case Array(items) => forall item :: item in items ==> RefFree(item)
    case _ => true
  }

  lemma {:induction false} RefFreeIsBelow(j: Json, rank: string -> nat, n: nat)
    requires RefFree(j)
    ensures RefsBelow(j, rank, n)
    decreases j, 1
  {
    if j.Object? {
      forall f | f in j.fields
        ensures FieldBelow(f, rank, n)
      {
        RefFreeFieldIsBelow(f, rank, n);
      }
    }
  }

  lemma {:induction false} RefFreeFieldIsBelow(f: Field, rank: string -> nat, n: nat)
    requires FieldRefFree(f)
    ensures FieldBelow(f, rank, n)
    decreases f, 0
  {
    match f.value
    case Object(fields) =>
      if f.key == "properties" {
        forall p | p in fields
          ensures RefsBelow(p.value, rank, n)
        {
          RefFreeIsBelow(p.value, rank, n);
        }
      } else {
        RefFreeIsBelow(f.value, rank, n);
      }
    case Array(items) =>
      forall item | item in items
        ensures RefsBelow(item, rank, n)
      {
        RefFreeIsBelow(item, rank, n);
      }
    case _ =>
  }

  // ---- lists are resolved element by element ----

  lemma {:induction false} FieldsPointwise(fields: seq<Field>, components: Json, rank: string -> nat, n: nat)
    requires Ranked(components, rank) && forall f :: f in fields ==> FieldBelow(f, rank, n)
    ensures var r := ResolveFields(fields, components, rank, n);
            && (r.Some? ==> |r.value| == |fields|)
            && (r.Some? <==> forall i :: 0 <= i < |fields| ==> ResolveField(fields[i], components, rank, n).Some?)
            && (r.Some? ==> forall i :: 0 <= i < |fields| ==>
                  ResolveField(fields[i], components, rank, n) == Some(r.value[i]))
  {
    if fields != [] {
      FieldsPointwise(fields[..|fields| - 1], components, rank, n);
    }
  }

  lemma {:induction false} PropertiesPointwise(fields: seq<Field>, components: Json, rank: string -> nat, n: nat)
    requires Ranked(components, rank) && forall f :: f in fields ==> RefsBelow(f.value, rank, n)
    ensures var r := ResolveValues(fields, components, rank, n);
            && (r.Some? ==> |r.value| == |fields|)
            && (r.Some? <==> forall i :: 0 <= i < |fields| ==> ResolveProperty(fields[i], components, rank, n).Some?)
            && (r.Some? ==> forall i :: 0 <= i < |fields| ==>
                  ResolveProperty(fields[i], components, rank, n) == Some(r.value[i]))
  {
    if forall i :: 0 <= i < |fields| ==> ResolveProperty(fields[i], components, rank, n).Some? {
      AllPropertiesResolve(fields, components, rank, n);
    }
    if ResolveValues(fields, components, rank, n).Some? {
      EachPropertyResolved(fields, components, rank, n);
    }
  }

  lemma {:induction false} AllPropertiesResolve(fields: seq<Field>, components: Json, rank: string -> nat, n: nat)
    requires Ranked(components, rank) && forall f :: f in fields ==> RefsBelow(f.value, rank, n)
    requires forall i :: 0 <= i < |fields| ==> ResolveProperty(fields[i], components, rank, n).Some?
    ensures ResolveValues(fields, components, rank, n).Some?
  {
    if fields != [] {
      AllPropertiesResolve(fields[..|fields| - 1], components, rank, n);
    }
  }

  lemma {:induction false} EachPropertyResolved(fields: seq<Field>, components: Json, rank: string -> nat, n: nat)
    requires Ranked(components, rank) && forall f :: f in fields ==> RefsBelow(f.value, rank, n)
    requires ResolveValues(fields, components, rank, n).Some?
    ensures var r := ResolveValues(fields, components, rank, n).value;
            && |r| == |fields|
            && forall i :: 0 <= i < |fields| ==> ResolveProperty(fields[i], components, rank, n) == Some(r[i])
  {
    if fields != [] {
      EachPropertyResolved(fields[..|fields| - 1], components, rank, n);
    }
  }

  lemma ValuesPointwise(fields: seq<Field>, components: Json, rank: string -> nat, n: nat)
    requires Ranked(components, rank) && forall f :: f in fields ==> RefsBelow(f.value, rank, n)
    ensures var r := ResolveValues(fields, components, rank, n);
            && (r.Some? ==> |r.value| == |fields|)
            && (r.Some? <==> forall i :: 0 <= i < |fields| ==> Resolve(fields[i].value, components, rank, n).Some?)
            && (r.Some? ==> forall i :: 0 <= i < |fields| ==> r.value[i].key == fields[i].key)
            && (r.Some? ==> forall i :: 0 <= i < |fields| ==>
                  Resolve(fields[i].value, components, rank, n) == Some(r.value[i].value))
  {
    PropertiesPointwise(fields, components, rank, n);
    forall i | 0 <= i < |fields|
      ensures ResolveProperty(fields[i], components, rank, n).Some?
           == Resolve(fields[i].value, components, rank, n).Some?
    {
    }
  }

  lemma {:induction false} ItemsPointwise(items: seq<Json>, components: Json, rank: string -> nat, n: nat)
    requires Ranked(components, rank) && forall item :: item in items ==> RefsBelow(item, rank, n)
    ensures var r := ResolveItems(items, components, rank, n);
            && (r.Some? ==> |r.value| == |items|)
            && (r.Some? <==> forall i :: 0 <= i < |items| ==> Resolve(items[i], components, rank, n).Some?)
            && (r.Some? ==> forall i :: 0 <= i < |items| ==> Resolve(items[i], components, rank, n) == Some(r.value[i]))
  {
    if items != [] {
      ItemsPointwise(items[..|items| - 1], components, rank, n);
    }
  }

  lemma {:induction false} FindSameKeys(fields: seq<Field>, others: seq<Field>, key: string)
    requires |fields| == |others| && forall i :: 0 <= i < |fields| ==> fields[i].key == others[i].key
    ensures Find(fields, key).Some? == Find(others, key).Some?
    ensures Find(fields, key).Some? ==>
      exists i :: 0 <= i < |fields| && fields[i].key == key
                  && Find(fields, key) == Some(fields[i].value) && Find(others, key) == Some(others[i].value)
  {
    if fields != [] {
      FindSameKeys(fields[1..], others[1..], key);
      if fields[0].key != key && Find(fields, key).Some? {
        var i :| 0 <= i < |fields[1..]| && fields[1..][i].key == key
                 && Find(fields[1..], key) == Some(fields[1..][i].value)
                 && Find(others[1..], key) == Some(others[1..][i].value);
        assert fields[i + 1].key == key && Find(fields, key) == Some(fields[i + 1].value);
      }
    }
  }

  // ---- no reference is left ----

  lemma {:induction false} ResolvedIsRefFree(j: Json, components: Json, rank: string -> nat, n: nat)
    requires Ranked(components, rank) && RefsBelow(j, rank, n)
    ensures var r := Resolve(j, components, rank, n);
            r.Some? ==> RefFree(r.value) && (r.value.Object? <==> j.Object?)
    decreases n, j, 1
  {
    if j.Object? {
      match Find(j.fields, REF)
      case Some(Text(path)) =>
        var target := ResolveRef(path, components);
        if target.Some? && target.value.fields != [] {
          ResolvedIsRefFree(target.value, components, rank, rank(path));
        } else {
          UnresolvedIsRefFree(path);
        }
      case Some(_) =>
      case None =>
        ResolvedFieldsAreRefFree(j.fields, components, rank, n);
    }
  }

  lemma UnresolvedIsRefFree(path: string)
    ensures RefFree(Unresolved(path))
  {
    var fields := Unresolved(path).fields;
    assert Find(fields[1..][1..], REF) == None;
    assert fields[1..][0].key == "description" && Find(fields[1..], REF) == None;
    assert fields[0].key == "type";
  }

  lemma {:induction false} ResolvedFieldsAreRefFree(fields: seq<Field>, components: Json, rank: string -> nat, n: nat)
    requires Ranked(components, rank) && (forall f :: f in fields ==> FieldBelow(f, rank, n))
    requires Find(fields, REF) == None
    ensures var r := ResolveFields(fields, components, rank, n); r.Some? ==> RefFree(Object(r.value))
    decreases n, fields, 0
  {
    FieldsPointwise(fields, components, rank, n);
    var r := ResolveFields(fields, components, rank, n);
    if r.Some? {
      forall i | 0 <= i < |fields|
        ensures FieldRefFree(r.value[i]) && r.value[i].key == fields[i].key
      {
        ResolvedFieldIsRefFree(fields[i], components, rank, n);
      }
      FindSameKeys(fields, r.value, REF);
    }
  }

  lemma {:induction false} ResolvedFieldIsRefFree(f: Field, components: Json, rank: string -> nat, n: nat)
    requires Ranked(components, rank) && FieldBelow(f, rank, n)
    ensures var r := ResolveField(f, components, rank, n); r.Some? ==> FieldRefFree(r.value) && r.value.key == f.key
    decreases n, f, 0
  {
    match f.value
    case Object(fields) =>
      if f.key == "properties" {
        ValuesPointwise(fields, components, rank, n);
        forall i | 0 <= i < |fields|
          ensures var r := Resolve(fields[i].value, components, rank, n); r.Some? ==> RefFree(r.value)
        {
          ResolvedIsRefFree(fields[i].value, components, rank, n);
        }
      } else {
        ResolvedIsRefFree(f.value, components, rank, n);
      }
    case Array(items) =>
      ItemsPointwise(items, components, rank, n);
      forall i | 0 <= i < |items|
        ensures var r := Resolve(items[i], components, rank, n); r.Some? ==> RefFree(r.value)
      {
        ResolvedIsRefFree(items[i], components, rank, n);
      }
    case _ =>
  }

  // ---- a schema without references stays as it is ----

  lemma {:induction false} RefFreeIsUnchanged(j: Json, components: Json, rank: string -> nat, n: nat)
    requires Ranked(components, rank) && RefsBelow(j, rank, n) && RefFree(j)
    ensures Resolve(j, components, rank, n) == Some(j)
    decreases j, 1
  {
    if j.Object? {
      forall i | 0 <= i < |j.fields|
        ensures ResolveField(j.fields[i], components, rank, n) == Some(j.fields[i])
      {
        RefFreeFieldIsUnchanged(j.fields[i], components, rank, n);
      }
      FieldsPointwise(j.fields, components, rank, n);
      assert ResolveFields(j.fields, components, rank, n).value == j.fields;
    }
  }

  lemma {:induction false} RefFreeFieldIsUnchanged(f: Field, components: Json, rank: string -> nat, n: nat)
    requires Ranked(components, rank) && FieldBelow(f, rank, n) && FieldRefFree(f)
    ensures ResolveField(f, components, rank, n) == Some(f)
    decreases f, 0
  {
    match f.value
    case Object(fields) =>
      if f.key == "properties" {
        forall i | 0 <= i < |fields|
          ensures Resolve(fields[i].value, components, rank, n) == Some(fields[i].value)
        {
          RefFreeIsUnchanged(fields[i].value, components, rank, n);
        }
        ValuesPointwise(fields, components, rank, n);
        assert ResolveValues(fields, components, rank, n).value == fields;
      } else {
        RefFreeIsUnchanged(f.value, components, rank, n);
      }
    case Array(items) =>
      forall i | 0 <= i < |items|
        ensures Resolve(items[i], components, rank, n) == Some(items[i])
      {
        RefFreeIsUnchanged(items[i], components, rank, n);
      }
      ItemsPointwise(items, components, rank, n);
      assert ResolveItems(items, components, rank, n).value == items;
    case _ =>
  }

  /** Resolving twice is resolving once. */
  lemma ResolveIdempotent(j: Json, components: Json, rank: string -> nat, n: nat, m: nat)
    requires Ranked(components, rank) && RefsBelow(j, rank, n) && Resolve(j, components, rank, n).Some?
    ensures var r := Resolve(j, components, rank, n).value;
            RefFree(r) && RefsBelow(r, rank, m) && Resolve(r, components, rank, m) == Some(r)
  {
    var r := Resolve(j, components, rank, n).value;
    ResolvedIsRefFree(j, components, rank, n);
    RefFreeIsBelow(r, rank, m);
    RefFreeIsUnchanged(r, components, rank, m);
  }

  // ---- the ranking only shows termination ----

  lemma {:induction false} RankIrrelevant(j: Json, components: Json, rank: string -> nat, n: nat,
                                          rank': string -> nat, n': nat)
    requires Ranked(components, rank) && RefsBelow(j, rank, n)
    requires Ranked(components, rank') && RefsBelow(j, rank', n')
    ensures Resolve(j, components, rank, n) == Resolve(j, components, rank', n')
    decreases n, j, 1
  {
    if j.Object? {
      match Find(j.fields, REF)
      case Some(Text(path)) =>
        var target := ResolveRef(path, components);
        if target.Some? && target.value.fields != [] {
          RankIrrelevant(target.value, components, rank, rank(path), rank', rank'(path));
        }
      case Some(_) =>
      case None =>
        forall i | 0 <= i < |j.fields|
          ensures ResolveField(j.fields[i], components, rank, n) == ResolveField(j.fields[i], components, rank', n')
        {
          FieldRankIrrelevant(j.fields[i], components, rank, n, rank', n');
        }
        FieldsPointwise(j.fields, components, rank, n);
        FieldsPointwise(j.fields, components, rank', n');
        SameOption(ResolveFields(j.fields, components, rank, n), ResolveFields(j.fields, components, rank', n'));
    }
  }

  lemma SameOption<T>(a: Option<seq<T>>, b: Option<seq<T>>)
    requires a.Some? <==> b.Some?
    requires a.Some? ==> |a.value| == |b.value| && forall i :: 0 <= i < |a.value| ==> a.value[i] == b.value[i]
    ensures a == b
  {
    if a.Some? {
      assert a.value == b.value;
    }
  }

  lemma {:induction false} FieldRankIrrelevant(f: Field, components: Json, rank: string -> nat, n: nat,
                                               rank': string -> nat, n': nat)
    requires Ranked(components, rank) && FieldBelow(f, rank, n)
    requires Ranked(components, rank') && FieldBelow(f, rank', n')
    ensures ResolveField(f, components, rank, n) == ResolveField(f, components, rank', n')
    decreases n, f, 0
  {
    match f.value
    case Object(fields) =>
      if f.key == "properties" {
        forall i | 0 <= i < |fields|
          ensures Resolve(fields[i].value, components, rank, n) == Resolve(fields[i].value, components, rank', n')
        {
          RankIrrelevant(fields[i].value, components, rank, n, rank', n');
        }
        ValuesPointwise(fields, components, rank, n);
        ValuesPointwise(fields, components, rank', n');
        SameOption(ResolveValues(fields, components, rank, n), ResolveValues(fields, components, rank', n'));
      } else {
        RankIrrelevant(f.value, components, rank, n, rank', n');
      }
    case Array(items) =>
      forall i | 0 <= i < |items|
        ensures Resolve(items[i], components, rank, n) == Resolve(items[i], components, rank', n')
      {
        RankIrrelevant(items[i], components, rank, n, rank', n');
      }
      ItemsPointwise(items, components, rank, n);
      ItemsPointwise(items, components, rank', n');
      SameOption(ResolveItems(items, components, rank, n), ResolveItems(items, components, rank', n'));
    case _ =>
  }

  // ---- walking with and without resolving first ----

  datatype Step = Key(key: string) | Property(name: string) | Item(key: string, index: nat)

  function StepKey(step: Step): string {
    match step
    case Key(key) => key
    case Property(_) => "properties"
    case Item(key, _) => key
  }

  /** The schema or plain value a step into one field finds. */
  function FieldChild(f: Field, step: Step): Option<Json> {
    match step
    case Key(_) => if f.value.Array? || (f.value.Object? && f.key == "properties") then None else Some(f.value)
    case Property(name) => if f.value.Object? then Find(f.value.fields, name) else None
    case Item(_, index) => if f.value.Array? && index < |f.value.items| then Some(f.value.items[index]) else None
  }

  function Child(j: Json, step: Step): Option<Json> {
    if !j.Object? then None
    else
      match Find(j.fields, StepKey(step))
      case None => None
      case Some(value) => FieldChild(Field(StepKey(step), value), step)
  }

  function At(j: Json, steps: seq<Step>): Option<Json>
    decreases steps
  {
    if steps == [] then Some(j)
    else
      match Child(j, steps[0])
      case None => None
      case Some(child) => At(child, steps[1..])
  }

  predicate IsRef(j: Json) {
    j.Object? && Find(j.fields, REF).Some?
  }

  /** Follow references until there is none at the top. */
  function Head(j: Json, components: Json, ghost rank: string -> nat, ghost n: nat): Json
    requires Ranked(components, rank) && RefsBelow(j, rank, n)
    decreases n
  {
    if !j.Object? then j
    else
      match Find(j.fields, REF)
      case Some(Text(path)) =>
        var target := ResolveRef(path, components);
        if target.Some? && target.value.fields != [] then Head(target.value, components, rank, rank(path))
        else Unresolved(path)
      case _ => j
  }

  lemma {:induction false} RefsBelowMore(j: Json, rank: string -> nat, n: nat, m: nat)
    requires RefsBelow(j, rank, n) && n <= m
    ensures RefsBelow(j, rank, m)
    decreases j, 1
  {
    if j.Object? && Find(j.fields, REF).None? {
      forall f | f in j.fields
        ensures FieldBelow(f, rank, m)
      {
        FieldBelowMore(f, rank, n, m);
      }
    }
  }

  lemma {:induction false} FieldBelowMore(f: Field, rank: string -> nat, n: nat, m: nat)
    requires FieldBelow(f, rank, n) && n <= m
    ensures FieldBelow(f, rank, m)
    decreases f, 0
  {
    match f.value
    case Object(fields) =>
      if f.key == "properties" {
        forall p | p in fields
          ensures RefsBelow(p.value, rank, m)
        {
          RefsBelowMore(p.value, rank, n, m);
        }
      } else {
        RefsBelowMore(f.value, rank, n, m);
      }
    case Array(items) =>
      forall item | item in items
        ensures RefsBelow(item, rank, m)
      {
        RefsBelowMore(item, rank, n, m);
      }
    case _ =>
  }

  lemma {:induction false} HeadResolvesAlike(j: Json, components: Json, rank: string -> nat, n: nat)
    requires Ranked(components, rank) && RefsBelow(j, rank, n)
    ensures var head := Head(j, components, rank, n);
            && RefsBelow(head, rank, n)
            && Resolve(head, components, rank, n) == Resolve(j, components, rank, n)
            && (Resolve(j, components, rank, n).Some? ==> !IsRef(head))
    decreases n
  {
    if j.Object? {
      match Find(j.fields, REF)
      case Some(Text(path)) =>
        var target := ResolveRef(path, components);
        if target.Some? && target.value.fields != [] {
          HeadResolvesAlike(target.value, components, rank, rank(path));
          var head := Head(target.value, components, rank, rank(path));
          RefsBelowMore(head, rank, rank(path), n);
          RankIrrelevant(head, components, rank, rank(path), rank, n);
        } else {
          UnresolvedIsRefFree(path);
          RefFreeIsBelow(Unresolved(path), rank, n);
          RefFreeIsUnchanged(Unresolved(path), components, rank, n);
        }
      case _ =>
    }
  }

  lemma FindIsField(fields: seq<Field>, key: string)
    requires Find(fields, key).Some?
    ensures Field(key, Find(fields, key).value) in fields
  {
    FindSameKeys(fields, fields, key);
  }

  lemma ResolvedFieldChild(f: Field, r: Field, step: Step, components: Json, rank: string -> nat, n: nat)
    requires Ranked(components, rank) && FieldBelow(f, rank, n)
    requires ResolveField(f, components, rank, n) == Some(r)
    requires StepKey(step) == f.key
    ensures FieldChild(f, step).Some? <==> FieldChild(r, step).Some?
    ensures FieldChild(f, step).Some? ==>
              && RefsBelow(FieldChild(f, step).value, rank, n)
              && Resolve(FieldChild(f, step).value, components, rank, n) == FieldChild(r, step)
  {
    match f.value
    case Object(fields) =>
      if f.key == "properties" {
        ValuesPointwise(fields, components, rank, n);
        if step.Property? {
          FindSameKeys(fields, r.value.fields, step.name);
        }
      } else {
        ResolvedIsRefFree(f.value, components, rank, n);
      }
    case Array(items) => ItemsPointwise(items, components, rank, n);
    case _ =>
  }

  lemma ChildBelow(j: Json, step: Step, rank: string -> nat, n: nat)
    requires RefsBelow(j, rank, n) && !IsRef(j) && Child(j, step).Some?
    ensures RefsBelow(Child(j, step).value, rank, n)
  {
    var key := StepKey(step);
    FindIsField(j.fields, key);
    assert FieldBelow(Field(key, Find(j.fields, key).value), rank, n);
    if step.Property? {
      FindIsField(Find(j.fields, key).value.fields, step.name);
    }
  }

  /** Follow references on the way instead of resolving them first. */
  function LazyAt(j: Json, steps: seq<Step>, components: Json, ghost rank: string -> nat, ghost n: nat): Option<Json>
    requires Ranked(components, rank) && RefsBelow(j, rank, n) && Resolve(j, components, rank, n).Some?
    decreases steps
  {
    if steps == [] then Some(j)
    else
      HeadResolvesAlike(j, components, rank, n);
      var head := Head(j, components, rank, n);
      match Child(head, steps[0])
      case None => None
      case Some(child) =>
        ChildBelow(head, steps[0], rank, n);
        ResolvedChild(head, steps[0], components, rank, n);
        LazyAt(child, steps[1..], components, rank, n)
  }

  /** One step into a resolved schema. */
  lemma ResolvedChild(j: Json, step: Step, components: Json, rank: string -> nat, n: nat)
    requires Ranked(components, rank) && RefsBelow(j, rank, n) && !IsRef(j)
    requires Resolve(j, components, rank, n).Some?
    ensures var r := Resolve(j, components, rank, n).value;
            && (Child(j, step).Some? <==> Child(r, step).Some?)
            && (Child(j, step).Some? ==>
                  && RefsBelow(Child(j, step).value, rank, n)
                  && Resolve(Child(j, step).value, components, rank, n) == Child(r, step))
  {
    if j.Object? {
      var key, r := StepKey(step), ResolveFields(j.fields, components, rank, n).value;
      var i := ResolvedFind(j.fields, r, key, components, rank, n);
      if Find(j.fields, key).Some? {
        ResolvedFieldChild(j.fields[i], r[i], step, components, rank, n);
        assert j.fields[i] == Field(key, j.fields[i].value) && r[i] == Field(key, r[i].value);
      }
    }
  }

  lemma ResolvedFind(fields: seq<Field>, r: seq<Field>, key: string, components: Json, rank: string -> nat, n: nat)
    returns (i: nat)
    requires Ranked(components, rank) && forall f :: f in fields ==> FieldBelow(f, rank, n)
    requires ResolveFields(fields, components, rank, n) == Some(r)
    ensures Find(fields, key).Some? <==> Find(r, key).Some?
    ensures Find(fields, key).Some? ==>
              && i < |fields| == |r| && fields[i].key == r[i].key == key
              && Find(fields, key) == Some(fields[i].value) && Find(r, key) == Some(r[i].value)
              && ResolveField(fields[i], components, rank, n) == Some(r[i])
  {
    FieldsPointwise(fields, components, rank, n);
    forall k | 0 <= k < |r|
      ensures r[k].key == fields[k].key
    {
      ResolvedFieldIsRefFree(fields[k], components, rank, n);
    }
    FindSameKeys(fields, r, key);
    i := 0;
    if Find(fields, key).Some? {
      i :| 0 <= i < |r| && fields[i].key == key
           && Find(fields, key) == Some(fields[i].value) && Find(r, key) == Some(r[i].value);
    }
  }

  /** Walking the resolved schema finds exactly what following references on the way finds, resolved. */
  lemma {:induction false} LookupCommutes(j: Json, steps: seq<Step>, components: Json, rank: string -> nat, n: nat)
    requires Ranked(components, rank) && RefsBelow(j, rank, n) && Resolve(j, components, rank, n).Some?
    ensures var eager := At(Resolve(j, components, rank, n).value, steps);
            var lazy := LazyAt(j, steps, components, rank, n);
            && (lazy.Some? <==> eager.Some?)
            && (lazy.Some? ==> RefsBelow(lazy.value, rank, n) && Resolve(lazy.value, components, rank, n) == eager)
    decreases steps
  {
    if steps != [] {
      HeadResolvesAlike(j, components, rank, n);
      var head := Head(j, components, rank, n);
      ResolvedChild(head, steps[0], components, rank, n);
      if Child(head, steps[0]).Some? {
        LookupCommutes(Child(head, steps[0]).value, steps[1..], components, rank, n);
      }
    }
  }
}
