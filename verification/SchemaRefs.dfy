/** anp/anp/anp_crawler/anp_interface.py: replacing the $ref references of a JSON Schema by what they refer to. */
module SchemaRefs {
  import opened Strings
  import opened Wrappers

  /** A JSON value; an object keeps the order of its fields. */
  datatype Json =
    | Object(fields: seq<Field>)
    | Array(items: seq<Json>)
    | Text(text: string)
    | Scalar(repr: string)

  datatype Field = Field(key: string, value: Json)

  const REF := "$ref"

  function Find(fields: seq<Field>, key: string): Option<Json> {
    if fields == [] then None
    else if fields[0].key == key then Some(fields[0].value)
    else Find(fields[1..], key)
  }

  // ---- _resolve_ref ----

  function Navigate(current: Json, parts: seq<string>): Option<Json>
    decreases parts
  {
    if parts == [] then Some(current)
    else if !current.Object? then None
    else
      match Find(current.fields, parts[0])
      case None => None
      case Some(child) => Navigate(child, parts[1..])
  }

  /** The parts of a well-formed reference after "components". */
  function PathOf(refPath: string): Option<seq<string>> {
    if !("#/" <= refPath) then None
    else
      var parts := Split(refPath[2..], '/');
      if |parts| < 3 || parts[0] != "components" then None else Some(parts[1..])
  }

  function ResolveRef(refPath: string, components: Json): Option<Json> {
    match PathOf(refPath)
    case None => None
    case Some(parts) =>
      match Navigate(components, parts)
      case None => None
      case Some(target) => if target.Object? then Some(target) else None
  }

  /** _resolve_ref */
  method FollowRef(refPath: string, components: Json) returns (r: Option<Json>)
    ensures r == ResolveRef(refPath, components)
  {
    if !("#/" <= refPath) {
      return None;
    }
    var parts := Split(refPath[2..], '/');
    if |parts| < 3 || parts[0] != "components" {
      return None;
    }
    var current := components;
    for i := 1 to |parts|
      invariant Navigate(components, parts[1..]) == Navigate(current, parts[i..])
    {
      assert parts[i..][1..] == parts[i + 1..];
      if current.Object? && Find(current.fields, parts[i]).Some? {
        current := Find(current.fields, parts[i]).value;
      } else {
        return None;
      }
    }
    return if current.Object? then Some(current) else None;
  }

  // ---- which references a walk over a schema meets ----

  /** Every reference met in `j` has a rank below n. */
  ghost predicate RefsBelow(j: Json, rank: string -> nat, n: nat) {
    j.Object? ==>
      match Find(j.fields, REF)
      case Some(Text(path)) => rank(path) < n
      case Some(_) => true
      case None => forall f :: f in j.fields ==> FieldBelow(f, rank, n)
  }

  ghost predicate FieldBelow(f: Field, rank: string -> nat, n: nat) {
    match f.value
    case Object(fields) =>
      if f.key == "properties" then forall p :: p in fields ==> RefsBelow(p.value, rank, n)
      else RefsBelow(f.value, rank, n)
    case Array(items) => forall item :: item in items ==> RefsBelow(item, rank, n)
    case _ => true
  }

  /** The reference graph of the components is acyclic: references lead to schemas with smaller ones only. */
  ghost predicate Ranked(components: Json, rank: string -> nat) {
    forall path :: ResolveRef(path, components).Some? ==>
      RefsBelow(ResolveRef(path, components).value, rank, rank(path))
  }

  // ---- _resolve_schema_refs ----

  function Unresolved(path: string): Json {
    Object([Field("type", Text("object")), Field("description", Text("Unresolved reference: " + path))])
  }

  /** None when a reference is not a string, which raises. */
  function Resolve(j: Json, components: Json, ghost rank: string -> nat, ghost n: nat): Option<Json>
    requires Ranked(components, rank) && RefsBelow(j, rank, n)
    decreases n, j, 1
  {
    if !j.Object? then Some(j)
    else
      match Find(j.fields, REF)
      case Some(Text(path)) =>
        var target := ResolveRef(path, components);
        if target.Some? && target.value.fields != [] then Resolve(target.value, components, rank, rank(path))
        else Some(Unresolved(path))
      case Some(_) => None
      case None =>
        var fields := ResolveFields(j.fields, components, rank, n);
        if fields.None? then None else Some(Object(fields.value))
  }

  function ResolveFields(fields: seq<Field>, components: Json, ghost rank: string -> nat, ghost n: nat)
    : Option<seq<Field>>
    requires Ranked(components, rank) && forall f :: f in fields ==> FieldBelow(f, rank, n)
    decreases n, fields, 0
  {
    if fields == [] then Some([])
    else
      var before := ResolveFields(fields[..|fields| - 1], components, rank, n);
      var last := ResolveField(fields[|fields| - 1], components, rank, n);
      if before.None? || last.None? then None else Some(before.value + [last.value])
  }

  function ResolveField(f: Field, components: Json, ghost rank: string -> nat, ghost n: nat): Option<Field>
    requires Ranked(components, rank) && FieldBelow(f, rank, n)
    decreases n, f, 0
  {
    match f.value
    case Object(fields) =>
      if f.key == "properties" then
        var properties := ResolveValues(fields, components, rank, n);
        if properties.None? then None else Some(Field(f.key, Object(properties.value)))
      else
        var value := Resolve(f.value, components, rank, n);
        if value.None? then None else Some(Field(f.key, value.value))
    case Array(items) =>
      var resolved := ResolveItems(items, components, rank, n);
      if resolved.None? then None else Some(Field(f.key, Array(resolved.value)))
    case _ => Some(f)
  }

  /** The properties of a schema: every value is a schema, whatever its name. */
  function ResolveValues(fields: seq<Field>, components: Json, ghost rank: string -> nat, ghost n: nat)
    : Option<seq<Field>>
    requires Ranked(components, rank) && forall f :: f in fields ==> RefsBelow(f.value, rank, n)
    decreases n, fields, 0
  {
    if fields == [] then Some([])
    else
      var before := ResolveValues(fields[..|fields| - 1], components, rank, n);
      var last := ResolveProperty(fields[|fields| - 1], components, rank, n);
      if before.None? || last.None? then None else Some(before.value + [last.value])
  }

  function ResolveProperty(p: Field, components: Json, ghost rank: string -> nat, ghost n: nat): Option<Field>
    requires Ranked(components, rank) && RefsBelow(p.value, rank, n)
    decreases n, p, 0
  {
    var value := Resolve(p.value, components, rank, n);
    if value.None? then None else Some(Field(p.key, value.value))
  }

  function ResolveItems(items: seq<Json>, components: Json, ghost rank: string -> nat, ghost n: nat)
    : Option<seq<Json>>
    requires Ranked(components, rank) && forall item :: item in items ==> RefsBelow(item, rank, n)
    decreases n, items, 0
  {
    if items == [] then Some([])
    else
      var before := ResolveItems(items[..|items| - 1], components, rank, n);
      var last := Resolve(items[|items| - 1], components, rank, n);
      if before.None? || last.None? then None else Some(before.value + [last.value])
  }

  // ---- the worker as it runs ----

  /** _resolve_schema_refs, building its results in loops */
  method ResolveSchemaRefs(schema: Json, components: Json, ghost rank: string -> nat, ghost n: nat)
    returns (r: Option<Json>)
    requires Ranked(components, rank) && RefsBelow(schema, rank, n)
    ensures r == Resolve(schema, components, rank, n)
    decreases n, schema, 1
  {
    if !schema.Object? {
      return Some(schema);
    }
    var reference := Find(schema.fields, REF);
    if reference.Some? {
      if !reference.value.Text? {
        return None;
      }
      var path := reference.value.text;
      var target := FollowRef(path, components);
      if target.Some? && target.value.fields != [] {
        r := ResolveSchemaRefs(target.value, components, rank, rank(path));
      } else {
        r := Some(Unresolved(path));
      }
      return;
    }
    var fields := ResolveEachField(schema.fields, components, rank, n);
    return if fields.None? then None else Some(Object(fields.value));
  }

  method ResolveEachField(fields: seq<Field>, components: Json, ghost rank: string -> nat, ghost n: nat)
    returns (r: Option<seq<Field>>)
    requires Ranked(components, rank) && forall f :: f in fields ==> FieldBelow(f, rank, n)
    ensures r == ResolveFields(fields, components, rank, n)
    decreases n, fields, 0
  {
    var resolved := [];
    for i := 0 to |fields|
      invariant ResolveFields(fields[..i], components, rank, n) == Some(resolved)
    {
      assert fields[..i + 1][..i] == fields[..i];
      var field := ResolveOneField(fields[i], components, rank, n);
      if field.None? {
        FieldsPrefixFails(fields, i + 1, components, rank, n);
        return None;
      }
      resolved := resolved + [field.value];
    }
    assert fields[..|fields|] == fields;
    return Some(resolved);
  }

  method ResolveOneField(f: Field, components: Json, ghost rank: string -> nat, ghost n: nat)
    returns (r: Option<Field>)
    requires Ranked(components, rank) && FieldBelow(f, rank, n)
    ensures r == ResolveField(f, components, rank, n)
    decreases n, f, 0
  {
    if f.key == "properties" && f.value.Object? {
      var properties := ResolveEachValue(f.value.fields, components, rank, n);
      return if properties.None? then None else Some(Field(f.key, Object(properties.value)));
    } else if f.value.Object? {
      var value := ResolveSchemaRefs(f.value, components, rank, n);
      return if value.None? then None else Some(Field(f.key, value.value));
    } else if f.value.Array? {
      var items := ResolveEachItem(f.value.items, components, rank, n);
      return if items.None? then None else Some(Field(f.key, Array(items.value)));
    }
    return Some(f);
  }

  method ResolveEachValue(fields: seq<Field>, components: Json, ghost rank: string -> nat, ghost n: nat)
    returns (r: Option<seq<Field>>)
    requires Ranked(components, rank) && forall f :: f in fields ==> RefsBelow(f.value, rank, n)
    ensures r == ResolveValues(fields, components, rank, n)
    decreases n, fields, 0
  {
    var resolved := [];
    for i := 0 to |fields|
      invariant ResolveValues(fields[..i], components, rank, n) == Some(resolved)
    {
      assert fields[..i + 1][..i] == fields[..i];
      var value := ResolveSchemaRefs(fields[i].value, components, rank, n);
      if value.None? {
        ValuesPrefixFails(fields, i + 1, components, rank, n);
        return None;
      }
      resolved := resolved + [Field(fields[i].key, value.value)];
    }
    assert fields[..|fields|] == fields;
    return Some(resolved);
  }

  method ResolveEachItem(items: seq<Json>, components: Json, ghost rank: string -> nat, ghost n: nat)
    returns (r: Option<seq<Json>>)
    requires Ranked(components, rank) && forall item :: item in items ==> RefsBelow(item, rank, n)
    ensures r == ResolveItems(items, components, rank, n)
    decreases n, items, 0
  {
    var resolved := [];
    for i := 0 to |items|
      invariant ResolveItems(items[..i], components, rank, n) == Some(resolved)
    {
      assert items[..i + 1][..i] == items[..i];
      if items[i].Object? {
        var value := ResolveSchemaRefs(items[i], components, rank, n);
        if value.None? {
          ItemsPrefixFails(items, i + 1, components, rank, n);
          return None;
        }
        resolved := resolved + [value.value];
      } else {
        resolved := resolved + [items[i]];
      }
    }
    assert items[..|items|] == items;
    return Some(resolved);
  }

  lemma {:induction false} FieldsPrefixFails(fields: seq<Field>, i: nat, components: Json, rank: string -> nat, n: nat)
    requires Ranked(components, rank) && (forall f :: f in fields ==> FieldBelow(f, rank, n)) && i <= |fields|
    requires ResolveFields(fields[..i], components, rank, n) == None
    ensures ResolveFields(fields, components, rank, n) == None
  {
    if i == |fields| {
      assert fields[..i] == fields;
    } else {
      var before := fields[..|fields| - 1];
      assert before[..i] == fields[..i];
      FieldsPrefixFails(before, i, components, rank, n);
    }
  }

  lemma {:induction false} ValuesPrefixFails(fields: seq<Field>, i: nat, components: Json, rank: string -> nat, n: nat)
    requires Ranked(components, rank) && (forall f :: f in fields ==> RefsBelow(f.value, rank, n)) && i <= |fields|
    requires ResolveValues(fields[..i], components, rank, n) == None
    ensures ResolveValues(fields, components, rank, n) == None
  {
    if i == |fields| {
      assert fields[..i] == fields;
    } else {
      var before := fields[..|fields| - 1];
      assert before[..i] == fields[..i];
      ValuesPrefixFails(before, i, components, rank, n);
    }
  }

  lemma {:induction false} ItemsPrefixFails(items: seq<Json>, i: nat, components: Json, rank: string -> nat, n: nat)
    requires Ranked(components, rank) && (forall item :: item in items ==> RefsBelow(item, rank, n)) && i <= |items|
    requires ResolveItems(items[..i], components, rank, n) == None
    ensures ResolveItems(items, components, rank, n) == None
  {
    if i == |items| {
      assert items[..i] == items;
    } else {
      var before := items[..|items| - 1];
      assert before[..i] == items[..i];
      ItemsPrefixFails(before, i, components, rank, n);
    }
  }
}
