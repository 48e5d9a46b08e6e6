/** What a schema reference names: the object that its path leads to, and nothing for any other form. */
module SchemaRefPaths {
  import opened Strings
  import opened Wrappers
  import opened SchemaRefs

  const PREFIX := "#/components/"

  /** "/".join(parts) */
  function Joined(parts: seq<string>): string {
    if |parts| == 0 then "" else if |parts| == 1 then parts[0] else parts[0] + ['/'] + Joined(parts[1..])
  }

  ghost predicate Plain(parts: seq<string>) {
    forall part :: part in parts ==> '/' !in part
  }

  lemma {:induction false} SplitJoined(parts: seq<string>)
    requires |parts| > 0 && Plain(parts)
    ensures Split(Joined(parts), '/') == parts
  {
    assert parts[0] in parts;
    if |parts| == 1 {
      SplitHead(parts[0], '/');
    } else {
      assert forall part :: part in parts[1..] ==> part in parts;
      SplitJoined(parts[1..]);
      SplitPart(parts[0], '/', Joined(parts[1..]));
    }
  }

  lemma {:induction false} JoinedSplit(text: string)
    ensures Joined(Split(text, '/')) == text && Plain(Split(text, '/'))
  {
    SplitHead(text, '/');
    var n := Until(text, '/');
    if n < |text| {
      JoinedSplit(text[n + 1..]);
      var rest := Split(text[n + 1..], '/');
      assert Split(text, '/')[1..] == rest;
      assert text == text[..n] + ['/'] + text[n + 1..];
    }
  }

  /** In an object the first field with the key, and so on down to the last key. */
  ghost predicate Leads(j: Json, parts: seq<string>, target: Json)
    decreases parts
  {
    if parts == [] then j == target
    else
      && j.Object?
      && exists i: nat :: FirstWithKey(j.fields, parts[0], i) && Leads(j.fields[i].value, parts[1..], target)
  }

  predicate FirstWithKey(fields: seq<Field>, key: string, i: nat) {
    i < |fields| && fields[i].key == key && forall h :: 0 <= h < i ==> fields[h].key != key
  }

  lemma {:induction false} FindIsFirst(fields: seq<Field>, key: string) returns (i: nat)
    ensures if i < |fields| then FirstWithKey(fields, key, i) && Find(fields, key) == Some(fields[i].value)
            else Find(fields, key) == None && forall h :: 0 <= h < |fields| ==> fields[h].key != key
  {
    if fields == [] || fields[0].key == key {
      i := 0;
    } else {
      i := FindIsFirst(fields[1..], key);
      forall h | 0 <= h < |fields| && h < i + 1
        ensures fields[h].key != key
      {
        if h > 0 { assert fields[h] == fields[1..][h - 1]; }
      }
      i := i + 1;
    }
  }

  lemma {:induction false} NavigateIff(j: Json, parts: seq<string>, target: Json)
    ensures Navigate(j, parts) == Some(target) <==> Leads(j, parts, target)
  {
    if parts != [] && j.Object? {
      var i := FindIsFirst(j.fields, parts[0]);
      if i < |j.fields| {
        NavigateIff(j.fields[i].value, parts[1..], target);
        forall k: nat | FirstWithKey(j.fields, parts[0], k)
          ensures k == i
        {
          assert !(k < i) && !(i < k);
        }
      }
    }
  }

  const ROOT := "components"

  lemma RootIsPlain()
    ensures '/' !in ROOT && PREFIX == "#/" + (ROOT + ['/'])
  {
  }

  lemma PathOfParts(path: string, all: seq<string>)
    requires |all| >= 3 && Plain(all) && all[0] == ROOT && path == "#/" + Joined(all)
    ensures PathOf(path) == Some(all[1..])
  {
    assert path[2..] == Joined(all);
    SplitJoined(all);
  }

  lemma PathOfJoined(parts: seq<string>)
    requires |parts| >= 2 && Plain(parts)
    ensures PathOf(PREFIX + Joined(parts)) == Some(parts)
  {
    RootIsPlain();
    var all := [ROOT] + parts;
    assert all[1..] == parts;
    assert Joined(all) == ROOT + ['/'] + Joined(parts);
    Associative("#/", ROOT + ['/'], Joined(parts));
    PathOfParts(PREFIX + Joined(parts), all);
  }

  lemma Associative(a: string, b: string, c: string)
    ensures a + (b + c) == a + b + c
  {
  }

  /** A reference to plain keys, at least two, resolves to the object that the keys lead to from the components, and to
      nothing exactly when they lead to no object. */
  lemma RefResolvesIff(parts: seq<string>, components: Json, target: Json)
    requires |parts| >= 2 && Plain(parts)
    ensures var r := ResolveRef(PREFIX + Joined(parts), components);
            && (r == Some(target) <==> target.Object? && Leads(components, parts, target))
            && (r == None <==> forall t: Json :: t.Object? ==> !Leads(components, parts, t))
  {
    PathOfJoined(parts);
    NavigateIff(components, parts, target);
    var found := Navigate(components, parts);
    if found.Some? {
      NavigateIff(components, parts, found.value);
    }
    forall t: Json
      ensures Leads(components, parts, t) <==> found == Some(t)
    {
      NavigateIff(components, parts, t);
    }
  }

  /** References of any other form resolve to nothing. */
  lemma OtherFormsUnresolved(path: string, components: Json) returns (parts: seq<string>)
    requires ResolveRef(path, components).Some?
    ensures |parts| >= 2 && Plain(parts) && path == PREFIX + Joined(parts)
  {
    var all := Split(path[2..], '/');
    JoinedSplit(path[2..]);
    parts := all[1..];
    assert Plain(parts) by {
      assert forall part :: part in parts ==> part in all;
    }
    RootIsPlain();
    assert path == "#/" + path[2..];
    assert Joined(all) == ROOT + ['/'] + Joined(parts);
    Associative("#/", ROOT + ['/'], Joined(parts));
  }

  /** A schema with such a reference resolves to what the object it names resolves to; without a target, or with an
      empty one, to the note that it is unresolved. Other fields of the schema have no effect. */
  lemma ReferenceResolves(j: Json, parts: seq<string>, components: Json, rank: string -> nat, n: nat)
    requires |parts| >= 2 && Plain(parts) && j.Object? && Find(j.fields, REF) == Some(Text(PREFIX + Joined(parts)))
    requires Ranked(components, rank) && RefsBelow(j, rank, n)
    ensures forall t: Json :: t.Object? && t.fields != [] && Leads(components, parts, t) ==>
              && RefsBelow(t, rank, rank(PREFIX + Joined(parts)))
              && Resolve(j, components, rank, n) == Resolve(t, components, rank, rank(PREFIX + Joined(parts)))
    ensures (forall t: Json :: t.Object? && Leads(components, parts, t) ==> t.fields == []) ==>
              Resolve(j, components, rank, n) == Some(Unresolved(PREFIX + Joined(parts)))
  {
    var path := PREFIX + Joined(parts);
    forall t: Json
      ensures ResolveRef(path, components) == Some(t) <==> t.Object? && Leads(components, parts, t)
    {
      RefResolvesIff(parts, components, t);
    }
  }

  /** The reference of the documentation. */
  lemma RoomResolves(components: Json, room: Json)
    requires room.Object? && Leads(components, ["schemas", "Room"], room)
    ensures ResolveRef("#/components/schemas/Room", components) == Some(room)
  {
    var parts := ["schemas", "Room"];
    assert Plain(parts) by {
      assert '/' !in "schemas" && '/' !in "Room";
    }
    assert Joined(parts) == "schemas" + ['/'] + Joined(parts[1..]) && Joined(parts[1..]) == "Room";
    assert PREFIX + Joined(parts) == "#/components/schemas/Room";
    RefResolvesIff(parts, components, room);
  }
}
