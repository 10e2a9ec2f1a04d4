/** Iceberg field ids (pkg/formats/iceberg/schema.go): assignment during conversion, the separate
    reader of assigned ids over both in-memory and JSON-decoded schemas, and the name mapping. */
module IcebergSchema {
  import opened Common
  import opened Model
  import opened Numerals

  datatype IceType =
    | Named(name: string)
    | Struct(fields: seq<NestedField>)
    | IceList(elementId: int, element: IceType, elementRequired: bool)
    | IceMap(keyId: int, key: IceType, valueId: int, value: IceType, valueRequired: bool)

  datatype NestedField = NestedField(id: int, name: string, typ: IceType, required: bool)

  /** One schema node that carries an id, with its dotted path. */
  datatype PathId = PathId(path: string, id: int)

  function Child(prefix: string, name: string): string
  {
    if prefix == "" then name else prefix + "." + name
  }

  function AtomName(a: Atom): string
  {
    match a
    case Boolean => "boolean"
    case Int => "int"
    case Long => "long"
    case Float => "float"
    case Double => "double"
    case Uuid => "uuid"
    case Bytes => "binary"
    case Fixed(size) => "fixed[" + Itoa(if size.Some? then size.value else 16) + "]"
    case Date => "date"
    case Timestamp(_) => "timestamptz"
    case TimestampNtz(_) => "timestamp"
    case Decimal(p, s) => "decimal(" + Itoa(p) + "," + Itoa(s) + ")"
    case _ => "string"
  }

  // ---------------------------------------------------------------------------------------
  // Assignment
  // ---------------------------------------------------------------------------------------

  /** The chosen id and the counter to go on with: an explicit positive id, else the id the path had
      before, else the counter. */
  function AssignFieldId(explicit: Option<int>, path: string, prev: map<string, int>, next: int): (int, int)
  {
    if explicit.Some? && explicit.value > 0 then
      (explicit.value, if explicit.value >= next then explicit.value + 1 else next)
    else if path in prev then
      (prev[path], if prev[path] >= next then prev[path] + 1 else next)
    else
      (next, next + 1)
  }

  function ConvertType(s: Schema, path: string, prev: map<string, int>, next: int): (IceType, int)
    decreases s
  {
    match s
    case Scalar(a, _) => (Named(AtomName(a)), next)
    case Record(fields, _) =>
      var (fs, n) := ConvertFields(fields, path, prev, next);
      (Struct(fs), n)
    case ListOf(e, _) =>
      var (id, n0) := AssignFieldId(None, path + ".element", prev, next);
      var (t, n1) := ConvertType(e, path + ".element", prev, n0);
      (IceList(id, t, !e.nullable), n1)
    case MapOf(k, v, _) =>
      var (kid, n0) := AssignFieldId(None, path + ".key", prev, next);
      var (kt, n1) := ConvertType(k, path + ".key", prev, n0);
      var (vid, n2) := AssignFieldId(None, path + ".value", prev, n1);
      var (vt, n3) := ConvertType(v, path + ".value", prev, n2);
      (IceMap(kid, kt, vid, vt, !v.nullable), n3)
  }

  function ConvertFields(fields: seq<Field>, prefix: string, prev: map<string, int>, next: int): (seq<NestedField>, int)
    decreases fields
  {
    if fields == [] then ([], next)
    else
      var f := fields[0];
      var (id, n0) := AssignFieldId(f.id, Child(prefix, f.name), prev, next);
      var (t, n1) := ConvertType(f.schema, Child(prefix, f.name), prev, n0);
      var (rest, n2) := ConvertFields(fields[1..], prefix, prev, n1);
      ([NestedField(id, f.name, t, !f.schema.nullable)] + rest, n2)
  }

  lemma {:induction false} ConvertHead(fields: seq<Field>, rest: seq<Field>, f: Field, prev: map<string, int>, next: int)
    requires fields == [f] + rest
    ensures var (id, n0) := AssignFieldId(f.id, f.name, prev, next);
      var (t, n1) := ConvertType(f.schema, f.name, prev, n0);
      ConvertFields(fields, "", prev, next) ==
        ([NestedField(id, f.name, t, !f.schema.nullable)] + ConvertFields(rest, "", prev, n1).0, ConvertFields(rest, "", prev, n1).1)
  {
    assert fields[1..] == rest;
  }

  lemma {:induction false} Regroup(a: seq<NestedField>, x: NestedField, b: seq<NestedField>)
    ensures a + ([x] + b) == (a + [x]) + b
  {
  }

  /** The loop of SchemaToIceberg: fields in order, one counter threaded through. */
  method SchemaToIceberg(fields: seq<Field>, prev: map<string, int>, prevLast: int)
    returns (out: seq<NestedField>, last: int)
    ensures out == ConvertFields(fields, "", prev, Max(1, prevLast + 1)).0
    ensures last + 1 == ConvertFields(fields, "", prev, Max(1, prevLast + 1)).1
  {
    var start := prevLast + 1;
    if start < 1 {
      start := 1;
    }
    var next := start;
    out := [];
    assert fields[0..] == fields;
    for i := 0 to |fields|
      invariant ConvertFields(fields, "", prev, start).0 == out + ConvertFields(fields[i..], "", prev, next).0
      invariant ConvertFields(fields, "", prev, start).1 == ConvertFields(fields[i..], "", prev, next).1
    {
      var f := fields[i];
      assert fields[i..] == [f] + fields[i + 1..];
      var (id, n0) := AssignFieldId(f.id, f.name, prev, next);
      var (t, n1) := ConvertType(f.schema, f.name, prev, n0);
      var converted := NestedField(id, f.name, t, !f.schema.nullable);
      ConvertHead(fields[i..], fields[i + 1..], f, prev, next);
      Regroup(out, converted, ConvertFields(fields[i + 1..], "", prev, n1).0);
      out := out + [converted];
      next := n1;
    }
    assert fields[|fields|..] == [];
    assert out + [] == out;
    last := next - 1;
  }

  // ---------------------------------------------------------------------------------------
  // Reading ids back
  // ---------------------------------------------------------------------------------------

  function CollectType(t: IceType, prefix: string, out: map<string, int>): map<string, int>
    decreases t
  {
    match t
    case Named(_) => out
    case Struct(fields) => CollectFields(fields, prefix, out)
    case IceList(id, e, _) => CollectType(e, prefix + ".element", out[prefix + ".element" := id])
    case IceMap(kid, k, vid, v, _) =>
      var both := out[prefix + ".key" := kid][prefix + ".value" := vid];
      CollectType(v, prefix + ".value", CollectType(k, prefix + ".key", both))
  }

  function CollectFields(fields: seq<NestedField>, prefix: string, out: map<string, int>): map<string, int>
    decreases fields
  {
    if fields == [] then out
    else
      var f := fields[0];
      var path := Child(prefix, f.name);
      CollectFields(fields[1..], prefix, CollectType(f.typ, path, out[path := f.id]))
  }

  /** Path-to-id map of an in-memory schema. */
  function FieldPathIds(fields: seq<NestedField>): map<string, int>
  {
    CollectFields(fields, "", map[])
  }

  // The shape encoding/json hands back: nested types become untyped JSON.

  datatype Json = JString(text: string) | JNumber(n: int) | JBool(b: bool) | JArray(items: seq<Json>) | JObject(members: seq<Member>)

  datatype Member = Member(key: string, value: Json)

  /** A top-level field of a decoded metadata file: typed itself, with an untyped nested type. */
  datatype DecodedField = DecodedField(id: int, name: string, typ: Json)

  function Lookup(members: seq<Member>, key: string): (r: Option<Json>)
    ensures r.Some? ==> exists i :: 0 <= i < |members| && members[i].value == r.value
  {
    if members == [] then None
    else if members[0].key == key then Some(members[0].value)
    else
      var r := Lookup(members[1..], key);
      assert r.Some? ==> exists i :: 0 <= i < |members| && members[i].value == r.value by {
        if r.Some? {
          var i :| 0 <= i < |members[1..]| && members[1..][i].value == r.value;
          assert members[i + 1].value == r.value;
        }
      }
      r
  }

  function Get(raw: Json, key: string): Option<Json>
  {
    if raw.JObject? then Lookup(raw.members, key) else None
  }

  function AsInt(raw: Option<Json>): Option<int>
  {
    if raw.Some? && raw.value.JNumber? then Some(raw.value.n) else None
  }

  function Put(out: map<string, int>, path: string, id: Option<int>): map<string, int>
  {
    if id.Some? then out[path := id.value] else out
  }

  function CollectJson(raw: Json, prefix: string, out: map<string, int>): map<string, int>
    decreases raw, 1
  {
    match Get(raw, "type")
    case Some(JString("struct")) =>
      var fields := Get(raw, "fields");
      if fields.Some? && fields.value.JArray? then CollectJsonFields(fields.value.items, prefix, out) else out
    case Some(JString("list")) =>
      var e := Get(raw, "element");
      var one := Put(out, prefix + ".element", AsInt(Get(raw, "element-id")));
      if e.Some? then CollectJson(e.value, prefix + ".element", one) else one
    case Some(JString("map")) =>
      var k, v := Get(raw, "key"), Get(raw, "value");
      var both := Put(Put(out, prefix + ".key", AsInt(Get(raw, "key-id"))), prefix + ".value", AsInt(Get(raw, "value-id")));
      var keyed := if k.Some? then CollectJson(k.value, prefix + ".key", both) else both;
      if v.Some? then CollectJson(v.value, prefix + ".value", keyed) else keyed
    case _ => out
  }

  function CollectJsonFields(items: seq<Json>, prefix: string, out: map<string, int>): map<string, int>
    decreases items, 0
  {
    if items == [] then out
    else if !items[0].JObject? then CollectJsonFields(items[1..], prefix, out)
    else
      var id, name, typ := AsInt(Get(items[0], "id")), Get(items[0], "name"), Get(items[0], "type");
      var path := Child(prefix, if name.Some? && name.value.JString? then name.value.text else "");
      var one := out[path := if id.Some? then id.value else 0];
      CollectJsonFields(items[1..], prefix, if typ.Some? then CollectJson(typ.value, path, one) else one)
  }

  function CollectDecoded(fields: seq<DecodedField>, out: map<string, int>): map<string, int>
  {
    if fields == [] then out
    else CollectDecoded(fields[1..], CollectJson(fields[0].typ, fields[0].name, out[fields[0].name := fields[0].id]))
  }

  // ---------------------------------------------------------------------------------------
  // Both tree walks flattened to one list of nodes
  // ---------------------------------------------------------------------------------------

  datatype Node = Node(path: string, explicit: Option<int>)

  function TypeNodes(s: Schema, path: string): seq<Node>
    decreases s
  {
    match s
    case Scalar(_, _) => []
    case Record(fields, _) => FieldNodes(fields, path)
    case ListOf(e, _) => [Node(path + ".element", None)] + TypeNodes(e, path + ".element")
    case MapOf(k, v, _) =>
      ([Node(path + ".key", None)] + TypeNodes(k, path + ".key"))
      + ([Node(path + ".value", None)] + TypeNodes(v, path + ".value"))
  }

  function FieldNodes(fields: seq<Field>, prefix: string): seq<Node>
    decreases fields
  {
    if fields == [] then []
    else
      var path := Child(prefix, fields[0].name);
      ([Node(path, fields[0].id)] + TypeNodes(fields[0].schema, path)) + FieldNodes(fields[1..], prefix)
  }

  function TypePairs(t: IceType, path: string): seq<PathId>
    decreases t
  {
    match t
    case Named(_) => []
    case Struct(fields) => FieldPairs(fields, path)
    case IceList(id, e, _) => [PathId(path + ".element", id)] + TypePairs(e, path + ".element")
    case IceMap(kid, k, vid, v, _) =>
      ([PathId(path + ".key", kid)] + TypePairs(k, path + ".key"))
      + ([PathId(path + ".value", vid)] + TypePairs(v, path + ".value"))
  }

  function FieldPairs(fields: seq<NestedField>, prefix: string): seq<PathId>
    decreases fields
  {
    if fields == [] then []
    else
      var path := Child(prefix, fields[0].name);
      ([PathId(path, fields[0].id)] + TypePairs(fields[0].typ, path)) + FieldPairs(fields[1..], prefix)
  }

  /** The allocator without the tree: nodes in order, one counter. */
  function AssignAll(nodes: seq<Node>, prev: map<string, int>, next: int): (seq<PathId>, int)
  {
    if nodes == [] then ([], next)
    else
      var (id, n0) := AssignFieldId(nodes[0].explicit, nodes[0].path, prev, next);
      var (rest, n1) := AssignAll(nodes[1..], prev, n0);
      ([PathId(nodes[0].path, id)] + rest, n1)
  }

  lemma {:induction false} AssignConcat(a: seq<Node>, b: seq<Node>, prev: map<string, int>, next: int)
    ensures var (pa, na) := AssignAll(a, prev, next); var (pb, nb) := AssignAll(b, prev, na);
      AssignAll(a + b, prev, next) == (pa + pb, nb)
  {
    if a == [] {
      assert a + b == b;
      var all := AssignAll(b, prev, next);
      assert [] + all.0 == all.0;
    } else {
      var (id, n0) := AssignFieldId(a[0].explicit, a[0].path, prev, next);
      assert (a + b)[0] == a[0] && (a + b)[1..] == a[1..] + b;
      AssignConcat(a[1..], b, prev, n0);
      var (pa, na) := AssignAll(a[1..], prev, n0);
      var pb := AssignAll(b, prev, na).0;
      assert [PathId(a[0].path, id)] + (pa + pb) == ([PathId(a[0].path, id)] + pa) + pb;
    }
  }

  lemma {:induction false} AssignCons(n: Node, rest: seq<Node>, prev: map<string, int>, next: int)
    ensures var (id, n0) := AssignFieldId(n.explicit, n.path, prev, next); var (pr, nr) := AssignAll(rest, prev, n0);
      AssignAll([n] + rest, prev, next) == ([PathId(n.path, id)] + pr, nr)
  {
    assert ([n] + rest)[1..] == rest;
  }

  /** Conversion at any depth hands out exactly the ids of the linear allocator, in its order. */
  lemma {:induction false} ConvertTypeFlat(s: Schema, path: string, prev: map<string, int>, next: int)
    ensures var (t, n) := ConvertType(s, path, prev, next);
      AssignAll(TypeNodes(s, path), prev, next) == (TypePairs(t, path), n)
    decreases s, 0
  {
    match s
    case Scalar(_, _) =>
    case Record(fields, _) => ConvertFieldsFlat(fields, path, prev, next);
    case ListOf(e, _) => EntryFlat(None, e, path + ".element", prev, next);
    case MapOf(k, v, _) =>
      EntryFlat(None, k, path + ".key", prev, next);
      var (kid, n0) := AssignFieldId(None, path + ".key", prev, next);
      var (kt, n1) := ConvertType(k, path + ".key", prev, n0);
      EntryFlat(None, v, path + ".value", prev, n1);
      AssignConcat([Node(path + ".key", None)] + TypeNodes(k, path + ".key"),
                   [Node(path + ".value", None)] + TypeNodes(v, path + ".value"), prev, next);
  }

  /** One id-carrying node together with everything below it. */
  lemma {:induction false} EntryFlat(explicit: Option<int>, s: Schema, path: string, prev: map<string, int>, next: int)
    ensures var (id, n0) := AssignFieldId(explicit, path, prev, next); var (t, n1) := ConvertType(s, path, prev, n0);
      AssignAll([Node(path, explicit)] + TypeNodes(s, path), prev, next) == ([PathId(path, id)] + TypePairs(t, path), n1)
    decreases s, 1
  {
    var (id, n0) := AssignFieldId(explicit, path, prev, next);
    AssignCons(Node(path, explicit), TypeNodes(s, path), prev, next);
    ConvertTypeFlat(s, path, prev, n0);
  }

  lemma {:induction false} ConvertFieldsFlat(fields: seq<Field>, prefix: string, prev: map<string, int>, next: int)
    ensures var (fs, n) := ConvertFields(fields, prefix, prev, next);
      AssignAll(FieldNodes(fields, prefix), prev, next) == (FieldPairs(fs, prefix), n)
    decreases fields, 2
  {
    if fields != [] {
      var f := fields[0];
      var path := Child(prefix, f.name);
      EntryFlat(f.id, f.schema, path, prev, next);
      var (id, n0) := AssignFieldId(f.id, path, prev, next);
      var (t, n1) := ConvertType(f.schema, path, prev, n0);
      ConvertFieldsFlat(fields[1..], prefix, prev, n1);
      AssignConcat([Node(path, f.id)] + TypeNodes(f.schema, path), FieldNodes(fields[1..], prefix), prev, next);
      var fs := ConvertFields(fields, prefix, prev, next).0;
      assert fs[1..] == ConvertFields(fields[1..], prefix, prev, n1).0;
    }
  }
}
