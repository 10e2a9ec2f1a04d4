/** The three views of a schema's ids agree: the ids conversion assigned, the ids fieldPathIDs reads
    back from either in-memory or decoded metadata, and the name mapping written beside them. */
module IcebergIds {
  import opened Common
  import opened Model
  import opened IcebergSchema

  ghost predicate DistinctPaths(ps: seq<PathId>)
  {
    forall i, j :: 0 <= i < j < |ps| ==> ps[i].path != ps[j].path
  }

  function IdMap(ps: seq<PathId>): map<string, int>
  {
    if ps == [] then map[] else map[ps[0].path := ps[0].id] + IdMap(ps[1..])
  }

  lemma {:induction false} UnionAssociative(a: map<string, int>, b: map<string, int>, c: map<string, int>)
    ensures a + (b + c) == (a + b) + c
  {
  }

  lemma {:induction false} IdMapConcat(a: seq<PathId>, b: seq<PathId>)
    ensures IdMap(a + b) == IdMap(a) + IdMap(b)
  {
    if a == [] {
      assert a + b == b;
    } else {
      IdMapConcat(a[1..], b);
      assert (a + b)[1..] == a[1..] + b && (a + b)[0] == a[0];
      UnionAssociative(map[a[0].path := a[0].id], IdMap(a[1..]), IdMap(b));
    }
  }

  lemma {:induction false} IdMapFrom(ps: seq<PathId>, p: string)
    requires p in IdMap(ps)
    ensures PathId(p, IdMap(ps)[p]) in ps
  {
    if p in IdMap(ps[1..]) {
      IdMapFrom(ps[1..], p);
    }
  }

  lemma {:induction false} IdMapHas(ps: seq<PathId>, x: PathId)
    requires x in ps
    ensures x.path in IdMap(ps)
    ensures DistinctPaths(ps) ==> IdMap(ps)[x.path] == x.id
  {
    if x in ps[1..] {
      IdMapHas(ps[1..], x);
    } else {
      assert x == ps[0];
      if x.path in IdMap(ps[1..]) {
        IdMapFrom(ps[1..], x.path);
      }
    }
  }

  lemma {:induction false} DistinctParts(a: seq<PathId>, b: seq<PathId>)
    requires DistinctPaths(a + b)
    ensures DistinctPaths(a) && DistinctPaths(b)
    ensures IdMap(a).Keys !! IdMap(b).Keys
  {
    var c := a + b;
    assert forall i :: 0 <= i < |a| ==> c[i] == a[i];
    assert forall i :: 0 <= i < |b| ==> c[|a| + i] == b[i];
    forall p | p in IdMap(a) ensures p !in IdMap(b) {
      IdMapFrom(a, p);
      if p in IdMap(b) {
        IdMapFrom(b, p);
        assert false;
      }
    }
  }

  /** One id-carrying node and what lies below it. */
  lemma {:induction false} EntryMap(path: string, id: int, below: seq<PathId>)
    ensures IdMap([PathId(path, id)] + below) == map[path := id] + IdMap(below)
  {
    assert ([PathId(path, id)] + below)[1..] == below;
  }

  lemma {:induction false} CollectTypeIds(t: IceType, prefix: string, out: map<string, int>)
    requires DistinctPaths(TypePairs(t, prefix))
    ensures CollectType(t, prefix, out) == out + IdMap(TypePairs(t, prefix))
    decreases t
  {
    match t
    case Named(_) =>
    case Struct(fields) => CollectFieldIds(fields, prefix, out);
    case IceList(id, e, _) =>
      var path := prefix + ".element";
      EntryMap(path, id, TypePairs(e, path));
      DistinctParts([PathId(path, id)], TypePairs(e, path));
      CollectTypeIds(e, path, out[path := id]);
    case IceMap(kid, k, vid, v, _) => CollectMapIds(kid, k, vid, v, prefix, out, t);
  }

  lemma {:induction false} MapUnions(out: map<string, int>, kp: string, kid: int, ks: map<string, int>, vp: string, vid: int, vs: map<string, int>)
    requires kp != vp && vp !in ks
    ensures out[kp := kid][vp := vid] + ks + vs == out + ((map[kp := kid] + ks) + (map[vp := vid] + vs))
  {
  }

  lemma {:induction false} EntryUnions(out: map<string, int>, path: string, id: int, below: map<string, int>, rest: map<string, int>)
    ensures out[path := id] + below + rest == out + ((map[path := id] + below) + rest)
  {
  }

  /** The reader writes both ids of a map before descending; conversion interleaves. With distinct
      paths the order does not show. */
  lemma {:induction false} CollectMapIds(kid: int, k: IceType, vid: int, v: IceType, prefix: string, out: map<string, int>, t: IceType)
    requires t.IceMap? && t.keyId == kid && t.key == k && t.valueId == vid && t.value == v
    requires DistinctPaths(TypePairs(t, prefix))
    ensures CollectType(t, prefix, out) == out + IdMap(TypePairs(t, prefix))
    decreases t, 0
  {
    var kp, vp := prefix + ".key", prefix + ".value";
    var ks, vs := TypePairs(k, kp), TypePairs(v, vp);
    var a, b := [PathId(kp, kid)] + ks, [PathId(vp, vid)] + vs;
    assert TypePairs(t, prefix) == a + b;
    DistinctParts(a, b);
    assert DistinctPaths(ks) && DistinctPaths(vs) by {
      DistinctParts([PathId(kp, kid)], ks);
      DistinctParts([PathId(vp, vid)], vs);
    }
    assert IdMap(a + b) == (map[kp := kid] + IdMap(ks)) + (map[vp := vid] + IdMap(vs)) by {
      IdMapConcat(a, b);
      EntryMap(kp, kid, ks);
      EntryMap(vp, vid, vs);
    }
    assert kp != vp && vp !in IdMap(ks) by {
      EntryMap(kp, kid, ks);
      EntryMap(vp, vid, vs);
      assert kp in IdMap(a) && vp in IdMap(b);
    }
    var both := out[kp := kid][vp := vid];
    CollectTypeIds(k, kp, both);
    CollectTypeIds(v, vp, both + IdMap(ks));
    MapUnions(out, kp, kid, IdMap(ks), vp, vid, IdMap(vs));
  }

  lemma {:induction false} CollectFieldIds(fields: seq<NestedField>, prefix: string, out: map<string, int>)
    requires DistinctPaths(FieldPairs(fields, prefix))
    ensures CollectFields(fields, prefix, out) == out + IdMap(FieldPairs(fields, prefix))
    decreases fields
  {
    if fields != [] {
      var f := fields[0];
      var path := Child(prefix, f.name);
      var below, rest := TypePairs(f.typ, path), FieldPairs(fields[1..], prefix);
      var entry := [PathId(path, f.id)] + below;
      assert FieldPairs(fields, prefix) == entry + rest;
      assert DistinctPaths(below) && DistinctPaths(rest) by {
        DistinctParts(entry, rest);
        DistinctParts([PathId(path, f.id)], below);
      }
      assert IdMap(entry + rest) == (map[path := f.id] + IdMap(below)) + IdMap(rest) by {
        IdMapConcat(entry, rest);
        EntryMap(path, f.id, below);
      }
      CollectTypeIds(f.typ, path, out[path := f.id]);
      CollectFieldIds(fields[1..], prefix, out[path := f.id] + IdMap(below));
      EntryUnions(out, path, f.id, IdMap(below), IdMap(rest));
    }
  }

  /** fieldPathIDs of a converted schema is exactly the path-to-id map conversion assigned. */
  lemma {:induction false} ReadBackIds(fields: seq<Field>, prev: map<string, int>, next: int)
    requires DistinctPaths(AssignAll(FieldNodes(fields, ""), prev, next).0)
    ensures FieldPathIds(ConvertFields(fields, "", prev, next).0) == IdMap(AssignAll(FieldNodes(fields, ""), prev, next).0)
  {
    ConvertFieldsFlat(fields, "", prev, next);
    CollectFieldIds(ConvertFields(fields, "", prev, next).0, "", map[]);
  }

  // ---------------------------------------------------------------------------------------
  // Decoded metadata
  // ---------------------------------------------------------------------------------------

  function EncodeType(t: IceType): Json
    decreases t
  {
    match t
    case Named(n) => JString(n)
    case Struct(fields) => JObject([Member("type", JString("struct")), Member("fields", JArray(EncodeFields(fields)))])
    case IceList(id, e, req) =>
      JObject([Member("type", JString("list")), Member("element-id", JNumber(id)),
               Member("element", EncodeType(e)), Member("element-required", JBool(req))])
    case IceMap(kid, k, vid, v, req) =>
      JObject([Member("type", JString("map")), Member("key-id", JNumber(kid)), Member("key", EncodeType(k)),
               Member("value-id", JNumber(vid)), Member("value", EncodeType(v)), Member("value-required", JBool(req))])
  }

  function EncodeField(f: NestedField): Json
    decreases f
  {
    JObject([Member("id", JNumber(f.id)), Member("name", JString(f.name)),
             Member("type", EncodeType(f.typ)), Member("required", JBool(f.required))])
  }

  function EncodeFields(fields: seq<NestedField>): seq<Json>
    decreases fields
  {
    if fields == [] then [] else [EncodeField(fields[0])] + EncodeFields(fields[1..])
  }

  /** What reading a metadata file back yields for the fields written to it. */
  function Decoded(fields: seq<NestedField>): seq<DecodedField>
  {
    if fields == [] then []
    else [DecodedField(fields[0].id, fields[0].name, EncodeType(fields[0].typ))] + Decoded(fields[1..])
  }

  lemma {:induction false} LookupStep(m: Member, rest: seq<Member>, key: string)
    ensures Lookup([m] + rest, key) == if m.key == key then Some(m.value) else Lookup(rest, key)
  {
    assert ([m] + rest)[1..] == rest;
  }

  lemma {:induction false} Lookup2(a: Member, b: Member, key: string)
    ensures Lookup([a, b], key) == if a.key == key then Some(a.value) else if b.key == key then Some(b.value) else None
  {
    LookupStep(a, [b], key);
    assert [a] + [b] == [a, b];
    LookupStep(b, [], key);
    assert [b] + [] == [b];
  }

  lemma {:induction false} Lookup4(a: Member, b: Member, c: Member, d: Member, key: string)
    ensures Lookup([a, b, c, d], key) ==
      if a.key == key then Some(a.value) else if b.key == key then Some(b.value) else Lookup([c, d], key)
  {
    LookupStep(a, [b, c, d], key);
    assert [a] + [b, c, d] == [a, b, c, d];
    LookupStep(b, [c, d], key);
    assert [b] + [c, d] == [b, c, d];
  }

  lemma {:induction false} Lookup6(a: Member, b: Member, c: Member, d: Member, e: Member, f: Member, key: string)
    ensures Lookup([a, b, c, d, e, f], key) ==
      if a.key == key then Some(a.value) else if b.key == key then Some(b.value) else Lookup([c, d, e, f], key)
  {
    LookupStep(a, [b, c, d, e, f], key);
    assert [a] + [b, c, d, e, f] == [a, b, c, d, e, f];
    LookupStep(b, [c, d, e, f], key);
    assert [b] + [c, d, e, f] == [b, c, d, e, f];
  }

  lemma {:induction false} StructMembers(fields: Json)
    ensures var o := JObject([Member("type", JString("struct")), Member("fields", fields)]);
      Get(o, "type") == Some(JString("struct")) && Get(o, "fields") == Some(fields)
  {
    var a, b := Member("type", JString("struct")), Member("fields", fields);
    Lookup2(a, b, "type");
    Lookup2(a, b, "fields");
  }

  lemma {:induction false} ListMembers(id: int, e: Json, req: bool)
    ensures var o := JObject([Member("type", JString("list")), Member("element-id", JNumber(id)), Member("element", e), Member("element-required", JBool(req))]);
      && Get(o, "type") == Some(JString("list")) && Get(o, "element-id") == Some(JNumber(id)) && Get(o, "element") == Some(e)
  {
    var a, b := Member("type", JString("list")), Member("element-id", JNumber(id));
    var c, d := Member("element", e), Member("element-required", JBool(req));
    Lookup4(a, b, c, d, "type");
    Lookup4(a, b, c, d, "element-id");
    Lookup4(a, b, c, d, "element");
    Lookup2(c, d, "element");
  }

  lemma {:induction false} FieldMembers(id: int, name: string, typ: Json, req: bool)
    ensures var o := JObject([Member("id", JNumber(id)), Member("name", JString(name)), Member("type", typ), Member("required", JBool(req))]);
      && Get(o, "id") == Some(JNumber(id)) && Get(o, "name") == Some(JString(name)) && Get(o, "type") == Some(typ)
  {
    var a, b := Member("id", JNumber(id)), Member("name", JString(name));
    var c, d := Member("type", typ), Member("required", JBool(req));
    Lookup4(a, b, c, d, "id");
    Lookup4(a, b, c, d, "name");
    Lookup4(a, b, c, d, "type");
    Lookup2(c, d, "type");
  }

  lemma {:induction false} MapMembers(kid: int, k: Json, vid: int, v: Json, req: bool)
    ensures var o := JObject([Member("type", JString("map")), Member("key-id", JNumber(kid)), Member("key", k),
                              Member("value-id", JNumber(vid)), Member("value", v), Member("value-required", JBool(req))]);
      && Get(o, "type") == Some(JString("map"))
      && Get(o, "key-id") == Some(JNumber(kid)) && Get(o, "key") == Some(k)
      && Get(o, "value-id") == Some(JNumber(vid)) && Get(o, "value") == Some(v)
  {
    var a, b, c := Member("type", JString("map")), Member("key-id", JNumber(kid)), Member("key", k);
    var d, e, f := Member("value-id", JNumber(vid)), Member("value", v), Member("value-required", JBool(req));
    Lookup6(a, b, c, d, e, f, "type");
    Lookup6(a, b, c, d, e, f, "key-id");
    Lookup6(a, b, c, d, e, f, "key");
    Lookup4(c, d, e, f, "key");
    Lookup6(a, b, c, d, e, f, "value-id");
    Lookup4(c, d, e, f, "value-id");
    Lookup6(a, b, c, d, e, f, "value");
    Lookup4(c, d, e, f, "value");
    Lookup2(e, f, "value");
  }

  lemma {:induction false} JsonTypeAgrees(t: IceType, prefix: string, out: map<string, int>)
    ensures CollectJson(EncodeType(t), prefix, out) == CollectType(t, prefix, out)
    decreases t, 1
  {
    match t
    case Named(_) =>
    case Struct(fields) =>
      StructMembers(JArray(EncodeFields(fields)));
      JsonFieldsAgree(fields, prefix, out);
    case IceList(id, e, req) =>
      ListMembers(id, EncodeType(e), req);
      JsonTypeAgrees(e, prefix + ".element", out[prefix + ".element" := id]);
    case IceMap(kid, k, vid, v, req) => JsonMapAgrees(kid, k, vid, v, req, prefix, out);
  }

  lemma {:induction false} JsonMapAgrees(kid: int, k: IceType, vid: int, v: IceType, req: bool, prefix: string, out: map<string, int>)
    ensures CollectJson(EncodeType(IceMap(kid, k, vid, v, req)), prefix, out) == CollectType(IceMap(kid, k, vid, v, req), prefix, out)
    decreases IceMap(kid, k, vid, v, req), 0
  {
    MapMembers(kid, EncodeType(k), vid, EncodeType(v), req);
    CollectJsonMap(EncodeType(IceMap(kid, k, vid, v, req)), kid, EncodeType(k), vid, EncodeType(v), prefix, out);
    var both := out[prefix + ".key" := kid][prefix + ".value" := vid];
    JsonTypeAgrees(k, prefix + ".key", both);
    JsonTypeAgrees(v, prefix + ".value", CollectType(k, prefix + ".key", both));
  }

  lemma {:induction false} CollectJsonMap(o: Json, kid: int, k: Json, vid: int, v: Json, prefix: string, out: map<string, int>)
    requires Get(o, "type") == Some(JString("map")) && Get(o, "key-id") == Some(JNumber(kid)) && Get(o, "key") == Some(k)
    requires Get(o, "value-id") == Some(JNumber(vid)) && Get(o, "value") == Some(v)
    ensures var both := out[prefix + ".key" := kid][prefix + ".value" := vid];
      CollectJson(o, prefix, out) == CollectJson(v, prefix + ".value", CollectJson(k, prefix + ".key", both))
  {
  }

  lemma {:induction false} JsonFieldsAgree(fields: seq<NestedField>, prefix: string, out: map<string, int>)
    ensures CollectJsonFields(EncodeFields(fields), prefix, out) == CollectFields(fields, prefix, out)
    decreases fields
  {
    if fields != [] {
      var f := fields[0];
      var path := Child(prefix, f.name);
      FieldMembers(f.id, f.name, EncodeType(f.typ), f.required);
      JsonTypeAgrees(f.typ, path, out[path := f.id]);
      JsonFieldsAgree(fields[1..], prefix, CollectType(f.typ, path, out[path := f.id]));
      assert EncodeFields(fields)[1..] == EncodeFields(fields[1..]);
    }
  }

  /** The two shapes of one schema read alike: ids survive the trip through a metadata file. */
  lemma {:induction false} DecodedAgrees(fields: seq<NestedField>, out: map<string, int>)
    ensures CollectDecoded(Decoded(fields), out) == CollectFields(fields, "", out)
  {
    if fields != [] {
      var f := fields[0];
      JsonTypeAgrees(f.typ, f.name, out[f.name := f.id]);
      DecodedAgrees(fields[1..], CollectType(f.typ, f.name, out[f.name := f.id]));
      assert Decoded(fields)[1..] == Decoded(fields[1..]);
    }
  }

  // ---------------------------------------------------------------------------------------
  // The name mapping
  // ---------------------------------------------------------------------------------------

  datatype MappingEntry = MappingEntry(fieldId: Option<int>, names: seq<string>, fields: seq<MappingEntry>)

  function MappingForFields(fields: seq<NestedField>): seq<MappingEntry>
    decreases fields
  {
    if fields == [] then []
    else [MappingEntry(Some(fields[0].id), [fields[0].name], MappingForType(fields[0].typ))] + MappingForFields(fields[1..])
  }

  function MappingForType(t: IceType): seq<MappingEntry>
    decreases t
  {
    match t
    case Named(_) => []
    case Struct(fields) => MappingForFields(fields)
    case IceList(id, e, _) => [MappingEntry(Some(id), ["element"], MappingForType(e))]
    case IceMap(kid, k, vid, v, _) =>
      [MappingEntry(Some(kid), ["key"], MappingForType(k)), MappingEntry(Some(vid), ["value"], MappingForType(v))]
  }

  /** What a reader of the mapping resolves: for every node, its dotted path and its id. */
  function FlattenMapping(entries: seq<MappingEntry>, prefix: string): seq<PathId>
    decreases entries
  {
    if entries == [] then []
    else
      var e := entries[0];
      var path := Child(prefix, if e.names == [] then "" else e.names[0]);
      ((if e.fieldId.Some? then [PathId(path, e.fieldId.value)] else []) + FlattenMapping(e.fields, path))
      + FlattenMapping(entries[1..], prefix)
  }

  predicate NonEmptyNames(fields: seq<NestedField>)
    decreases fields
  {
    fields == [] || (fields[0].name != "" && NonEmptyTypeNames(fields[0].typ) && NonEmptyNames(fields[1..]))
  }

  predicate NonEmptyTypeNames(t: IceType)
    decreases t
  {
    match t
    case Named(_) => true
    case Struct(fields) => NonEmptyNames(fields)
    case IceList(_, e, _) => NonEmptyTypeNames(e)
    case IceMap(_, k, _, v, _) => NonEmptyTypeNames(k) && NonEmptyTypeNames(v)
  }

  lemma {:induction false} FlattenOne(e: MappingEntry, rest: seq<MappingEntry>, prefix: string)
    requires e.fieldId.Some? && |e.names| == 1
    ensures var path := Child(prefix, e.names[0]);
      FlattenMapping([e] + rest, prefix) ==
        ([PathId(path, e.fieldId.value)] + FlattenMapping(e.fields, path)) + FlattenMapping(rest, prefix)
  {
    assert ([e] + rest)[1..] == rest;
  }

  lemma {:induction false} MappingTypeFlat(t: IceType, path: string)
    requires path != "" && NonEmptyTypeNames(t)
    ensures FlattenMapping(MappingForType(t), path) == TypePairs(t, path)
    decreases t
  {
    match t
    case Named(_) =>
    case Struct(fields) => MappingFlat(fields, path);
    case IceList(id, e, _) =>
      MappingTypeFlat(e, path + ".element");
      FlattenLast(id, "element", MappingForType(e), path);
      assert "." + "element" == ".element";
    case IceMap(kid, k, vid, v, _) =>
      MappingTypeFlat(k, path + ".key");
      MappingTypeFlat(v, path + ".value");
      FlattenTwo(kid, MappingForType(k), vid, MappingForType(v), path);
  }

  lemma {:induction false} FlattenTwo(kid: int, ks: seq<MappingEntry>, vid: int, vs: seq<MappingEntry>, path: string)
    requires path != ""
    ensures FlattenMapping([MappingEntry(Some(kid), ["key"], ks), MappingEntry(Some(vid), ["value"], vs)], path) ==
      ([PathId(path + ".key", kid)] + FlattenMapping(ks, path + ".key"))
      + ([PathId(path + ".value", vid)] + FlattenMapping(vs, path + ".value"))
  {
    var a, b := MappingEntry(Some(kid), ["key"], ks), MappingEntry(Some(vid), ["value"], vs);
    FlattenOne(a, [b], path);
    assert [a] + [b] == [a, b];
    FlattenLast(vid, "value", vs, path);
    assert "." + "value" == ".value" && path + "." + "key" == path + ".key";
  }

  lemma {:induction false} FlattenLast(id: int, name: string, below: seq<MappingEntry>, path: string)
    requires path != ""
    ensures FlattenMapping([MappingEntry(Some(id), [name], below)], path) ==
      [PathId(path + ("." + name), id)] + FlattenMapping(below, path + ("." + name))
  {
    var e := MappingEntry(Some(id), [name], below);
    FlattenOne(e, [], path);
    assert [e] + [] == [e];
    assert path + "." + name == path + ("." + name);
  }

  /** The name mapping lists the same (path, id) pairs, in the same order, as the schema. */
  lemma {:induction false} MappingFlat(fields: seq<NestedField>, prefix: string)
    requires NonEmptyNames(fields)
    ensures FlattenMapping(MappingForFields(fields), prefix) == FieldPairs(fields, prefix)
    decreases fields
  {
    if fields != [] {
      var f := fields[0];
      MappingTypeFlat(f.typ, Child(prefix, f.name));
      MappingFlat(fields[1..], prefix);
      FlattenOne(MappingEntry(Some(f.id), [f.name], MappingForType(f.typ)), MappingForFields(fields[1..]), prefix);
    }
  }
}
