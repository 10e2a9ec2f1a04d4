/** Field ids over a whole commit history: per-commit injectivity, stability of surviving columns,
    and no id ever standing for two paths, synthetic partition columns included
    (pkg/formats/iceberg/schema.go and the id half of CommitSnapshot in target.go). */
module FieldIdHistory {
  import opened Common
  import opened Model
  import opened IcebergSchema
  import opened IcebergIds

  // ---------------------------------------------------------------------------------------
  // Distinct paths
  // ---------------------------------------------------------------------------------------

  ghost predicate DistinctNodes(nodes: seq<Node>)
  {
    forall i, j :: 0 <= i < j < |nodes| ==> nodes[i].path != nodes[j].path
  }

  predicate Plain(name: string)
  {
    name != "" && '.' !in name
  }

  /** Every name is non-empty and dot-free, and no two siblings share one. */
  predicate PlainFields(fields: seq<Field>)
    decreases fields
  {
    fields == [] ||
    (Plain(fields[0].name) && (forall i :: 0 < i < |fields| ==> fields[i].name != fields[0].name)
     && PlainSchema(fields[0].schema) && PlainFields(fields[1..]))
  }

  predicate PlainSchema(s: Schema)
    decreases s
  {
    match s
    case Scalar(_, _) => true
    case Record(fields, _) => PlainFields(fields)
    case ListOf(e, _) => PlainSchema(e)
    case MapOf(k, v, _) => PlainSchema(k) && PlainSchema(v)
  }

  predicate StartsWith(s: string, prefix: string)
  {
    |prefix| <= |s| && s[..|prefix|] == prefix
  }

  /** The path itself or something below it. */
  predicate At(s: string, path: string)
  {
    s == path || StartsWith(s, path + ".")
  }

  /** Subtrees of differently named siblings never meet. */
  lemma {:induction false} SiblingsApart(s: string, prefix: string, a: string, b: string)
    requires At(s, prefix + a) && At(s, prefix + b)
    requires '.' !in a && '.' !in b
    ensures a == b
  {
    AtStarts(s, prefix + a);
    AtStarts(s, prefix + b);
    LongerHasDot(s, prefix, a, b);
    LongerHasDot(s, prefix, b, a);
    assert a == (prefix + a)[|prefix|..] && b == (prefix + b)[|prefix|..];
  }

  lemma {:induction false} AtStarts(s: string, path: string)
    requires At(s, path)
    ensures StartsWith(s, path)
  {
    assert s == path || s[..|path + "."|][..|path|] == path;
  }

  lemma {:induction false} LongerHasDot(s: string, prefix: string, a: string, b: string)
    requires At(s, prefix + a) && StartsWith(s, prefix + b)
    ensures |a| < |b| ==> '.' in b
  {
    if |a| < |b| {
      var n := |prefix + a|;
      assert s[n] == (prefix + b)[n] == b[|a|];
      assert StartsWith(s, prefix + a + ".");
      assert s[n] == (prefix + a + ".")[n] == '.';
    }
  }

  ghost predicate AllAt(nodes: seq<Node>, path: string)
  {
    forall i :: 0 <= i < |nodes| ==> At(nodes[i].path, path)
  }

  ghost predicate AllBelow(nodes: seq<Node>, path: string)
  {
    forall i :: 0 <= i < |nodes| ==> StartsWith(nodes[i].path, path + ".")
  }

  lemma {:induction false} BelowChild(s: string, path: string, step: string)
    requires At(s, path + "." + step)
    ensures StartsWith(s, path + ".")
  {
    var long := path + "." + step;
    AtStarts(s, long);
    assert s[..|path + "."|] == s[..|long|][..|path + "."|] == path + ".";
  }

  /** A node and everything below it: all at the node's path, and distinct if what is below is. */
  lemma {:induction false} EntryDistinct(n: Node, below: seq<Node>)
    requires AllBelow(below, n.path) && DistinctNodes(below)
    ensures AllAt([n] + below, n.path) && DistinctNodes([n] + below)
  {
    var all := [n] + below;
    forall i | 0 < i < |all| ensures StartsWith(all[i].path, n.path + ".") {
      assert all[i] == below[i - 1];
    }
    forall i, j | 0 <= i < j < |all| ensures all[i].path != all[j].path {
      if i > 0 {
        assert all[i] == below[i - 1] && all[j] == below[j - 1];
      }
    }
  }

  lemma {:induction false} ApartDistinct(xs: seq<Node>, ys: seq<Node>)
    requires DistinctNodes(xs) && DistinctNodes(ys)
    requires forall i, j :: 0 <= i < |xs| && 0 <= j < |ys| ==> xs[i].path != ys[j].path
    ensures DistinctNodes(xs + ys)
  {
    var all := xs + ys;
    forall i, j | 0 <= i < j < |all| ensures all[i].path != all[j].path {
      if i < |xs| <= j {
        assert all[i] == xs[i] && all[j] == ys[j - |xs|];
      }
    }
  }

  lemma {:induction false} SchemaDistinct(s: Schema, path: string)
    requires PlainSchema(s) && path != ""
    ensures AllBelow(TypeNodes(s, path), path) && DistinctNodes(TypeNodes(s, path))
    decreases s, 0
  {
    match s
    case Scalar(_, _) =>
    case Record(fields, _) =>
      FieldsDistinct(fields, path);
      var nodes := FieldNodes(fields, path);
      forall i | 0 <= i < |nodes| ensures StartsWith(nodes[i].path, path + ".") {
        var name :| NamedIn(fields, name) && At(nodes[i].path, Child(path, name));
        BelowChild(nodes[i].path, path, name);
      }
    case ListOf(e, _) =>
      assert path + "." + "element" == path + ".element";
      StepDistinct(e, path, "element", path + ".element");
    case MapOf(k, v, _) =>
      assert path + "." + "key" == path + ".key" && path + "." + "value" == path + ".value";
      StepDistinct(k, path, "key", path + ".key");
      StepDistinct(v, path, "value", path + ".value");
      StepsApart([Node(path + ".key", None)] + TypeNodes(k, path + ".key"),
                 [Node(path + ".value", None)] + TypeNodes(v, path + ".value"), path);
  }

  lemma {:induction false} StepsApart(ks: seq<Node>, vs: seq<Node>, path: string)
    requires AllAt(ks, path + ".key") && AllAt(vs, path + ".value")
    requires DistinctNodes(ks) && DistinctNodes(vs)
    ensures DistinctNodes(ks + vs)
  {
    assert path + "." + "key" == path + ".key" && path + "." + "value" == path + ".value";
    forall i, j | 0 <= i < |ks| && 0 <= j < |vs| ensures ks[i].path != vs[j].path {
      if ks[i].path == vs[j].path {
        SiblingsApart(ks[i].path, path + ".", "key", "value");
        assert false;
      }
    }
    ApartDistinct(ks, vs);
  }

  lemma {:induction false} StepDistinct(s: Schema, path: string, step: string, at: string)
    requires PlainSchema(s) && path != "" && at == path + "." + step
    ensures var nodes := [Node(at, None)] + TypeNodes(s, at);
      AllAt(nodes, at) && AllBelow(nodes, path) && DistinctNodes(nodes)
    decreases s, 1
  {
    SchemaDistinct(s, at);
    EntryDistinct(Node(at, None), TypeNodes(s, at));
    var nodes := [Node(at, None)] + TypeNodes(s, at);
    forall i | 0 <= i < |nodes| ensures StartsWith(nodes[i].path, path + ".") {
      BelowChild(nodes[i].path, path, step);
    }
  }

  predicate NamedIn(fields: seq<Field>, name: string)
  {
    exists i :: 0 <= i < |fields| && fields[i].name == name
  }

  /** Every node of the fields lies at or below one of their names. */
  ghost predicate UnderNames(nodes: seq<Node>, fields: seq<Field>, prefix: string)
  {
    forall i :: 0 <= i < |nodes| ==> UnderName(nodes[i].path, fields, prefix)
  }

  ghost predicate UnderName(path: string, fields: seq<Field>, prefix: string)
  {
    exists name :: NamedIn(fields, name) && At(path, Child(prefix, name))
  }

  lemma {:induction false} ChildIsPrefixed(prefix: string, name: string)
    ensures Child(prefix, name) == (if prefix == "" then "" else prefix + ".") + name
  {
  }

  lemma {:induction false} PlainNames(fields: seq<Field>, i: nat)
    requires PlainFields(fields) && i < |fields|
    ensures Plain(fields[i].name)
  {
    if i > 0 {
      PlainNames(fields[1..], i - 1);
    }
  }

  /** Dot-free names and distinct siblings make every path of the schema distinct. */
  lemma {:induction false} FieldsDistinct(fields: seq<Field>, prefix: string)
    requires PlainFields(fields)
    ensures DistinctNodes(FieldNodes(fields, prefix)) && UnderNames(FieldNodes(fields, prefix), fields, prefix)
    decreases fields, 2
  {
    if fields != [] {
      var f := fields[0];
      var path := Child(prefix, f.name);
      SchemaDistinct(f.schema, path);
      var head, tail := [Node(path, f.id)] + TypeNodes(f.schema, path), FieldNodes(fields[1..], prefix);
      EntryDistinct(Node(path, f.id), TypeNodes(f.schema, path));
      FieldsDistinct(fields[1..], prefix);
      HeadApart(fields, prefix, head, tail);
      ApartDistinct(head, tail);
      HeadAndTailUnder(fields, prefix, head, tail);
    }
  }

  /** The first field's subtree shares no path with the others'. */
  lemma {:induction false} HeadApart(fields: seq<Field>, prefix: string, head: seq<Node>, tail: seq<Node>)
    requires fields != [] && PlainFields(fields) && UnderNames(tail, fields[1..], prefix)
    requires forall i :: 0 <= i < |head| ==> At(head[i].path, Child(prefix, fields[0].name))
    ensures forall i, j :: 0 <= i < |head| && 0 <= j < |tail| ==> head[i].path != tail[j].path
  {
    var f := fields[0];
    forall i, j | 0 <= i < |head| && 0 <= j < |tail| ensures head[i].path != tail[j].path {
      assert UnderName(tail[j].path, fields[1..], prefix);
      var name :| NamedIn(fields[1..], name) && At(tail[j].path, Child(prefix, name));
      var k :| 0 <= k < |fields[1..]| && fields[1..][k].name == name;
      assert fields[k + 1].name != f.name;
      PlainNames(fields[1..], k);
      NodesApart(head[i].path, tail[j].path, prefix, f.name, name);
    }
  }

  lemma {:induction false} NodesApart(s: string, t: string, prefix: string, a: string, b: string)
    requires At(s, Child(prefix, a)) && At(t, Child(prefix, b)) && Plain(a) && Plain(b) && a != b
    ensures s != t
  {
    ChildIsPrefixed(prefix, a);
    ChildIsPrefixed(prefix, b);
    if At(t, Child(prefix, a)) {
      SiblingsApart(t, if prefix == "" then "" else prefix + ".", a, b);
      assert false;
    }
  }

  lemma {:induction false} HeadAndTailUnder(fields: seq<Field>, prefix: string, head: seq<Node>, tail: seq<Node>)
    requires fields != [] && UnderNames(tail, fields[1..], prefix)
    requires forall i :: 0 <= i < |head| ==> At(head[i].path, Child(prefix, fields[0].name))
    ensures UnderNames(head + tail, fields, prefix)
  {
    var all := head + tail;
    forall i | 0 <= i < |all| ensures UnderName(all[i].path, fields, prefix) {
      if i < |head| {
        assert all[i] == head[i];
        assert NamedIn(fields, fields[0].name);
      } else {
        assert all[i] == tail[i - |head|];
        UnderMore(all[i].path, fields, prefix);
      }
    }
  }

  lemma {:induction false} UnderMore(path: string, fields: seq<Field>, prefix: string)
    requires fields != [] && UnderName(path, fields[1..], prefix)
    ensures UnderName(path, fields, prefix)
  {
    var name :| NamedIn(fields[1..], name) && At(path, Child(prefix, name));
    var k :| 0 <= k < |fields[1..]| && fields[1..][k].name == name;
    assert fields[k + 1].name == name;
    assert NamedIn(fields, name);
  }

  // ---------------------------------------------------------------------------------------
  // One commit
  // ---------------------------------------------------------------------------------------

  /** The ids on record: positive, within the high-water mark, one per path. */
  ghost predicate Sound(ids: map<string, int>, last: int)
  {
    && last >= 0
    && (forall p :: p in ids ==> 1 <= ids[p] <= last)
    && (forall p, q :: p in ids && q in ids && ids[p] == ids[q] ==> p == q)
  }

  /** Later ids as a successor of earlier ones: survivors keep theirs, newcomers get unused ones. */
  ghost predicate Succeeds(prev: map<string, int>, last: int, ids: map<string, int>, last': int)
  {
    && Sound(ids, last')
    && last <= last'
    && (forall p :: p in ids && p in prev ==> ids[p] == prev[p])
    && (forall p :: p in ids && p !in prev ==> ids[p] > last)
  }

  ghost predicate NoExplicitIds(nodes: seq<Node>)
  {
    forall i :: 0 <= i < |nodes| ==> nodes[i].explicit.None? || nodes[i].explicit.value <= 0
  }

  /** What the allocator promises for each node it serves, starting from counter `next`. */
  ghost predicate Served(ps: seq<PathId>, nodes: seq<Node>, prev: map<string, int>, next: int, end: int)
  {
    && |ps| == |nodes| && next <= end
    && (forall i :: 0 <= i < |ps| ==> ps[i].path == nodes[i].path)
    && (forall i :: 0 <= i < |ps| ==>
          if ps[i].path in prev then ps[i].id == prev[ps[i].path] else next <= ps[i].id < end)
  }

  ghost predicate DistinctIds(ps: seq<PathId>)
  {
    forall i, j :: 0 <= i < j < |ps| ==> ps[i].id != ps[j].id
  }

  lemma {:induction false} AllocatorServes(nodes: seq<Node>, prev: map<string, int>, last: int, next: int)
    requires NoExplicitIds(nodes) && DistinctNodes(nodes) && Sound(prev, last) && last < next
    ensures var (ps, end) := AssignAll(nodes, prev, next);
      Served(ps, nodes, prev, next, end) && DistinctIds(ps)
  {
    if nodes != [] {
      var (id, n0) := AssignFieldId(nodes[0].explicit, nodes[0].path, prev, next);
      AllocatorServes(nodes[1..], prev, last, n0);
      var (rest, end) := AssignAll(nodes[1..], prev, n0);
      var ps := [PathId(nodes[0].path, id)] + rest;
      forall i | 0 < i < |ps| ensures ps[i] == rest[i - 1] && ps[i].path == nodes[i].path && ps[i].id != id {
        assert rest[i - 1].path == nodes[1..][i - 1].path;
      }
      assert Served(ps, nodes, prev, next, end);
    }
  }

  lemma {:induction false} ServedEntry(ps: seq<PathId>, nodes: seq<Node>, prev: map<string, int>, next: int, end: int, p: string)
    requires Served(ps, nodes, prev, next, end) && p in IdMap(ps)
    ensures if p in prev then IdMap(ps)[p] == prev[p] else next <= IdMap(ps)[p] < end
  {
    IdMapFrom(ps, p);
  }

  lemma {:induction false} DistinctIdsInjective(ps: seq<PathId>, p: string, q: string)
    requires DistinctIds(ps) && p in IdMap(ps) && q in IdMap(ps) && IdMap(ps)[p] == IdMap(ps)[q]
    ensures p == q
  {
    IdMapFrom(ps, p);
    IdMapFrom(ps, q);
  }

  /** One round of assignment yields a sound successor. */
  lemma {:induction false} AllocatorSucceeds(nodes: seq<Node>, prev: map<string, int>, last: int)
    requires NoExplicitIds(nodes) && DistinctNodes(nodes) && Sound(prev, last)
    ensures var (ps, end) := AssignAll(nodes, prev, last + 1);
      DistinctPaths(ps) && Succeeds(prev, last, IdMap(ps), end - 1)
  {
    AllocatorServes(nodes, prev, last, last + 1);
    var (ps, end) := AssignAll(nodes, prev, last + 1);
    forall p | p in IdMap(ps)
      ensures if p in prev then IdMap(ps)[p] == prev[p] else last < IdMap(ps)[p] < end {
      ServedEntry(ps, nodes, prev, last + 1, end, p);
    }
    forall p, q | p in IdMap(ps) && q in IdMap(ps) && IdMap(ps)[p] == IdMap(ps)[q] ensures p == q {
      DistinctIdsInjective(ps, p, q);
    }
  }

  // ---------------------------------------------------------------------------------------
  // Partition columns the data schema does not carry
  // ---------------------------------------------------------------------------------------

  datatype SpecField = SpecField(sourceId: int, fieldId: int, name: string)

  datatype SchemaError = UnsupportedTransform(name: string) | NestedPartitionColumn(name: string)

  /** A written schema: its columns, the last column id and the partition spec. */
  datatype Written = Written(fields: seq<NestedField>, last: int, spec: seq<SpecField>)

  function FindId(fields: seq<NestedField>, name: string): int
  {
    if fields == [] then 0 else if fields[0].name == name then fields[0].id else FindId(fields[1..], name)
  }

  /** One partition field: reuse the column of that name, or append a synthetic one. */
  function PlaceOne(fields: seq<NestedField>, p: PartitionField, idx: int, prev: map<string, int>, last: int)
    : Result<Written, SchemaError>
  {
    if !p.identity then Err(UnsupportedTransform(p.name))
    else
      var found := FindId(fields, p.name);
      if found != 0 then Ok(Written(fields, last, [SpecField(found, 1000 + idx, p.name)]))
      else if !p.schema.Scalar? then Err(NestedPartitionColumn(p.name))
      else
        var id := if p.name in prev then prev[p.name] else last + 1;
        var column := NestedField(id, p.name, Named(AtomName(p.schema.atom)), false);
        Ok(Written(fields + [column], Max(last, id), [SpecField(id, 1000 + idx, p.name)]))
  }

  function Prefixed(spec: seq<SpecField>, r: Result<Written, SchemaError>): Result<Written, SchemaError>
  {
    if r.Err? then r else Ok(r.value.(spec := spec + r.value.spec))
  }

  function WithPartitions(fields: seq<NestedField>, parts: seq<PartitionField>, idx: int, prev: map<string, int>, last: int)
    : Result<Written, SchemaError>
    decreases parts
  {
    if parts == [] then Ok(Written(fields, last, []))
    else
      match PlaceOne(fields, parts[0], idx, prev, last)
      case Err(e) => Err(e)
      case Ok(w) => Prefixed(w.spec, WithPartitions(w.fields, parts[1..], idx + 1, prev, w.last))
  }

  lemma {:induction false} PrefixedTwice(a: seq<SpecField>, b: seq<SpecField>, r: Result<Written, SchemaError>)
    ensures Prefixed(a, Prefixed(b, r)) == Prefixed(a + b, r)
    ensures Prefixed([], r) == r
  {
    if r.Ok? {
      assert a + (b + r.value.spec) == (a + b) + r.value.spec;
      assert [] + r.value.spec == r.value.spec;
    }
  }

  /** The partition loop of CommitSnapshot. */
  method PlacePartitions(fields: seq<NestedField>, parts: seq<PartitionField>, prev: map<string, int>, last: int)
    returns (r: Result<Written, SchemaError>)
    ensures r == WithPartitions(fields, parts, 0, prev, last)
  {
    var out, high, spec := fields, last, [];
    assert parts[0..] == parts;
    PrefixedTwice([], [], WithPartitions(fields, parts, 0, prev, last));
    for i := 0 to |parts|
      invariant WithPartitions(fields, parts, 0, prev, last) == Prefixed(spec, WithPartitions(out, parts[i..], i, prev, high))
    {
      var p := parts[i];
      assert parts[i..][0] == p && parts[i..][1..] == parts[i + 1..];
      if !p.identity {
        return Err(UnsupportedTransform(p.name));
      }
      var sourceId := FindId(out, p.name);
      if sourceId == 0 {
        if !p.schema.Scalar? {
          return Err(NestedPartitionColumn(p.name));
        }
        sourceId := if p.name in prev then prev[p.name] else high + 1;
        out := out + [NestedField(sourceId, p.name, Named(AtomName(p.schema.atom)), false)];
        high := Max(high, sourceId);
      }
      PrefixedTwice(spec, [SpecField(sourceId, 1000 + i, p.name)], WithPartitions(out, parts[i + 1..], i + 1, prev, high));
      spec := spec + [SpecField(sourceId, 1000 + i, p.name)];
    }
    assert spec + [] == spec;
    r := Ok(Written(out, high, spec));
  }

  function Names(fields: seq<NestedField>): set<string> { set f | f in fields :: f.name }

  function SyntheticNodes(known: set<string>, parts: seq<PartitionField>): seq<Node>
    decreases parts
  {
    if parts == [] then []
    else if parts[0].name in known then SyntheticNodes(known, parts[1..])
    else [Node(parts[0].name, None)] + SyntheticNodes(known + {parts[0].name}, parts[1..])
  }

  ghost predicate NonZeroIds(fields: seq<NestedField>)
  {
    forall i :: 0 <= i < |fields| ==> fields[i].id != 0
  }

  lemma {:induction false} FindIdFinds(fields: seq<NestedField>, name: string)
    requires NonZeroIds(fields)
    ensures FindId(fields, name) != 0 <==> name in Names(fields)
  {
    if fields != [] {
      FindIdFinds(fields[1..], name);
      assert fields == [fields[0]] + fields[1..];
    }
  }

  lemma {:induction false} PairsAppend(fields: seq<NestedField>, f: NestedField)
    requires f.typ.Named?
    ensures FieldPairs(fields + [f], "") == FieldPairs(fields, "") + [PathId(f.name, f.id)]
  {
    if fields == [] {
      assert fields + [f] == [f] && [f][1..] == [];
    } else {
      PairsAppend(fields[1..], f);
      assert (fields + [f])[1..] == fields[1..] + [f];
    }
  }

  ghost predicate PlacedAfter(w: Written, fields: seq<NestedField>, nodes: seq<Node>, prev: map<string, int>, last: int)
  {
    var (ps, end) := AssignAll(nodes, prev, last + 1);
    FieldPairs(w.fields, "") == FieldPairs(fields, "") + ps && w.last + 1 == end
  }

  lemma {:induction false} PlacedNew(w: Written, fields: seq<NestedField>, f: NestedField, rest: seq<Node>, prev: map<string, int>, last: int)
    requires f.typ.Named? && f.id == (if f.name in prev then prev[f.name] else last + 1)
    requires last >= 0 && PlacedAfter(w, fields + [f], rest, prev, Max(last, f.id))
    ensures PlacedAfter(w, fields, [Node(f.name, None)] + rest, prev, last)
  {
    PairsAppend(fields, f);
    AssignCons(Node(f.name, None), rest, prev, last + 1);
    var ps := AssignAll(rest, prev, Max(last, f.id) + 1).0;
    assert FieldPairs(fields, "") + [PathId(f.name, f.id)] + ps == FieldPairs(fields, "") + ([PathId(f.name, f.id)] + ps);
  }

  /** Synthetic columns are served by the same allocator, after the schema's own nodes. */
  lemma {:induction false} PartitionsFlat(fields: seq<NestedField>, parts: seq<PartitionField>, idx: int, prev: map<string, int>, last: int)
    requires WithPartitions(fields, parts, idx, prev, last).Ok?
    requires NonZeroIds(fields) && last >= 0 && forall p :: p in prev ==> prev[p] >= 1
    ensures PlacedAfter(WithPartitions(fields, parts, idx, prev, last).value, fields, SyntheticNodes(Names(fields), parts), prev, last)
    decreases parts
  {
    if parts == [] {
      assert FieldPairs(fields, "") + [] == FieldPairs(fields, "");
    } else {
      var p := parts[0];
      FindIdFinds(fields, p.name);
      if FindId(fields, p.name) != 0 {
        PartitionsFlat(fields, parts[1..], idx + 1, prev, last);
      } else {
        var id := if p.name in prev then prev[p.name] else last + 1;
        var f := NestedField(id, p.name, Named(AtomName(p.schema.atom)), false);
        var r := WithPartitions(fields + [f], parts[1..], idx + 1, prev, Max(last, id));
        PartitionsFlat(fields + [f], parts[1..], idx + 1, prev, Max(last, id));
        assert Names(fields + [f]) == Names(fields) + {p.name};
        PlacedNew(r.value, fields, f, SyntheticNodes(Names(fields) + {p.name}, parts[1..]), prev, last);
      }
    }
  }

  // ---------------------------------------------------------------------------------------
  // A table's nodes, and a commit as one round of assignment
  // ---------------------------------------------------------------------------------------

  function FieldNames(fields: seq<Field>): set<string> { set f | f in fields :: f.name }

  function TableNodes(t: Table): seq<Node>
  {
    FieldNodes(t.fields, "") + SyntheticNodes(FieldNames(t.fields), t.partitions)
  }

  /** Dot-free, non-empty names, distinct siblings, no ids dictated by the source. */
  ghost predicate PlainTable(t: Table)
  {
    && PlainFields(t.fields)
    && (forall i :: 0 <= i < |t.partitions| ==> Plain(t.partitions[i].name))
    && NoExplicitIds(TableNodes(t))
  }

  lemma {:induction false} SyntheticDistinct(known: set<string>, parts: seq<PartitionField>)
    ensures DistinctNodes(SyntheticNodes(known, parts))
    ensures forall i :: 0 <= i < |SyntheticNodes(known, parts)| ==> SyntheticNodes(known, parts)[i].path !in known
    ensures (forall i :: 0 <= i < |parts| ==> Plain(parts[i].name)) ==>
      forall i :: 0 <= i < |SyntheticNodes(known, parts)| ==> Plain(SyntheticNodes(known, parts)[i].path)
    decreases parts
  {
    if parts != [] {
      if parts[0].name in known {
        SyntheticDistinct(known, parts[1..]);
      } else {
        SyntheticDistinct(known + {parts[0].name}, parts[1..]);
      }
    }
  }

  lemma {:induction false} TableDistinct(t: Table)
    requires PlainTable(t)
    ensures DistinctNodes(TableNodes(t))
  {
    var xs, ys := FieldNodes(t.fields, ""), SyntheticNodes(FieldNames(t.fields), t.partitions);
    FieldsDistinct(t.fields, "");
    SyntheticDistinct(FieldNames(t.fields), t.partitions);
    forall i, j | 0 <= i < |xs| && 0 <= j < |ys| ensures xs[i].path != ys[j].path {
      var name :| NamedIn(t.fields, name) && At(xs[i].path, Child("", name));
      var k :| 0 <= k < |t.fields| && t.fields[k].name == name;
      assert t.fields[k] in t.fields;
      assert name in FieldNames(t.fields);
      if StartsWith(xs[i].path, name + ".") {
        assert xs[i].path[|name|] == (name + ".")[|name|] == '.';
        assert xs[i].path[|name|] in xs[i].path;
      }
    }
    ApartDistinct(xs, ys);
  }

  lemma {:induction false} ConvertKeepsNames(fields: seq<Field>, prefix: string, prev: map<string, int>, next: int)
    ensures Names(ConvertFields(fields, prefix, prev, next).0) == FieldNames(fields)
    decreases fields
  {
    if fields != [] {
      var f := fields[0];
      var (id, n0) := AssignFieldId(f.id, Child(prefix, f.name), prev, next);
      var (t, n1) := ConvertType(f.schema, Child(prefix, f.name), prev, n0);
      ConvertKeepsNames(fields[1..], prefix, prev, n1);
      var rest := ConvertFields(fields[1..], prefix, prev, n1).0;
      assert fields == [f] + fields[1..];
      assert Names([NestedField(id, f.name, t, !f.schema.nullable)] + rest) == {f.name} + Names(rest);
    }
  }

  /** Every id handed out is at least 1 once the counter is. */
  lemma {:induction false} ConvertPositive(fields: seq<Field>, prefix: string, prev: map<string, int>, next: int)
    requires next >= 1 && forall p :: p in prev ==> prev[p] >= 1
    ensures NonZeroIds(ConvertFields(fields, prefix, prev, next).0) && ConvertFields(fields, prefix, prev, next).1 >= next
    decreases fields
  {
    if fields != [] {
      var f := fields[0];
      var (id, n0) := AssignFieldId(f.id, Child(prefix, f.name), prev, next);
      TypePositive(f.schema, Child(prefix, f.name), prev, n0);
      var (t, n1) := ConvertType(f.schema, Child(prefix, f.name), prev, n0);
      ConvertPositive(fields[1..], prefix, prev, n1);
    }
  }

  lemma {:induction false} TypePositive(s: Schema, path: string, prev: map<string, int>, next: int)
    requires next >= 1 && forall p :: p in prev ==> prev[p] >= 1
    ensures ConvertType(s, path, prev, next).1 >= next
    decreases s
  {
    match s
    case Scalar(_, _) =>
    case Record(fields, _) => ConvertPositive(fields, path, prev, next);
    case ListOf(e, _) =>
      var (id, n0) := AssignFieldId(None, path + ".element", prev, next);
      TypePositive(e, path + ".element", prev, n0);
    case MapOf(k, v, _) =>
      var (kid, n0) := AssignFieldId(None, path + ".key", prev, next);
      TypePositive(k, path + ".key", prev, n0);
      var (kt, n1) := ConvertType(k, path + ".key", prev, n0);
      var (vid, n2) := AssignFieldId(None, path + ".value", prev, n1);
      TypePositive(v, path + ".value", prev, n2);
  }

  /** The ids the next commit finds in a metadata file, decoded from JSON. */
  function IdsOf(w: Option<Written>): map<string, int>
  {
    if w.None? then map[] else CollectDecoded(Decoded(w.value.fields), map[])
  }

  function LastOf(w: Option<Written>): int
  {
    if w.None? then 0 else w.value.last
  }

  /** Steps 1 and 2 of CommitSnapshot: schema and partition columns against the previous metadata. */
  function CommitSchema(prev: Option<Written>, t: Table): Result<Written, SchemaError>
  {
    var (fields, next) := ConvertFields(t.fields, "", IdsOf(prev), Max(1, LastOf(prev) + 1));
    WithPartitions(fields, t.partitions, 0, IdsOf(prev), next - 1)
  }

  /** Conversion then partition columns, with the schema's own ids known to be positive. */
  lemma {:induction false} CommitPlaced(prev: Option<Written>, t: Table, fields: seq<NestedField>, n: int)
    requires CommitSchema(prev, t).Ok? && Sound(IdsOf(prev), LastOf(prev))
    requires (fields, n) == ConvertFields(t.fields, "", IdsOf(prev), LastOf(prev) + 1)
    ensures PlacedAfter(CommitSchema(prev, t).value, fields, SyntheticNodes(FieldNames(t.fields), t.partitions), IdsOf(prev), n - 1)
  {
    var ids, next := IdsOf(prev), LastOf(prev) + 1;
    assert CommitSchema(prev, t) == WithPartitions(fields, t.partitions, 0, ids, n - 1);
    TablePlaced(t, ids, next, fields, n);
  }

  lemma {:induction false} TablePlaced(t: Table, ids: map<string, int>, next: int, fields: seq<NestedField>, n: int)
    requires Sound(ids, next - 1) && (fields, n) == ConvertFields(t.fields, "", ids, next)
    requires WithPartitions(fields, t.partitions, 0, ids, n - 1).Ok?
    ensures PlacedAfter(WithPartitions(fields, t.partitions, 0, ids, n - 1).value, fields, SyntheticNodes(FieldNames(t.fields), t.partitions), ids, n - 1)
  {
    assert NonZeroIds(fields) && n >= next by { ConvertPositive(t.fields, "", ids, next); }
    assert Names(fields) == FieldNames(t.fields) by { ConvertKeepsNames(t.fields, "", ids, next); }
    PartitionsFlat(fields, t.partitions, 0, ids, n - 1);
  }

  /** A successful commit reads back as exactly what the linear allocator assigns to the table. */
  lemma {:induction false} CommitIsAssignment(prev: Option<Written>, t: Table)
    requires CommitSchema(prev, t).Ok? && Sound(IdsOf(prev), LastOf(prev))
    ensures var w := CommitSchema(prev, t).value;
      AssignAll(TableNodes(t), IdsOf(prev), LastOf(prev) + 1) == (FieldPairs(w.fields, ""), w.last + 1)
  {
    var ids, next := IdsOf(prev), LastOf(prev) + 1;
    var (fields, n) := ConvertFields(t.fields, "", ids, next);
    CommitPlaced(prev, t, fields, n);
    ConvertFieldsFlat(t.fields, "", ids, next);
    AssignConcat(FieldNodes(t.fields, ""), SyntheticNodes(FieldNames(t.fields), t.partitions), ids, next);
  }

  lemma {:induction false} ReadsBack(w: Written)
    requires DistinctPaths(FieldPairs(w.fields, ""))
    ensures IdsOf(Some(w)) == IdMap(FieldPairs(w.fields, ""))
  {
    CollectFieldIds(w.fields, "", map[]);
    DecodedAgrees(w.fields, map[]);
    assert map[] + IdMap(FieldPairs(w.fields, "")) == IdMap(FieldPairs(w.fields, ""));
  }

  /** One commit: ids are injective, survivors keep theirs under any reorder, newcomers get ids never
      used before, and the last column id does not decrease. */
  lemma {:induction false} CommitSucceeds(prev: Option<Written>, t: Table)
    requires CommitSchema(prev, t).Ok? && PlainTable(t) && Sound(IdsOf(prev), LastOf(prev))
    ensures var w := CommitSchema(prev, t).value;
      && Succeeds(IdsOf(prev), LastOf(prev), IdsOf(Some(w)), w.last)
      && IdsOf(Some(w)).Keys == set n | n in TableNodes(t) :: n.path
  {
    CommitIsAssignment(prev, t);
    AssignmentSucceeds(CommitSchema(prev, t).value, t, IdsOf(prev), LastOf(prev));
  }

  lemma {:induction false} AssignmentSucceeds(w: Written, t: Table, ids: map<string, int>, last: int)
    requires PlainTable(t) && Sound(ids, last)
    requires AssignAll(TableNodes(t), ids, last + 1) == (FieldPairs(w.fields, ""), w.last + 1)
    ensures Succeeds(ids, last, IdsOf(Some(w)), w.last)
    ensures IdsOf(Some(w)).Keys == set n | n in TableNodes(t) :: n.path
  {
    var nodes, ps := TableNodes(t), FieldPairs(w.fields, "");
    TableDistinct(t);
    assert DistinctPaths(ps) && Succeeds(ids, last, IdMap(ps), w.last) by { AllocatorSucceeds(nodes, ids, last); }
    assert IdMap(ps).Keys == set n | n in nodes :: n.path by {
      AllocatorServes(nodes, ids, last, last + 1);
      PairPaths(ps, nodes);
    }
    ReadsBack(w);
  }

  lemma {:induction false} PairPaths(ps: seq<PathId>, nodes: seq<Node>)
    requires |ps| == |nodes| && forall i :: 0 <= i < |ps| ==> ps[i].path == nodes[i].path
    ensures IdMap(ps).Keys == set n | n in nodes :: n.path
  {
    forall p | p in IdMap(ps) ensures exists n :: n in nodes && n.path == p {
      IdMapFrom(ps, p);
      var i :| 0 <= i < |ps| && ps[i] == PathId(p, IdMap(ps)[p]);
      assert nodes[i] in nodes;
    }
    forall n | n in nodes ensures n.path in IdMap(ps) {
      var i :| 0 <= i < |nodes| && nodes[i] == n;
      IdMapHas(ps, ps[i]);
    }
  }

  // ---------------------------------------------------------------------------------------
  // Whole histories
  // ---------------------------------------------------------------------------------------

  function Before(ws: seq<Written>, i: nat): Option<Written>
    requires i <= |ws|
  {
    if i == 0 then None else Some(ws[i - 1])
  }

  /** The metadata sequence a target writes for a sequence of tables. */
  ghost predicate IsHistory(tables: seq<Table>, ws: seq<Written>)
  {
    |ws| == |tables| && forall i :: 0 <= i < |ws| ==> WrittenAt(tables, ws, i)
  }

  /** The i-th metadata file is what committing the i-th, plain, table after the one before gives. */
  ghost predicate WrittenAt(tables: seq<Table>, ws: seq<Written>, i: nat)
    requires i < |ws| && |ws| == |tables|
  {
    PlainTable(tables[i]) && CommitSchema(Before(ws, i), tables[i]) == Ok(ws[i])
  }

  /** What of a metadata file matters for ids: its path-to-id map and its last column id. */
  datatype IdState = IdState(ids: map<string, int>, last: int)

  function StateOf(w: Option<Written>): IdState { IdState(IdsOf(w), LastOf(w)) }

  function States(ws: seq<Written>): seq<IdState>
  {
    seq(|ws|, i requires 0 <= i < |ws| => StateOf(Some(ws[i])))
  }

  function Previous(st: seq<IdState>, i: nat): IdState
    requires i <= |st|
  {
    if i == 0 then IdState(map[], 0) else st[i - 1]
  }

  ghost predicate SoundState(a: IdState) { Sound(a.ids, a.last) }

  ghost predicate Follows(a: IdState, b: IdState) { Succeeds(a.ids, a.last, b.ids, b.last) }

  ghost predicate IdChain(st: seq<IdState>)
  {
    forall i {:trigger Previous(st, i)} :: 0 <= i < |st| ==> Follows(Previous(st, i), st[i])
  }

  lemma {:induction false} CommitStep(prev: Option<Written>, t: Table, w: Written)
    requires CommitSchema(prev, t) == Ok(w) && PlainTable(t)
    ensures SoundState(StateOf(prev)) ==> Follows(StateOf(prev), StateOf(Some(w)))
    ensures SoundState(StateOf(prev)) ==> StateOf(Some(w)).ids.Keys == set n | n in TableNodes(t) :: n.path
  {
    if SoundState(StateOf(prev)) {
      CommitSucceeds(prev, t);
    }
  }

  lemma {:induction false} ChainFromSteps(st: seq<IdState>)
    requires forall i :: 0 <= i < |st| ==> SoundState(Previous(st, i)) ==> Follows(Previous(st, i), st[i])
    ensures IdChain(st)
  {
    for i := 0 to |st|
      invariant forall k :: 0 <= k < i ==> Follows(Previous(st, k), st[k])
    {
      if i > 0 {
        assert Previous(st, i) == st[i - 1];
        assert Follows(Previous(st, i - 1), st[i - 1]);
      }
      assert SoundState(Previous(st, i));
    }
  }

  lemma {:induction false} HistoryStep(tables: seq<Table>, ws: seq<Written>, i: nat)
    requires IsHistory(tables, ws) && i < |ws|
    ensures SoundState(StateOf(Before(ws, i))) ==> Follows(StateOf(Before(ws, i)), StateOf(Some(ws[i])))
  {
    assert WrittenAt(tables, ws, i);
    CommitStep(Before(ws, i), tables[i], ws[i]);
  }

  lemma {:induction false} StatesAt(ws: seq<Written>, i: nat)
    requires i < |ws|
    ensures Previous(States(ws), i) == StateOf(Before(ws, i)) && States(ws)[i] == StateOf(Some(ws[i]))
  {
  }

  /** Every commit of every history is a sound successor of the one before it. */
  lemma {:induction false} HistoryIsChain(tables: seq<Table>, ws: seq<Written>)
    requires IsHistory(tables, ws)
    ensures IdChain(States(ws))
  {
    var st := States(ws);
    forall i | 0 <= i < |st| ensures SoundState(Previous(st, i)) ==> Follows(Previous(st, i), st[i]) {
      HistoryStep(tables, ws, i);
      StatesAt(ws, i);
    }
    ChainFromSteps(st);
  }

  /** The last column id never decreases. */
  lemma {:induction false} LastColumnIdMonotone(st: seq<IdState>, i: nat, j: nat)
    requires IdChain(st) && i <= j < |st|
    ensures st[i].last <= st[j].last
    decreases j
  {
    if i < j {
      LastColumnIdMonotone(st, i, j - 1);
      assert Previous(st, j) == st[j - 1];
    }
  }

  lemma {:induction false} KeptOrFresh(st: seq<IdState>, j: nat, q: string)
    requires IdChain(st) && 0 < j < |st| && q in st[j].ids
    ensures (q in st[j - 1].ids && st[j - 1].ids[q] == st[j].ids[q]) || st[j].ids[q] > st[j - 1].last
  {
    assert Follows(Previous(st, j), st[j]);
  }

  lemma {:induction false} WithinLast(st: seq<IdState>, i: nat, p: string, q: string)
    requires IdChain(st) && i < |st| && p in st[i].ids
    ensures st[i].ids[p] <= st[i].last
    ensures q in st[i].ids && st[i].ids[p] == st[i].ids[q] ==> p == q
  {
    assert Follows(Previous(st, i), st[i]);
  }

  /** No id ever denotes two different paths, in one commit or across the history. */
  lemma {:induction false} NoIdReuse(st: seq<IdState>, i: nat, j: nat, p: string, q: string)
    requires IdChain(st) && i <= j < |st|
    requires p in st[i].ids && q in st[j].ids && st[i].ids[p] == st[j].ids[q]
    ensures p == q
    decreases j
  {
    WithinLast(st, i, p, q);
    if i < j {
      LastColumnIdMonotone(st, i, j - 1);
      KeptOrFresh(st, j, q);
      NoIdReuse(st, i, j - 1, p, q);
    }
  }

  ghost predicate PresentThroughout(st: seq<IdState>, i: nat, j: nat, p: string)
    requires i <= j < |st|
  {
    forall k :: i <= k <= j ==> p in st[k].ids
  }

  /** A path present in every commit of a stretch keeps one id through it, however columns move. */
  lemma {:induction false} SurvivorKeepsId(st: seq<IdState>, i: nat, j: nat, p: string)
    requires IdChain(st) && i <= j < |st| && PresentThroughout(st, i, j, p)
    ensures st[i].ids[p] == st[j].ids[p]
    decreases j
  {
    if i < j {
      SurvivorKeepsId(st, i, j - 1, p);
      assert Previous(st, j) == st[j - 1];
    }
  }

  /** A path absent from some commit comes back, if at all, with an id above every id used by then. */
  lemma {:induction false} ReaddedIsFresh(st: seq<IdState>, i: nat, j: nat, p: string)
    requires IdChain(st) && i < j < |st| && p !in st[i].ids && p in st[j].ids
    ensures st[j].ids[p] > st[i].last
    decreases j
  {
    assert Previous(st, j) == st[j - 1];
    if p in st[j - 1].ids {
      ReaddedIsFresh(st, i, j - 1, p);
    } else {
      LastColumnIdMonotone(st, i, j - 1);
    }
  }

  /** Ids dictated by the source break uniqueness once fresh ids are handed out between them: a list
      column with explicit id 1 takes 2 for its element, which the next column then claims. */
  lemma {:induction false} ExplicitIdsCollide()
    ensures var nodes := [Node("a", Some(1)), Node("a.element", None), Node("b", Some(2))];
      var ps := AssignAll(nodes, map[], 1).0;
      |ps| == 3 && ps[1].id == ps[2].id && ps[1].path != ps[2].path
  {
    var nodes := [Node("a", Some(1)), Node("a.element", None), Node("b", Some(2))];
    assert nodes[1..] == [Node("a.element", None), Node("b", Some(2))];
    assert nodes[1..][1..] == [Node("b", Some(2))];
    assert nodes[1..][1..][1..] == [];
    assert AssignAll(nodes[1..][1..], map[], 3).0 == [PathId("b", 2)];
    assert AssignAll(nodes[1..], map[], 2).0 == [PathId("a.element", 2), PathId("b", 2)];
    assert "a.element"[1] == '.';
  }

  // ---------------------------------------------------------------------------------------
  // Dotted names
  // ---------------------------------------------------------------------------------------

  /** A struct a with a column b, and a column that is itself called a.b. */
  const Dotted: Table :=
    Table([Field("a", None, Record([Field("b", None, Scalar(Int, true))], true)), Field("a.b", None, Scalar(Int, true))], [])

  function DottedColumns(a: int, b: int, c: int): seq<NestedField>
  {
    [NestedField(a, "a", Struct([NestedField(b, "b", Named("int"), false)]), false), NestedField(c, "a.b", Named("int"), false)]
  }

  lemma {:induction false} DottedConverts(prev: map<string, int>, next: int)
    ensures var (a, n0) := AssignFieldId(None, "a", prev, next);
      var (b, n1) := AssignFieldId(None, "a.b", prev, n0);
      var (c, n2) := AssignFieldId(None, "a.b", prev, n1);
      ConvertFields(Dotted.fields, "", prev, next) == (DottedColumns(a, b, c), n2)
  {
    var inner, outer := Field("b", None, Scalar(Int, true)), Field("a.b", None, Scalar(Int, true));
    var (a, n0) := AssignFieldId(None, "a", prev, next);
    var (b, n1) := AssignFieldId(None, "a.b", prev, n0);
    assert "a" + "." + "b" == "a.b";
    OneConverts(inner, "a", prev, n0);
    OneConverts(outer, "", prev, n1);
    var struct := Field("a", None, Record([inner], true));
    assert ConvertType(struct.schema, "a", prev, n0) == (Struct([NestedField(b, "b", Named("int"), false)]), n1);
    assert Dotted.fields == [struct] + [outer];
    ConvertHead(Dotted.fields, [outer], struct, prev, next);
    var columns := DottedColumns(a, b, AssignFieldId(None, "a.b", prev, n1).0);
    assert columns == [columns[0]] + [columns[1]];
  }

  lemma {:induction false} OneConverts(f: Field, prefix: string, prev: map<string, int>, next: int)
    requires f.schema == Scalar(Int, true)
    ensures var (id, n) := AssignFieldId(f.id, Child(prefix, f.name), prev, next);
      ConvertFields([f], prefix, prev, next) == ([NestedField(id, f.name, Named("int"), false)], n)
  {
    var (id, n) := AssignFieldId(f.id, Child(prefix, f.name), prev, next);
    assert [f][1..] == [] && ConvertFields([], prefix, prev, n) == ([], n);
    assert [NestedField(id, f.name, Named("int"), false)] + [] == [NestedField(id, f.name, Named("int"), false)];
  }

  lemma {:induction false} DottedIds(a: int, b: int, c: int, last: int)
    ensures IdsOf(Some(Written(DottedColumns(a, b, c), last, []))) == map["a" := a, "a.b" := c]
  {
    var columns := DottedColumns(a, b, c);
    var inner, outer := NestedField(b, "b", Named("int"), false), columns[1];
    DecodedAgrees(columns, map[]);
    assert "a" + "." + "b" == "a.b";
    assert [inner][1..] == [] && CollectFields([inner], "a", map["a" := a]) == map["a" := a, "a.b" := b];
    assert columns[1..] == [outer] && [outer][1..] == [];
    assert CollectFields([outer], "", map["a" := a, "a.b" := b]) == map["a" := a, "a.b" := c];
  }

  /** Two columns with one dotted path: in the second commit both take the id on record for it. */
  lemma {:induction false} DottedNamesCollide()
    ensures var first := Written(DottedColumns(1, 2, 3), 3, []);
      && CommitSchema(None, Dotted) == Ok(first)
      && CommitSchema(Some(first), Dotted) == Ok(Written(DottedColumns(1, 3, 3), 3, []))
  {
    FreshDotted();
    DottedCommit(None, 1, 2, 3, 4);
    DottedIds(1, 2, 3, 3);
    RecordedDotted();
    DottedCommit(Some(Written(DottedColumns(1, 2, 3), 3, [])), 1, 3, 3, 4);
  }

  lemma {:induction false} FreshDotted()
    ensures ConvertFields(Dotted.fields, "", map[], 1) == (DottedColumns(1, 2, 3), 4)
  {
    DottedConverts(map[], 1);
  }

  lemma {:induction false} RecordedDotted()
    ensures ConvertFields(Dotted.fields, "", map["a" := 1, "a.b" := 3], 4) == (DottedColumns(1, 3, 3), 4)
  {
    DottedConverts(map["a" := 1, "a.b" := 3], 4);
  }

  lemma {:induction false} DottedCommit(prev: Option<Written>, a: int, b: int, c: int, end: int)
    requires ConvertFields(Dotted.fields, "", IdsOf(prev), Max(1, LastOf(prev) + 1)) == (DottedColumns(a, b, c), end)
    ensures CommitSchema(prev, Dotted) == Ok(Written(DottedColumns(a, b, c), end - 1, []))
  {
  }

  // ---------------------------------------------------------------------------------------
  // Ids dictated by the source
  // ---------------------------------------------------------------------------------------

  /** The id a node brings along: dictated by the source, or on record for its path. */
  function Claimed(n: Node, prev: map<string, int>): Option<int>
  {
    if n.explicit.Some? && n.explicit.value > 0 then n.explicit
    else if n.path in prev then Some(prev[n.path])
    else None
  }

  /** The counter after these nodes: past every id brought along, one up for every other node. */
  function CounterAfter(nodes: seq<Node>, prev: map<string, int>, next: int): int
  {
    if nodes == [] then next
    else
      var before, claim := CounterAfter(nodes[..|nodes| - 1], prev, next), Claimed(Last(nodes), prev);
      if claim.Some? then Max(before, claim.value + 1) else before + 1
  }

  /** Node k takes this id: it brings it along, or finds the counter at it. */
  ghost predicate Takes(nodes: seq<Node>, prev: map<string, int>, next: int, k: nat, id: int)
    requires k < |nodes|
  {
    var claim := Claimed(nodes[k], prev);
    if claim.Some? then claim.value == id else CounterAfter(nodes[..k], prev, next) == id
  }

  /** Node i brings an id that an earlier node takes. */
  ghost predicate ClaimsTaken(nodes: seq<Node>, prev: map<string, int>, next: int, i: nat)
  {
    && i < |nodes| && Claimed(nodes[i], prev).Some?
    && exists k :: 0 <= k < i && Takes(nodes, prev, next, k, Claimed(nodes[i], prev).value)
  }

  lemma {:induction false} AssignedBelow(nodes: seq<Node>, prev: map<string, int>, next: int)
    ensures var (ps, end) := AssignAll(nodes, prev, next); |ps| == |nodes| && next <= end && forall p :: p in ps ==> p.id < end
  {
    if nodes != [] {
      var (id, n0) := AssignFieldId(nodes[0].explicit, nodes[0].path, prev, next);
      AssignedBelow(nodes[1..], prev, n0);
    }
  }

  lemma {:induction false} AssignLast(nodes: seq<Node>, prev: map<string, int>, next: int)
    requires nodes != []
    ensures var init, n := nodes[..|nodes| - 1], Last(nodes);
      var (ps, end) := AssignAll(init, prev, next);
      && AssignAll(nodes, prev, next).0 == ps + [PathId(n.path, if Claimed(n, prev).Some? then Claimed(n, prev).value else end)]
      && AssignAll(nodes, prev, next).1 == if Claimed(n, prev).Some? then Max(end, Claimed(n, prev).value + 1) else end + 1
  {
    var init, n := nodes[..|nodes| - 1], Last(nodes);
    assert nodes == init + [n];
    AssignConcat(init, [n], prev, next);
    assert [n][1..] == [];
  }

  lemma {:induction false} CounterIs(nodes: seq<Node>, prev: map<string, int>, next: int)
    ensures AssignAll(nodes, prev, next).1 == CounterAfter(nodes, prev, next)
    decreases |nodes|
  {
    if nodes != [] {
      CounterIs(nodes[..|nodes| - 1], prev, next);
      AssignLast(nodes, prev, next);
    }
  }

  lemma {:induction false} TakesStable(nodes: seq<Node>, prev: map<string, int>, next: int, n: nat, k: nat, id: int)
    requires k < n <= |nodes|
    ensures Takes(nodes[..n], prev, next, k, id) <==> Takes(nodes, prev, next, k, id)
  {
    assert nodes[..n][..k] == nodes[..k];
  }

  ghost predicate Given(ps: seq<PathId>, id: int) { exists p :: p in ps && p.id == id }

  lemma {:induction false} GivenSnoc(ps: seq<PathId>, x: PathId, id: int)
    ensures Given(ps + [x], id) <==> Given(ps, id) || x.id == id
  {
    assert forall p :: p in ps + [x] <==> p in ps || p == x;
    assert x in ps + [x];
    if Given(ps, id) {
      var p :| p in ps && p.id == id;
      assert p in ps + [x];
    }
  }

  /** The ids given out are those taken. */
  lemma {:induction false} GivenIsTaken(nodes: seq<Node>, prev: map<string, int>, next: int, id: int)
    ensures Given(AssignAll(nodes, prev, next).0, id) <==> exists k :: 0 <= k < |nodes| && Takes(nodes, prev, next, k, id)
    decreases |nodes|
  {
    if nodes != [] {
      var n := |nodes| - 1;
      var (ps, end) := AssignAll(nodes[..n], prev, next);
      GivenIsTaken(nodes[..n], prev, next, id);
      AssignLast(nodes, prev, next);
      CounterIs(nodes[..n], prev, next);
      var claim := Claimed(nodes[n], prev);
      GivenSnoc(ps, PathId(nodes[n].path, if claim.Some? then claim.value else end), id);
      forall k | 0 <= k < n ensures Takes(nodes[..n], prev, next, k, id) <==> Takes(nodes, prev, next, k, id) {
        TakesStable(nodes, prev, next, n, k, id);
      }
      assert Takes(nodes, prev, next, n, id) <==> (if claim.Some? then claim.value else end) == id;
    }
  }

  lemma {:induction false} ClaimsStable(nodes: seq<Node>, prev: map<string, int>, next: int, n: nat, i: nat)
    requires i < n <= |nodes|
    ensures ClaimsTaken(nodes, prev, next, i) <==> ClaimsTaken(nodes[..n], prev, next, i)
  {
    forall k, id | 0 <= k < i ensures Takes(nodes[..n], prev, next, k, id) <==> Takes(nodes, prev, next, k, id) {
      TakesStable(nodes, prev, next, n, k, id);
    }
  }

  lemma {:induction false} LastClaims(nodes: seq<Node>, prev: map<string, int>, next: int)
    requires nodes != []
    ensures var n := |nodes| - 1; var claim := Claimed(nodes[n], prev);
      ClaimsTaken(nodes, prev, next, n) <==> claim.Some? && Given(AssignAll(nodes[..n], prev, next).0, claim.value)
  {
    var n := |nodes| - 1;
    var claim := Claimed(nodes[n], prev);
    if claim.Some? {
      GivenIsTaken(nodes[..n], prev, next, claim.value);
      forall k | 0 <= k < n ensures Takes(nodes[..n], prev, next, k, claim.value) <==> Takes(nodes, prev, next, k, claim.value) {
        TakesStable(nodes, prev, next, n, k, claim.value);
      }
    }
  }

  lemma {:induction false} DistinctIdsSnoc(ps: seq<PathId>, x: PathId)
    ensures DistinctIds(ps + [x]) <==> DistinctIds(ps) && !Given(ps, x.id)
  {
    var longer := ps + [x];
    assert forall i :: 0 <= i < |ps| ==> longer[i] == ps[i];
    assert longer[|ps|] == x;
  }

  /** One commit's ids are unique if and only if no field brings along, from the source or from the record, an id
      that an earlier field brings along or finds the counter at; a fresh id never collides. */
  lemma {:induction false} AssignDistinctIff(nodes: seq<Node>, prev: map<string, int>, next: int)
    ensures DistinctIds(AssignAll(nodes, prev, next).0) <==> forall i :: 0 <= i < |nodes| ==> !ClaimsTaken(nodes, prev, next, i)
    decreases |nodes|
  {
    if nodes != [] {
      var n := |nodes| - 1;
      AssignDistinctIff(nodes[..n], prev, next);
      DistinctStep(nodes, prev, next);
      forall i | 0 <= i < n ensures ClaimsTaken(nodes, prev, next, i) <==> ClaimsTaken(nodes[..n], prev, next, i) {
        ClaimsStable(nodes, prev, next, n, i);
      }
    }
  }

  lemma {:induction false} DistinctStep(nodes: seq<Node>, prev: map<string, int>, next: int)
    requires nodes != []
    ensures var n := |nodes| - 1;
      DistinctIds(AssignAll(nodes, prev, next).0) <==> DistinctIds(AssignAll(nodes[..n], prev, next).0) && !ClaimsTaken(nodes, prev, next, n)
  {
    var n := |nodes| - 1;
    var (ps, end) := AssignAll(nodes[..n], prev, next);
    var claim := Claimed(nodes[n], prev);
    AssignLast(nodes, prev, next);
    AssignedBelow(nodes[..n], prev, next);
    LastClaims(nodes, prev, next);
    DistinctIdsSnoc(ps, PathId(nodes[n].path, if claim.Some? then claim.value else end));
  }

  // ---------------------------------------------------------------------------------------
  // Over the whole history
  // ---------------------------------------------------------------------------------------

  /** Every metadata history a target writes: an id read back from any commit denotes one path for good, the
      path keeps it as long as it stays, and a path that went away comes back under an id never used. */
  lemma {:induction false} HistoryIds(tables: seq<Table>, ws: seq<Written>, i: nat, j: nat, p: string)
    requires IsHistory(tables, ws) && i <= j < |ws|
    ensures ws[i].last <= ws[j].last
    ensures forall q :: p in IdsOf(Some(ws[i])) && q in IdsOf(Some(ws[j])) && IdsOf(Some(ws[i]))[p] == IdsOf(Some(ws[j]))[q] ==> p == q
    ensures (forall k :: i <= k <= j ==> p in IdsOf(Some(ws[k]))) ==> IdsOf(Some(ws[i]))[p] == IdsOf(Some(ws[j]))[p]
    ensures p !in IdsOf(Some(ws[i])) && p in IdsOf(Some(ws[j])) ==> IdsOf(Some(ws[j]))[p] > ws[i].last
  {
    var st := States(ws);
    HistoryIsChain(tables, ws);
    ChainIds(st, i, j, p);
    StatesAt(ws, i);
    StatesAt(ws, j);
    if forall k :: i <= k <= j ==> p in IdsOf(Some(ws[k])) {
      forall k | i <= k <= j ensures p in st[k].ids {
        StatesAt(ws, k);
      }
      assert PresentThroughout(st, i, j, p);
    }
  }

  lemma {:induction false} ChainIds(st: seq<IdState>, i: nat, j: nat, p: string)
    requires IdChain(st) && i <= j < |st|
    ensures st[i].last <= st[j].last
    ensures forall q :: p in st[i].ids && q in st[j].ids && st[i].ids[p] == st[j].ids[q] ==> p == q
    ensures PresentThroughout(st, i, j, p) ==> st[i].ids[p] == st[j].ids[p]
    ensures p !in st[i].ids && p in st[j].ids ==> st[j].ids[p] > st[i].last
  {
    LastColumnIdMonotone(st, i, j);
    forall q | p in st[i].ids && q in st[j].ids && st[i].ids[p] == st[j].ids[q] ensures p == q {
      NoIdReuse(st, i, j, p, q);
    }
    if PresentThroughout(st, i, j, p) {
      SurvivorKeepsId(st, i, j, p);
    }
    if p !in st[i].ids && p in st[j].ids {
      ReaddedIsFresh(st, i, j, p);
    }
  }
}
