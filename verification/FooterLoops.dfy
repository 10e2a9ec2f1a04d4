/** The loops of pkg/formats/parquet/merge.go: collecting occurrences, merging column by column, and
    ordering the footers newest first. */
module FooterLoops {
  import opened Common
  import opened FooterMerge

  /** Names in first-occurrence order, and the columns of each. */
  ghost predicate Collected(seen: seq<Column>, order: seq<string>, occurrences: map<string, seq<Column>>)
  {
    && order == Order(seen)
    && (forall n :: n in occurrences <==> n in order)
    && (forall n :: n in occurrences ==> occurrences[n] == Occurrences(seen, n))
  }

  lemma {:induction false} CollectedSnoc(seen: seq<Column>, order: seq<string>, occurrences: map<string, seq<Column>>, c: Column)
    requires Collected(seen, order, occurrences)
    ensures var before := if c.name in occurrences then occurrences[c.name] else [];
      Collected(seen + [c], if c.name in occurrences then order else order + [c.name], occurrences[c.name := before + [c]])
  {
    OrderSnoc(seen, c);
    assert c.name !in occurrences ==> Occurrences(seen, c.name) == [] by { Unseen(seen, c.name); }
    forall n ensures Occurrences(seen + [c], n) == if n == c.name then Occurrences(seen, n) + [c] else Occurrences(seen, n) {
      OccurrencesSnoc(seen, c, n);
    }
  }

  lemma {:induction false} Unseen(seen: seq<Column>, name: string)
    ensures name !in Order(seen) ==> Occurrences(seen, name) == []
  {
    OccurrencesMembers(seen, name);
    OrderMembers(seen);
    if Occurrences(seen, name) != [] {
      assert Occurrences(seen, name)[0] in Occurrences(seen, name);
      assert NamesColumn(seen, name);
    }
  }

  lemma {:induction false} OrderSnoc(seen: seq<Column>, c: Column)
    ensures Order(seen + [c]) == if c.name in Order(seen) then Order(seen) else Order(seen) + [c.name]
  {
    assert (seen + [c])[..|seen|] == seen;
  }

  lemma {:induction false} OccurrencesSnoc(seen: seq<Column>, c: Column, name: string)
    ensures Occurrences(seen + [c], name) == if name == c.name then Occurrences(seen, name) + [c] else Occurrences(seen, name)
  {
    assert (seen + [c])[..|seen|] == seen;
  }

  method CollectOne(ghost seen: seq<Column>, order: seq<string>, occurrences: map<string, seq<Column>>, c: Column)
    returns (order': seq<string>, occurrences': map<string, seq<Column>>)
    requires Collected(seen, order, occurrences)
    ensures Collected(seen + [c], order', occurrences')
  {
    CollectedSnoc(seen, order, occurrences, c);
    var before := if c.name in occurrences then occurrences[c.name] else [];
    order' := if c.name in occurrences then order else order + [c.name];
    occurrences' := occurrences[c.name := before + [c]];
  }

  method CollectPart(ghost seen: seq<Column>, order: seq<string>, occurrences: map<string, seq<Column>>, part: seq<Column>)
    returns (order': seq<string>, occurrences': map<string, seq<Column>>)
    requires Collected(seen, order, occurrences)
    ensures Collected(seen + part, order', occurrences')
  {
    order', occurrences' := order, occurrences;
    ghost var now := seen;
    assert seen + part[..0] == seen;
    for f := 0 to |part|
      invariant now == seen + part[..f] && Collected(now, order', occurrences')
    {
      order', occurrences' := CollectOne(now, order', occurrences', part[f]);
      Extended(seen, part, f);
      now := now + [part[f]];
    }
    assert part[..|part|] == part;
  }

  lemma {:induction false} Extended(seen: seq<Column>, part: seq<Column>, f: nat)
    requires f < |part|
    ensures seen + part[..f + 1] == (seen + part[..f]) + [part[f]]
  {
  }

  lemma {:induction false} FlattenSnoc(parts: seq<seq<Column>>, part: seq<Column>)
    ensures Flatten(parts + [part]) == Flatten(parts) + part
  {
    FlattenConcat(parts, [part]);
    assert Flatten([part]) == part + Flatten([part][1..]) == part;
  }

  method Collect(parts: seq<seq<Column>>) returns (order: seq<string>, occurrences: map<string, seq<Column>>)
    ensures Collected(Flatten(parts), order, occurrences)
  {
    order, occurrences := [], map[];
    for p := 0 to |parts|
      invariant Collected(Flatten(parts[..p]), order, occurrences)
    {
      order, occurrences := CollectPart(Flatten(parts[..p]), order, occurrences, parts[p]);
      FlattenSnoc(parts[..p], parts[p]);
      assert parts[..p + 1] == parts[..p] + [parts[p]];
    }
    assert parts[..|parts|] == parts;
  }

  /** The first loop: a missing type, or whether any occurrence may be null. */
  method CheckTypes(found: seq<Column>, short: bool) returns (typed: bool, nullable: bool)
    ensures typed == Typed(found)
    ensures typed ==> (nullable <==> short || exists k :: 0 <= k < |found| && Nullable(found[k]))
  {
    nullable := short;
    for i := 0 to |found|
      invariant forall k :: 0 <= k < i ==> found[k].typ.Some?
      invariant nullable <==> short || exists k :: 0 <= k < i && Nullable(found[k])
    {
      if found[i].typ.None? {
        return false, nullable;
      }
      nullable := nullable || found[i].typ.value.nullable;
    }
    typed := true;
  }

  method CheckAgreement(found: seq<Column>) returns (agree: bool)
    requires found != [] && Typed(found)
    ensures agree == Agreeing(found)
  {
    for i := 1 to |found|
      invariant forall k :: 0 <= k < i ==> Agree(found[0].typ.value, found[k].typ.value)
    {
      if !Agree(found[0].typ.value, found[i].typ.value) {
        return false;
      }
    }
    agree := true;
  }

  method MergeFound(parts: seq<seq<Column>>, name: string, parent: string, found: seq<Column>) returns (r: Result<Column, MergeError>)
    requires InUse(parts, name) && found == Occurrences(Flatten(parts), name)
    ensures r == MergeColumn(parts, name, parent)
    decreases Height(Flatten(parts)), 0
  {
    var path := PathOf(parent, name);
    var typed, nullable := CheckTypes(found, |found| < |parts|);
    if !typed {
      return Err(Untyped(path));
    }
    var agree := CheckAgreement(found);
    if !agree {
      return Err(Conflict(path));
    }
    var first := found[0];
    if first.typ.value.shape.Struct? {
      AgreeingStructs(found);
      OccurrencesMembers(Flatten(parts), name);
      InsideIsLower(Flatten(parts), found);
      var nested := MergeParts(Insides(found), path);
      if nested.Err? {
        return Err(nested.error);
      }
      return Ok(Column(name, first.id, Some(FooterType(Struct(nested.value), nullable))));
    }
    r := Ok(Column(name, first.id, Some(FooterType(first.typ.value.shape, nullable))));
  }

  lemma {:induction false} ColumnsStep(parts: seq<seq<Column>>, names: seq<string>, i: nat, parent: string)
    requires i < |names| && (forall k :: 0 <= k < |names| ==> InUse(parts, names[k])) && MergeColumns(parts, names[..i], parent).Ok?
    ensures MergeColumns(parts, names[..i + 1], parent) ==
      match MergeColumn(parts, names[i], parent)
      case Ok(c) => Ok(MergeColumns(parts, names[..i], parent).value + [c])
      case Err(e) => Err(e)
  {
    assert names[..i + 1][..i] == names[..i];
  }

  method MergeParts(parts: seq<seq<Column>>, parent: string) returns (r: Result<seq<Column>, MergeError>)
    ensures r == MergeRecords(parts, parent)
    decreases Height(Flatten(parts)), 1
  {
    var order, occurrences := Collect(parts);
    OrderInUse(parts);
    var merged: seq<Column> := [];
    for i := 0 to |order|
      invariant MergeColumns(parts, order[..i], parent) == Ok(merged)
    {
      assert order[i] in occurrences;
      var c := MergeFound(parts, order[i], parent, occurrences[order[i]]);
      ColumnsStep(parts, order, i, parent);
      if c.Err? {
        FirstFailure(parts, order, i + 1, parent);
        return Err(c.error);
      }
      merged := merged + [c.value];
    }
    assert order[..|order|] == order;
    r := Ok(merged);
  }

  lemma {:induction false} FirstFailure(parts: seq<seq<Column>>, names: seq<string>, i: nat, parent: string)
    requires i <= |names| && forall k :: 0 <= k < |names| ==> InUse(parts, names[k])
    requires MergeColumns(parts, names[..i], parent).Err?
    ensures MergeColumns(parts, names, parent) == MergeColumns(parts, names[..i], parent)
    decreases |names|
  {
    if i == |names| {
      assert names[..i] == names;
    } else {
      var init := names[..|names| - 1];
      assert init[..i] == names[..i];
      FirstFailure(parts, init, i, parent);
    }
  }

  // ---------------------------------------------------------------------------------------
  // Ordering the footers
  // ---------------------------------------------------------------------------------------

  /** One file's footer; some files have no readable schema. */
  datatype Footer = Footer(path: string, modTime: int, columns: Option<seq<Column>>)

  /** Newest first, then by path. */
  function FooterLe(a: Footer, b: Footer): bool
  {
    a.modTime > b.modTime || (a.modTime == b.modTime && StrLe(a.path, b.path))
  }

  lemma {:induction false} FooterOrder()
    ensures TotalPreorder(FooterLe)
  {
    forall x: Footer, y: Footer ensures FooterLe(x, y) || FooterLe(y, x) {
      StrLeTotal(x.path, y.path);
    }
    forall x: Footer, y: Footer, z: Footer | FooterLe(x, y) && FooterLe(y, z) ensures FooterLe(x, z) {
      if x.modTime == y.modTime && y.modTime == z.modTime {
        StrLeTransitive(x.path, y.path, z.path);
      }
    }
  }

  function Present(footers: seq<Footer>): (p: seq<Footer>)
    ensures forall i :: 0 <= i < |p| ==> p[i].columns.Some?
  {
    if footers == [] then []
    else
      var rest := Present(footers[..|footers| - 1]);
      if Last(footers).columns.Some? then rest + [Last(footers)] else rest
  }

  function Parts(footers: seq<Footer>): seq<seq<Column>>
    requires forall i :: 0 <= i < |footers| ==> footers[i].columns.Some?
  {
    seq(|footers|, i requires 0 <= i < |footers| => footers[i].columns.value)
  }

  /** A possible answer: nothing without footers, else the merge under some sort of them. */
  ghost predicate IsMergeOf(footers: seq<Footer>, r: Result<Option<seq<Column>>, MergeError>)
  {
    if Present(footers) == [] then r == Ok(None)
    else exists ordered :: IsOrdered(footers, ordered) && r == Wrapped(MergeRecords(Parts(ordered), ""))
  }

  ghost predicate IsOrdered(footers: seq<Footer>, ordered: seq<Footer>)
  {
    && IsSortOf(ordered, Present(footers), FooterLe)
    && forall i :: 0 <= i < |ordered| ==> ordered[i].columns.Some?
  }

  function Wrapped(r: Result<seq<Column>, MergeError>): Result<Option<seq<Column>>, MergeError>
  {
    match r
    case Ok(columns) => Ok(Some(columns))
    case Err(e) => Err(e)
  }

  method MergeFooterSchemas(footers: seq<Footer>) returns (r: Result<Option<seq<Column>>, MergeError>)
    ensures IsMergeOf(footers, r)
  {
    var present: seq<Footer> := [];
    for i := 0 to |footers|
      invariant present == Present(footers[..i])
    {
      assert footers[..i + 1][..i] == footers[..i];
      if footers[i].columns.Some? {
        present := present + [footers[i]];
      }
    }
    assert footers[..|footers|] == footers;
    if present == [] {
      return Ok(None);
    }
    FooterOrder();
    SortIsSort(present, FooterLe);
    var ordered := Sort(present, FooterLe);
    SameMembers(ordered, present);
    forall i | 0 <= i < |ordered| ensures ordered[i].columns.Some? {
      assert ordered[i] in ordered;
    }
    var merged := MergeParts(Parts(ordered), "");
    assert IsOrdered(footers, ordered);
    r := Wrapped(merged);
  }

  lemma {:induction false} PresentMembers(footers: seq<Footer>)
    ensures forall f :: multiset(Present(footers))[f] == if f.columns.Some? then multiset(footers)[f] else 0
  {
    if footers != [] {
      PresentMembers(footers[..|footers| - 1]);
      assert footers == footers[..|footers| - 1] + [Last(footers)];
    }
  }

  /** No two footers come from one file. */
  ghost predicate OnePerFile(footers: seq<Footer>)
  {
    forall f, g :: f in footers && g in footers && f.path == g.path ==> f == g
  }

  lemma {:induction false} OrderedUnique(a: seq<Footer>, b: seq<Footer>, x: seq<Footer>, y: seq<Footer>)
    requires multiset(Present(a)) == multiset(Present(b)) && OnePerFile(Present(a)) && IsOrdered(a, x) && IsOrdered(b, y)
    ensures x == y
  {
    SameMembers(x, Present(a));
    forall f, g | f in x && g in x && FooterLe(f, g) && FooterLe(g, f) ensures f == g {
      StrLeAntisymmetric(f.path, g.path);
    }
    SortUnique(x, y, FooterLe);
  }

  lemma {:induction false} PresentSame(a: seq<Footer>, b: seq<Footer>)
    requires multiset(a) == multiset(b)
    ensures multiset(Present(a)) == multiset(Present(b)) && (Present(a) == [] <==> Present(b) == [])
    ensures forall f :: f in Present(a) ==> f in a
  {
    PresentMembers(a);
    PresentMembers(b);
    SameCounts(Present(a), Present(b));
    SameLength(Present(a), Present(b));
    PresentIn(a);
  }

  lemma {:induction false} SameCounts(a: seq<Footer>, b: seq<Footer>)
    requires forall f :: multiset(a)[f] == multiset(b)[f]
    ensures multiset(a) == multiset(b)
  {
  }

  lemma {:induction false} PresentIn(a: seq<Footer>)
    ensures forall f :: f in Present(a) ==> f in a
  {
    if a != [] {
      PresentIn(a[..|a| - 1]);
    }
  }

  /** A directory listed in another order gives exactly the same answer, column order included. */
  lemma {:induction false} ListingOrderIrrelevant(a: seq<Footer>, b: seq<Footer>, ra: Result<Option<seq<Column>>, MergeError>, rb: Result<Option<seq<Column>>, MergeError>)
    requires multiset(a) == multiset(b) && OnePerFile(a)
    requires IsMergeOf(a, ra) && IsMergeOf(b, rb)
    ensures ra == rb
  {
    PresentSame(a, b);
    if Present(a) != [] {
      var x :| IsOrdered(a, x) && ra == Wrapped(MergeRecords(Parts(x), ""));
      var y :| IsOrdered(b, y) && rb == Wrapped(MergeRecords(Parts(y), ""));
      OrderedUnique(a, b, x, y);
    }
  }
}
