/** When a schema that takes every footer exists, when the footer merge of pkg/formats/parquet/merge.go succeeds,
    and when the two come apart. */
module FooterJoins {
  import opened Common
  import opened Model
  import opened FooterMerge
  import opened FooterSignature
  import opened FooterBounds
  import opened FooterFits

  // ---------------------------------------------------------------------------------------
  // When a schema takes every footer
  // ---------------------------------------------------------------------------------------

  ghost predicate JoinsAt(leaf: (Type, Type) -> bool, found: seq<Column>, t: Type)
    requires Typed(found)
  {
    !t.Struct? && forall i :: 0 <= i < |found| ==> leaf(found[i].typ.value.shape, t)
  }

  /** Some type takes all occurrences of a column; structs by the same condition inside. */
  ghost predicate Joinable(leaf: (Type, Type) -> bool, parts: seq<seq<Column>>)
    decreases Height(Flatten(parts)), 1
  {
    forall k :: 0 <= k < |Order(Flatten(parts))| ==> JoinableAt(leaf, parts, Order(Flatten(parts))[k])
  }

  ghost predicate JoinableAt(leaf: (Type, Type) -> bool, parts: seq<seq<Column>>, name: string)
    decreases Height(Flatten(parts)), 0
  {
    var found := Occurrences(Flatten(parts), name);
    && found != [] && Typed(found)
    && if Structs(found) then (
         OccurrencesMembers(Flatten(parts), name);
         InsideIsLower(Flatten(parts), found);
         Joinable(leaf, Insides(found)))
       else exists t :: JoinsAt(leaf, found, t)
  }

  lemma {:induction false} BoundJoins(leaf: (Type, Type) -> bool, parts: seq<seq<Column>>, u: seq<Column>)
    requires KeepsKinds(leaf) && IsBound(leaf, parts, u)
    ensures Joinable(leaf, parts)
    decreases Height(Flatten(parts))
  {
    var names := Order(Flatten(parts));
    OrderInUse(parts);
    forall k | 0 <= k < |names| ensures JoinableAt(leaf, parts, names[k]) {
      var found := Occurrences(Flatten(parts), names[k]);
      FoundBelow(leaf, parts, names[k], u);
      if Structs(found) {
        InsideBound(leaf, parts, names[k], u);
        OccurrencesMembers(Flatten(parts), names[k]);
        InsideIsLower(Flatten(parts), found);
        BoundJoins(leaf, Insides(found), Find(u, names[k]).typ.value.shape.columns);
      } else {
        LeafJoins(leaf, found, Find(u, names[k]).typ.value);
      }
    }
  }

  lemma {:induction false} LeafJoins(leaf: (Type, Type) -> bool, found: seq<Column>, d: FooterType)
    requires KeepsKinds(leaf) && Typed(found) && !Structs(found)
    requires forall i :: 0 <= i < |found| ==> TypeBelow(leaf, found[i].typ.value, d)
    ensures JoinsAt(leaf, found, d.shape)
  {
    var i :| 0 <= i < |found| && !IsStruct(found[i]);
    assert TypeBelow(leaf, found[i].typ.value, d);
    assert leaf(found[i].typ.value.shape, d.shape);
  }

  /** A nullable column that takes every occurrence of its name. */
  ghost predicate Wide(leaf: (Type, Type) -> bool, parts: seq<seq<Column>>, c: Column)
  {
    && c.typ.Some? && c.typ.value.nullable && (IsStruct(c) ==> WellFormed(c.typ.value.shape.columns))
    && forall d :: d in Occurrences(Flatten(parts), c.name) ==> d.typ.Some? && TypeBelow(leaf, d.typ.value, c.typ.value)
  }

  lemma {:induction false} WideColumn(leaf: (Type, Type) -> bool, parts: seq<seq<Column>>, name: string) returns (c: Column)
    requires JoinableAt(leaf, parts, name)
    ensures c.name == name && Wide(leaf, parts, c)
    decreases Height(Flatten(parts)), 0
  {
    var found := Occurrences(Flatten(parts), name);
    if Structs(found) {
      OccurrencesMembers(Flatten(parts), name);
      InsideIsLower(Flatten(parts), found);
      var inside := JoinedBound(leaf, Insides(found));
      c := Column(name, None, Some(FooterType(Struct(inside), true)));
      forall d | d in found ensures d.typ.Some? && TypeBelow(leaf, d.typ.value, c.typ.value) {
        var i :| 0 <= i < |found| && found[i] == d;
        assert ColumnsBelow(leaf, Insides(found)[i], inside);
      }
    } else {
      var t :| JoinsAt(leaf, found, t);
      c := Column(name, None, Some(FooterType(t, true)));
    }
  }

  lemma {:induction false} WideColumns(leaf: (Type, Type) -> bool, parts: seq<seq<Column>>, n: nat) returns (u: seq<Column>)
    requires Joinable(leaf, parts) && n <= |Order(Flatten(parts))|
    ensures |u| == n && forall k :: 0 <= k < n ==> u[k].name == Order(Flatten(parts))[k] && Wide(leaf, parts, u[k])
    decreases Height(Flatten(parts)), 1, n
  {
    if n == 0 {
      u := [];
    } else {
      u := WideColumns(leaf, parts, n - 1);
      var c := WideColumn(leaf, parts, Order(Flatten(parts))[n - 1]);
      u := u + [c];
    }
  }

  /** The wide columns, one per name, take every footer. */
  lemma {:induction false} JoinedBound(leaf: (Type, Type) -> bool, parts: seq<seq<Column>>) returns (u: seq<Column>)
    requires Joinable(leaf, parts)
    ensures IsBound(leaf, parts, u)
    decreases Height(Flatten(parts)), 2
  {
    var names := Order(Flatten(parts));
    u := WideColumns(leaf, parts, |names|);
    OrderMembers(Flatten(parts));
    forall i | 0 <= i < |parts| ensures ColumnsBelow(leaf, parts[i], u) {
      WideBelow(leaf, parts, u, i);
    }
  }

  lemma {:induction false} WideBelow(leaf: (Type, Type) -> bool, parts: seq<seq<Column>>, u: seq<Column>, i: nat)
    requires i < |parts| && |u| == |Order(Flatten(parts))| && DistinctNames(u)
    requires forall k :: 0 <= k < |u| ==> u[k].name == Order(Flatten(parts))[k] && Wide(leaf, parts, u[k])
    ensures ColumnsBelow(leaf, parts[i], u)
  {
    var names := Order(Flatten(parts));
    forall l | 0 <= l < |parts[i]| ensures ColumnBelow(leaf, parts[i][l], u) {
      var c := parts[i][l];
      assert Has(parts[i], c.name) && c in parts[i];
      NamesKept(parts, i, c.name);
      var k :| 0 <= k < |names| && names[k] == c.name;
      FindAt(u, k);
      FlattenMember(parts, c);
      OccurrencesMembers(Flatten(parts), c.name);
      assert c in Occurrences(Flatten(parts), u[k].name);
    }
  }

  /** A schema that takes every footer exists if and only if the occurrences of every column can be joined. */
  lemma {:induction false} BoundExistsIff(leaf: (Type, Type) -> bool, parts: seq<seq<Column>>)
    requires KeepsKinds(leaf)
    ensures (exists u :: IsBound(leaf, parts, u)) <==> Joinable(leaf, parts)
  {
    if u :| IsBound(leaf, parts, u) {
      BoundJoins(leaf, parts, u);
    }
    if Joinable(leaf, parts) {
      var u := JoinedBound(leaf, parts);
    }
  }

  // ---------------------------------------------------------------------------------------
  // When the merge succeeds
  // ---------------------------------------------------------------------------------------

  /** Every occurrence of a column relates to the first; structs by the same condition inside. */
  ghost predicate Alike(leaf: (Type, Type) -> bool, parts: seq<seq<Column>>)
    decreases Height(Flatten(parts)), 1
  {
    forall k :: 0 <= k < |Order(Flatten(parts))| ==> AlikeAt(leaf, parts, Order(Flatten(parts))[k])
  }

  ghost predicate AlikeAt(leaf: (Type, Type) -> bool, parts: seq<seq<Column>>, name: string)
    decreases Height(Flatten(parts)), 0
  {
    var found := Occurrences(Flatten(parts), name);
    && found != [] && Typed(found)
    && if Structs(found) then (
         OccurrencesMembers(Flatten(parts), name);
         InsideIsLower(Flatten(parts), found);
         Alike(leaf, Insides(found)))
       else forall i :: 0 <= i < |found| ==> leaf(found[i].typ.value.shape, found[0].typ.value.shape)
  }

  lemma {:induction false} MergedAlike(parts: seq<seq<Column>>, parent: string)
    requires MergeRecords(parts, parent).Ok?
    ensures Alike(SameSignature, parts)
    decreases Height(Flatten(parts))
  {
    var names := Order(Flatten(parts));
    MergedAt(parts, parent);
    forall k | 0 <= k < |names| ensures AlikeAt(SameSignature, parts, names[k]) {
      var found := Occurrences(Flatten(parts), names[k]);
      MergeColumnIs(parts, names[k], parent);
      if IsStruct(found[0]) {
        MergeColumnInside(parts, names[k], parent);
        MergedAlike(Insides(found), PathOf(parent, names[k]));
      } else {
        assert !Structs(found);
        forall i | 0 <= i < |found| ensures SameSignature(found[i].typ.value.shape, found[0].typ.value.shape) {
          assert Agree(found[0].typ.value, found[i].typ.value);
        }
      }
    }
  }

  lemma {:induction false} AlikeMerges(parts: seq<seq<Column>>, parent: string)
    requires Alike(SameSignature, parts)
    ensures MergeRecords(parts, parent).Ok?
    decreases Height(Flatten(parts))
  {
    var names := Order(Flatten(parts));
    OrderInUse(parts);
    forall k | 0 <= k < |names| ensures MergeColumn(parts, names[k], parent).Ok? {
      var found := Occurrences(Flatten(parts), names[k]);
      assert AlikeAt(SameSignature, parts, names[k]);
      if Structs(found) {
        OccurrencesMembers(Flatten(parts), names[k]);
        InsideIsLower(Flatten(parts), found);
        AlikeMerges(Insides(found), PathOf(parent, names[k]));
      } else {
        AlikeLeaves(found);
      }
    }
    MergeColumnsOk(parts, names, parent);
  }

  lemma {:induction false} AlikeLeaves(found: seq<Column>)
    requires found != [] && Typed(found) && !Structs(found)
    requires forall i :: 0 <= i < |found| ==> SameSignature(found[i].typ.value.shape, found[0].typ.value.shape)
    ensures Agreeing(found) && !IsStruct(found[0])
  {
    var i :| 0 <= i < |found| && !IsStruct(found[i]);
    StructPrintsApart(found[i].typ.value.shape, found[0].typ.value.shape);
  }

  /** For any footers: the merge succeeds if and only if the occurrences of every column have a type and print
      alike, or are structs that merge. */
  lemma {:induction false} MergesIff(parts: seq<seq<Column>>, parent: string)
    ensures MergeRecords(parts, parent).Ok? <==> Alike(SameSignature, parts)
  {
    if MergeRecords(parts, parent).Ok? {
      MergedAlike(parts, parent);
    }
    if Alike(SameSignature, parts) {
      AlikeMerges(parts, parent);
    }
  }

  lemma {:induction false} AlikeJoins(parts: seq<seq<Column>>)
    requires Alike(SameSignature, parts)
    ensures Joinable(SameSignature, parts)
    decreases Height(Flatten(parts))
  {
    var names := Order(Flatten(parts));
    forall k | 0 <= k < |names| ensures JoinableAt(SameSignature, parts, names[k]) {
      var found := Occurrences(Flatten(parts), names[k]);
      assert AlikeAt(SameSignature, parts, names[k]);
      if Structs(found) {
        OccurrencesMembers(Flatten(parts), names[k]);
        InsideIsLower(Flatten(parts), found);
        AlikeJoins(Insides(found));
      } else {
        AlikeLeaves(found);
        assert JoinsAt(SameSignature, found, found[0].typ.value.shape);
      }
    }
  }

  // ---------------------------------------------------------------------------------------
  // Types compared as the code compares them
  // ---------------------------------------------------------------------------------------

  /** With types compared by signature, the merge fails if and only if no schema takes every footer, and otherwise
      asks for no more than any schema that does; without repeated names it is itself such a schema. When it is
      with them, RepeatedNamesIff says. */
  lemma {:induction false} MergeIsLeastBound(parts: seq<seq<Column>>, parent: string)
    requires parts != []
    ensures MergeRecords(parts, parent).Ok? <==> exists u :: IsBound(SameSignature, parts, u)
    ensures MergeRecords(parts, parent).Ok? ==>
      forall u :: IsBound(SameSignature, parts, u) ==> ColumnsBelow(SameSignature, MergeRecords(parts, parent).value, u)
    ensures MergeRecords(parts, parent).Ok? && AllWellFormed(parts) ==> IsBound(SameSignature, parts, MergeRecords(parts, parent).value)
  {
    SignatureKeepsKinds();
    if MergeRecords(parts, parent).Ok? {
      MergesIff(parts, parent);
      AlikeJoins(parts);
      BoundExistsIff(SameSignature, parts);
      if AllWellFormed(parts) {
        WellFormedGaps(parts, parent);
        RepeatedNamesIff(parts, parent);
      }
    }
    forall u | IsBound(SameSignature, parts, u)
      ensures MergeRecords(parts, parent).Ok? && ColumnsBelow(SameSignature, MergeRecords(parts, parent).value, u) {
      MergeSucceeds(parts, parent, u);
      MergeLeast(SameSignature, parts, parent, u);
    }
  }

  // ---------------------------------------------------------------------------------------
  // Types compared by their values
  // ---------------------------------------------------------------------------------------

  /** A schema takes every file's rows if and only if some type takes all occurrences of each column. */
  lemma {:induction false} TakenIff(parts: seq<seq<Column>>)
    ensures (exists u :: TakesEvery(parts, u)) <==> Joinable(FitsShape, parts)
  {
    FitsKeepsKinds();
    BoundExistsIff(FitsShape, parts);
    if u :| TakesEvery(parts, u) {
      BoundFits(parts, u);
    }
    if u :| IsBound(FitsShape, parts, u) {
      BoundFits(parts, u);
    }
  }

  /** Types whose structs, wherever they nest, have the same column names in the same order. */
  predicate SameNesting(a: Type, b: Type)
    decreases a, 1
  {
    match a
    case Atomic(_) => b.Atomic?
    case ListType(e) => b.ListType? && SameOptional(e, b.element)
    case MapType(k, v) => b.MapType? && SameOptional(k, b.key) && SameOptional(v, b.value)
    case Struct(columns) =>
      b.Struct? && |columns| == |b.columns|
      && forall i :: 0 <= i < |columns| ==> columns[i].name == b.columns[i].name && SameOptional(columns[i].typ, b.columns[i].typ)
  }

  predicate SameOptional(a: Option<FooterType>, b: Option<FooterType>)
    decreases a, 2
  {
    if a.None? then b.None? else b.Some? && SameNesting(a.value.shape, b.value.shape)
  }

  lemma {:induction false} EraseColumnsAt(columns: seq<Column>)
    ensures |EraseColumns(columns)| == |columns|
    ensures forall i :: 0 <= i < |columns| ==> EraseColumns(columns)[i] == Column(columns[i].name, None, EraseOptional(columns[i].typ))
  {
    if columns != [] {
      EraseColumnsAt(columns[1..]);
    }
  }

  /** Between types that one type takes, only the nesting of structs can be told apart once erased. */
  lemma {:induction false} EraseNesting(a: Type, b: Type, t: Type)
    requires FitsShape(a, t) && FitsShape(b, t)
    ensures Erase(a) == Erase(b) <==> SameNesting(a, b)
    decreases a, 1
  {
    match a
    case Atomic(_) =>
    case ListType(e) => EraseOptionalNesting(e, b.element, t.element);
    case MapType(k, v) =>
      EraseOptionalNesting(k, b.key, t.key);
      EraseOptionalNesting(v, b.value, t.value);
    case Struct(columns) => EraseStructNesting(columns, b.columns, t.columns);
  }

  lemma {:induction false} EraseOptionalNesting(a: Option<FooterType>, b: Option<FooterType>, t: Option<FooterType>)
    requires FitsOptional(a, t) && FitsOptional(b, t)
    ensures EraseOptional(a) == EraseOptional(b) <==> SameOptional(a, b)
    decreases a, 2
  {
    if a.Some? {
      EraseNesting(a.value.shape, b.value.shape, t.value.shape);
    }
  }

  lemma {:induction false} EraseStructNesting(a: seq<Column>, b: seq<Column>, t: seq<Column>)
    requires FitsColumns(a, t) && FitsColumns(b, t)
    ensures EraseColumns(a) == EraseColumns(b) <==>
      |a| == |b| && forall i :: 0 <= i < |a| ==> a[i].name == b[i].name && SameOptional(a[i].typ, b[i].typ)
    decreases a, 0
  {
    EraseColumnsAt(a);
    EraseColumnsAt(b);
    if |a| == |b| {
      forall i | 0 <= i < |a|
        ensures EraseColumns(a)[i] == EraseColumns(b)[i] <==> a[i].name == b[i].name && SameOptional(a[i].typ, b[i].typ) {
        if a[i].name == b[i].name {
          assert FitsColumn(a[i], t) && FitsColumn(b[i], t);
          EraseOptionalNesting(a[i].typ, b[i].typ, Find(t, a[i].name).typ);
        }
      }
      assert EraseColumns(a) == EraseColumns(b) <==> forall i :: 0 <= i < |a| ==> EraseColumns(a)[i] == EraseColumns(b)[i];
    }
  }

  lemma {:induction false} PrintAlikeIff(a: Type, b: Type, t: Type)
    requires FitsShape(a, t) && FitsShape(b, t) && Clean(a) && Clean(b)
    ensures SameSignature(a, b) <==> SameNesting(a, b)
  {
    SignatureMeans(a, b);
    EraseNesting(a, b, t);
  }

  /** Clean names inside every type that is compared by signature. */
  predicate CleanColumn(c: Column)
    decreases c
  {
    c.typ.Some? ==>
      if c.typ.value.shape.Struct? then forall j :: 0 <= j < |c.typ.value.shape.columns| ==> CleanColumn(c.typ.value.shape.columns[j])
      else Clean(c.typ.value.shape)
  }

  ghost predicate CleanParts(parts: seq<seq<Column>>) { forall i, l :: 0 <= i < |parts| && 0 <= l < |parts[i]| ==> CleanColumn(parts[i][l]) }

  lemma {:induction false} InsidesClean(parts: seq<seq<Column>>, name: string)
    requires CleanParts(parts) && Structs(Occurrences(Flatten(parts), name))
    ensures CleanParts(Insides(Occurrences(Flatten(parts), name)))
  {
    var found := Occurrences(Flatten(parts), name);
    forall i, l | 0 <= i < |found| && 0 <= l < |Insides(found)[i]| ensures CleanColumn(Insides(found)[i][l]) {
      assert found[i] in found;
      var f, k := FoundIn(parts, name, found[i]);
      assert CleanColumn(parts[f][k]) && IsStruct(found[i]);
    }
  }

  lemma {:induction false} LeavesNest(parts: seq<seq<Column>>, name: string, u: seq<Column>, i: nat)
    requires IsBound(FitsShape, parts, u) && CleanParts(parts) && InUse(parts, name) && !Structs(Occurrences(Flatten(parts), name))
    requires i < |Occurrences(Flatten(parts), name)|
    ensures var found := Occurrences(Flatten(parts), name);
      && Typed(found)
      && (SameSignature(found[i].typ.value.shape, found[0].typ.value.shape) <==> SameNesting(found[i].typ.value.shape, found[0].typ.value.shape))
  {
    var found := Occurrences(Flatten(parts), name);
    FitsKeepsKinds();
    FoundBelow(FitsShape, parts, name, u);
    LeafJoins(FitsShape, found, Find(u, name).typ.value);
    CleanFound(parts, name, i);
    CleanFound(parts, name, 0);
    PrintAlikeIff(found[i].typ.value.shape, found[0].typ.value.shape, Find(u, name).typ.value.shape);
  }

  lemma {:induction false} CleanFound(parts: seq<seq<Column>>, name: string, i: nat)
    requires CleanParts(parts) && i < |Occurrences(Flatten(parts), name)|
    ensures CleanColumn(Occurrences(Flatten(parts), name)[i])
  {
    var found := Occurrences(Flatten(parts), name);
    assert found[i] in found;
    var f, k := FoundIn(parts, name, found[i]);
    assert CleanColumn(parts[f][k]);
  }

  lemma {:induction false} NestingIff(parts: seq<seq<Column>>, u: seq<Column>)
    requires IsBound(FitsShape, parts, u) && CleanParts(parts)
    ensures Alike(SameSignature, parts) <==> Alike(SameNesting, parts)
    decreases Height(Flatten(parts))
  {
    var names := Order(Flatten(parts));
    OrderInUse(parts);
    FitsKeepsKinds();
    forall k | 0 <= k < |names| ensures AlikeAt(SameSignature, parts, names[k]) <==> AlikeAt(SameNesting, parts, names[k]) {
      var found := Occurrences(Flatten(parts), names[k]);
      if Structs(found) {
        InsideBound(FitsShape, parts, names[k], u);
        InsidesClean(parts, names[k]);
        OccurrencesMembers(Flatten(parts), names[k]);
        InsideIsLower(Flatten(parts), found);
        NestingIff(Insides(found), Find(u, names[k]).typ.value.shape.columns);
      } else {
        forall i | 0 <= i < |found|
          ensures Typed(found) && (SameSignature(found[i].typ.value.shape, found[0].typ.value.shape) <==> SameNesting(found[i].typ.value.shape, found[0].typ.value.shape)) {
          LeavesNest(parts, names[k], u, i);
        }
      }
    }
  }

  /** Where a schema takes every file, the merge still succeeds only if the files' columns nest alike: below lists
      and maps, structs must have the same column names in the same order. */
  lemma {:induction false} RefusedIff(parts: seq<seq<Column>>, parent: string, u: seq<Column>)
    requires TakesEvery(parts, u) && CleanParts(parts)
    ensures MergeRecords(parts, parent).Ok? <==> Alike(SameNesting, parts)
  {
    BoundFits(parts, u);
    MergesIff(parts, parent);
    NestingIff(parts, u);
  }

  /** The merge fails exactly when no schema takes every file, if and only if printing alike and having a common
      type come to the same for these files. */
  lemma {:induction false} FailsExactlyIff(parts: seq<seq<Column>>, parent: string)
    ensures (MergeRecords(parts, parent).Ok? <==> exists u :: TakesEvery(parts, u)) <==>
      (Alike(SameSignature, parts) <==> Joinable(FitsShape, parts))
  {
    MergesIff(parts, parent);
    TakenIff(parts);
  }

  /** A millisecond and a microsecond timestamp: merged, although no schema takes both files. */
  lemma {:induction false} UnitsNeverTaken(name: string, u: seq<Column>)
    ensures var c, d := ScalarColumn(name, 1, Timestamp(Some(Millis))), ScalarColumn(name, 2, Timestamp(Some(Micros)));
      MergeRecords([[c], [d]], "").Ok? && !TakesEvery([[c], [d]], u)
  {
    var c, d := ScalarColumn(name, 1, Timestamp(Some(Millis))), ScalarColumn(name, 2, Timestamp(Some(Micros)));
    UnitFollowsFileOrder(name);
    FirstFits(c, u);
    FirstFits(d, u);
    BothFit(c, d, u);
  }

  lemma {:induction false} FirstFits(c: Column, u: seq<Column>)
    requires c.typ.Some? && c.typ.value.shape.Atomic?
    ensures FitsColumns([c], u) ==> Has(u, c.name) && Find(u, c.name).typ.Some? && Find(u, c.name).typ.value.shape == c.typ.value.shape
  {
    if FitsColumns([c], u) {
      var one := [c];
      assert one[0] == c;
      assert FitsColumn(one[0], u);
      assert FitsType(c.typ.value, Find(u, c.name).typ.value);
      assert FitsShape(c.typ.value.shape, Find(u, c.name).typ.value.shape);
    }
  }

  lemma {:induction false} BothFit(c: Column, d: Column, u: seq<Column>)
    ensures TakesEvery([[c], [d]], u) ==> FitsColumns([c], u) && FitsColumns([d], u)
  {
    var parts := [[c], [d]];
    assert parts[0] == [c] && parts[1] == [d];
  }

  /** Two columns of a struct inside a list in another order: refused, although either type takes both files. */
  lemma {:induction false} ListOfStructReordered(name: string)
    ensures var a, b := Column("a", None, Some(FooterType(Atomic(Int), true))), Column("b", None, Some(FooterType(Atomic(Int), true)));
      var c, d := ListColumn(name, FooterType(Struct([a, b]), false)), ListColumn(name, FooterType(Struct([b, a]), false));
      MergeRecords([[c], [d]], "") == Err(Conflict(name)) && TakesEvery([[c], [d]], [c]) && TakesEvery([[c], [d]], [d])
  {
    var a, b := Column("a", None, Some(FooterType(Atomic(Int), true))), Column("b", None, Some(FooterType(Atomic(Int), true)));
    var s, t := [a, b], [b, a];
    ReorderedPrint(a, b);
    PairMerge(ListColumn(name, FooterType(Struct(s), false)), ListColumn(name, FooterType(Struct(t), false)));
    TwoColumnsFit(a, b);
    TwoColumnsFit(b, a);
    ListsFit(name, s, s);
    ListsFit(name, t, t);
    ListsFit(name, s, t);
    ListsFit(name, t, s);
  }

  lemma {:induction false} ReorderedPrint(a: Column, b: Column)
    requires |a.name| == 1 && |b.name| == 1 && a.name != b.name
    ensures Signature(ListType(Some(FooterType(Struct([a, b]), false)))) != Signature(ListType(Some(FooterType(Struct([b, a]), false))))
  {
    var s, t := Struct([a, b]), Struct([b, a]);
    assert Named([a, b])[0] == a.name[0] && Named([b, a])[0] == b.name[0];
    assert Signature(s)[7] == a.name[0] && Signature(t)[7] == b.name[0];
    assert ("LIST<" + Signature(s) + ">")[12] == a.name[0] && ("LIST<" + Signature(t) + ">")[12] == b.name[0];
    assert a.name == [a.name[0]] && b.name == [b.name[0]];
  }

  lemma {:induction false} ListsFit(name: string, s: seq<Column>, t: seq<Column>)
    requires FitsColumns(s, t)
    ensures FitsColumns([ListColumn(name, FooterType(Struct(s), false))], [ListColumn(name, FooterType(Struct(t), false))])
  {
    var x, y := FooterType(Struct(s), false), FooterType(Struct(t), false);
    assert FitsShape(Struct(s), Struct(t));
    assert FitsOptional(Some(x), Some(y));
    assert FitsShape(ListType(Some(x)), ListType(Some(y)));
    OneColumnFits(ListColumn(name, x), ListColumn(name, y));
  }

  lemma {:induction false} TwoColumnsFit(a: Column, b: Column)
    requires a.name != b.name && a.typ.Some? && b.typ.Some? && FitsType(a.typ.value, a.typ.value) && FitsType(b.typ.value, b.typ.value)
    ensures FitsColumns([a, b], [b, a]) && FitsColumns([a, b], [a, b])
  {
    var x, y := [a, b], [b, a];
    assert x[0] == a && x[1] == b && y[0] == b && y[1] == a && y[1..] == [a] && x[1..] == [b];
    assert Has(x, a.name) && Has(x, b.name) && Has(y, a.name) && Has(y, b.name);
    assert Find(x, a.name) == a && Find(x, b.name) == b && Find(y, a.name) == a && Find(y, b.name) == b;
    assert FitsColumn(a, x) && FitsColumn(b, x) && FitsColumn(a, y) && FitsColumn(b, y);
  }
}
