/** Orders on footer schemas, and when the footer merge takes every footer. An order is given by how it
    compares types that are not structs; the code compares their printed signatures. */
module FooterBounds {
  import opened Common
  import opened FooterMerge

  // ---------------------------------------------------------------------------------------
  // The order
  // ---------------------------------------------------------------------------------------

  predicate Has(columns: seq<Column>, name: string) { exists i :: 0 <= i < |columns| && columns[i].name == name }

  function Find(columns: seq<Column>, name: string): (c: Column)
    requires Has(columns, name)
    ensures c in columns && c.name == name
  {
    if columns[0].name == name then columns[0]
    else
      assert Has(columns[1..], name) by {
        var i :| 0 <= i < |columns| && columns[i].name == name;
        assert columns[1..][i - 1].name == name;
      }
      Find(columns[1..], name)
  }

  /** Struct against struct by columns; anything else as the relation `leaf` on types says. */
  ghost predicate TypeBelow(leaf: (Type, Type) -> bool, a: FooterType, b: FooterType)
    decreases a, 2
  {
    && (a.nullable ==> b.nullable)
    && (if a.shape.Struct? && b.shape.Struct? then ColumnsBelow(leaf, a.shape.columns, b.shape.columns)
        else leaf(a.shape, b.shape))
  }

  ghost predicate ColumnBelow(leaf: (Type, Type) -> bool, c: Column, b: seq<Column>)
    decreases c, 0
  {
    && c.typ.Some? && Has(b, c.name) && Find(b, c.name).typ.Some?
    && TypeBelow(leaf, c.typ.value, Find(b, c.name).typ.value)
  }

  /** Every column is there, wide enough, and every other column can be null. */
  ghost predicate ColumnsBelow(leaf: (Type, Type) -> bool, a: seq<Column>, b: seq<Column>)
    decreases a, 1
  {
    && (forall i :: 0 <= i < |a| ==> ColumnBelow(leaf, a[i], b))
    && (forall j :: 0 <= j < |b| ==> Has(a, b[j].name) || Nullable(b[j]))
  }

  /** The relation never takes a struct for anything else. */
  ghost predicate KeepsKinds(leaf: (Type, Type) -> bool)
  {
    forall a, b :: leaf(a, b) ==> a.Struct? == b.Struct?
  }

  /** The comparison the code makes: types that print alike. */
  predicate SameSignature(a: Type, b: Type) { Signature(a) == Signature(b) }

  lemma {:induction false} SignatureKeepsKinds()
    ensures KeepsKinds(SameSignature)
  {
    forall a, b | SameSignature(a, b) ensures a.Struct? == b.Struct? {
      StructPrintsApart(a, b);
    }
  }

  ghost predicate DistinctNames(columns: seq<Column>)
  {
    forall i, j :: 0 <= i < j < |columns| ==> columns[i].name != columns[j].name
  }

  /** No record repeats a column name, at any depth. */
  ghost predicate WellFormed(columns: seq<Column>)
  {
    DistinctNames(columns) && forall i :: 0 <= i < |columns| && IsStruct(columns[i]) ==> WellFormed(columns[i].typ.value.shape.columns)
  }

  ghost predicate AllWellFormed(parts: seq<seq<Column>>) { forall i :: 0 <= i < |parts| ==> WellFormed(parts[i]) }

  ghost predicate IsBound(leaf: (Type, Type) -> bool, parts: seq<seq<Column>>, u: seq<Column>)
  {
    WellFormed(u) && forall i :: 0 <= i < |parts| ==> ColumnsBelow(leaf, parts[i], u)
  }

  lemma {:induction false} FindAt(columns: seq<Column>, j: nat)
    requires DistinctNames(columns) && j < |columns|
    ensures Has(columns, columns[j].name) && Find(columns, columns[j].name) == columns[j]
  {
    var c := Find(columns, columns[j].name);
    var k :| 0 <= k < |columns| && columns[k] == c;
  }

  // ---------------------------------------------------------------------------------------
  // Counting occurrences
  // ---------------------------------------------------------------------------------------

  lemma {:induction false} OccurrencesConcat(a: seq<Column>, b: seq<Column>, name: string)
    ensures Occurrences(a + b, name) == Occurrences(a, name) + Occurrences(b, name)
  {
    if b == [] {
      assert a + b == a;
    } else {
      OccurrencesConcat(a, b[..|b| - 1], name);
      assert (a + b)[..|a + b| - 1] == a + b[..|b| - 1];
    }
  }

  lemma {:induction false} OccursIff(columns: seq<Column>, name: string)
    ensures Occurrences(columns, name) != [] <==> Has(columns, name)
  {
    OccurrencesMembers(columns, name);
    if Occurrences(columns, name) != [] {
      var c := Occurrences(columns, name)[0];
      assert c in Occurrences(columns, name);
      var i :| 0 <= i < |columns| && columns[i] == c;
    }
    if Has(columns, name) {
      var i :| 0 <= i < |columns| && columns[i].name == name;
      assert columns[i] in columns;
      assert columns[i] in Occurrences(columns, name);
    }
  }

  lemma {:induction false} OccursOnce(columns: seq<Column>, name: string)
    requires DistinctNames(columns)
    ensures |Occurrences(columns, name)| <= 1
  {
    if columns != [] {
      var init := columns[..|columns| - 1];
      OccursOnce(init, name);
      if Last(columns).name == name {
        OccursIff(init, name);
      }
    }
  }

  /** With one column per name and file, the count falls short exactly when a file lacks the name. */
  lemma {:induction false} CountParts(parts: seq<seq<Column>>, name: string)
    requires forall i :: 0 <= i < |parts| ==> DistinctNames(parts[i])
    ensures |Occurrences(Flatten(parts), name)| <= |parts|
    ensures |Occurrences(Flatten(parts), name)| < |parts| <==> exists i :: 0 <= i < |parts| && !Has(parts[i], name)
  {
    if parts != [] {
      CountParts(parts[1..], name);
      OccurrencesConcat(parts[0], Flatten(parts[1..]), name);
      OccursOnce(parts[0], name);
      OccursIff(parts[0], name);
      if i :| 0 <= i < |parts| && !Has(parts[i], name) && i > 0 {
        assert !Has(parts[1..][i - 1], name);
      }
      if i :| 0 <= i < |parts[1..]| && !Has(parts[1..][i], name) {
        assert !Has(parts[i + 1], name);
      }
    }
  }

  /** Without it, still every shortfall has a file behind it. */
  lemma {:induction false} ShortfallHasFile(parts: seq<seq<Column>>, name: string)
    ensures |Occurrences(Flatten(parts), name)| < |parts| ==> exists i :: 0 <= i < |parts| && !Has(parts[i], name)
  {
    if parts != [] {
      ShortfallHasFile(parts[1..], name);
      OccurrencesConcat(parts[0], Flatten(parts[1..]), name);
      OccursIff(parts[0], name);
      if i :| 0 <= i < |parts[1..]| && !Has(parts[1..][i], name) {
        assert !Has(parts[i + 1], name);
      }
    }
  }

  lemma {:induction false} FoundIn(parts: seq<seq<Column>>, name: string, c: Column) returns (i: nat, k: nat)
    requires c in Occurrences(Flatten(parts), name)
    ensures i < |parts| && k < |parts[i]| && parts[i][k] == c && c.name == name
  {
    OccurrencesMembers(Flatten(parts), name);
    FlattenMember(parts, c);
    var i' :| 0 <= i' < |parts| && c in parts[i'];
    var k' :| 0 <= k' < |parts[i']| && parts[i'][k'] == c;
    i, k := i', k';
  }

  // ---------------------------------------------------------------------------------------
  // The columns of a merge
  // ---------------------------------------------------------------------------------------

  ghost predicate ColumnsMerged(parts: seq<seq<Column>>, names: seq<string>, parent: string, m: seq<Column>)
    requires forall i :: 0 <= i < |names| ==> InUse(parts, names[i])
  {
    |m| == |names| && forall i :: 0 <= i < |names| ==> MergeColumn(parts, names[i], parent) == Ok(m[i])
  }

  lemma {:induction false} MergeColumnsOk(parts: seq<seq<Column>>, names: seq<string>, parent: string)
    requires forall i :: 0 <= i < |names| ==> InUse(parts, names[i])
    ensures MergeColumns(parts, names, parent).Ok? <==> forall i :: 0 <= i < |names| ==> MergeColumn(parts, names[i], parent).Ok?
    ensures MergeColumns(parts, names, parent).Ok? ==> ColumnsMerged(parts, names, parent, MergeColumns(parts, names, parent).value)
    decreases |names|
  {
    if names != [] {
      var init := names[..|names| - 1];
      assert forall i :: 0 <= i < |init| ==> names[i] == init[i];
      MergeColumnsOk(parts, init, parent);
      LastColumn(parts, names, parent, MergeColumns(parts, init, parent), MergeColumn(parts, Last(names), parent));
    }
  }

  lemma {:induction false} LastColumn(parts: seq<seq<Column>>, names: seq<string>, parent: string,
                                      before: Result<seq<Column>, MergeError>, last: Result<Column, MergeError>)
    requires names != [] && (forall i :: 0 <= i < |names| ==> InUse(parts, names[i]))
    requires before == MergeColumns(parts, names[..|names| - 1], parent) && last == MergeColumn(parts, Last(names), parent)
    ensures MergeColumns(parts, names, parent).Ok? <==> before.Ok? && last.Ok?
    ensures before.Ok? && last.Ok? ==> MergeColumns(parts, names, parent) == Ok(before.value + [last.value])
  {
  }

  /** The merged columns, by name. */
  lemma {:induction false} MergedAt(parts: seq<seq<Column>>, parent: string)
    requires MergeRecords(parts, parent).Ok?
    ensures var m, names := MergeRecords(parts, parent).value, Order(Flatten(parts));
      && DistinctNames(m) && |m| == |names|
      && forall k :: 0 <= k < |m| ==> InUse(parts, names[k]) && m[k].name == names[k] && MergeColumn(parts, names[k], parent) == Ok(m[k])
  {
    var names := Order(Flatten(parts));
    OrderInUse(parts);
    MergeColumnsOk(parts, names, parent);
    OrderMembers(Flatten(parts));
    var m := MergeRecords(parts, parent).value;
    forall k | 0 <= k < |m| ensures m[k].name == names[k] {
      assert MergeColumn(parts, names[k], parent) == Ok(m[k]);
    }
  }

  lemma {:induction false} NamesKept(parts: seq<seq<Column>>, i: nat, name: string)
    requires i < |parts| && Has(parts[i], name)
    ensures name in Order(Flatten(parts))
  {
    var k :| 0 <= k < |parts[i]| && parts[i][k].name == name;
    assert parts[i][k] in parts[i];
    FlattenMember(parts, parts[i][k]);
    OrderMembers(Flatten(parts));
    assert NamesColumn(Flatten(parts), name);
  }

  /** Every name of every file has its merged column. */
  lemma {:induction false} MergedHas(parts: seq<seq<Column>>, parent: string, i: nat, name: string) returns (k: nat)
    requires MergeRecords(parts, parent).Ok? && i < |parts| && Has(parts[i], name)
    ensures var m, names := MergeRecords(parts, parent).value, Order(Flatten(parts));
      k < |m| == |names| && names[k] == name && m[k].name == name && Has(m, name) && Find(m, name) == m[k]
  {
    var m, names := MergeRecords(parts, parent).value, Order(Flatten(parts));
    MergedAt(parts, parent);
    NamesKept(parts, i, name);
    var k' :| 0 <= k' < |names| && names[k'] == name;
    FindAt(m, k');
    k := k';
  }

  /** What a name's occurrences make of its column, once they agree. */
  lemma {:induction false} MergeColumnIs(parts: seq<seq<Column>>, name: string, parent: string)
    requires InUse(parts, name) && MergeColumn(parts, name, parent).Ok?
    ensures var found, m := Occurrences(Flatten(parts), name), MergeColumn(parts, name, parent).value;
      && Typed(found) && Agreeing(found) && m.name == name && m.id == found[0].id && m.typ.Some?
      && (m.typ.value.nullable <==> |found| < |parts| || exists i :: 0 <= i < |found| && Nullable(found[i]))
      && (IsStruct(m) <==> IsStruct(found[0]))
      && (!IsStruct(m) ==> m.typ.value.shape == found[0].typ.value.shape)
  {
  }

  lemma {:induction false} MergeColumnInside(parts: seq<seq<Column>>, name: string, parent: string)
    requires InUse(parts, name) && MergeColumn(parts, name, parent).Ok? && IsStruct(Occurrences(Flatten(parts), name)[0])
    ensures var found := Occurrences(Flatten(parts), name);
      && Structs(found) && Height(Flatten(Insides(found))) < Height(Flatten(parts))
      && MergeRecords(Insides(found), PathOf(parent, name)).Ok?
      && IsStruct(MergeColumn(parts, name, parent).value)
      && MergeColumn(parts, name, parent).value.typ.value.shape.columns == MergeRecords(Insides(found), PathOf(parent, name)).value
  {
    var found := Occurrences(Flatten(parts), name);
    AgreeingStructs(found);
    OccurrencesMembers(Flatten(parts), name);
    InsideIsLower(Flatten(parts), found);
  }

  /** A merge never repeats a name, whatever the footers do. */
  lemma {:induction false} MergeWellFormed(parts: seq<seq<Column>>, parent: string)
    requires MergeRecords(parts, parent).Ok?
    ensures WellFormed(MergeRecords(parts, parent).value)
    decreases Height(Flatten(parts))
  {
    var m, names := MergeRecords(parts, parent).value, Order(Flatten(parts));
    MergedAt(parts, parent);
    forall k | 0 <= k < |m| && IsStruct(m[k]) ensures WellFormed(m[k].typ.value.shape.columns) {
      MergeColumnIs(parts, names[k], parent);
      MergeColumnInside(parts, names[k], parent);
      MergeWellFormed(Insides(Occurrences(Flatten(parts), names[k])), PathOf(parent, names[k]));
    }
  }

  // ---------------------------------------------------------------------------------------
  // When the merge takes every footer
  // ---------------------------------------------------------------------------------------

  ghost predicate Lacks(parts: seq<seq<Column>>, name: string) { exists i :: 0 <= i < |parts| && !Has(parts[i], name) }

  ghost predicate ShowsNull(parts: seq<seq<Column>>, name: string)
  {
    var found := Occurrences(Flatten(parts), name);
    |found| < |parts| || exists i :: 0 <= i < |found| && Nullable(found[i])
  }

  /** A condition on the footers alone: where some file lacks a column, the occurrence count falls short or
      some occurrence may be null; every occurrence fits the first, structs by the same condition inside. */
  ghost predicate Covered(leaf: (Type, Type) -> bool, parts: seq<seq<Column>>)
    decreases Height(Flatten(parts)), 1
  {
    forall k :: 0 <= k < |Order(Flatten(parts))| ==> CoveredAt(leaf, parts, Order(Flatten(parts))[k])
  }

  ghost predicate CoveredAt(leaf: (Type, Type) -> bool, parts: seq<seq<Column>>, name: string)
    decreases Height(Flatten(parts)), 0
  {
    var found := Occurrences(Flatten(parts), name);
    && (Lacks(parts, name) ==> ShowsNull(parts, name))
    && found != [] && Typed(found)
    && if Structs(found) then (
         OccurrencesMembers(Flatten(parts), name);
         InsideIsLower(Flatten(parts), found);
         Covered(leaf, Insides(found)))
       else forall i :: 0 <= i < |found| ==> leaf(found[i].typ.value.shape, found[0].typ.value.shape)
  }

  /** A merged column takes what each file has under its name, and nulls for files that have nothing. */
  ghost predicate TakesAll(leaf: (Type, Type) -> bool, parts: seq<seq<Column>>, m: Column)
  {
    && m.typ.Some?
    && (forall c :: c in Occurrences(Flatten(parts), m.name) ==> c.typ.Some? && TypeBelow(leaf, c.typ.value, m.typ.value))
    && (Lacks(parts, m.name) ==> m.typ.value.nullable)
  }

  lemma {:induction false} TakesAllBounds(leaf: (Type, Type) -> bool, parts: seq<seq<Column>>, parent: string, i: nat)
    requires MergeRecords(parts, parent).Ok? && i < |parts|
    requires var m := MergeRecords(parts, parent).value; forall k :: 0 <= k < |m| ==> TakesAll(leaf, parts, m[k])
    ensures ColumnsBelow(leaf, parts[i], MergeRecords(parts, parent).value)
  {
    var m := MergeRecords(parts, parent).value;
    forall k | 0 <= k < |parts[i]| ensures ColumnBelow(leaf, parts[i][k], m) {
      var c := parts[i][k];
      assert Has(parts[i], c.name);
      var j := MergedHas(parts, parent, i, c.name);
      assert c in parts[i];
      FlattenMember(parts, c);
      OccurrencesMembers(Flatten(parts), c.name);
      assert TakesAll(leaf, parts, m[j]);
    }
    forall j | 0 <= j < |m| ensures Has(parts[i], m[j].name) || Nullable(m[j]) {
      assert TakesAll(leaf, parts, m[j]);
    }
  }

  lemma {:induction false} BoundTakesAll(leaf: (Type, Type) -> bool, parts: seq<seq<Column>>, parent: string, k: nat)
    requires MergeRecords(parts, parent).Ok? && IsBound(leaf, parts, MergeRecords(parts, parent).value)
    requires k < |MergeRecords(parts, parent).value|
    ensures TakesAll(leaf, parts, MergeRecords(parts, parent).value[k])
  {
    var m := MergeRecords(parts, parent).value;
    MergedAt(parts, parent);
    FindAt(m, k);
    var name := m[k].name;
    forall c | c in Occurrences(Flatten(parts), name) ensures c.typ.Some? && TypeBelow(leaf, c.typ.value, m[k].typ.value) {
      var i, l := FoundIn(parts, name, c);
      assert ColumnsBelow(leaf, parts[i], m);
      assert ColumnBelow(leaf, parts[i][l], m);
    }
    if i :| 0 <= i < |parts| && !Has(parts[i], name) {
      assert ColumnsBelow(leaf, parts[i], m);
      assert Has(parts[i], m[k].name) || Nullable(m[k]);
    }
  }

  /** Column by column: the merged column takes all exactly when the occurrences are covered. */
  lemma {:induction false} ColumnIff(leaf: (Type, Type) -> bool, parts: seq<seq<Column>>, name: string, parent: string)
    requires KeepsKinds(leaf) && InUse(parts, name) && MergeColumn(parts, name, parent).Ok?
    ensures TakesAll(leaf, parts, MergeColumn(parts, name, parent).value) <==> CoveredAt(leaf, parts, name)
    decreases Height(Flatten(parts)), 0
  {
    var found := Occurrences(Flatten(parts), name);
    MergeColumnIs(parts, name, parent);
    if IsStruct(found[0]) {
      MergeColumnInside(parts, name, parent);
      BoundIff(leaf, Insides(found), PathOf(parent, name));
      StructTakesAll(leaf, parts, name, parent);
    } else {
      LeafTakesAll(leaf, parts, name, parent);
    }
  }

  lemma {:induction false} LeafTakesAll(leaf: (Type, Type) -> bool, parts: seq<seq<Column>>, name: string, parent: string)
    requires InUse(parts, name) && MergeColumn(parts, name, parent).Ok? && !IsStruct(Occurrences(Flatten(parts), name)[0])
    ensures TakesAll(leaf, parts, MergeColumn(parts, name, parent).value) <==> CoveredAt(leaf, parts, name)
  {
    var found, m := Occurrences(Flatten(parts), name), MergeColumn(parts, name, parent).value;
    MergeColumnIs(parts, name, parent);
    assert !Structs(found);
    forall i | 0 <= i < |found|
      ensures TypeBelow(leaf, found[i].typ.value, m.typ.value) <==> leaf(found[i].typ.value.shape, found[0].typ.value.shape) {
      assert Nullable(found[i]) ==> m.typ.value.nullable;
    }
    if TakesAll(leaf, parts, m) {
      forall i | 0 <= i < |found| ensures leaf(found[i].typ.value.shape, found[0].typ.value.shape) {
        assert found[i] in found;
      }
    }
  }

  lemma {:induction false} StructTakesAll(leaf: (Type, Type) -> bool, parts: seq<seq<Column>>, name: string, parent: string)
    requires InUse(parts, name) && MergeColumn(parts, name, parent).Ok? && IsStruct(Occurrences(Flatten(parts), name)[0])
    requires Structs(Occurrences(Flatten(parts), name))
    requires var inside := Insides(Occurrences(Flatten(parts), name));
      MergeRecords(inside, PathOf(parent, name)).Ok? && (IsBound(leaf, inside, MergeRecords(inside, PathOf(parent, name)).value) <==> Covered(leaf, inside))
    ensures TakesAll(leaf, parts, MergeColumn(parts, name, parent).value) <==> CoveredAt(leaf, parts, name)
  {
    var found, m := Occurrences(Flatten(parts), name), MergeColumn(parts, name, parent).value;
    var inside := Insides(found);
    MergeColumnIs(parts, name, parent);
    MergeColumnInside(parts, name, parent);
    MergeWellFormed(inside, PathOf(parent, name));
    var u := m.typ.value.shape.columns;
    forall i | 0 <= i < |found| ensures TypeBelow(leaf, found[i].typ.value, m.typ.value) <==> ColumnsBelow(leaf, inside[i], u) {
      assert Nullable(found[i]) ==> m.typ.value.nullable;
    }
    if TakesAll(leaf, parts, m) {
      forall i | 0 <= i < |inside| ensures ColumnsBelow(leaf, inside[i], u) {
        assert found[i] in found;
      }
    }
  }

  /** A successful merge takes every footer, in the order the relation spans, if and only if the footers are
      covered; no record need be free of repeated names. */
  lemma {:induction false} BoundIff(leaf: (Type, Type) -> bool, parts: seq<seq<Column>>, parent: string)
    requires KeepsKinds(leaf) && MergeRecords(parts, parent).Ok?
    ensures IsBound(leaf, parts, MergeRecords(parts, parent).value) <==> Covered(leaf, parts)
    decreases Height(Flatten(parts)), 1
  {
    var m, names := MergeRecords(parts, parent).value, Order(Flatten(parts));
    MergedAt(parts, parent);
    MergeWellFormed(parts, parent);
    forall k | 0 <= k < |m| ensures TakesAll(leaf, parts, m[k]) <==> CoveredAt(leaf, parts, names[k]) {
      ColumnIff(leaf, parts, names[k], parent);
    }
    if Covered(leaf, parts) {
      forall i | 0 <= i < |parts| ensures ColumnsBelow(leaf, parts[i], m) {
        TakesAllBounds(leaf, parts, parent, i);
      }
    }
    if IsBound(leaf, parts, m) {
      forall k | 0 <= k < |names| ensures CoveredAt(leaf, parts, names[k]) {
        BoundTakesAll(leaf, parts, parent, k);
      }
    }
  }

  // ---------------------------------------------------------------------------------------
  // The order of printed types
  // ---------------------------------------------------------------------------------------

  predicate Anything(a: Type, b: Type) { true }

  /** Footers whose merge succeeds print alike column by column, so that only gaps are left to ask for. */
  lemma {:induction false} SignatureCovered(parts: seq<seq<Column>>, parent: string)
    requires MergeRecords(parts, parent).Ok?
    ensures Covered(SameSignature, parts) <==> Covered(Anything, parts)
    decreases Height(Flatten(parts))
  {
    var m, names := MergeRecords(parts, parent).value, Order(Flatten(parts));
    MergedAt(parts, parent);
    forall k | 0 <= k < |names| ensures CoveredAt(SameSignature, parts, names[k]) <==> CoveredAt(Anything, parts, names[k]) {
      var found := Occurrences(Flatten(parts), names[k]);
      MergeColumnIs(parts, names[k], parent);
      if IsStruct(found[0]) {
        MergeColumnInside(parts, names[k], parent);
        SignatureCovered(Insides(found), PathOf(parent, names[k]));
      } else {
        assert !Structs(found);
        forall i | 0 <= i < |found| ensures SameSignature(found[i].typ.value.shape, found[0].typ.value.shape) {
          assert Agree(found[0].typ.value, found[i].typ.value);
        }
      }
    }
  }

  /** With types compared as the code compares them, a successful merge takes every footer if and only if every
      gap shows: repeated names do no harm where each missing column is counted or may be null anyway. */
  lemma {:induction false} RepeatedNamesIff(parts: seq<seq<Column>>, parent: string)
    requires MergeRecords(parts, parent).Ok?
    ensures IsBound(SameSignature, parts, MergeRecords(parts, parent).value) <==> Covered(Anything, parts)
  {
    SignatureKeepsKinds();
    BoundIff(SameSignature, parts, parent);
    SignatureCovered(parts, parent);
  }

  lemma {:induction false} InsidesWellFormed(parts: seq<seq<Column>>, name: string)
    requires AllWellFormed(parts) && Structs(Occurrences(Flatten(parts), name))
    ensures AllWellFormed(Insides(Occurrences(Flatten(parts), name)))
  {
    var found := Occurrences(Flatten(parts), name);
    forall i | 0 <= i < |found| ensures WellFormed(found[i].typ.value.shape.columns) {
      assert found[i] in found;
      var k, l := FoundIn(parts, name, found[i]);
      assert WellFormed(parts[k]) && IsStruct(parts[k][l]);
    }
  }

  /** Without repeated names every gap shows. */
  lemma {:induction false} WellFormedGaps(parts: seq<seq<Column>>, parent: string)
    requires AllWellFormed(parts) && MergeRecords(parts, parent).Ok?
    ensures Covered(Anything, parts)
    decreases Height(Flatten(parts))
  {
    var m, names := MergeRecords(parts, parent).value, Order(Flatten(parts));
    MergedAt(parts, parent);
    forall k | 0 <= k < |names| ensures CoveredAt(Anything, parts, names[k]) {
      var found := Occurrences(Flatten(parts), names[k]);
      MergeColumnIs(parts, names[k], parent);
      CountParts(parts, names[k]);
      if IsStruct(found[0]) {
        MergeColumnInside(parts, names[k], parent);
        InsidesWellFormed(parts, names[k]);
        WellFormedGaps(Insides(found), PathOf(parent, names[k]));
      } else {
        assert !Structs(found);
      }
    }
  }

  lemma {:induction false} FoundBelow(leaf: (Type, Type) -> bool, parts: seq<seq<Column>>, name: string, u: seq<Column>)
    requires IsBound(leaf, parts, u) && InUse(parts, name)
    ensures Has(u, name) && Find(u, name).typ.Some?
    ensures var found := Occurrences(Flatten(parts), name);
      Typed(found) && forall i :: 0 <= i < |found| ==> TypeBelow(leaf, found[i].typ.value, Find(u, name).typ.value)
  {
    var found := Occurrences(Flatten(parts), name);
    forall i | 0 <= i < |found|
      ensures found[i].typ.Some? && Has(u, name) && Find(u, name).typ.Some? && TypeBelow(leaf, found[i].typ.value, Find(u, name).typ.value) {
      assert found[i] in found;
      var k, l := FoundIn(parts, name, found[i]);
      assert ColumnsBelow(leaf, parts[k], u);
      assert ColumnBelow(leaf, parts[k][l], u);
    }
    assert found[0].typ.Some?;
  }

  lemma {:induction false} AgreeUnder(a: FooterType, b: FooterType, d: FooterType)
    requires TypeBelow(SameSignature, a, d) && TypeBelow(SameSignature, b, d)
    ensures Agree(a, b)
  {
    StructPrintsApart(a.shape, d.shape);
    StructPrintsApart(b.shape, d.shape);
  }

  /** The inside of a struct column fits under the inside of the bound's. */
  lemma {:induction false} InsideBound(leaf: (Type, Type) -> bool, parts: seq<seq<Column>>, name: string, u: seq<Column>)
    requires KeepsKinds(leaf) && IsBound(leaf, parts, u) && InUse(parts, name) && Structs(Occurrences(Flatten(parts), name))
    ensures Has(u, name) && IsStruct(Find(u, name))
    ensures IsBound(leaf, Insides(Occurrences(Flatten(parts), name)), Find(u, name).typ.value.shape.columns)
  {
    var found := Occurrences(Flatten(parts), name);
    FoundBelow(leaf, parts, name, u);
    var d := Find(u, name);
    assert TypeBelow(leaf, found[0].typ.value, d.typ.value);
    var j :| 0 <= j < |u| && u[j] == d;
    assert WellFormed(d.typ.value.shape.columns);
    var inside := Insides(found);
    forall i | 0 <= i < |inside| ensures ColumnsBelow(leaf, inside[i], d.typ.value.shape.columns) {
      assert TypeBelow(leaf, found[i].typ.value, d.typ.value);
    }
  }

  /** If any schema takes all the footers, the merge succeeds. */
  lemma {:induction false} MergeSucceeds(parts: seq<seq<Column>>, parent: string, u: seq<Column>)
    requires IsBound(SameSignature, parts, u)
    ensures MergeRecords(parts, parent).Ok?
    decreases Height(Flatten(parts))
  {
    var names := Order(Flatten(parts));
    OrderInUse(parts);
    SignatureKeepsKinds();
    forall k | 0 <= k < |names| ensures MergeColumn(parts, names[k], parent).Ok? {
      var found := Occurrences(Flatten(parts), names[k]);
      FoundBelow(SameSignature, parts, names[k], u);
      forall i | 0 <= i < |found| ensures Agree(found[0].typ.value, found[i].typ.value) {
        AgreeUnder(found[0].typ.value, found[i].typ.value, Find(u, names[k]).typ.value);
      }
      if IsStruct(found[0]) {
        AgreeingStructs(found);
        OccurrencesMembers(Flatten(parts), names[k]);
        InsideIsLower(Flatten(parts), found);
        InsideBound(SameSignature, parts, names[k], u);
        MergeSucceeds(Insides(found), PathOf(parent, names[k]), Find(u, names[k]).typ.value.shape.columns);
      }
    }
    MergeColumnsOk(parts, names, parent);
  }

  /** The merged column may be null only where the bound's may. */
  lemma {:induction false} NullOnlyWhereBound(leaf: (Type, Type) -> bool, parts: seq<seq<Column>>, name: string, u: seq<Column>)
    requires IsBound(leaf, parts, u) && InUse(parts, name) && ShowsNull(parts, name)
    ensures Has(u, name) && Nullable(Find(u, name))
  {
    var found := Occurrences(Flatten(parts), name);
    FoundBelow(leaf, parts, name, u);
    if i :| 0 <= i < |found| && Nullable(found[i]) {
      assert TypeBelow(leaf, found[i].typ.value, Find(u, name).typ.value);
    } else {
      ShortfallHasFile(parts, name);
      var i :| 0 <= i < |parts| && !Has(parts[i], name);
      var j :| 0 <= j < |u| && u[j] == Find(u, name);
      assert ColumnsBelow(leaf, parts[i], u);
    }
  }

  lemma {:induction false} ColumnLeast(leaf: (Type, Type) -> bool, parts: seq<seq<Column>>, name: string, parent: string, u: seq<Column>)
    requires KeepsKinds(leaf) && IsBound(leaf, parts, u) && InUse(parts, name) && MergeColumn(parts, name, parent).Ok?
    ensures ColumnBelow(leaf, MergeColumn(parts, name, parent).value, u)
    decreases Height(Flatten(parts)), 0
  {
    var found, m := Occurrences(Flatten(parts), name), MergeColumn(parts, name, parent).value;
    FoundBelow(leaf, parts, name, u);
    MergeColumnIs(parts, name, parent);
    if m.typ.value.nullable {
      NullOnlyWhereBound(leaf, parts, name, u);
    }
    assert TypeBelow(leaf, found[0].typ.value, Find(u, name).typ.value);
    if IsStruct(found[0]) {
      MergeColumnInside(parts, name, parent);
      InsideBound(leaf, parts, name, u);
      MergeLeast(leaf, Insides(found), PathOf(parent, name), Find(u, name).typ.value.shape.columns);
    }
  }

  /** A successful merge fits under every schema that takes all the footers. */
  lemma {:induction false} MergeLeast(leaf: (Type, Type) -> bool, parts: seq<seq<Column>>, parent: string, u: seq<Column>)
    requires KeepsKinds(leaf) && IsBound(leaf, parts, u) && parts != [] && MergeRecords(parts, parent).Ok?
    ensures ColumnsBelow(leaf, MergeRecords(parts, parent).value, u)
    decreases Height(Flatten(parts)), 1
  {
    var m, names := MergeRecords(parts, parent).value, Order(Flatten(parts));
    MergedAt(parts, parent);
    forall k | 0 <= k < |m| ensures ColumnBelow(leaf, m[k], u) {
      ColumnLeast(leaf, parts, names[k], parent, u);
    }
    forall j | 0 <= j < |u| ensures Has(m, u[j].name) || Nullable(u[j]) {
      assert ColumnsBelow(leaf, parts[0], u);
      if Has(parts[0], u[j].name) {
        var k := MergedHas(parts, parent, 0, u[j].name);
      }
    }
  }

  // ---------------------------------------------------------------------------------------
  // Main results
  // ---------------------------------------------------------------------------------------

  /** What a column's place in the result says: first occurrence first, newest file first. */
  lemma {:induction false} MergedNames(parts: seq<seq<Column>>, parent: string)
    requires MergeRecords(parts, parent).Ok?
    ensures var m, names := MergeRecords(parts, parent).value, Order(Flatten(parts));
      |m| == |names| && forall i :: 0 <= i < |m| ==> m[i].name == names[i]
  {
    MergedAt(parts, parent);
  }

  lemma {:induction false} Twins(c: Column)
    ensures Flatten([[c, c], []]) == [c, c]
    ensures Occurrences([c, c], c.name) == [c, c] && Order([c, c]) == [c.name]
  {
    var none: seq<Column>, parts := [], [[c, c], []];
    assert parts[1..] == [none] && [none][1..] == [];
    assert Flatten([none]) == none + Flatten([none][1..]) == [];
    assert Flatten(parts) == [c, c] + Flatten([none]);
    assert [c, c][..1] == [c] && [c][..0] == [];
    assert Occurrences([c], c.name) == Occurrences([], c.name) + [c];
    assert Order([c]) == Order([]) + [c.name];
  }

  /** A file with a repeated column name makes up for one that lacks it: the merge then is not nullable
      where it has to be. */
  lemma {:induction false} RepeatedNameHidesGap(c: Column)
    requires c.typ.Some? && !c.typ.value.shape.Struct? && !Nullable(c)
    ensures var parts := [[c, c], []];
      MergeRecords(parts, "").Ok? && !IsBound(SameSignature, parts, MergeRecords(parts, "").value)
  {
    var parts := [[c, c], []];
    Twins(c);
    OrderInUse(parts);
    MergeColumnsOk(parts, [c.name], "");
    assert MergeColumn(parts, c.name, "").Ok? && !Nullable(MergeColumn(parts, c.name, "").value);
    var m := MergeRecords(parts, "").value;
    assert !Has(parts[1], m[0].name) && !Nullable(m[0]);
    assert !ColumnsBelow(SameSignature, parts[1], m);
  }
}
