/** What the footer merge of pkg/formats/parquet/merge.go keeps of the types themselves: an order on types
    that mentions no signature, when the merge is a bound in it, and inputs on which it is not. */
module FooterFits {
  import opened Common
  import opened Model
  import opened FooterMerge
  import opened FooterBounds

  // ---------------------------------------------------------------------------------------
  // The order
  // ---------------------------------------------------------------------------------------

  /** Every value of type a is a value of type b: the same atom, unit and size included; lists and maps by
      their elements; structs by their columns. */
  predicate FitsShape(a: Type, b: Type)
    decreases a, 1
  {
    match a
    case Atomic(x) => b == Atomic(x)
    case ListType(e) => b.ListType? && FitsOptional(e, b.element)
    case MapType(k, v) => b.MapType? && FitsOptional(k, b.key) && FitsOptional(v, b.value)
    case Struct(columns) => b.Struct? && FitsColumns(columns, b.columns)
  }

  predicate FitsType(a: FooterType, b: FooterType)
    decreases a, 2
  {
    (a.nullable ==> b.nullable) && FitsShape(a.shape, b.shape)
  }

  predicate FitsOptional(a: Option<FooterType>, b: Option<FooterType>)
    decreases a, 3
  {
    if a.None? then b.None? else b.Some? && FitsType(a.value, b.value)
  }

  predicate FitsColumn(c: Column, b: seq<Column>)
    decreases c, 4
  {
    c.typ.Some? && Has(b, c.name) && Find(b, c.name).typ.Some? && FitsType(c.typ.value, Find(b, c.name).typ.value)
  }

  /** Every column is there, wide enough, and every other column can be null. */
  predicate FitsColumns(a: seq<Column>, b: seq<Column>)
    decreases a, 0
  {
    && (forall i :: 0 <= i < |a| ==> FitsColumn(a[i], b))
    && (forall j :: 0 <= j < |b| ==> Has(a, b[j].name) || Nullable(b[j]))
  }

  ghost predicate TakesEvery(parts: seq<seq<Column>>, u: seq<Column>)
  {
    WellFormed(u) && forall i :: 0 <= i < |parts| ==> FitsColumns(parts[i], u)
  }

  lemma {:induction false} FitsKeepsKinds()
    ensures KeepsKinds(FitsShape)
  {
  }

  lemma {:induction false} TypeFits(a: FooterType, b: FooterType)
    ensures TypeBelow(FitsShape, a, b) <==> FitsType(a, b)
    decreases a, 1
  {
    if a.shape.Struct? && b.shape.Struct? {
      ColumnsFit(a.shape.columns, b.shape.columns);
    }
  }

  lemma {:induction false} ColumnsFit(a: seq<Column>, b: seq<Column>)
    ensures ColumnsBelow(FitsShape, a, b) <==> FitsColumns(a, b)
    decreases a, 0
  {
    forall i | 0 <= i < |a| ensures ColumnBelow(FitsShape, a[i], b) <==> FitsColumn(a[i], b) {
      if a[i].typ.Some? && Has(b, a[i].name) && Find(b, a[i].name).typ.Some? {
        TypeFits(a[i].typ.value, Find(b, a[i].name).typ.value);
      }
    }
  }

  lemma {:induction false} BoundFits(parts: seq<seq<Column>>, u: seq<Column>)
    ensures IsBound(FitsShape, parts, u) <==> TakesEvery(parts, u)
  {
    forall i | 0 <= i < |parts| ensures ColumnsBelow(FitsShape, parts[i], u) <==> FitsColumns(parts[i], u) {
      ColumnsFit(parts[i], u);
    }
  }

  // ---------------------------------------------------------------------------------------
  // Main results
  // ---------------------------------------------------------------------------------------

  /** A successful merge takes every file's rows if and only if every occurrence of a column fits its first one
      and every gap shows, at every depth. */
  lemma {:induction false} MergeTakesEveryIff(parts: seq<seq<Column>>, parent: string)
    requires MergeRecords(parts, parent).Ok?
    ensures TakesEvery(parts, MergeRecords(parts, parent).value) <==> Covered(FitsShape, parts)
  {
    FitsKeepsKinds();
    BoundIff(FitsShape, parts, parent);
    BoundFits(parts, MergeRecords(parts, parent).value);
  }

  /** Taking every file or not, a successful merge asks for no more than any schema that does. */
  lemma {:induction false} MergeFitsUnder(parts: seq<seq<Column>>, parent: string, u: seq<Column>)
    requires MergeRecords(parts, parent).Ok? && parts != [] && TakesEvery(parts, u)
    ensures FitsColumns(MergeRecords(parts, parent).value, u)
  {
    FitsKeepsKinds();
    BoundFits(parts, u);
    MergeLeast(FitsShape, parts, parent, u);
    ColumnsFit(MergeRecords(parts, parent).value, u);
  }

  // ---------------------------------------------------------------------------------------
  // Two files with one column each
  // ---------------------------------------------------------------------------------------

  function Merged(c: Column, d: Column): Column
    requires c.typ.Some? && d.typ.Some?
  {
    Column(c.name, c.id, Some(FooterType(c.typ.value.shape, c.typ.value.nullable || d.typ.value.nullable)))
  }

  lemma {:induction false} PairFacts(c: Column, d: Column)
    requires c.name == d.name
    ensures Flatten([[c], [d]]) == [c, d] && Occurrences([c, d], c.name) == [c, d] && Order([c, d]) == [c.name]
  {
    var parts := [[c], [d]];
    assert parts[1..] == [[d]];
    FlattenOne([d]);
    assert Flatten(parts) == [c] + [d];
    assert [c, d][..1] == [c] && [c][..0] == [];
    assert Occurrences([c], c.name) == Occurrences([], c.name) + [c] == [c];
    assert Order([c]) == Order([]) + [c.name] == [c.name];
  }

  lemma {:induction false} PairMerge(c: Column, d: Column)
    requires c.name == d.name && c.typ.Some? && d.typ.Some? && !IsStruct(c)
    ensures MergeRecords([[c], [d]], "") ==
      if Agree(c.typ.value, d.typ.value) then Ok([Merged(c, d)]) else Err(Conflict(c.name))
  {
    var parts := [[c], [d]];
    PairFacts(c, d);
    OrderInUse(parts);
    PairColumn(c, d);
    assert [c.name][..0] == [] && MergeColumns(parts, [], "") == Ok([]);
    assert Agree(c.typ.value, d.typ.value) ==> [] + [Merged(c, d)] == [Merged(c, d)];
  }

  lemma {:induction false} PairColumn(c: Column, d: Column)
    requires c.name == d.name && c.typ.Some? && d.typ.Some? && !IsStruct(c)
    ensures InUse([[c], [d]], c.name)
    ensures MergeColumn([[c], [d]], c.name, "") ==
      if Agree(c.typ.value, d.typ.value) then Ok(Merged(c, d)) else Err(Conflict(c.name))
  {
    PairFacts(c, d);
    var found := [c, d];
    assert found[0] == c && found[1] == d;
    assert Typed(found);
    assert Agreeing(found) <==> Agree(c.typ.value, d.typ.value);
    assert (exists i :: 0 <= i < |found| && Nullable(found[i])) <==> c.typ.value.nullable || d.typ.value.nullable by {
      assert Nullable(found[0]) == c.typ.value.nullable && Nullable(found[1]) == d.typ.value.nullable;
    }
  }

  function ScalarColumn(name: string, id: int, a: Atom): Column { Column(name, Some(id), Some(FooterType(Atomic(a), false))) }

  function ListColumn(name: string, element: FooterType): Column
  {
    Column(name, None, Some(FooterType(ListType(Some(element)), false)))
  }

  /** A millisecond and a microsecond timestamp: the merge takes the unit and the field id of whichever file
      comes first. */
  lemma {:induction false} UnitFollowsFileOrder(name: string)
    ensures var c, d := ScalarColumn(name, 1, Timestamp(Some(Millis))), ScalarColumn(name, 2, Timestamp(Some(Micros)));
      && MergeRecords([[c], [d]], "") == Ok([c]) && MergeRecords([[d], [c]], "") == Ok([d])
      && !TakesEvery([[c], [d]], [c]) && !TakesEvery([[d], [c]], [d])
  {
    var c, d := ScalarColumn(name, 1, Timestamp(Some(Millis))), ScalarColumn(name, 2, Timestamp(Some(Micros)));
    PairMerge(c, d);
    PairMerge(d, c);
    NotTaken([[c], [d]], 1, d, c);
    NotTaken([[d], [c]], 1, c, d);
  }

  /** A list without nulls and one with: the merge declares the first file's, which the second breaks; a
      schema that takes both exists. */
  lemma {:induction false} ListNullsLost(name: string)
    ensures var c, d := ListColumn(name, FooterType(Atomic(Int), false)), ListColumn(name, FooterType(Atomic(Int), true));
      MergeRecords([[c], [d]], "") == Ok([c]) && !TakesEvery([[c], [d]], [c]) && TakesEvery([[c], [d]], [d])
  {
    var c, d := ListColumn(name, FooterType(Atomic(Int), false)), ListColumn(name, FooterType(Atomic(Int), true));
    PairMerge(c, d);
    NotTaken([[c], [d]], 1, d, c);
    OneColumnFits(c, d);
    OneColumnFits(d, d);
  }

  /** A struct inside a list is compared by signature and not merged: growing it is refused, although the
      grown type takes both files. */
  lemma {:induction false} ListOfStructRefused(name: string)
    ensures var a := Column("a", None, Some(FooterType(Atomic(Int), true)));
      var c, d := ListColumn(name, FooterType(Struct([]), false)), ListColumn(name, FooterType(Struct([a]), false));
      MergeRecords([[c], [d]], "") == Err(Conflict(name)) && TakesEvery([[c], [d]], [d])
  {
    var a := Column("a", None, Some(FooterType(Atomic(Int), true)));
    var c, d := ListColumn(name, FooterType(Struct([]), false)), ListColumn(name, FooterType(Struct([a]), false));
    assert |Named([a])| > 0 by { assert |"a" + ":" + "INT"| == 5; }
    assert |Signature(Struct([a]))| > |Signature(Struct([]))|;
    assert |Signature(d.typ.value.shape)| > |Signature(c.typ.value.shape)|;
    PairMerge(c, d);
    assert FitsColumns([], [a]);
    OneColumnFits(a, a);
    assert FitsShape(Struct([]), Struct([a])) && FitsShape(Struct([a]), Struct([a]));
    assert FitsType(d.typ.value.shape.element.value, d.typ.value.shape.element.value);
    OneColumnFits(c, d);
    OneColumnFits(d, d);
  }

  lemma {:induction false} OneColumnFits(c: Column, d: Column)
    requires c.name == d.name && c.typ.Some? && d.typ.Some? && FitsType(c.typ.value, d.typ.value)
    ensures FitsColumns([c], [d])
  {
    assert [d][0] == d && Has([d], c.name) && Find([d], c.name) == d;
    assert [c][0] == c && Has([c], d.name);
  }

  lemma {:induction false} NotTaken(parts: seq<seq<Column>>, i: nat, c: Column, d: Column)
    requires i < |parts| && parts[i] == [c] && c.name == d.name && c.typ.Some? && d.typ.Some? && !FitsType(c.typ.value, d.typ.value)
    ensures !TakesEvery(parts, [d])
  {
    assert [d][0] == d && Has([d], c.name) && Find([d], c.name) == d;
    assert [c][0] == c && !FitsColumn([c][0], [d]);
    assert !FitsColumns(parts[i], [d]);
  }
}
