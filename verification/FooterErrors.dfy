/** What a failure of MergeFooterSchemas in pkg/formats/parquet/merge.go reports: the full name of a column that stands
    in its way, and how. */
module FooterErrors {
  import opened Common
  import opened FooterMerge

  /** The column down these names: reached through columns that are structs in every file, and there without a type in
      some file, or with types that differ. */
  ghost predicate Blamed(parts: seq<seq<Column>>, names: seq<string>, untyped: bool)
    decreases |names|
  {
    && names != [] && InUse(parts, names[0])
    && var found := Occurrences(Flatten(parts), names[0]);
      if |names| > 1 then Structs(found) && Blamed(Insides(found), names[1..], untyped)
      else if untyped then exists i :: 0 <= i < |found| && found[i].typ.None?
      else Typed(found) && exists i :: 0 <= i < |found| && Differ(found[0].typ.value.shape, found[i].typ.value.shape)
  }

  predicate Differ(a: Type, b: Type) { Signature(a) != Signature(b) && !(a.Struct? && b.Struct?) }

  /** The names separated by dots, behind the parent's. */
  function Dotted(parent: string, names: seq<string>): string
    decreases |names|
  {
    if names == [] then parent
    else Dotted(if parent == "" then names[0] else parent + "." + names[0], names[1..])
  }

  /** What failed, and the column's name. */
  ghost predicate Reports(parts: seq<seq<Column>>, parent: string, e: MergeError, names: seq<string>)
  {
    Blamed(parts, names, e.Untyped?) && e.path == Dotted(parent, names)
  }

  /** A failed merge names a column that is to blame. */
  lemma {:induction false} FailureReports(parts: seq<seq<Column>>, parent: string) returns (names: seq<string>)
    requires MergeRecords(parts, parent).Err?
    ensures Reports(parts, parent, MergeRecords(parts, parent).error, names)
    decreases Height(Flatten(parts)), 2
  {
    OrderInUse(parts);
    names := ColumnsReport(parts, Order(Flatten(parts)), parent);
  }

  lemma {:induction false} ColumnsReport(parts: seq<seq<Column>>, order: seq<string>, parent: string) returns (names: seq<string>)
    requires (forall i :: 0 <= i < |order| ==> InUse(parts, order[i])) && MergeColumns(parts, order, parent).Err?
    ensures Reports(parts, parent, MergeColumns(parts, order, parent).error, names)
    decreases Height(Flatten(parts)), 1, |order|
  {
    if MergeColumns(parts, order[..|order| - 1], parent).Err? {
      names := ColumnsReport(parts, order[..|order| - 1], parent);
    } else {
      names := ColumnReports(parts, Last(order), parent);
    }
  }

  lemma {:induction false} ColumnReports(parts: seq<seq<Column>>, name: string, parent: string) returns (names: seq<string>)
    requires InUse(parts, name) && MergeColumn(parts, name, parent).Err?
    ensures Reports(parts, parent, MergeColumn(parts, name, parent).error, names)
    decreases Height(Flatten(parts)), 0
  {
    var found := Occurrences(Flatten(parts), name);
    names := [name];
    assert Dotted(parent, [name]) == if parent == "" then name else parent + "." + name by {
      assert [name][1..] == [];
    }
    if Typed(found) && Agreeing(found) {
      AgreeingStructs(found);
      OccurrencesMembers(Flatten(parts), name);
      InsideIsLower(Flatten(parts), found);
      var inner := FailureReports(Insides(found), PathOf(parent, name));
      names := [name] + inner;
      assert names[1..] == inner;
    } else if Typed(found) {
      var i :| 0 <= i < |found| && !Agree(found[0].typ.value, found[i].typ.value);
      assert Differ(found[0].typ.value.shape, found[i].typ.value.shape);
    }
  }
}
