/** The footer merge of pkg/formats/parquet/merge.go: union of the columns, recursive on structs, types
    compared by their printed signature. */
module FooterMerge {
  import opened Common
  import opened Model
  import opened Numerals

  /** A column's type; a column, an element or a value may have been read without one. */
  datatype Type =
    | Atomic(atom: Atom)
    | Struct(columns: seq<Column>)
    | ListType(element: Option<FooterType>)
    | MapType(key: Option<FooterType>, value: Option<FooterType>)

  datatype FooterType = FooterType(shape: Type, nullable: bool)

  datatype Column = Column(name: string, id: Option<int>, typ: Option<FooterType>)

  // ---------------------------------------------------------------------------------------
  // Signatures
  // ---------------------------------------------------------------------------------------

  function AtomName(a: Atom): string
  {
    match a
    case Boolean => "BOOLEAN"
    case Int => "INT"
    case Long => "LONG"
    case Float => "FLOAT"
    case Double => "DOUBLE"
    case String => "STRING"
    case Enum => "ENUM"
    case Uuid => "UUID"
    case Bytes => "BYTES"
    case Fixed(_) => "FIXED"
    case Date => "DATE"
    case Timestamp(_) => "TIMESTAMP"
    case TimestampNtz(_) => "TIMESTAMP_NTZ"
    case Decimal(p, s) => "DECIMAL(" + Itoa(p) + "," + Itoa(s) + ")"
    case Union => "UNION"
    case Null => "NULL"
  }

  function Signature(t: Type): string
    decreases t, 1
  {
    match t
    case Atomic(a) => AtomName(a)
    case ListType(e) => "LIST<" + Optional(e) + ">"
    case MapType(k, v) => "MAP<" + Optional(k) + "," + Optional(v) + ">"
    case Struct(columns) => "RECORD<" + Named(columns) + ">"
  }

  function Optional(t: Option<FooterType>): string
    decreases t, 2
  {
    if t.None? then "<none>" else Signature(t.value.shape)
  }

  /** name:type, comma separated. */
  function Named(columns: seq<Column>): string
    decreases columns, 0
  {
    if columns == [] then ""
    else
      var one := columns[0].name + ":" + Optional(columns[0].typ);
      if |columns| == 1 then one else one + "," + Named(columns[1..])
  }

  // ---------------------------------------------------------------------------------------
  // The merge
  // ---------------------------------------------------------------------------------------

  datatype MergeError = Untyped(path: string) | Conflict(path: string)

  /** The columns of one name, in file order. */
  function Occurrences(columns: seq<Column>, name: string): seq<Column>
  {
    if columns == [] then []
    else
      var rest := Occurrences(columns[..|columns| - 1], name);
      if Last(columns).name == name then rest + [Last(columns)] else rest
  }

  lemma {:induction false} OccurrencesMembers(columns: seq<Column>, name: string)
    ensures forall c :: c in Occurrences(columns, name) <==> c in columns && c.name == name
  {
    if columns != [] {
      OccurrencesMembers(columns[..|columns| - 1], name);
      assert columns == columns[..|columns| - 1] + [Last(columns)];
    }
  }

  /** Every name once, at its first occurrence. */
  function Order(columns: seq<Column>): seq<string>
  {
    if columns == [] then []
    else
      var rest := Order(columns[..|columns| - 1]);
      if Last(columns).name in rest then rest else rest + [Last(columns).name]
  }

  ghost predicate NamesColumn(columns: seq<Column>, n: string) { exists c :: c in columns && c.name == n }

  lemma {:induction false} OrderMembers(columns: seq<Column>)
    ensures forall n :: n in Order(columns) <==> NamesColumn(columns, n)
    ensures forall i, j :: 0 <= i < j < |Order(columns)| ==> Order(columns)[i] != Order(columns)[j]
  {
    if columns != [] {
      var init, last := columns[..|columns| - 1], Last(columns);
      OrderMembers(init);
      assert columns == init + [last];
      forall n ensures NamesColumn(columns, n) <==> NamesColumn(init, n) || n == last.name {
        NamesSnoc(init, last, n);
      }
    }
  }

  lemma {:induction false} NamesSnoc(columns: seq<Column>, last: Column, n: string)
    ensures NamesColumn(columns + [last], n) <==> NamesColumn(columns, n) || n == last.name
  {
    if NamesColumn(columns, n) {
      var c :| c in columns && c.name == n;
      assert c in columns + [last];
    }
    assert last in columns + [last];
  }

  function HeightOf(c: Column): nat
    decreases c, 0
  {
    if c.typ.Some? && c.typ.value.shape.Struct? then 1 + Height(c.typ.value.shape.columns) else 0
  }

  /** How deep structs nest. */
  function Height(columns: seq<Column>): (h: nat)
    decreases columns, 1
  {
    if columns == [] then 0 else Max(HeightOf(columns[0]), Height(columns[1..]))
  }

  lemma {:induction false} HeightMember(columns: seq<Column>, c: Column)
    requires c in columns
    ensures HeightOf(c) <= Height(columns)
  {
    if c != columns[0] {
      HeightMember(columns[1..], c);
    }
  }

  lemma {:induction false} HeightBelow(columns: seq<Column>, h: nat)
    requires forall c :: c in columns ==> HeightOf(c) <= h
    ensures Height(columns) <= h
  {
    if columns != [] {
      HeightBelow(columns[1..], h);
    }
  }

  predicate IsStruct(c: Column) { c.typ.Some? && c.typ.value.shape.Struct? }

  predicate Structs(found: seq<Column>) { forall i :: 0 <= i < |found| ==> IsStruct(found[i]) }

  /** What the files' struct columns of one name hold. */
  function Insides(found: seq<Column>): (parts: seq<seq<Column>>)
    requires Structs(found)
    ensures |parts| == |found| && forall i :: 0 <= i < |found| ==> parts[i] == found[i].typ.value.shape.columns
  {
    seq(|found|, i requires 0 <= i < |found| => found[i].typ.value.shape.columns)
  }

  lemma {:induction false} FlattenMember<T>(parts: seq<seq<T>>, x: T)
    ensures x in Flatten(parts) <==> exists i :: 0 <= i < |parts| && x in parts[i]
  {
    if parts != [] {
      FlattenMember(parts[1..], x);
      if x in Flatten(parts[1..]) {
        var i :| 0 <= i < |parts[1..]| && x in parts[1..][i];
        assert x in parts[i + 1];
      }
      if i :| 0 <= i < |parts| && x in parts[i] && i > 0 {
        assert x in parts[1..][i - 1];
      }
    }
  }

  lemma {:induction false} InsideIsLower(columns: seq<Column>, found: seq<Column>)
    requires found != [] && Structs(found) && forall c :: c in found ==> c in columns
    ensures Height(Flatten(Insides(found))) < Height(columns)
  {
    var parts := Insides(found);
    forall c | c in Flatten(parts) ensures HeightOf(c) <= Height(columns) - 1 {
      FlattenMember(parts, c);
      var i :| 0 <= i < |parts| && c in parts[i];
      assert found[i] in found;
      HeightMember(found[i].typ.value.shape.columns, c);
      HeightMember(columns, found[i]);
    }
    assert found[0] in found;
    HeightMember(columns, found[0]);
    HeightBelow(Flatten(parts), Height(columns) - 1);
  }

  /** Two files' types of one column: structs are merged, anything else must print alike. */
  predicate Agree(a: FooterType, b: FooterType)
  {
    (a.shape.Struct? && b.shape.Struct?) || Signature(a.shape) == Signature(b.shape)
  }

  function PathOf(parent: string, name: string): string
  {
    if parent == "" then name else parent + "." + name
  }

  function Nullable(c: Column): bool { c.typ.Some? && c.typ.value.nullable }

  predicate Typed(found: seq<Column>) { forall i :: 0 <= i < |found| ==> found[i].typ.Some? }

  predicate Agreeing(found: seq<Column>)
    requires Typed(found)
  {
    forall i :: 0 <= i < |found| ==> Agree(found[0].typ.value, found[i].typ.value)
  }

  lemma {:induction false} AgreeingStructs(found: seq<Column>)
    requires found != [] && Typed(found) && Agreeing(found) && IsStruct(found[0])
    ensures Structs(found)
  {
    forall i | 0 <= i < |found| ensures IsStruct(found[i]) {
      assert Agree(found[0].typ.value, found[i].typ.value);
      StructPrintsApart(found[0].typ.value.shape, found[i].typ.value.shape);
    }
  }

  /** No other type prints like a struct. */
  lemma {:induction false} StructPrintsApart(a: Type, b: Type)
    ensures Signature(a) == Signature(b) ==> a.Struct? == b.Struct?
  {
    FirstLetter(a);
    FirstLetter(b);
  }

  lemma {:induction false} FirstLetter(t: Type)
    ensures Signature(t) != "" && (Signature(t)[0] == 'R' <==> t.Struct?)
  {
  }

  predicate InUse(parts: seq<seq<Column>>, name: string) { Occurrences(Flatten(parts), name) != [] }

  lemma {:induction false} OrderInUse(parts: seq<seq<Column>>)
    ensures forall i :: 0 <= i < |Order(Flatten(parts))| ==> InUse(parts, Order(Flatten(parts))[i])
  {
    var all := Flatten(parts);
    forall i | 0 <= i < |Order(all)| ensures InUse(parts, Order(all)[i]) {
      assert Order(all)[i] in Order(all);
      OrderMembers(all);
      assert NamesColumn(all, Order(all)[i]);
      var c :| c in all && c.name == Order(all)[i];
      OccurrencesMembers(all, c.name);
      assert c in Occurrences(all, c.name);
    }
  }

  /** One column of the merge: nullable when a file lacks it or declares it nullable. */
  function MergeColumn(parts: seq<seq<Column>>, name: string, parent: string): (r: Result<Column, MergeError>)
    requires InUse(parts, name)
    ensures r.Ok? ==> r.value.name == name && r.value.typ.Some?
    decreases Height(Flatten(parts)), 0
  {
    var found := Occurrences(Flatten(parts), name);
    var path := PathOf(parent, name);
    if !Typed(found) then Err(Untyped(path))
    else
      var nullable := |found| < |parts| || exists i :: 0 <= i < |found| && Nullable(found[i]);
      var first := found[0];
      if !Agreeing(found) then Err(Conflict(path))
      else if IsStruct(first) then
        AgreeingStructs(found);
        OccurrencesMembers(Flatten(parts), name);
        InsideIsLower(Flatten(parts), found);
        match MergeRecords(Insides(found), path)
        case Err(e) => Err(e)
        case Ok(columns) => Ok(Column(name, first.id, Some(FooterType(Struct(columns), nullable))))
      else Ok(Column(name, first.id, Some(FooterType(first.typ.value.shape, nullable))))
  }

  /** Columns in order; the first failure decides. */
  function MergeColumns(parts: seq<seq<Column>>, names: seq<string>, parent: string): (r: Result<seq<Column>, MergeError>)
    requires forall i :: 0 <= i < |names| ==> InUse(parts, names[i])
    decreases Height(Flatten(parts)), 1, |names|
  {
    if names == [] then Ok([])
    else
      match MergeColumns(parts, names[..|names| - 1], parent)
      case Err(e) => Err(e)
      case Ok(before) =>
        match MergeColumn(parts, Last(names), parent)
        case Err(e) => Err(e)
        case Ok(c) => Ok(before + [c])
  }

  function MergeRecords(parts: seq<seq<Column>>, parent: string): Result<seq<Column>, MergeError>
    decreases Height(Flatten(parts)), 2
  {
    OrderInUse(parts);
    MergeColumns(parts, Order(Flatten(parts)), parent)
  }
}
