/** Paimon type trees (pkg/formats/paimon/schema.go): printing with one id counter for the whole tree,
    parsing, and what comes back. */
module PaimonTypes {
  import opened Common
  import opened Model
  import opened Strings
  import opened PaimonAtoms

  /** The JSON of a type: a bare string, or an object whose "type" text says which children matter. */
  datatype PaimonType =
    | Text(sql: string)
    | Object(header: string, fields: seq<DataField>, element: Option<PaimonType>, key: Option<PaimonType>, value: Option<PaimonType>)

  datatype DataField = DataField(id: int, name: string, typ: PaimonType)

  function RowType(nullable: bool, fields: seq<DataField>): PaimonType
  {
    Object(WithNullability("ROW", nullable), fields, None, None, None)
  }

  function ArrayType(nullable: bool, element: PaimonType): PaimonType
  {
    Object(WithNullability("ARRAY", nullable), [], Some(element), None, None)
  }

  function MapType(nullable: bool, key: PaimonType, value: PaimonType): PaimonType
  {
    Object(WithNullability("MAP", nullable), [], None, Some(key), Some(value))
  }

  // ---------------------------------------------------------------------------------------
  // Printing
  // ---------------------------------------------------------------------------------------

  /** The id a field gets, given the counter: its own if it has a positive one, else the next. */
  function FieldId(id: Option<int>, next: int): int
  {
    if id.Some? && id.value > 0 then id.value else next + 1
  }

  function Counter(id: Option<int>, next: int): int { Max(next, FieldId(id, next)) }

  function PrintType(s: Schema, next: int): Option<(PaimonType, int)>
    decreases s, 1
  {
    match s
    case Scalar(a, nullable) =>
      if Spelling(a).None? then None else Some((Text(WithNullability(Spelling(a).value, nullable)), next))
    case ListOf(e, nullable) => (
      match PrintType(e, next)
      case None => None
      case Some(r) => Some((ArrayType(nullable, r.0), r.1)))
    case MapOf(k, v, nullable) => (
      match PrintType(k, next)
      case None => None
      case Some(rk) =>
        match PrintType(v, rk.1)
        case None => None
        case Some(rv) => Some((MapType(nullable, rk.0, rv.0), rv.1)))
    case Record(fields, nullable) =>
      match PrintFields(fields, next)
      case None => None
      case Some(r) => Some((RowType(nullable, r.0), r.1))
  }

  function PrintField(f: Field, next: int): Option<(DataField, int)>
    decreases f, 2
  {
    match PrintType(f.schema, Counter(f.id, next))
    case None => None
    case Some(r) => Some((DataField(FieldId(f.id, next), f.name, r.0), r.1))
  }

  function PrintFields(fields: seq<Field>, next: int): Option<(seq<DataField>, int)>
    decreases fields, 0
  {
    if fields == [] then Some(([], next))
    else
      match PrintField(fields[0], next)
      case None => None
      case Some(r) =>
        match PrintFields(fields[1..], r.1)
        case None => None
        case Some(rest) => Some(([r.0] + rest.0, rest.1))
  }

  /** The printer itself: the counter is shared by the whole tree. */
  class Printer {
    var nextID: int

    constructor (nextID: int)
      ensures this.nextID == nextID
    {
      this.nextID := nextID;
    }

    method TypeOf(s: Schema) returns (r: Option<PaimonType>)
      modifies this
      ensures match PrintType(s, old(nextID)) case None => r == None case Some(p) => r == Some(p.0) && nextID == p.1
      decreases s, 1
    {
      match s
      case Scalar(a, nullable) =>
        var base := Spelling(a);
        r := if base.None? then None else Some(Text(WithNullability(base.value, nullable)));
      case ListOf(e, nullable) =>
        var element := TypeOf(e);
        r := if element.None? then None else Some(ArrayType(nullable, element.value));
      case MapOf(k, v, nullable) =>
        var key := TypeOf(k);
        if key.None? {
          return None;
        }
        var value := TypeOf(v);
        r := if value.None? then None else Some(MapType(nullable, key.value, value.value));
      case Record(fields, nullable) =>
        var nested := FieldsOf(fields);
        r := if nested.None? then None else Some(RowType(nullable, nested.value));
    }

    method FieldOf(f: Field) returns (r: Option<DataField>)
      modifies this
      ensures match PrintField(f, old(nextID)) case None => r == None case Some(p) => r == Some(p.0) && nextID == p.1
      decreases f, 2
    {
      var id := nextID + 1;
      if f.id.Some? && f.id.value > 0 {
        id := f.id.value;
        if id > nextID {
          nextID := id;
        }
      } else {
        nextID := nextID + 1;
      }
      var t := TypeOf(f.schema);
      r := if t.None? then None else Some(DataField(id, f.name, t.value));
    }

    method FieldsOf(fields: seq<Field>) returns (r: Option<seq<DataField>>)
      modifies this
      ensures match PrintFields(fields, old(nextID)) case None => r == None case Some(p) => r == Some(p.0) && nextID == p.1
      decreases fields, 0
    {
      var out: seq<DataField> := [];
      ghost var goal := PrintFields(fields, nextID);
      assert fields[0..] == fields;
      PrependNothing(goal);
      for i := 0 to |fields|
        invariant goal == Prepend(out, PrintFields(fields[i..], nextID))
      {
        assert fields[i..][1..] == fields[i + 1..];
        var f := FieldOf(fields[i]);
        if f.None? {
          return None;
        }
        PrependOne(out, f.value, PrintFields(fields[i + 1..], nextID));
        out := out + [f.value];
      }
      assert out + [] == out;
      r := Some(out);
    }
  }

  function Prepend(out: seq<DataField>, r: Option<(seq<DataField>, int)>): Option<(seq<DataField>, int)>
  {
    if r.None? then None else Some((out + r.value.0, r.value.1))
  }

  lemma {:induction false} PrependNothing(r: Option<(seq<DataField>, int)>)
    ensures Prepend([], r) == r
  {
    if r.Some? {
      assert [] + r.value.0 == r.value.0;
    }
  }

  lemma {:induction false} PrependOne(out: seq<DataField>, f: DataField, r: Option<(seq<DataField>, int)>)
    ensures Prepend(out, Prepend([f], r)) == Prepend(out + [f], r)
  {
    if r.Some? {
      assert out + ([f] + r.value.0) == (out + [f]) + r.value.0;
    }
  }

  // ---------------------------------------------------------------------------------------
  // Parsing
  // ---------------------------------------------------------------------------------------

  function ParseType(t: PaimonType): Option<Schema>
    decreases t, 1
  {
    match t
    case Text(sql) => ParseAtomic(sql)
    case Object(header, fields, element, key, value) =>
      var upper := Upper(TrimSpace(header));
      var nullable := !Contains(upper, "NOT NULL");
      if HasPrefix(upper, "ROW") then
        match ParseFields(fields)
        case None => None
        case Some(fs) => Some(Record(fs, nullable))
      else if HasPrefix(upper, "ARRAY") then
        if element.None? then None
        else
          match ParseType(element.value)
          case None => None
          case Some(e) => Some(ListOf(e, nullable))
      else if HasPrefix(upper, "MAP") then
        if key.None? || value.None? then None
        else
          match ParseType(key.value)
          case None => None
          case Some(k) =>
            match ParseType(value.value)
            case None => None
            case Some(v) => Some(MapOf(k, v, nullable))
      else None
  }

  function ParseFields(fields: seq<DataField>): Option<seq<Field>>
    decreases fields, 0
  {
    if fields == [] then Some([])
    else
      match ParseType(fields[0].typ)
      case None => None
      case Some(s) =>
        match ParseFields(fields[1..])
        case None => None
        case Some(rest) => Some([Field(fields[0].name, Some(fields[0].id), s)] + rest)
  }

  // ---------------------------------------------------------------------------------------
  // Reading back
  // ---------------------------------------------------------------------------------------

  /** Everything the type grammar can express. */
  predicate Supported(s: Schema)
    decreases s, 1
  {
    match s
    case Scalar(a, _) => Spelling(a).Some?
    case ListOf(e, _) => Supported(e)
    case MapOf(k, v, _) => Supported(k) && Supported(v)
    case Record(fields, _) => SupportedFields(fields)
  }

  predicate SupportedFields(fields: seq<Field>)
    decreases fields, 0
  {
    fields == [] || (Supported(fields[0].schema) && SupportedFields(fields[1..]))
  }

  /** No negative decimal parameter anywhere. */
  predicate UnsignedType(s: Schema)
    decreases s, 1
  {
    match s
    case Scalar(a, _) => Unsigned(a)
    case ListOf(e, _) => UnsignedType(e)
    case MapOf(k, v, _) => UnsignedType(k) && UnsignedType(v)
    case Record(fields, _) => UnsignedFields(fields)
  }

  predicate UnsignedFields(fields: seq<Field>)
    decreases fields, 0
  {
    fields == [] || (UnsignedType(fields[0].schema) && UnsignedFields(fields[1..]))
  }

  /** The tree without its ids, scalar types passed through w. */
  function Shape(s: Schema, w: Atom -> Atom): Schema
    decreases s, 1
  {
    match s
    case Scalar(a, nullable) => Scalar(w(a), nullable)
    case ListOf(e, nullable) => ListOf(Shape(e, w), nullable)
    case MapOf(k, v, nullable) => MapOf(Shape(k, w), Shape(v, w), nullable)
    case Record(fields, nullable) => Record(Shapes(fields, w), nullable)
  }

  function Shapes(fields: seq<Field>, w: Atom -> Atom): seq<Field>
    decreases fields, 0
  {
    if fields == [] then [] else [Field(fields[0].name, None, Shape(fields[0].schema, w))] + Shapes(fields[1..], w)
  }

  function Same(a: Atom): Atom { a }

  /** The field ids of the tree, parents before children. */
  function Ids(s: Schema): seq<Option<int>>
    decreases s, 1
  {
    match s
    case Scalar(_, _) => []
    case ListOf(e, _) => Ids(e)
    case MapOf(k, v, _) => Ids(k) + Ids(v)
    case Record(fields, _) => FieldIds(fields)
  }

  function FieldIds(fields: seq<Field>): seq<Option<int>>
    decreases fields, 0
  {
    if fields == [] then [] else ([fields[0].id] + Ids(fields[0].schema)) + FieldIds(fields[1..])
  }

  /** The ids one counter hands out for a list of requests. */
  function Alloc(next: int, requests: seq<Option<int>>): (ids: seq<Option<int>>)
    ensures |ids| == |requests|
    decreases |requests|
  {
    if requests == [] then [] else [Some(FieldId(requests[0], next))] + Alloc(Counter(requests[0], next), requests[1..])
  }

  function AfterAlloc(next: int, requests: seq<Option<int>>): int
    decreases |requests|
  {
    if requests == [] then next else AfterAlloc(Counter(requests[0], next), requests[1..])
  }

  lemma {:induction false} AllocConcat(next: int, a: seq<Option<int>>, b: seq<Option<int>>)
    ensures Alloc(next, a + b) == Alloc(next, a) + Alloc(AfterAlloc(next, a), b)
    ensures AfterAlloc(next, a + b) == AfterAlloc(AfterAlloc(next, a), b)
    decreases |a|
  {
    if a == [] {
      assert a + b == b;
      assert [] + Alloc(next, b) == Alloc(next, b);
    } else {
      var n := Counter(a[0], next);
      AllocConcat(n, a[1..], b);
      assert (a + b)[1..] == a[1..] + b && (a + b)[0] == a[0];
      var id, x, y := Some(FieldId(a[0], next)), Alloc(n, a[1..]), Alloc(AfterAlloc(n, a[1..]), b);
      assert [id] + (x + y) == ([id] + x) + y;
    }
  }

  lemma {:induction false} HeaderRoundTrip(base: string, nullable: bool)
    requires base == "ROW" || base == "ARRAY" || base == "MAP"
    ensures var upper := Upper(TrimSpace(WithNullability(base, nullable)));
      && upper == WithNullability(base, nullable) && HasPrefix(upper, base)
      && (Contains(upper, "NOT NULL") <==> !nullable)
      && (base != "ROW" ==> !HasPrefix(upper, "ROW")) && (base == "MAP" ==> !HasPrefix(upper, "ARRAY"))
  {
    var raw := WithNullability(base, nullable);
    assert raw[0] == base[0];
    HeaderTidy(base, nullable);
    TidyTrim(raw);
    TidyUpper(raw);
    if nullable {
      ShortContains(base);
    } else {
      assert raw[|base| + 1..] == "NOT NULL";
      assert HasPrefix(raw[|base| + 1..], "NOT NULL");
    }
  }

  lemma {:induction false} ShortContains(s: string)
    requires |s| < 8
    ensures !Contains(s, "NOT NULL")
  {
    assert |"NOT NULL"| == 8;
  }

  lemma {:induction false} HeaderTidy(base: string, nullable: bool)
    requires base == "ROW" || base == "ARRAY" || base == "MAP"
    ensures var raw := WithNullability(base, nullable);
      raw != "" && !IsSpace(raw[0]) && !IsSpace(Last(raw)) && forall i :: 0 <= i < |raw| ==> !('a' <= raw[i] <= 'z')
  {
    var suffix := " NOT NULL";
    assert forall i :: 0 <= i < |suffix| ==> !('a' <= suffix[i] <= 'z');
    assert forall i :: 0 <= i < |base| ==> !('a' <= base[i] <= 'z');
    if !nullable {
      NoLowerConcat(base, suffix);
      assert Last(base + suffix) == Last(suffix) == 'L';
    }
  }

  /** What is read back: the same tree, scalar types widened, and the ids the counter gave out. */
  ghost predicate ReadsBack(s: Schema, next: int, r: Option<(PaimonType, int)>)
  {
    && r.Some? && r.value.1 == AfterAlloc(next, Ids(s))
    && ParseType(r.value.0).Some?
    && Shape(ParseType(r.value.0).value, Same) == Shape(s, ReadAs)
    && Ids(ParseType(r.value.0).value) == Alloc(next, Ids(s))
  }

  ghost predicate FieldsReadBack(fields: seq<Field>, next: int, r: Option<(seq<DataField>, int)>)
  {
    && r.Some? && r.value.1 == AfterAlloc(next, FieldIds(fields))
    && ParseFields(r.value.0).Some?
    && Shapes(ParseFields(r.value.0).value, Same) == Shapes(fields, ReadAs)
    && FieldIds(ParseFields(r.value.0).value) == Alloc(next, FieldIds(fields))
  }

  /** Printing and parsing any supported type gives it back: names, nullability and timestamp buckets, with
      explicit ids kept and the others numbered through; decimal parameters, as ReadAs says. */
  lemma {:induction false} TypeRoundTrip(s: Schema, next: int)
    requires Supported(s)
    ensures ReadsBack(s, next, PrintType(s, next))
    decreases s, 1
  {
    match s
    case Scalar(a, nullable) => AtomRoundTrip(a, nullable);
    case ListOf(e, nullable) =>
      TypeRoundTrip(e, next);
      ArrayParses(nullable, PrintType(e, next).value.0);
    case MapOf(k, v, nullable) => MapRoundTrip(k, v, nullable, next);
    case Record(fields, nullable) =>
      FieldsRoundTrip(fields, next);
      RowParses(nullable, PrintFields(fields, next).value.0);
  }

  lemma {:induction false} MapRoundTrip(k: Schema, v: Schema, nullable: bool, next: int)
    requires Supported(k) && Supported(v)
    ensures ReadsBack(MapOf(k, v, nullable), next, PrintType(MapOf(k, v, nullable), next))
    decreases MapOf(k, v, nullable), 0
  {
    TypeRoundTrip(k, next);
    var rk := PrintType(k, next).value;
    TypeRoundTrip(v, rk.1);
    MapStep(k, v, nullable, next, rk.0, rk.1, PrintType(v, rk.1).value.0);
  }

  lemma {:induction false} MapStep(k: Schema, v: Schema, nullable: bool, next: int, tk: PaimonType, n: int, tv: PaimonType)
    requires PrintType(k, next) == Some((tk, n)) && n == AfterAlloc(next, Ids(k))
    requires PrintType(v, n) == Some((tv, AfterAlloc(n, Ids(v))))
    requires ParseType(tk).Some? && Shape(ParseType(tk).value, Same) == Shape(k, ReadAs) && Ids(ParseType(tk).value) == Alloc(next, Ids(k))
    requires ParseType(tv).Some? && Shape(ParseType(tv).value, Same) == Shape(v, ReadAs) && Ids(ParseType(tv).value) == Alloc(n, Ids(v))
    ensures ReadsBack(MapOf(k, v, nullable), next, PrintType(MapOf(k, v, nullable), next))
  {
    MapPrints(k, v, nullable, next, (tk, n), (tv, AfterAlloc(n, Ids(v))));
    MapParses(nullable, tk, tv);
    MapShape(k, v, nullable, next, ParseType(tk).value, ParseType(tv).value);
  }

  lemma {:induction false} MapShape(k: Schema, v: Schema, nullable: bool, next: int, k': Schema, v': Schema)
    requires Shape(k', Same) == Shape(k, ReadAs) && Ids(k') == Alloc(next, Ids(k))
    requires Shape(v', Same) == Shape(v, ReadAs) && Ids(v') == Alloc(AfterAlloc(next, Ids(k)), Ids(v))
    ensures var s, s' := MapOf(k, v, nullable), MapOf(k', v', nullable);
      && Shape(s', Same) == Shape(s, ReadAs) && Ids(s') == Alloc(next, Ids(s))
      && AfterAlloc(AfterAlloc(next, Ids(k)), Ids(v)) == AfterAlloc(next, Ids(s))
  {
    AllocConcat(next, Ids(k), Ids(v));
  }

  lemma {:induction false} MapParses(nullable: bool, key: PaimonType, value: PaimonType)
    requires ParseType(key).Some? && ParseType(value).Some?
    ensures ParseType(MapType(nullable, key, value)) == Some(MapOf(ParseType(key).value, ParseType(value).value, nullable))
  {
    HeaderRoundTrip("MAP", nullable);
  }

  lemma {:induction false} FieldsRoundTrip(fields: seq<Field>, next: int)
    requires SupportedFields(fields)
    ensures FieldsReadBack(fields, next, PrintFields(fields, next))
    decreases fields, 0
  {
    if fields != [] {
      var f := fields[0];
      var n := Counter(f.id, next);
      TypeRoundTrip(f.schema, n);
      var r := PrintType(f.schema, n).value;
      FieldsRoundTrip(fields[1..], r.1);
      FieldsStep(f, fields[1..], next, r.0, PrintFields(fields[1..], r.1).value.0);
      assert fields == [f] + fields[1..];
    }
  }

  lemma {:induction false} FieldsStep(f: Field, rest: seq<Field>, next: int, t: PaimonType, out: seq<DataField>)
    requires var n := Counter(f.id, next);
      && PrintType(f.schema, n) == Some((t, AfterAlloc(n, Ids(f.schema)))) && ReadsBack(f.schema, n, PrintType(f.schema, n))
      && var n2 := AfterAlloc(n, Ids(f.schema));
        PrintFields(rest, n2).Some? && PrintFields(rest, n2).value.0 == out && FieldsReadBack(rest, n2, PrintFields(rest, n2))
    ensures FieldsReadBack([f] + rest, next, PrintFields([f] + rest, next))
  {
    var n := Counter(f.id, next);
    var n2 := AfterAlloc(n, Ids(f.schema));
    var all, id := [f] + rest, FieldId(f.id, next);
    assert all[1..] == rest;
    var printed := [DataField(id, f.name, t)] + out;
    assert PrintFields(all, next) == Some((printed, PrintFields(rest, n2).value.1));
    assert printed[1..] == out;
    var s', fs' := ParseType(t).value, ParseFields(out).value;
    var back := [Field(f.name, Some(id), s')] + fs';
    assert ParseFields(printed) == Some(back);
    assert back[1..] == fs';
    assert [f.id] + Ids(f.schema) + FieldIds(rest) == FieldIds(all);
    AllocConcat(next, [f.id] + Ids(f.schema), FieldIds(rest));
    AllocFirst(next, f.id, Ids(f.schema));
  }

  lemma {:induction false} AllocFirst(next: int, id: Option<int>, rest: seq<Option<int>>)
    ensures Alloc(next, [id] + rest) == [Some(FieldId(id, next))] + Alloc(Counter(id, next), rest)
    ensures AfterAlloc(next, [id] + rest) == AfterAlloc(Counter(id, next), rest)
  {
    assert ([id] + rest)[1..] == rest;
  }

  // ---------------------------------------------------------------------------------------
  // Exact limits
  // ---------------------------------------------------------------------------------------

  lemma {:induction false} WidenedIff(s: Schema)
    requires Supported(s)
    ensures Shape(s, ReadAs) == Shape(s, Widened) <==> UnsignedType(s)
    decreases s, 1
  {
    match s
    case Scalar(a, nullable) => AtomRoundTrip(a, nullable);
    case ListOf(e, nullable) => WidenedIff(e);
    case MapOf(k, v, nullable) =>
      WidenedIff(k);
      WidenedIff(v);
    case Record(fields, nullable) => FieldsWidenedIff(fields);
  }

  lemma {:induction false} FieldsWidenedIff(fields: seq<Field>)
    requires SupportedFields(fields)
    ensures Shapes(fields, ReadAs) == Shapes(fields, Widened) <==> UnsignedFields(fields)
    decreases fields, 0
  {
    if fields != [] {
      WidenedIff(fields[0].schema);
      FieldsWidenedIff(fields[1..]);
      var a, b := Shapes(fields, ReadAs), Shapes(fields, Widened);
      assert a[0].schema == Shape(fields[0].schema, ReadAs) && b[0].schema == Shape(fields[0].schema, Widened);
      assert a[1..] == Shapes(fields[1..], ReadAs) && b[1..] == Shapes(fields[1..], Widened);
    }
  }

  /** A printed tree comes back up to the stated widenings if and only if it has no negative decimal parameter. */
  lemma {:induction false} ExactIff(s: Schema, next: int)
    requires Supported(s)
    ensures PrintType(s, next).Some? && ParseType(PrintType(s, next).value.0).Some?
    ensures Shape(ParseType(PrintType(s, next).value.0).value, Same) == Shape(s, Widened) <==> UnsignedType(s)
  {
    TypeRoundTrip(s, next);
    WidenedIff(s);
  }

  /** Printing succeeds exactly on supported types, whatever the counter. */
  lemma {:induction false} PrintsIff(s: Schema, next: int)
    ensures PrintType(s, next).Some? <==> Supported(s)
    decreases s, 1
  {
    match s
    case Scalar(a, nullable) =>
    case ListOf(e, nullable) => PrintsIff(e, next);
    case MapOf(k, v, nullable) =>
      PrintsIff(k, next);
      if PrintType(k, next).Some? {
        PrintsIff(v, PrintType(k, next).value.1);
      }
    case Record(fields, nullable) => FieldsPrintIff(fields, next);
  }

  lemma {:induction false} FieldsPrintIff(fields: seq<Field>, next: int)
    ensures PrintFields(fields, next).Some? <==> SupportedFields(fields)
    decreases fields, 0
  {
    if fields != [] {
      PrintsIff(fields[0].schema, Counter(fields[0].id, next));
      if PrintField(fields[0], next).Some? {
        FieldsPrintIff(fields[1..], PrintField(fields[0], next).value.1);
      }
    }
  }

  ghost predicate Distinct(ids: seq<Option<int>>)
  {
    forall i, j :: 0 <= i < j < |ids| ==> ids[i] != ids[j]
  }

  predicate Explicit(id: Option<int>) { id.Some? && id.value > 0 }

  /** Request k takes this id: it asks for it, or finds the counter just below it. */
  ghost predicate Takes(next: int, requests: seq<Option<int>>, k: nat, id: int)
    requires k < |requests|
  {
    if Explicit(requests[k]) then requests[k].value == id else AfterAlloc(next, requests[..k]) + 1 == id
  }

  /** Request i asks for an id that an earlier request takes. */
  ghost predicate Collides(next: int, requests: seq<Option<int>>, i: nat)
  {
    i < |requests| && Explicit(requests[i]) && exists k :: 0 <= k < i && Takes(next, requests, k, requests[i].value)
  }

  lemma {:induction false} AllocBounded(next: int, requests: seq<Option<int>>)
    requires next >= 0
    ensures next <= AfterAlloc(next, requests)
    ensures forall id :: id in Alloc(next, requests) ==> Explicit(id) && id.value <= AfterAlloc(next, requests)
    decreases |requests|
  {
    if requests != [] {
      AllocBounded(Counter(requests[0], next), requests[1..]);
    }
  }

  lemma {:induction false} AllocLast(next: int, requests: seq<Option<int>>)
    requires requests != []
    ensures var init := requests[..|requests| - 1];
      Alloc(next, requests) == Alloc(next, init) + [Some(FieldId(Last(requests), AfterAlloc(next, init)))]
  {
    var init, last := requests[..|requests| - 1], Last(requests);
    assert requests == init + [last];
    AllocConcat(next, init, [last]);
    AllocFirst(AfterAlloc(next, init), last, []);
    assert [last] + [] == [last];
  }

  lemma {:induction false} DistinctSnoc(ids: seq<Option<int>>, id: Option<int>)
    ensures Distinct(ids + [id]) <==> Distinct(ids) && id !in ids
  {
    var longer := ids + [id];
    assert forall i :: 0 <= i < |ids| ==> longer[i] == ids[i];
    assert longer[|ids|] == id;
  }

  lemma {:induction false} TakesStable(next: int, requests: seq<Option<int>>, n: nat, k: nat, id: int)
    requires k < n <= |requests|
    ensures Takes(next, requests[..n], k, id) <==> Takes(next, requests, k, id)
  {
    assert requests[..n][..k] == requests[..k];
  }

  /** The ids given out are those taken. */
  lemma {:induction false} GivenIsTaken(next: int, requests: seq<Option<int>>, id: int)
    ensures Some(id) in Alloc(next, requests) <==> exists k :: 0 <= k < |requests| && Takes(next, requests, k, id)
    decreases |requests|
  {
    if requests != [] {
      var n := |requests| - 1;
      GivenIsTaken(next, requests[..n], id);
      AllocLast(next, requests);
      forall k | 0 <= k < n ensures Takes(next, requests[..n], k, id) <==> Takes(next, requests, k, id) {
        TakesStable(next, requests, n, k, id);
      }
      assert Takes(next, requests, n, id) <==> FieldId(requests[n], AfterAlloc(next, requests[..n])) == id;
    }
  }

  lemma {:induction false} CollidesStable(next: int, requests: seq<Option<int>>, n: nat, i: nat)
    requires i < n <= |requests|
    ensures Collides(next, requests, i) <==> Collides(next, requests[..n], i)
  {
    forall k, id | 0 <= k < i ensures Takes(next, requests[..n], k, id) <==> Takes(next, requests, k, id) {
      TakesStable(next, requests, n, k, id);
    }
  }

  lemma {:induction false} LastCollides(next: int, requests: seq<Option<int>>)
    requires requests != []
    ensures var n := |requests| - 1; Collides(next, requests, n) <==> Explicit(requests[n]) && requests[n] in Alloc(next, requests[..n])
  {
    var n := |requests| - 1;
    if Explicit(requests[n]) {
      GivenIsTaken(next, requests[..n], requests[n].value);
      forall k | 0 <= k < n ensures Takes(next, requests[..n], k, requests[n].value) <==> Takes(next, requests, k, requests[n].value) {
        TakesStable(next, requests, n, k, requests[n].value);
      }
    }
  }

  /** The ids of a schema are unique if and only if no field asks for an id that an earlier one asks for or finds
      the counter at; fresh ids never collide. */
  lemma {:induction false} AllocDistinctIff(next: int, requests: seq<Option<int>>)
    requires next >= 0
    ensures Distinct(Alloc(next, requests)) <==> forall i :: 0 <= i < |requests| ==> !Collides(next, requests, i)
    decreases |requests|
  {
    if requests != [] {
      var init, last, n := requests[..|requests| - 1], Last(requests), |requests| - 1;
      AllocDistinctIff(next, init);
      AllocLast(next, requests);
      AllocBounded(next, init);
      DistinctSnoc(Alloc(next, init), Some(FieldId(last, AfterAlloc(next, init))));
      LastCollides(next, requests);
      forall i | 0 <= i < n ensures Collides(next, requests, i) <==> Collides(next, init, i) {
        CollidesStable(next, requests, n, i);
      }
    }
  }

  /** Without explicit ids the numbering is consecutive, whatever the nesting. */
  lemma {:induction false} FreshConsecutive(next: int, requests: seq<Option<int>>)
    requires forall i :: 0 <= i < |requests| ==> !Explicit(requests[i])
    ensures forall i :: 0 <= i < |requests| ==> Alloc(next, requests)[i] == Some(next + 1 + i)
    decreases |requests|
  {
    if requests != [] {
      FreshConsecutive(next + 1, requests[1..]);
    }
  }

  /** A field without an id followed by one that asks for the id just given out. */
  lemma {:induction false} LateExplicitCollides(n: string, m: string, s: Schema)
    requires s.Scalar?
    ensures var fields := [Field(n, None, s), Field(m, Some(1), s)];
      Alloc(0, FieldIds(fields)) == [Some(1), Some(1)]
  {
    var fields := [Field(n, None, s), Field(m, Some(1), s)];
    assert fields[1..] == [Field(m, Some(1), s)] && fields[1..][1..] == [];
    assert Ids(s) == [] && [Some(1)] + Ids(s) == [Some(1)] && [None] + Ids(s) == [None];
    assert FieldIds(fields[1..]) == [Some(1)] + FieldIds([]) == [Some(1)];
    assert FieldIds(fields) == [None] + [Some(1)];
    assert [None, Some(1)][1..] == [Some(1)] && [Some(1)][1..] == [];
    assert Alloc(1, [Some(1)]) == [Some(1)];
  }

  // ---------------------------------------------------------------------------------------
  // Printing again
  // ---------------------------------------------------------------------------------------

  /** What was read back prints as it was read, from any counter, if and only if no decimal parameter is negative:
      up to that the text is a canonical form. */
  lemma {:induction false} TypeReprints(s: Schema, next: int, again: int)
    requires Supported(s) && next >= 0
    ensures PrintType(s, next).Some? && ParseType(PrintType(s, next).value.0).Some?
    ensures var t := PrintType(s, next).value.0;
      PrintType(ParseType(t).value, again).Some? && (PrintType(ParseType(t).value, again).value.0 == t <==> UnsignedType(s))
    decreases s, 1
  {
    match s
    case Scalar(a, nullable) => ScalarReprints(a, nullable);
    case ListOf(e, nullable) =>
      TypeReprints(e, next, again);
      ArrayParses(nullable, PrintType(e, next).value.0);
    case MapOf(k, v, nullable) => MapReprints(k, v, nullable, next, again);
    case Record(fields, nullable) =>
      FieldsReprint(fields, next, again);
      RowParses(nullable, PrintFields(fields, next).value.0);
  }

  lemma {:induction false} ScalarReprints(a: Atom, nullable: bool)
    requires Spelling(a).Some?
    ensures var t := WithNullability(Spelling(a).value, nullable);
      && ParseType(Text(t)) == Some(Scalar(ReadAs(a), nullable))
      && Spelling(ReadAs(a)).Some? && (WithNullability(Spelling(ReadAs(a)).value, nullable) == t <==> Unsigned(a))
  {
    AtomRoundTrip(a, nullable);
    SpelledAlikeIff(a);
    SameSuffix(Spelling(a).value, Spelling(ReadAs(a)).value, nullable);
  }

  lemma {:induction false} SameSuffix(a: string, b: string, nullable: bool)
    ensures WithNullability(a, nullable) == WithNullability(b, nullable) <==> a == b
  {
    if !nullable {
      var x, y := a + " NOT NULL", b + " NOT NULL";
      assert a == x[..|x| - 9] && b == y[..|y| - 9];
    }
  }

  lemma {:induction false} SpelledAlikeIff(a: Atom)
    requires Spelling(a).Some?
    ensures Spelling(ReadAs(a)).Some? && (Spelling(ReadAs(a)) == Spelling(a) <==> Unsigned(a))
  {
    if !Unsigned(a) {
      NegativeSpelledApart(a.precision, a.scale);
    } else {
      SpelledAlike(a);
    }
  }

  lemma {:induction false} SpelledAlike(a: Atom)
    requires Unsigned(a)
    ensures Spelling(ReadAs(a)) == Spelling(a)
  {
  }

  lemma {:induction false} NegativeSpelledApart(p: int, q: int)
    requires p < 0 || q < 0
    ensures Spelling(Decimal(10, 0)) != Spelling(Decimal(p, q)) && Spelling(Decimal(10, 0)).Some?
  {
    DecimalSpelling(p, q);
    DecimalSpelling(10, 0);
    ParamsFound(p, q);
    ParamsFound(10, 0);
  }

  lemma {:induction false} ArrayParses(nullable: bool, element: PaimonType)
    requires ParseType(element).Some?
    ensures ParseType(ArrayType(nullable, element)) == Some(ListOf(ParseType(element).value, nullable))
  {
    HeaderRoundTrip("ARRAY", nullable);
  }

  lemma {:induction false} RowParses(nullable: bool, fields: seq<DataField>)
    requires ParseFields(fields).Some?
    ensures ParseType(RowType(nullable, fields)) == Some(Record(ParseFields(fields).value, nullable))
  {
    HeaderRoundTrip("ROW", nullable);
  }

  lemma {:induction false} MapReprints(k: Schema, v: Schema, nullable: bool, next: int, again: int)
    requires Supported(k) && Supported(v) && next >= 0
    ensures var s := MapOf(k, v, nullable);
      && PrintType(s, next).Some? && ParseType(PrintType(s, next).value.0).Some?
      && var t := PrintType(s, next).value.0;
        PrintType(ParseType(t).value, again).Some? && (PrintType(ParseType(t).value, again).value.0 == t <==> UnsignedType(s))
    decreases MapOf(k, v, nullable), 0
  {
    TypeReprints(k, next, again);
    assert PrintType(k, next).value.1 >= 0 by {
      TypeRoundTrip(k, next);
      AllocBounded(next, Ids(k));
    }
    var rk := PrintType(k, next).value;
    var k' := ParseType(rk.0).value;
    var rk' := PrintType(k', again).value;
    TypeReprints(v, rk.1, rk'.1);
    var rv := PrintType(v, rk.1).value;
    var v' := ParseType(rv.0).value;
    MapReprintStep(k, v, nullable, next, again, rk, rv, k', v', rk', PrintType(v', rk'.1).value);
  }

  lemma {:induction false} MapReprintStep(k: Schema, v: Schema, nullable: bool, next: int, again: int,
                                          rk: (PaimonType, int), rv: (PaimonType, int), k': Schema, v': Schema,
                                          rk': (PaimonType, int), rv': (PaimonType, int))
    requires PrintType(k, next) == Some(rk) && PrintType(v, rk.1) == Some(rv)
    requires ParseType(rk.0) == Some(k') && ParseType(rv.0) == Some(v')
    requires PrintType(k', again) == Some(rk') && PrintType(v', rk'.1) == Some(rv')
    ensures var t, t' := MapType(nullable, rk.0, rv.0), MapType(nullable, rk'.0, rv'.0);
      && PrintType(MapOf(k, v, nullable), next) == Some((t, rv.1))
      && ParseType(t) == Some(MapOf(k', v', nullable))
      && PrintType(MapOf(k', v', nullable), again) == Some((t', rv'.1))
      && (t' == t <==> rk'.0 == rk.0 && rv'.0 == rv.0)
  {
    MapParses(nullable, rk.0, rv.0);
    MapPrints(k, v, nullable, next, rk, rv);
    MapPrints(k', v', nullable, again, rk', rv');
  }

  lemma {:induction false} MapPrints(k: Schema, v: Schema, nullable: bool, next: int, rk: (PaimonType, int), rv: (PaimonType, int))
    requires PrintType(k, next) == Some(rk) && PrintType(v, rk.1) == Some(rv)
    ensures PrintType(MapOf(k, v, nullable), next) == Some((MapType(nullable, rk.0, rv.0), rv.1))
  {
  }

  lemma {:induction false} FieldsReprint(fields: seq<Field>, next: int, again: int)
    requires SupportedFields(fields) && next >= 0
    ensures PrintFields(fields, next).Some? && ParseFields(PrintFields(fields, next).value.0).Some?
    ensures var t := PrintFields(fields, next).value.0;
      PrintFields(ParseFields(t).value, again).Some? && (PrintFields(ParseFields(t).value, again).value.0 == t <==> UnsignedFields(fields))
    decreases fields, 0
  {
    if fields != [] {
      var f := fields[0];
      var n, id := Counter(f.id, next), FieldId(f.id, next);
      TypeReprints(f.schema, n, Counter(Some(id), again));
      assert PrintType(f.schema, n).value.1 >= 0 by {
        TypeRoundTrip(f.schema, n);
        AllocBounded(n, Ids(f.schema));
      }
      var r := PrintType(f.schema, n).value;
      var s' := ParseType(r.0).value;
      var r' := PrintType(s', Counter(Some(id), again)).value;
      FieldsReprint(fields[1..], r.1, r'.1);
      var rest := PrintFields(fields[1..], r.1).value;
      var fs' := ParseFields(rest.0).value;
      FieldReprintStep(f, fields[1..], next, again, r, rest, s', fs', r', PrintFields(fs', r'.1).value);
      assert fields == [f] + fields[1..];
    }
  }

  lemma {:induction false} FieldReprintStep(f: Field, fs: seq<Field>, next: int, again: int, r: (PaimonType, int), rest: (seq<DataField>, int),
                                            s': Schema, fs': seq<Field>, r': (PaimonType, int), rest': (seq<DataField>, int))
    requires next >= 0 && PrintType(f.schema, Counter(f.id, next)) == Some(r) && PrintFields(fs, r.1) == Some(rest)
    requires ParseType(r.0) == Some(s') && ParseFields(rest.0) == Some(fs')
    requires PrintType(s', Counter(Some(FieldId(f.id, next)), again)) == Some(r') && PrintFields(fs', r'.1) == Some(rest')
    ensures var id := FieldId(f.id, next);
      var printed, back, reprinted := [DataField(id, f.name, r.0)] + rest.0, [Field(f.name, Some(id), s')] + fs', [DataField(id, f.name, r'.0)] + rest'.0;
      && PrintFields([f] + fs, next) == Some((printed, rest.1)) && ParseFields(printed) == Some(back)
      && PrintFields(back, again) == Some((reprinted, rest'.1))
      && (reprinted == printed <==> r'.0 == r.0 && rest'.0 == rest.0)
  {
    var id := FieldId(f.id, next);
    var printed, back, reprinted := [DataField(id, f.name, r.0)] + rest.0, [Field(f.name, Some(id), s')] + fs', [DataField(id, f.name, r'.0)] + rest'.0;
    assert ([f] + fs)[1..] == fs && printed[1..] == rest.0 && back[1..] == fs' && reprinted[1..] == rest'.0;
    assert printed[0] == DataField(id, f.name, r.0) && reprinted[0] == DataField(id, f.name, r'.0);
    assert PrintField(f, next) == Some((DataField(id, f.name, r.0), r.1));
    assert PrintField(back[0], again) == Some((DataField(id, f.name, r'.0), r'.1));
  }

  /** The objects of the schema JSON, written out. */
  lemma {:induction false} WrittenObjects(t: PaimonType, u: PaimonType, fields: seq<DataField>)
    ensures ArrayType(true, t) == Object("ARRAY", [], Some(t), None, None) && ArrayType(false, t) == Object("ARRAY NOT NULL", [], Some(t), None, None)
    ensures MapType(true, t, u) == Object("MAP", [], None, Some(t), Some(u)) && MapType(false, t, u) == Object("MAP NOT NULL", [], None, Some(t), Some(u))
    ensures RowType(true, fields) == Object("ROW", fields, None, None, None) && RowType(false, fields) == Object("ROW NOT NULL", fields, None, None, None)
  {
    assert "ARRAY" + " NOT NULL" == "ARRAY NOT NULL" && "MAP" + " NOT NULL" == "MAP NOT NULL" && "ROW" + " NOT NULL" == "ROW NOT NULL";
  }
}
