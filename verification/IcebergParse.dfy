/** Reading an Iceberg schema back into the canonical model (IcebergToSchema of pkg/formats/iceberg/schema.go), and
    what conversion followed by reading keeps. */
module IcebergParse {
  import opened Common
  import opened Model
  import opened Numerals
  import opened Strings
  import opened IcebergSchema
  import PaimonAtoms

  // ---------------------------------------------------------------------------------------
  // Parsing
  // ---------------------------------------------------------------------------------------

  function LowerChar(c: char): char { if 'A' <= c <= 'Z' then (c as int + 32) as char else c }

  function Lower(s: string): string { seq(|s|, i requires 0 <= i < |s| => LowerChar(s[i])) }

  function TrimPrefix(s: string, p: string): string { if HasPrefix(s, p) then s[|p|..] else s }

  function TrimSuffix(s: string, p: string): string { if HasSuffix(s, p) then s[..|s| - |p|] else s }

  /** The pieces between commas. */
  function Pieces(s: string): (r: seq<string>)
    ensures r != []
  {
    if s == "" then [""]
    else if s[0] == ',' then [""] + Pieces(s[1..])
    else var rest := Pieces(s[1..]); [[s[0]] + rest[0]] + rest[1..]
  }

  function IntOr(s: string, default: int): int
  {
    var n := PaimonAtoms.Atoi(PaimonAtoms.TrimSpace(s));
    if n.Some? then n.value else default
  }

  function ParseName(name: string): Option<Atom>
  {
    var v := Lower(name);
    if v == "boolean" then Some(Boolean)
    else if v == "int" then Some(Int)
    else if v == "long" then Some(Long)
    else if v == "float" then Some(Float)
    else if v == "double" then Some(Double)
    else if v == "string" then Some(String)
    else if v == "uuid" then Some(Uuid)
    else if v == "binary" then Some(Bytes)
    else if v == "date" then Some(Date)
    else if v == "timestamp" then Some(TimestampNtz(None))
    else if v == "timestamptz" then Some(Timestamp(None))
    else if HasPrefix(v, "decimal") then
      var parts := Pieces(TrimSuffix(TrimPrefix(v, "decimal("), ")"));
      if |parts| == 2 then Some(Decimal(IntOr(parts[0], 10), IntOr(parts[1], 0))) else Some(Decimal(10, 0))
    else if HasPrefix(v, "fixed[") && HasSuffix(v, "]") then
      match PaimonAtoms.Atoi(PaimonAtoms.TrimSpace(TrimSuffix(TrimPrefix(v, "fixed["), "]")))
      case None => None
      case Some(size) => Some(Fixed(Some(size)))
    else None
  }

  function ParseType(t: IceType, nullable: bool): Option<Schema>
    decreases t
  {
    match t
    case Named(name) => (
      match ParseName(name)
      case None => None
      case Some(a) => Some(Scalar(a, nullable)))
    case Struct(fields) => (
      match ParseFields(fields, false)
      case None => None
      case Some(fs) => Some(Record(fs, nullable)))
    case IceList(_, e, required) => (
      match ParseType(e, !required)
      case None => None
      case Some(s) => Some(ListOf(s, nullable)))
    case IceMap(_, k, _, v, required) =>
      match ParseType(k, false)
      case None => None
      case Some(ks) =>
        match ParseType(v, !required)
        case None => None
        case Some(vs) => Some(MapOf(ks, vs, nullable))
  }

  /** Only the columns of the table itself bring their ids along. */
  function ParseFields(fields: seq<NestedField>, top: bool): Option<seq<Field>>
    decreases fields
  {
    if fields == [] then Some([])
    else
      var f := fields[0];
      match ParseType(f.typ, !f.required)
      case None => None
      case Some(s) =>
        match ParseFields(fields[1..], top)
        case None => None
        case Some(rest) => Some([Field(f.name, if top then Some(f.id) else None, s)] + rest)
  }

  // ---------------------------------------------------------------------------------------
  // Names
  // ---------------------------------------------------------------------------------------

  /** What a scalar type comes back as. */
  function AtomBack(a: Atom): Atom
  {
    match a
    case Enum => String
    case Union => String
    case Null => String
    case Fixed(size) => Fixed(Some(if size.Some? then size.value else 16))
    case Timestamp(_) => Timestamp(None)
    case TimestampNtz(_) => TimestampNtz(None)
    case other => other
  }

  predicate IsNumeral(c: char) { IsDigit(c) || c == '-' }

  lemma {:induction false} ItoaNumeral(n: int)
    ensures Itoa(n) != "" && forall i :: 0 <= i < |Itoa(n)| ==> IsNumeral(Itoa(n)[i])
  {
  }

  lemma {:induction false} TakesAll(s: string)
    requires forall i :: 0 <= i < |s| ==> IsDigit(s[i])
    ensures PaimonAtoms.TakeDigits(s) == (s, "")
  {
    if s != "" {
      TakesAll(s[1..]);
      assert s == [s[0]] + s[1..];
    }
  }

  lemma {:induction false} IntBack(n: int, default: int)
    ensures PaimonAtoms.Atoi(PaimonAtoms.TrimSpace(Itoa(n))) == Some(n) && IntOr(Itoa(n), default) == n
  {
    ItoaNumeral(n);
    var s := Itoa(n);
    PaimonAtoms.TidyTrim(s);
    var digits := Natural(if n < 0 then -n else n);
    TakesAll(digits);
    ParsePrinted(if n < 0 then -n else n);
    if n < 0 {
      assert s[1..] == digits;
    } else {
      assert IsDigit(s[0]);
    }
  }

  lemma {:induction false} OnePiece(s: string)
    requires forall i :: 0 <= i < |s| ==> s[i] != ','
    ensures Pieces(s) == [s]
  {
    if s != "" {
      OnePiece(s[1..]);
      assert s == [s[0]] + s[1..];
    }
  }

  lemma {:induction false} TwoPieces(a: string, b: string)
    requires (forall i :: 0 <= i < |a| ==> a[i] != ',') && (forall i :: 0 <= i < |b| ==> b[i] != ',')
    ensures Pieces(a + "," + b) == [a, b]
  {
    var s := a + "," + b;
    if a == "" {
      OnePiece(b);
      assert s[0] == ',' && s[1..] == b;
    } else {
      TwoPieces(a[1..], b);
      assert s[0] == a[0] && s[1..] == a[1..] + "," + b;
      assert a == [a[0]] + a[1..];
    }
  }

  lemma {:induction false} LowerKeeps(s: string)
    requires forall i :: 0 <= i < |s| ==> !('A' <= s[i] <= 'Z')
    ensures Lower(s) == s
  {
  }

  /** A text in its brackets. */
  lemma {:induction false} Unwrapped(p: string, body: string, close: char)
    ensures HasPrefix(p + body + [close], p) && HasSuffix(p + body + [close], [close])
    ensures TrimSuffix(TrimPrefix(p + body + [close], p), [close]) == body
  {
    var s := p + body + [close];
    assert s[|p|..] == body + [close];
    assert (body + [close])[..|body|] == body;
  }

  lemma {:induction false} DecimalBack(p: int, q: int)
    ensures ParseName("decimal(" + Itoa(p) + "," + Itoa(q) + ")") == Some(Decimal(p, q))
  {
    ItoaNumeral(p);
    ItoaNumeral(q);
    var body := Itoa(p) + "," + Itoa(q);
    var s := "decimal(" + body + [')'];
    assert s == "decimal(" + Itoa(p) + "," + Itoa(q) + ")";
    assert forall i :: 0 <= i < |body| ==> IsNumeral(body[i]) || body[i] == ',';
    NumberedName("decimal(", body, ')');
    DecimalWord(s);
    TwoPieces(Itoa(p), Itoa(q));
    IntBack(p, 10);
    IntBack(q, 0);
  }

  /** No other name begins like a decimal. */
  lemma {:induction false} DecimalWord(s: string)
    requires Lower(s) == s && HasPrefix(s, "decimal(")
    ensures ParseName(s) ==
      var parts := Pieces(TrimSuffix(TrimPrefix(s, "decimal("), ")"));
      if |parts| == 2 then Some(Decimal(IntOr(parts[0], 10), IntOr(parts[1], 0))) else Some(Decimal(10, 0))
  {
    var w := "decimal(";
    assert s[0] == w[0] && s[1] == w[1] && s[2] == w[2];
    assert forall i :: 0 <= i < 7 ==> s[i] == w[i] == "decimal"[i];
  }

  /** Lower-case brackets around a number are lower case, and the number comes out of them. */
  lemma {:induction false} NumberedName(p: string, body: string, close: char)
    requires (forall i :: 0 <= i < |p| ==> !('A' <= p[i] <= 'Z')) && !('A' <= close <= 'Z')
    requires forall i :: 0 <= i < |body| ==> IsNumeral(body[i]) || body[i] == ','
    ensures Lower(p + body + [close]) == p + body + [close]
    ensures HasPrefix(p + body + [close], p) && HasSuffix(p + body + [close], [close])
    ensures TrimSuffix(TrimPrefix(p + body + [close], p), [close]) == body
  {
    LowerKeeps(p + body + [close]);
    Unwrapped(p, body, close);
  }

  lemma {:induction false} FixedBack(n: int)
    ensures ParseName("fixed[" + Itoa(n) + "]") == Some(Fixed(Some(n)))
  {
    ItoaNumeral(n);
    var s := "fixed[" + Itoa(n) + [']'];
    assert s == "fixed[" + Itoa(n) + "]";
    NumberedName("fixed[", Itoa(n), ']');
    assert s[0] == 'f' && s[1] == 'i';
    IntBack(n, 0);
  }

  /** Every scalar type is read back as AtomBack says. */
  lemma {:induction false} NameBack(a: Atom)
    ensures ParseName(AtomName(a)) == Some(AtomBack(a))
  {
    match a
    case Decimal(p, q) => DecimalBack(p, q);
    case Fixed(size) => FixedBack(if size.Some? then size.value else 16);
    case _ => PlainBack(a);
  }

  lemma {:induction false} PlainBack(a: Atom)
    requires !a.Decimal? && !a.Fixed?
    ensures ParseName(AtomName(a)) == Some(AtomBack(a))
  {
    LowerKeeps(AtomName(a));
    if a.Boolean? || a.Int? || a.Long? || a.Float? || a.Double? {
      NumberBack(a);
    } else {
      OtherBack(a);
    }
  }

  lemma {:induction false} NumberBack(a: Atom)
    requires (a.Boolean? || a.Int? || a.Long? || a.Float? || a.Double?) && Lower(AtomName(a)) == AtomName(a)
    ensures ParseName(AtomName(a)) == Some(AtomBack(a))
  {
  }

  lemma {:induction false} OtherBack(a: Atom)
    requires !a.Decimal? && !a.Fixed? && !(a.Boolean? || a.Int? || a.Long? || a.Float? || a.Double?) && Lower(AtomName(a)) == AtomName(a)
    ensures ParseName(AtomName(a)) == Some(AtomBack(a))
  {
  }

  /** The primitive types of section "Primitive Types" of the Iceberg table specification, as metadata spells them. */
  lemma {:induction false} SpecifiedNames()
    ensures AtomName(Boolean) == "boolean" && AtomName(Int) == "int" && AtomName(Long) == "long" && AtomName(Float) == "float" && AtomName(Double) == "double"
    ensures AtomName(Date) == "date" && AtomName(String) == "string" && AtomName(Uuid) == "uuid" && AtomName(Bytes) == "binary"
    ensures forall unit :: AtomName(Timestamp(unit)) == "timestamptz" && AtomName(TimestampNtz(unit)) == "timestamp"
    ensures AtomName(Decimal(10, 2)) == "decimal(10,2)" && AtomName(Fixed(Some(12))) == "fixed[12]" && AtomName(Fixed(None)) == "fixed[16]"
    ensures AtomName(Enum) == AtomName(Union) == AtomName(Null) == "string"
  {
    assert Itoa(10) == "10" && Itoa(2) == "2" && Itoa(12) == "12" && Itoa(16) == "16";
  }

  /** What other writers may spell: any case, a decimal without parameters; and unknown names are refused. */
  lemma {:induction false} ForeignNames()
    ensures ParseName("INT") == Some(Int) && ParseName("Decimal") == Some(Decimal(10, 0)) && ParseName("variant") == None
  {
    assert Lower("INT") == "int";
    BareDecimal("Decimal");
    UnknownName("variant");
  }

  lemma {:induction false} BareDecimal(s: string)
    requires s == "Decimal"
    ensures ParseName(s) == Some(Decimal(10, 0))
  {
    var v := "decimal";
    assert Lower(s) == v && v[0] == 'd' && v[1] == 'e';
    OnePiece(v);
    assert v[6 + 0] == 'l' && ")"[0] == ')';
    assert !HasPrefix(v, "decimal(") && HasPrefix(v, "decimal") && !HasSuffix(v, ")");
  }

  lemma {:induction false} UnknownName(s: string)
    requires s == "variant"
    ensures ParseName(s) == None
  {
    LowerKeeps(s);
    assert s[0] == 'v' && "decimal"[0] == 'd' && "fixed["[0] == 'f';
    assert !HasPrefix(s, "decimal") && !HasPrefix(s, "fixed[");
  }

  // ---------------------------------------------------------------------------------------
  // Schemas
  // ---------------------------------------------------------------------------------------

  function WithNull(s: Schema, nullable: bool): Schema { s.(nullable := nullable) }

  /** What a type comes back as: scalars as AtomBack says, nested ids gone, map keys never null. */
  function Back(s: Schema): Schema
    decreases s, 1
  {
    match s
    case Scalar(a, nullable) => Scalar(AtomBack(a), nullable)
    case Record(fields, nullable) => Record(BackFields(fields), nullable)
    case ListOf(e, nullable) => ListOf(Back(e), nullable)
    case MapOf(k, v, nullable) => MapOf(WithNull(Back(k), false), Back(v), nullable)
  }

  function BackFields(fields: seq<Field>): seq<Field>
    decreases fields, 0
  {
    if fields == [] then [] else [Field(fields[0].name, None, Back(fields[0].schema))] + BackFields(fields[1..])
  }

  lemma {:induction false} TypeBack(s: Schema, path: string, prev: map<string, int>, next: int, nullable: bool)
    ensures ParseType(ConvertType(s, path, prev, next).0, nullable) == Some(WithNull(Back(s), nullable))
    decreases s, 1
  {
    match s
    case Scalar(a, _) => NameBack(a);
    case Record(fields, _) => FieldsBack(fields, path, prev, next);
    case ListOf(e, _) =>
      var (id, n0) := AssignFieldId(None, path + ".element", prev, next);
      TypeBack(e, path + ".element", prev, n0, e.nullable);
      SameNull(e);
    case MapOf(k, v, _) => MapBack(s, path, prev, next, nullable);
  }

  lemma {:induction false} SameNull(s: Schema)
    ensures WithNull(Back(s), s.nullable) == Back(s)
  {
  }

  lemma {:induction false} MapBack(s: Schema, path: string, prev: map<string, int>, next: int, nullable: bool)
    requires s.MapOf?
    ensures ParseType(ConvertType(s, path, prev, next).0, nullable) == Some(WithNull(Back(s), nullable))
    decreases s, 0
  {
    var (kid, n0) := AssignFieldId(None, path + ".key", prev, next);
    var (kt, n1) := ConvertType(s.key, path + ".key", prev, n0);
    var (vid, n2) := AssignFieldId(None, path + ".value", prev, n1);
    TypeBack(s.key, path + ".key", prev, n0, false);
    TypeBack(s.value, path + ".value", prev, n2, s.value.nullable);
    SameNull(s.value);
  }

  lemma {:induction false} FieldsBack(fields: seq<Field>, prefix: string, prev: map<string, int>, next: int)
    ensures ParseFields(ConvertFields(fields, prefix, prev, next).0, false) == Some(BackFields(fields))
    decreases fields, 0
  {
    if fields != [] {
      var f := fields[0];
      var (id, n0) := AssignFieldId(f.id, Child(prefix, f.name), prev, next);
      var (t, n1) := ConvertType(f.schema, Child(prefix, f.name), prev, n0);
      TypeBack(f.schema, Child(prefix, f.name), prev, n0, f.schema.nullable);
      SameNull(f.schema);
      FieldsBack(fields[1..], prefix, prev, n1);
      FieldsCons(NestedField(id, f.name, t, !f.schema.nullable), ConvertFields(fields[1..], prefix, prev, n1).0, false, Back(f.schema), BackFields(fields[1..]));
    }
  }

  lemma {:induction false} FieldsCons(f: NestedField, rest: seq<NestedField>, top: bool, s: Schema, fs: seq<Field>)
    requires ParseType(f.typ, !f.required) == Some(s) && ParseFields(rest, top) == Some(fs)
    ensures ParseFields([f] + rest, top) == Some([Field(f.name, if top then Some(f.id) else None, s)] + fs)
  {
    assert ([f] + rest)[1..] == rest;
  }

  /** Column i came back: its name, the id it was given, its type and its nullability at every depth. */
  ghost predicate CameBack(fields: seq<Field>, converted: seq<NestedField>, back: seq<Field>, i: nat)
    requires i < |fields| && |converted| == |fields| && |back| == |fields|
  {
    back[i] == Field(fields[i].name, Some(converted[i].id), Back(fields[i].schema))
  }

  ghost predicate AllCameBack(fields: seq<Field>, converted: seq<NestedField>, back: seq<Field>)
  {
    |converted| == |fields| && |back| == |fields| && forall i :: 0 <= i < |fields| ==> CameBack(fields, converted, back, i)
  }

  /** A converted schema reads back column by column, whatever the ids on record. */
  lemma {:induction false} SchemaRoundTrip(fields: seq<Field>, prev: map<string, int>, next: int)
    ensures var converted := ConvertFields(fields, "", prev, next).0;
      ParseFields(converted, true).Some? && AllCameBack(fields, converted, ParseFields(converted, true).value)
    decreases fields
  {
    if fields != [] {
      var f := fields[0];
      var (id, n0) := AssignFieldId(f.id, f.name, prev, next);
      var (t, n1) := ConvertType(f.schema, f.name, prev, n0);
      TypeBack(f.schema, f.name, prev, n0, f.schema.nullable);
      SameNull(f.schema);
      SchemaRoundTrip(fields[1..], prev, n1);
      var one, rest := NestedField(id, f.name, t, !f.schema.nullable), ConvertFields(fields[1..], "", prev, n1).0;
      FieldsCons(one, rest, true, Back(f.schema), ParseFields(rest, true).value);
      BackCons(f, fields[1..], one, rest, ParseFields(rest, true).value);
      assert fields == [f] + fields[1..];
    }
  }

  lemma {:induction false} BackCons(f: Field, fs: seq<Field>, one: NestedField, rest: seq<NestedField>, back: seq<Field>)
    requires AllCameBack(fs, rest, back) && one.name == f.name
    ensures AllCameBack([f] + fs, [one] + rest, [Field(one.name, Some(one.id), Back(f.schema))] + back)
  {
    var x, y, z := [f] + fs, [one] + rest, [Field(one.name, Some(one.id), Back(f.schema))] + back;
    forall i | 0 <= i < |x| ensures CameBack(x, y, z, i) {
      assert i > 0 ==> CameBack(fs, rest, back, i - 1);
    }
  }

  /** No scalar that Iceberg has to spell as another. */
  predicate Kept(a: Atom)
  {
    match a
    case Enum => false
    case Union => false
    case Null => false
    case Fixed(size) => size.Some?
    case Timestamp(unit) => unit.None?
    case TimestampNtz(unit) => unit.None?
    case _ => true
  }

  /** A scalar type comes back as itself if and only if it is none of those. */
  lemma {:induction false} KeptIff(a: Atom)
    ensures ParseName(AtomName(a)) == Some(a) <==> Kept(a)
  {
    NameBack(a);
  }
}
