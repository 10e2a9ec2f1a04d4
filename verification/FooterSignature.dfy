/** What equal type signatures mean (typeSignature of pkg/formats/parquet/merge.go): the printed form
    determines a type up to nullability, field ids, fixed sizes and timestamp units, for column names that
    cannot be mistaken for punctuation. */
module FooterSignature {
  import opened Common
  import opened Model
  import opened Numerals
  import opened Strings
  import opened FooterMerge

  /** What a signature leaves out. */
  function EraseAtom(a: Atom): Atom
  {
    match a
    case Fixed(_) => Fixed(None)
    case Timestamp(_) => Timestamp(None)
    case TimestampNtz(_) => TimestampNtz(None)
    case other => other
  }

  function Erase(t: Type): Type
    decreases t, 1
  {
    match t
    case Atomic(a) => Atomic(EraseAtom(a))
    case Struct(columns) => Struct(EraseColumns(columns))
    case ListType(e) => ListType(EraseOptional(e))
    case MapType(k, v) => MapType(EraseOptional(k), EraseOptional(v))
  }

  function EraseOptional(t: Option<FooterType>): Option<FooterType>
    decreases t, 2
  {
    if t.None? then None else Some(FooterType(Erase(t.value.shape), false))
  }

  function EraseColumns(columns: seq<Column>): seq<Column>
    decreases columns, 0
  {
    if columns == [] then []
    else [Column(columns[0].name, None, EraseOptional(columns[0].typ))] + EraseColumns(columns[1..])
  }

  predicate CleanName(n: string) { ':' !in n && (n == "" || n[0] != '>') }

  predicate Clean(t: Type)
    decreases t, 1
  {
    match t
    case Atomic(_) => true
    case Struct(columns) => CleanColumns(columns)
    case ListType(e) => CleanOptional(e)
    case MapType(k, v) => CleanOptional(k) && CleanOptional(v)
  }

  predicate CleanOptional(t: Option<FooterType>)
    decreases t, 2
  {
    t.None? || Clean(t.value.shape)
  }

  predicate CleanColumns(columns: seq<Column>)
    decreases columns, 0
  {
    columns == [] || (CleanName(columns[0].name) && CleanOptional(columns[0].typ) && CleanColumns(columns[1..]))
  }

  // ---------------------------------------------------------------------------------------
  // Tokens
  // ---------------------------------------------------------------------------------------

  predicate IsLetter(c: char) { 'A' <= c <= 'Z' || c == '_' }

  predicate IsNumeral(c: char) { IsDigit(c) || c == '-' }

  lemma {:induction false} ItoaNumeral(n: int)
    ensures forall i :: 0 <= i < |Itoa(n)| ==> IsNumeral(Itoa(n)[i])
  {
  }

  lemma {:induction false} NaturalInjective(m: nat, n: nat)
    requires Natural(m) == Natural(n)
    ensures m == n
  {
    ParsePrinted(m);
    ParsePrinted(n);
  }

  lemma {:induction false} ItoaInjective(m: int, n: int)
    requires Itoa(m) == Itoa(n)
    ensures m == n
  {
    if m < 0 && n < 0 {
      assert Itoa(m)[1..] == Natural(-m) && Itoa(n)[1..] == Natural(-n);
      NaturalInjective(-m, -n);
    } else if m >= 0 && n >= 0 {
      NaturalInjective(m, n);
    } else {
      ItoaSign(m);
      ItoaSign(n);
    }
  }

  lemma {:induction false} ItoaSign(n: int)
    ensures Itoa(n) != "" && (Itoa(n)[0] == '-' <==> n < 0)
  {
    if n >= 0 {
      assert IsDigit(Natural(n)[0]);
    }
  }

  /** Two numbers closed by the same non-digit. */
  lemma {:induction false} NumberSplits(m: int, r: string, n: int, s: string)
    requires r != "" && s != "" && !IsNumeral(r[0]) && !IsNumeral(s[0]) && Itoa(m) + r == Itoa(n) + s
    ensures m == n && r == s
  {
    ItoaNumeral(m);
    ItoaNumeral(n);
    TokenUnique(IsNumeral, Itoa(m), r, Itoa(n), s);
    ItoaInjective(m, n);
  }

  // ---------------------------------------------------------------------------------------
  // Keywords
  // ---------------------------------------------------------------------------------------

  function Keyword(t: Type): string
  {
    match t
    case Atomic(Decimal(_, _)) => "DECIMAL"
    case Atomic(a) => AtomName(a)
    case ListType(_) => "LIST"
    case MapType(_, _) => "MAP"
    case Struct(_) => "RECORD"
  }

  function Rest(t: Type): string
  {
    match t
    case Atomic(Decimal(p, s)) => "(" + (Itoa(p) + ("," + (Itoa(s) + ")")))
    case Atomic(_) => ""
    case ListType(e) => "<" + (Optional(e) + ">")
    case MapType(k, v) => "<" + (Optional(k) + ("," + (Optional(v) + ">")))
    case Struct(columns) => "<" + (Named(columns) + ">")
  }

  lemma {:induction false} Assoc3(w: string, o: string, x: string, c: string)
    ensures (w + o) + x + c == w + (o + (x + c))
  {
  }

  lemma {:induction false} Assoc5(w: string, o: string, x: string, c: string, y: string, e: string)
    ensures (w + o) + x + c + y + e == w + (o + (x + (c + (y + e))))
  {
    Assoc3(w + o, x, c, y + e);
    Assoc3(w, o, x, c + (y + e));
  }

  lemma {:induction false} SignatureParts(t: Type)
    ensures Signature(t) == Keyword(t) + Rest(t)
  {
    match t
    case Atomic(a) =>
      if a.Decimal? {
        assert "DECIMAL(" == "DECIMAL" + "(";
        Assoc5("DECIMAL", "(", Itoa(a.precision), ",", Itoa(a.scale), ")");
      } else {
        assert AtomName(a) + "" == AtomName(a);
      }
    case ListType(e) =>
      assert "LIST<" == "LIST" + "<";
      Assoc3("LIST", "<", Optional(e), ">");
    case MapType(k, v) =>
      assert "MAP<" == "MAP" + "<";
      Assoc5("MAP", "<", Optional(k), ",", Optional(v), ">");
    case Struct(columns) =>
      assert "RECORD<" == "RECORD" + "<";
      Assoc3("RECORD", "<", Named(columns), ">");
  }

  lemma {:induction false} KeywordLetters(t: Type)
    ensures forall i :: 0 <= i < |Keyword(t)| ==> IsLetter(Keyword(t)[i])
    ensures Keyword(t) != ""
  {
  }

  /** The keyword decides the kind of type, and everything else about a plain atom that is kept. */
  ghost predicate SameKind(a: Type, b: Type)
  {
    match a
    case Atomic(Decimal(_, _)) => b.Atomic? && b.atom.Decimal?
    case Atomic(x) => b.Atomic? && !b.atom.Decimal? && EraseAtom(x) == EraseAtom(b.atom)
    case ListType(_) => b.ListType?
    case MapType(_, _) => b.MapType?
    case Struct(_) => b.Struct?
  }

  lemma {:induction false} KeywordKind(a: Type, b: Type)
    requires Keyword(a) == Keyword(b)
    ensures SameKind(a, b)
  {
    assert |Keyword(a)| == |Keyword(b)| && Keyword(a)[0] == Keyword(b)[0] && Keyword(a)[1] == Keyword(b)[1];
  }

  // ---------------------------------------------------------------------------------------
  // Unique reading
  // ---------------------------------------------------------------------------------------

  /** What may follow a type. */
  predicate Stops(r: string) { r == "" || r[0] == ',' || r[0] == '>' }

  lemma {:induction false} Strip(c: string, x: string, y: string)
    requires |c| == 1 && c + x == c + y
    ensures x == y
  {
    assert (c + x)[1..] == x && (c + y)[1..] == y;
  }

  lemma {:induction false} Shift(x: string, y: string, z: string)
    ensures (x + y) + z == x + (y + z)
  {
  }

  lemma {:induction false} KeywordSplits(a: Type, r: string, b: Type, s: string)
    requires Stops(r) && Stops(s) && Signature(a) + r == Signature(b) + s
    ensures SameKind(a, b) && Rest(a) + r == Rest(b) + s
  {
    SignatureParts(a);
    SignatureParts(b);
    KeywordLetters(a);
    KeywordLetters(b);
    Shift(Keyword(a), Rest(a), r);
    Shift(Keyword(b), Rest(b), s);
    RestStarts(a, r);
    RestStarts(b, s);
    TokenUnique(IsLetter, Keyword(a), Rest(a) + r, Keyword(b), Rest(b) + s);
    KeywordKind(a, b);
  }

  lemma {:induction false} RestStarts(t: Type, r: string)
    requires Stops(r)
    ensures Rest(t) + r == "" || !IsLetter((Rest(t) + r)[0])
  {
    if Rest(t) != "" {
      assert (Rest(t) + r)[0] == Rest(t)[0];
      assert Rest(t)[0] == '(' || Rest(t)[0] == '<';
    } else {
      assert Rest(t) + r == r;
    }
  }

  lemma {:induction false} DecimalSplits(p: int, q: int, r: string, p': int, q': int, s: string)
    requires ("(" + (Itoa(p) + ("," + (Itoa(q) + ")")))) + r == ("(" + (Itoa(p') + ("," + (Itoa(q') + ")")))) + s
    ensures p == p' && q == q' && r == s
  {
    Unwrap2("(", Itoa(p), ",", Itoa(q), ")", r);
    Unwrap2("(", Itoa(p'), ",", Itoa(q'), ")", s);
    Strip("(", Itoa(p) + ("," + (Itoa(q) + (")" + r))), Itoa(p') + ("," + (Itoa(q') + (")" + s))));
    NumberSplits(p, "," + (Itoa(q) + (")" + r)), p', "," + (Itoa(q') + (")" + s)));
    Strip(",", Itoa(q) + (")" + r), Itoa(q') + (")" + s));
    NumberSplits(q, ")" + r, q', ")" + s);
    Strip(")", r, s);
  }

  lemma {:induction false} Unwrap2(o: string, x: string, c: string, y: string, e: string, r: string)
    ensures (o + (x + (c + (y + e)))) + r == o + (x + (c + (y + (e + r))))
  {
    Shift(o, x + (c + (y + e)), r);
    Shift(x, c + (y + e), r);
    Shift(c, y + e, r);
    Shift(y, e, r);
  }

  lemma {:induction false} Unwrap1(o: string, x: string, e: string, r: string)
    ensures (o + (x + e)) + r == o + (x + (e + r))
  {
    Shift(o, x + e, r);
    Shift(x, e, r);
  }

  /** A printed type can be read in only one way, whatever legally follows it. */
  lemma {:induction false} SignatureSplits(a: Type, r: string, b: Type, s: string)
    requires Clean(a) && Clean(b) && Stops(r) && Stops(s) && Signature(a) + r == Signature(b) + s
    ensures Erase(a) == Erase(b) && r == s
    decreases a, 1
  {
    KeywordSplits(a, r, b, s);
    match a
    case Atomic(x) =>
      if x.Decimal? {
        DecimalSplits(x.precision, x.scale, r, b.atom.precision, b.atom.scale, s);
      } else {
        assert "" + r == r && "" + s == s;
      }
    case ListType(e) => ListSplits(e, r, b.element, s);
    case MapType(k, v) => MapSplits(k, v, r, b.key, b.value, s);
    case Struct(columns) => StructSplits(columns, r, b.columns, s);
  }

  lemma {:induction false} ListSplits(e: Option<FooterType>, r: string, f: Option<FooterType>, s: string)
    requires CleanOptional(e) && CleanOptional(f)
    requires ("<" + (Optional(e) + ">")) + r == ("<" + (Optional(f) + ">")) + s
    ensures EraseOptional(e) == EraseOptional(f) && r == s
    decreases e, 3
  {
    Unwrap1("<", Optional(e), ">", r);
    Unwrap1("<", Optional(f), ">", s);
    Strip("<", Optional(e) + (">" + r), Optional(f) + (">" + s));
    OptionalSplits(e, ">" + r, f, ">" + s);
    Strip(">", r, s);
  }

  lemma {:induction false} MapSplits(k: Option<FooterType>, v: Option<FooterType>, r: string, k': Option<FooterType>, v': Option<FooterType>, s: string)
    requires CleanOptional(k) && CleanOptional(v) && CleanOptional(k') && CleanOptional(v')
    requires ("<" + (Optional(k) + ("," + (Optional(v) + ">")))) + r == ("<" + (Optional(k') + ("," + (Optional(v') + ">")))) + s
    ensures EraseOptional(k) == EraseOptional(k') && EraseOptional(v) == EraseOptional(v') && r == s
    decreases MapType(k, v), 0
  {
    Unwrap2("<", Optional(k), ",", Optional(v), ">", r);
    Unwrap2("<", Optional(k'), ",", Optional(v'), ">", s);
    Strip("<", Optional(k) + ("," + (Optional(v) + (">" + r))), Optional(k') + ("," + (Optional(v') + (">" + s))));
    OptionalSplits(k, "," + (Optional(v) + (">" + r)), k', "," + (Optional(v') + (">" + s)));
    Strip(",", Optional(v) + (">" + r), Optional(v') + (">" + s));
    OptionalSplits(v, ">" + r, v', ">" + s);
    Strip(">", r, s);
  }

  lemma {:induction false} OptionalSplits(e: Option<FooterType>, r: string, f: Option<FooterType>, s: string)
    requires CleanOptional(e) && CleanOptional(f) && Stops(r) && Stops(s) && Optional(e) + r == Optional(f) + s
    ensures EraseOptional(e) == EraseOptional(f) && r == s
    decreases e, 2
  {
    if e.Some? && f.Some? {
      SignatureSplits(e.value.shape, r, f.value.shape, s);
    } else if e.None? && f.None? {
      assert r == ("<none>" + r)[6..] && s == ("<none>" + s)[6..];
    } else {
      NoneApart(e, r, f, s);
      NoneApart(f, s, e, r);
    }
  }

  lemma {:induction false} NoneApart(e: Option<FooterType>, r: string, f: Option<FooterType>, s: string)
    ensures e.None? && f.Some? ==> Optional(e) + r != Optional(f) + s
  {
    if e.None? && f.Some? {
      assert (Optional(e) + r)[0] == '<';
      SignatureParts(f.value.shape);
      KeywordLetters(f.value.shape);
      assert (Optional(f) + s)[0] == Keyword(f.value.shape)[0];
    }
  }

  lemma {:induction false} StructSplits(c: seq<Column>, r: string, d: seq<Column>, s: string)
    requires CleanColumns(c) && CleanColumns(d)
    requires ("<" + (Named(c) + ">")) + r == ("<" + (Named(d) + ">")) + s
    ensures EraseColumns(c) == EraseColumns(d) && r == s
    decreases c, 3
  {
    Unwrap1("<", Named(c), ">", r);
    Unwrap1("<", Named(d), ">", s);
    Strip("<", Named(c) + (">" + r), Named(d) + (">" + s));
    NamedSplits(c, ">" + r, d, ">" + s);
    Strip(">", r, s);
  }

  predicate Closes(r: string) { r != "" && r[0] == '>' }

  /** What follows the first column. */
  function Tail(c: seq<Column>, r: string): string
    requires c != []
  {
    if |c| == 1 then r else "," + (Named(c[1..]) + r)
  }

  lemma {:induction false} NamedParts(c: seq<Column>, r: string)
    requires c != [] && Closes(r)
    ensures Named(c) + r == c[0].name + (":" + (Optional(c[0].typ) + Tail(c, r)))
    ensures Tail(c, r) != "" && Stops(Tail(c, r)) && (Tail(c, r)[0] == '>' <==> |c| == 1)
  {
    var n, t := c[0].name, Optional(c[0].typ);
    if |c| == 1 {
      Shift(n, ":", t);
      Unwrap1(n, ":", t, r);
    } else {
      Shift(n, ":", t);
      Shift(n + (":" + t), ",", Named(c[1..]));
      Shift(n + (":" + t), "," + Named(c[1..]), r);
      Shift(",", Named(c[1..]), r);
      Unwrap1(n, ":", t, Tail(c, r));
    }
  }

  lemma {:induction false} NamedStarts(c: seq<Column>, r: string)
    requires CleanColumns(c) && Closes(r)
    ensures Named(c) + r != "" && ((Named(c) + r)[0] == '>' <==> c == [])
  {
    if c == [] {
      assert "" + r == r;
    } else {
      NamedParts(c, r);
      var n := c[0].name;
      if n != "" {
        assert (Named(c) + r)[0] == n[0];
      } else {
        assert (Named(c) + r)[0] == ':';
      }
    }
  }

  predicate InName(c: char) { c != ':' }

  lemma {:induction false} NamedSplits(c: seq<Column>, r: string, d: seq<Column>, s: string)
    requires CleanColumns(c) && CleanColumns(d) && Closes(r) && Closes(s) && Named(c) + r == Named(d) + s
    ensures EraseColumns(c) == EraseColumns(d) && r == s
    decreases c, 2
  {
    NamedStarts(c, r);
    NamedStarts(d, s);
    if c == [] {
      assert "" + r == r && "" + s == s;
    } else {
      FirstColumnSplits(c, r, d, s);
      if |c| > 1 {
        Strip(",", Named(c[1..]) + r, Named(d[1..]) + s);
        NamedSplits(c[1..], r, d[1..], s);
      }
    }
  }

  lemma {:induction false} FirstColumnSplits(c: seq<Column>, r: string, d: seq<Column>, s: string)
    requires c != [] && d != [] && CleanColumns(c) && CleanColumns(d) && Closes(r) && Closes(s) && Named(c) + r == Named(d) + s
    ensures c[0].name == d[0].name && EraseOptional(c[0].typ) == EraseOptional(d[0].typ)
    ensures Tail(c, r) == Tail(d, s) && (|c| == 1 <==> |d| == 1)
    decreases c, 1
  {
    NamedParts(c, r);
    NamedParts(d, s);
    var x, y := ":" + (Optional(c[0].typ) + Tail(c, r)), ":" + (Optional(d[0].typ) + Tail(d, s));
    TokenUnique(InName, c[0].name, x, d[0].name, y);
    Strip(":", Optional(c[0].typ) + Tail(c, r), Optional(d[0].typ) + Tail(d, s));
    OptionalSplits(c[0].typ, Tail(c, r), d[0].typ, Tail(d, s));
  }

  // ---------------------------------------------------------------------------------------
  // Main results
  // ---------------------------------------------------------------------------------------

  lemma {:induction false} EraseKeepsSignature(t: Type)
    ensures Signature(Erase(t)) == Signature(t)
    decreases t, 1
  {
    match t
    case Atomic(a) =>
    case ListType(e) => EraseKeepsOptional(e);
    case MapType(k, v) =>
      EraseKeepsOptional(k);
      EraseKeepsOptional(v);
    case Struct(columns) => EraseKeepsNamed(columns);
  }

  lemma {:induction false} EraseKeepsOptional(t: Option<FooterType>)
    ensures Optional(EraseOptional(t)) == Optional(t)
    decreases t, 2
  {
    if t.Some? {
      EraseKeepsSignature(t.value.shape);
    }
  }

  lemma {:induction false} EraseKeepsNamed(c: seq<Column>)
    ensures Named(EraseColumns(c)) == Named(c)
    ensures |EraseColumns(c)| == |c|
    decreases c, 0
  {
    if c != [] {
      EraseKeepsOptional(c[0].typ);
      EraseKeepsNamed(c[1..]);
      assert EraseColumns(c)[1..] == EraseColumns(c[1..]);
    }
  }

  /** Two signatures are equal if and only if the types are, up to nullability below the column, field ids,
      fixed sizes and timestamp units. Clean names suffice for that, and NameHidesColumn is an input without
      them; which other names can be confused is not characterised here. */
  lemma {:induction false} SignatureMeans(a: Type, b: Type)
    requires Clean(a) && Clean(b)
    ensures Signature(a) == Signature(b) <==> Erase(a) == Erase(b)
  {
    if Signature(a) == Signature(b) {
      assert Signature(a) + "" == Signature(b) + "";
      SignatureSplits(a, "", b, "");
    }
    EraseKeepsSignature(a);
    EraseKeepsSignature(b);
  }

  /** So equal signatures do not make types interchangeable: a millisecond and a microsecond timestamp
      print alike, as do a list that holds nulls and one that does not. */
  lemma {:induction false} SignatureBlindSpots(t: Type)
    ensures Signature(Atomic(Timestamp(Some(Millis)))) == Signature(Atomic(Timestamp(Some(Micros))))
    ensures Signature(ListType(Some(FooterType(t, true)))) == Signature(ListType(Some(FooterType(t, false))))
  {
  }

  /** And a column name can hide a second column. */
  lemma {:induction false} NameHidesColumn()
    ensures var t := Some(FooterType(Atomic(Int), false));
      Signature(Struct([Column("a:INT,b", None, t)])) == Signature(Struct([Column("a", None, t), Column("b", None, t)]))
  {
    var t := Some(FooterType(Atomic(Int), false));
    var two := [Column("a", None, t), Column("b", None, t)];
    assert two[1..] == [Column("b", None, t)];
    assert Named([Column("a:INT,b", None, t)]) == "a:INT,b" + ":" + "INT" == "a:INT,b:INT";
    assert Named([Column("b", None, t)]) == "b" + ":" + "INT" == "b:INT";
    assert Named(two) == "a" + ":" + "INT" + "," + "b:INT" == "a:INT,b:INT";
  }
}
