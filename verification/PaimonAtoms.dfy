/** The atomic type spellings of pkg/formats/paimon/schema.go: how scalar types are printed, and the
    parser for these and the foreign spellings. */
module PaimonAtoms {
  import opened Common
  import opened Model
  import opened Numerals
  import opened Strings

  // ---------------------------------------------------------------------------------------
  // Strings
  // ---------------------------------------------------------------------------------------

  predicate IsSpace(c: char) { c == ' ' || c == '\t' || c == '\n' || c == '\r' }

  function TrimLeft(s: string): string
  {
    if s != "" && IsSpace(s[0]) then TrimLeft(s[1..]) else s
  }

  function TrimRight(s: string): string
  {
    if s != "" && IsSpace(Last(s)) then TrimRight(s[..|s| - 1]) else s
  }

  function TrimSpace(s: string): string { TrimRight(TrimLeft(s)) }

  function UpperChar(c: char): char { if 'a' <= c <= 'z' then (c as int - 32) as char else c }

  function Upper(s: string): string { seq(|s|, i requires 0 <= i < |s| => UpperChar(s[i])) }

  function TakeDigits(s: string): (r: (string, string))
    ensures forall i :: 0 <= i < |r.0| ==> IsDigit(r.0[i])
    ensures |r.1| <= |s|
  {
    if s != "" && IsDigit(s[0]) then ([s[0]] + TakeDigits(s[1..]).0, TakeDigits(s[1..]).1) else ("", s)
  }

  /** A signed decimal integer and nothing else. */
  function Atoi(s: string): Option<int>
  {
    var (negative, body) := if s != "" && (s[0] == '-' || s[0] == '+') then (s[0] == '-', s[1..]) else (false, s);
    var (digits, rest) := TakeDigits(body);
    var n: int := ParseNatural(digits);
    if digits == "" || rest != "" then None else Some(if negative then -n else n)
  }

  /** "( digits , digits )" right here, spaces allowed around the numbers. */
  function ParamsHere(s: string): Option<(nat, nat)>
  {
    if s == "" || s[0] != '(' then None
    else
      var (p, afterP) := TakeDigits(TrimLeft(s[1..]));
      var comma := TrimLeft(afterP);
      if p == "" || comma == "" || comma[0] != ',' then None
      else
        var (q, afterQ) := TakeDigits(TrimLeft(comma[1..]));
        var close := TrimLeft(afterQ);
        if q == "" || close == "" || close[0] != ')' then None else Some((ParseNatural(p), ParseNatural(q)))
  }

  /** The leftmost parameter pair anywhere in the string. */
  function FindParams(s: string): Option<(nat, nat)>
  {
    if s == "" then None
    else if ParamsHere(s).Some? then ParamsHere(s)
    else FindParams(s[1..])
  }

  // ---------------------------------------------------------------------------------------
  // Printing
  // ---------------------------------------------------------------------------------------

  function Digits(unit: Option<Precision>): string
  {
    match unit
    case Some(Millis) => "3"
    case Some(Nanos) => "9"
    case _ => "6"
  }

  /** The spelling of a scalar type without its nullability; none for types Paimon cannot hold. */
  function Spelling(a: Atom): Option<string>
  {
    match a
    case Boolean => Some("BOOLEAN")
    case Int => Some("INT")
    case Long => Some("BIGINT")
    case Float => Some("FLOAT")
    case Double => Some("DOUBLE")
    case String => Some("STRING")
    case Uuid => Some("STRING")
    case Bytes => Some("BYTES")
    case Fixed(_) => Some("BYTES")
    case Date => Some("DATE")
    case TimestampNtz(unit) => Some("TIMESTAMP(" + Digits(unit) + ")")
    case Timestamp(unit) => Some("TIMESTAMP(" + Digits(unit) + ") WITH LOCAL TIME ZONE")
    case Decimal(p, s) => Some("DECIMAL(" + (Itoa(p) + (", " + (Itoa(s) + ")"))))
    case Enum => None
    case Union => None
    case Null => None
  }

  function WithNullability(base: string, nullable: bool): string
  {
    if nullable then base else base + " NOT NULL"
  }

  // ---------------------------------------------------------------------------------------
  // Parsing
  // ---------------------------------------------------------------------------------------

  function Bucket(precision: int): Precision
  {
    if precision <= 3 then Millis else if precision <= 6 then Micros else Nanos
  }

  function TimestampOf(zoneAware: bool, precision: int, body: string): Option<Atom>
  {
    if body == "" || body == "WITHOUT TIME ZONE" then
      Some(if zoneAware then Timestamp(Some(Bucket(precision))) else TimestampNtz(Some(Bucket(precision))))
    else if body == "WITH LOCAL TIME ZONE" then Some(Timestamp(Some(Bucket(precision))))
    else None
  }

  /** What follows the TIMESTAMP keyword: an optional precision, then the zone. */
  function ParseTimestampBody(zoneAware: bool, body: string): Option<Atom>
  {
    if HasPrefix(body, "(") then
      match IndexOf(body, ')')
      case None => None
      case Some(end) =>
        if end < 1 then None
        else
          match Atoi(TrimSpace(body[1..end]))
          case None => None
          case Some(p) => TimestampOf(zoneAware, p, TrimSpace(body[end + 1..]))
    else TimestampOf(zoneAware, 6, body)
  }

  function ParseTimestamp(upper: string): Option<Atom>
  {
    if HasPrefix(upper, "TIMESTAMP_LTZ") then ParseTimestampBody(true, TrimSpace(upper[13..]))
    else if HasPrefix(upper, "TIMESTAMP") then ParseTimestampBody(false, TrimSpace(upper[9..]))
    else ParseTimestampBody(false, TrimSpace(upper))
  }

  function ParseBase(upper: string): Option<Atom>
  {
    if upper == "BOOLEAN" then Some(Boolean)
    else if upper == "TINYINT" || upper == "SMALLINT" || upper == "INT" || upper == "INTEGER" then Some(Int)
    else if upper == "BIGINT" then Some(Long)
    else if upper == "FLOAT" then Some(Float)
    else if upper == "DOUBLE" || upper == "DOUBLE PRECISION" then Some(Double)
    else if upper == "STRING" || HasPrefix(upper, "VARCHAR") || HasPrefix(upper, "CHAR") then Some(String)
    else if upper == "BYTES" || HasPrefix(upper, "BINARY") || HasPrefix(upper, "VARBINARY") then Some(Bytes)
    else if upper == "DATE" then Some(Date)
    else if HasPrefix(upper, "DECIMAL") || HasPrefix(upper, "NUMERIC") || HasPrefix(upper, "DEC") then
      match FindParams(upper)
      case None => Some(Decimal(10, 0))
      case Some(pq) => Some(Decimal(pq.0, pq.1))
    else if HasPrefix(upper, "TIMESTAMP") then ParseTimestamp(upper)
    else None
  }

  function ParseAtomic(raw: string): Option<Schema>
  {
    var clean := TrimSpace(raw);
    var nullable := !HasSuffix(Upper(clean), "NOT NULL");
    var base := if nullable then clean else TrimSpace(clean[..|clean| - 8]);
    match ParseBase(Upper(base))
    case None => None
    case Some(a) => Some(Scalar(a, nullable))
  }

  // ---------------------------------------------------------------------------------------
  // Reading back
  // ---------------------------------------------------------------------------------------

  /** What a scalar type is read back as: identifiers widen to strings, fixed lengths are dropped, and a
      timestamp without a unit has microseconds. */
  function Widened(a: Atom): Atom
  {
    match a
    case Uuid => String
    case Fixed(_) => Bytes
    case Timestamp(None) => Timestamp(Some(Micros))
    case TimestampNtz(None) => TimestampNtz(Some(Micros))
    case other => other
  }

  /** No spaces at the ends, no lower case, and no chance of being read as ending in NOT NULL. */
  ghost predicate Tidy(s: string)
  {
    && s != "" && !IsSpace(s[0]) && !IsSpace(Last(s)) && Last(s) != 'L'
    && forall i :: 0 <= i < |s| ==> !('a' <= s[i] <= 'z')
  }

  lemma {:induction false} TidyUpper(s: string)
    requires forall i :: 0 <= i < |s| ==> !('a' <= s[i] <= 'z')
    ensures Upper(s) == s
  {
  }

  lemma {:induction false} TidyTrim(s: string)
    requires s != "" && !IsSpace(s[0]) && !IsSpace(Last(s))
    ensures TrimSpace(s) == s && TrimSpace(s + " ") == s
  {
    assert (s + " ")[..|s|] == s;
    assert TrimLeft(s + " ") == s + " ";
  }

  /** The nullability suffix comes off again. */
  lemma {:induction false} SuffixRoundTrip(base: string, nullable: bool)
    requires Tidy(base)
    ensures ParseAtomic(WithNullability(base, nullable)) ==
      match ParseBase(base) case None => None case Some(a) => Some(Scalar(a, nullable))
  {
    TidyUpper(base);
    TidyTrim(base);
    if nullable {
      NoSuffix(base);
    } else {
      SuffixComesOff(base);
    }
  }

  lemma {:induction false} NoSuffix(base: string)
    requires base != "" && Last(base) != 'L'
    ensures !HasSuffix(base, "NOT NULL")
  {
    if |base| >= 8 {
      assert base[|base| - 8 + 7] == Last(base) && "NOT NULL"[7] == 'L';
    }
  }

  lemma {:induction false} SuffixComesOff(base: string)
    requires Tidy(base)
    ensures var raw := base + " NOT NULL";
      TrimSpace(raw) == raw && Upper(raw) == raw && HasSuffix(raw, "NOT NULL") && TrimSpace(raw[..|raw| - 8]) == base
  {
    var raw := base + " NOT NULL";
    SuffixSpelled(base);
    TidyTrim(raw);
    SuffixUpper(base);
    assert raw[..|raw| - 8] == base + " ";
    TidyTrim(base);
  }

  lemma {:induction false} SuffixUpper(base: string)
    requires forall i :: 0 <= i < |base| ==> !('a' <= base[i] <= 'z')
    ensures Upper(base + " NOT NULL") == base + " NOT NULL"
  {
    var suffix := " NOT NULL";
    assert forall i :: 0 <= i < |suffix| ==> !('a' <= suffix[i] <= 'z');
    NoLowerConcat(base, suffix);
    TidyUpper(base + suffix);
  }

  lemma {:induction false} SuffixSpelled(base: string)
    requires base != ""
    ensures var raw := base + " NOT NULL";
      HasSuffix(raw, "NOT NULL") && raw[0] == base[0] && Last(raw) == 'L'
  {
    var suffix := " NOT NULL";
    var raw := base + suffix;
    assert |suffix| == 9;
    assert forall i :: 0 <= i < 8 ==> raw[|raw| - 8 + i] == suffix[1 + i] == "NOT NULL"[i];
    assert Last(raw) == Last(suffix) == 'L';
  }

  lemma {:induction false} Letter(s: string, p: string)
    requires s != "" && p != "" && s[0] != p[0]
    ensures s != p && !HasPrefix(s, p)
  {
  }

  lemma {:induction false} PlainReadBack(a: Atom)
    requires Spelling(a).Some? && !a.Decimal? && !a.Timestamp? && !a.TimestampNtz?
    ensures Tidy(Spelling(a).value) && ParseBase(Spelling(a).value) == Some(Widened(a))
  {
    var s := Spelling(a).value;
    PlainTidy(a);
    if a.Boolean? || a.Int? || a.Long? || a.Float? || a.Double? {
      NumberReadBack(a);
    } else if a.String? || a.Uuid? {
      Letter(s, "BOOLEAN");
    } else if a.Bytes? || a.Fixed? {
      BytesReadBack();
    } else {
      DateReadBack();
    }
  }

  lemma {:induction false} NumberReadBack(a: Atom)
    requires a.Boolean? || a.Int? || a.Long? || a.Float? || a.Double?
    ensures ParseBase(Spelling(a).value) == Some(a)
  {
    var s := Spelling(a).value;
    assert s[0] in "BIFD" && s[1] in "ONIL";
  }

  lemma {:induction false} BytesReadBack()
    ensures ParseBase("BYTES") == Some(Bytes)
  {
    var s := "BYTES";
    assert s[1] == 'Y' && "BOOLEAN"[1] == 'O' && "BIGINT"[1] == 'I' && "FLOAT"[0] == 'F';
    Letter(s, "VARCHAR");
    Letter(s, "CHAR");
    Letter(s, "STRING");
  }

  lemma {:induction false} DateReadBack()
    ensures ParseBase("DATE") == Some(Date)
  {
    var s := "DATE";
    assert s[1] == 'A' && "DOUBLE"[1] == 'O';
    Letter(s, "VARCHAR");
    Letter(s, "CHAR");
    Letter(s, "BINARY");
    Letter(s, "VARBINARY");
  }

  lemma {:induction false} PlainTidy(a: Atom)
    requires Spelling(a).Some? && !a.Decimal? && !a.Timestamp? && !a.TimestampNtz?
    ensures Tidy(Spelling(a).value)
  {
  }

  /** Anything that starts with TIMESTAMP( goes to the timestamp parser. */
  lemma {:induction false} TimestampKeyword(body: string)
    requires body != "" && body[0] == '('
    ensures ParseBase("TIMESTAMP" + body) == ParseTimestampBody(false, TrimSpace(body))
  {
    var s := "TIMESTAMP" + body;
    assert s[0] == 'T' && s[2] == 'M' && s[9] == '(';
    assert "TINYINT"[2] == 'N' && "TIMESTAMP_LTZ"[9] == '_';
    assert s != "TINYINT" && !HasPrefix(s, "TIMESTAMP_LTZ");
    OtherWords(s);
    assert HasPrefix(s, "TIMESTAMP") && s[9..] == body;
  }

  lemma {:induction false} OtherWords(s: string)
    requires s != "" && s[0] == 'T'
    ensures s != "BOOLEAN" && s != "SMALLINT" && s != "INT" && s != "INTEGER" && s != "BIGINT" && s != "FLOAT"
    ensures s != "DOUBLE" && s != "DOUBLE PRECISION" && s != "STRING" && s != "BYTES" && s != "DATE"
    ensures !HasPrefix(s, "VARCHAR") && !HasPrefix(s, "CHAR") && !HasPrefix(s, "BINARY") && !HasPrefix(s, "VARBINARY")
    ensures !HasPrefix(s, "DECIMAL") && !HasPrefix(s, "NUMERIC") && !HasPrefix(s, "DEC")
  {
  }

  function Zone(zoned: bool): string { if zoned then " WITH LOCAL TIME ZONE" else "" }

  lemma {:induction false} TidyTimestamp(d: char, zoned: bool)
    requires IsDigit(d)
    ensures Tidy("TIMESTAMP" + ("(" + [d] + ")" + Zone(zoned)))
  {
    var body := "(" + [d] + ")" + Zone(zoned);
    ZoneTidy(zoned);
    NoLowerConcat("(" + [d] + ")", Zone(zoned));
    assert Last(body) == if zoned then Last(Zone(true)) else ')';
    NoLowerConcat("TIMESTAMP", body);
    var s := "TIMESTAMP" + body;
    assert Last(s) == Last(body) && s[0] == 'T';
  }

  lemma {:induction false} ZoneTidy(zoned: bool)
    ensures forall i :: 0 <= i < |Zone(zoned)| ==> !('a' <= Zone(zoned)[i] <= 'z')
    ensures Last(Zone(true)) == 'E'
  {
  }

  /** "TIMESTAMP(d)" with or without the zone. */
  lemma {:induction false} TimestampReadBack(d: char, zoned: bool)
    requires IsDigit(d)
    ensures var s := "TIMESTAMP" + ("(" + [d] + ")" + Zone(zoned));
      && Tidy(s)
      && ParseBase(s) == Some(if zoned then Timestamp(Some(Bucket(DigitValue(d)))) else TimestampNtz(Some(Bucket(DigitValue(d)))))
  {
    var body := "(" + [d] + ")" + Zone(zoned);
    TidyTimestamp(d, zoned);
    TimestampKeyword(body);
    assert TrimSpace(body) == body by {
      assert body[0] == '(' && Last(body) == if zoned then 'E' else ')';
      TidyTrim(body);
    }
    TimestampBody(d, Zone(zoned));
  }

  /** The two spellings, taken apart. */
  lemma {:induction false} TimestampSpelling(a: Atom)
    requires a.Timestamp? || a.TimestampNtz?
    ensures var d := Digits(a.unit); |d| == 1 && IsDigit(d[0]) && Spelling(a) == Some("TIMESTAMP" + ("(" + [d[0]] + ")" + Zone(a.Timestamp?)))
    ensures Bucket(DigitValue(Digits(a.unit)[0])) == if a.unit == None then Micros else a.unit.value
  {
    var d := Digits(a.unit);
    assert d == [d[0]];
    Opened(d, a.Timestamp?);
  }

  lemma {:induction false} Opened(d: string, zoned: bool)
    ensures "TIMESTAMP(" + d + (if zoned then ") WITH LOCAL TIME ZONE" else ")") == "TIMESTAMP" + ("(" + d + ")" + Zone(zoned))
  {
    assert "TIMESTAMP(" == "TIMESTAMP" + "(";
    ClosedZone(zoned);
    Grouped("TIMESTAMP", "(", d, ")", Zone(zoned));
  }

  lemma {:induction false} ClosedZone(zoned: bool)
    ensures (if zoned then ") WITH LOCAL TIME ZONE" else ")") == ")" + Zone(zoned)
  {
  }

  lemma {:induction false} Grouped(w: string, o: string, d: string, c: string, z: string)
    ensures (w + o) + d + (c + z) == w + (o + d + c + z)
  {
    var x, y := (w + o) + d + (c + z), w + (o + d + c + z);
    assert |x| == |y|;
    assert forall i :: 0 <= i < |x| ==> x[i] == y[i];
  }

  lemma {:induction false} TimestampBody(d: char, tail: string)
    requires IsDigit(d) && (tail == "" || tail == " WITH LOCAL TIME ZONE")
    ensures var body := "(" + [d] + ")" + tail;
      ParseTimestampBody(false, body) ==
        Some(if tail == "" then TimestampNtz(Some(Bucket(DigitValue(d)))) else Timestamp(Some(Bucket(DigitValue(d)))))
  {
    var body := "(" + [d] + ")" + tail;
    assert body[0] == '(' && body[1] == d && body[2] == ')';
    CloseAtTwo(body);
    assert body[1..2] == [d] && TrimSpace([d]) == [d] by { TidyTrim([d]); }
    OneDigit(d);
    assert body[3..] == tail;
    TailTrimmed(tail);
  }

  lemma {:induction false} CloseAtTwo(body: string)
    requires |body| > 2 && body[0] != ')' && body[1] != ')' && body[2] == ')'
    ensures IndexOf(body, ')') == Some(2)
  {
    assert body[1..][1..] == body[2..];
    assert IndexOf(body[2..], ')') == Some(0);
    assert IndexOf(body[1..], ')') == Some(1);
  }

  lemma {:induction false} OneDigit(d: char)
    requires IsDigit(d)
    ensures Atoi([d]) == Some(DigitValue(d))
  {
    assert [d][1..] == "" && TakeDigits("") == ("", "");
    assert TakeDigits([d]) == ([d] + "", "");
    assert [d][..0] == "" && ParseNatural([d]) == DigitValue(d);
  }

  lemma {:induction false} TailTrimmed(tail: string)
    requires tail == "" || tail == " WITH LOCAL TIME ZONE"
    ensures TrimSpace(tail) == if tail == "" then "" else "WITH LOCAL TIME ZONE"
  {
    if tail != "" {
      assert tail[1..] == "WITH LOCAL TIME ZONE";
      assert TrimLeft(tail) == TrimLeft("WITH LOCAL TIME ZONE") == "WITH LOCAL TIME ZONE";
    }
  }

  // ---------------------------------------------------------------------------------------
  // Decimals
  // ---------------------------------------------------------------------------------------

  lemma {:induction false} TakeAllDigits(d: string, rest: string)
    requires (forall i :: 0 <= i < |d| ==> IsDigit(d[i])) && (rest == "" || !IsDigit(rest[0]))
    ensures TakeDigits(d + rest) == (d, rest)
  {
    if d == "" {
      assert d + rest == rest;
    } else {
      TakeAllDigits(d[1..], rest);
      assert (d + rest)[1..] == d[1..] + rest;
      assert d == [d[0]] + d[1..];
    }
  }

  lemma {:induction false} NoTrim(s: string)
    requires s == "" || !IsSpace(s[0])
    ensures TrimLeft(s) == s
  {
  }

  lemma {:induction false} ParamsReadBack(p: nat, q: nat)
    ensures ParamsHere("(" + (Natural(p) + (", " + (Natural(q) + ")")))) == Some((p, q))
  {
    DigitsRead(Natural(p), Natural(q));
    ParsePrinted(p);
    ParsePrinted(q);
  }

  lemma {:induction false} DigitsRead(d: string, e: string)
    requires d != "" && (forall i :: 0 <= i < |d| ==> IsDigit(d[i])) && e != "" && (forall i :: 0 <= i < |e| ==> IsDigit(e[i]))
    ensures ParamsHere("(" + (d + (", " + (e + ")")))) == Some((ParseNatural(d), ParseNatural(e)))
  {
    var end := ")";
    var second := e + end;
    var afterP := ", " + second;
    var first := d + afterP;
    assert ("(" + first)[1..] == first;
    assert first[0] == d[0] && second[0] == e[0];
    TakeAllDigits(d, afterP);
    NoTrim(first);
    NoTrim(afterP);
    assert afterP[0] == ',' && afterP[1..] == " " + second;
    assert (" " + second)[1..] == second && TrimLeft(" " + second) == TrimLeft(second);
    NoTrim(second);
    TakeAllDigits(e, end);
    NoTrim(end);
  }

  lemma {:induction false} FindSkips(before: string, s: string)
    requires '(' !in before
    ensures FindParams(before + s) == FindParams(s)
  {
    if before == "" {
      assert before + s == s;
    } else {
      FindSkips(before[1..], s);
      assert (before + s)[1..] == before[1..] + s;
      assert (before + s)[0] == before[0] && before[0] in before;
    }
  }

  lemma {:induction false} FindNothing(s: string)
    requires '(' !in s
    ensures FindParams(s) == None
  {
    if s != "" {
      assert s[0] in s;
      FindNothing(s[1..]);
    }
  }

  lemma {:induction false} SignFirst(first: string)
    requires first != "" && first[0] == '-'
    ensures ParamsHere("(" + first) == None
  {
    assert ("(" + first)[1..] == first;
    NoTrim(first);
    assert TakeDigits(first) == ("", first);
  }

  lemma {:induction false} SignSecond(d: string, second: string)
    requires d != "" && (forall i :: 0 <= i < |d| ==> IsDigit(d[i])) && second != "" && second[0] == '-'
    ensures ParamsHere("(" + (d + (", " + second))) == None
  {
    var afterP := ", " + second;
    var first := d + afterP;
    assert ("(" + first)[1..] == first;
    assert first[0] == d[0];
    NoTrim(first);
    NoTrim(afterP);
    TakeAllDigits(d, afterP);
    assert afterP[1..] == " " + second && (" " + second)[1..] == second;
    NoTrim(second);
    assert TrimLeft(" " + second) == TrimLeft(second);
    assert TakeDigits(second) == ("", second);
  }

  /** A sign is not a digit: a negative parameter is not found at all. */
  lemma {:induction false} NegativeNotFound(p: int, q: int)
    requires p < 0 || q < 0
    ensures FindParams("(" + (Itoa(p) + (", " + (Itoa(q) + ")")))) == None
  {
    var second := Itoa(q) + ")";
    var first := Itoa(p) + (", " + second);
    assert FindParams(first) == None by {
      NoParens(p);
      NoParens(q);
      FindNothing(first);
    }
    assert ParamsHere("(" + first) == None by {
      if p < 0 {
        assert first[0] == '-';
        SignFirst(first);
      } else {
        assert second[0] == '-';
        SignSecond(Natural(p), second);
      }
    }
    assert ("(" + first)[1..] == first;
  }

  lemma {:induction false} NoParens(n: int)
    ensures '(' !in Itoa(n) && forall i :: 0 <= i < |Itoa(n)| ==> !('a' <= Itoa(n)[i] <= 'z')
  {
  }

  function Params(p: int, q: int): string { "(" + (Itoa(p) + (", " + (Itoa(q) + ")"))) }

  lemma {:induction false} ParamsTidy(p: int, q: int)
    ensures var s := Params(p, q);
      s != "" && s[0] == '(' && Last(s) == ')' && forall i :: 0 <= i < |s| ==> !('a' <= s[i] <= 'z')
  {
    NoParens(p);
    NoParens(q);
    NoLowerConcat(Itoa(q), ")");
    NoLowerConcat(", ", Itoa(q) + ")");
    NoLowerConcat(Itoa(p), ", " + (Itoa(q) + ")"));
    NoLowerConcat("(", Itoa(p) + (", " + (Itoa(q) + ")")));
  }

  lemma {:induction false} NoLowerConcat(a: string, b: string)
    requires (forall i :: 0 <= i < |a| ==> !('a' <= a[i] <= 'z')) && (forall i :: 0 <= i < |b| ==> !('a' <= b[i] <= 'z'))
    ensures forall i :: 0 <= i < |a + b| ==> !('a' <= (a + b)[i] <= 'z')
  {
  }

  lemma {:induction false} ParamsFound(p: int, q: int)
    ensures FindParams("DECIMAL" + Params(p, q)) == if p >= 0 && q >= 0 then Some((p, q)) else None
  {
    FindSkips("DECIMAL", Params(p, q));
    if p >= 0 && q >= 0 {
      ParamsReadBack(p, q);
    } else {
      NegativeNotFound(p, q);
    }
  }

  /** A decimal's parameters come back if and only if neither is negative; otherwise the default pair is
      read. */
  lemma {:induction false} DecimalReadBack(p: int, q: int)
    ensures var s := Spelling(Decimal(p, q)).value;
      Tidy(s) && ParseBase(s) == Some(if p >= 0 && q >= 0 then Decimal(p, q) else Decimal(10, 0))
  {
    DecimalSpelling(p, q);
    ParamsTidy(p, q);
    DecimalKeyword(Params(p, q));
    ParamsFound(p, q);
  }

  lemma {:induction false} DecimalSpelling(p: int, q: int)
    ensures Spelling(Decimal(p, q)).value == "DECIMAL" + Params(p, q)
  {
    assert "DECIMAL(" == "DECIMAL" + "(";
    var first := Itoa(p) + (", " + (Itoa(q) + ")"));
    assert "DECIMAL(" + first == "DECIMAL" + ("(" + first);
  }

  lemma {:induction false} DecimalKeyword(params: string)
    requires params != "" && params[0] == '(' && Last(params) == ')' && forall i :: 0 <= i < |params| ==> !('a' <= params[i] <= 'z')
    ensures var s := "DECIMAL" + params;
      Tidy(s) && ParseBase(s) == match FindParams(s) case None => Some(Decimal(10, 0)) case Some(pq) => Some(Decimal(pq.0, pq.1))
  {
    var s := "DECIMAL" + params;
    assert s[0] == 'D' && s[1] == 'E' && Last(s) == Last(params);
    assert "DOUBLE"[1] == 'O' && "DOUBLE PRECISION"[1] == 'O' && "DATE"[1] == 'A';
    assert s != "DOUBLE" && s != "DOUBLE PRECISION" && s != "DATE";
    DWords(s);
    assert HasPrefix(s, "DECIMAL");
  }

  lemma {:induction false} DWords(s: string)
    requires s != "" && s[0] == 'D'
    ensures s != "BOOLEAN" && s != "TINYINT" && s != "SMALLINT" && s != "INT" && s != "INTEGER" && s != "BIGINT" && s != "FLOAT"
    ensures s != "STRING" && s != "BYTES"
    ensures !HasPrefix(s, "VARCHAR") && !HasPrefix(s, "CHAR") && !HasPrefix(s, "BINARY") && !HasPrefix(s, "VARBINARY")
  {
  }

  /** The parameters of a decimal survive printing. */
  predicate Unsigned(a: Atom) { a.Decimal? ==> a.precision >= 0 && a.scale >= 0 }

  /** What any scalar type is read back as: negative decimal parameters fall back to the default pair. */
  function ReadAs(a: Atom): Atom { if Unsigned(a) then Widened(a) else Decimal(10, 0) }

  ghost predicate ReadsBack(a: Atom)
    requires Spelling(a).Some?
  {
    Tidy(Spelling(a).value) && ParseBase(Spelling(a).value) == Some(ReadAs(a))
  }

  lemma {:induction false} DecimalBase(p: int, q: int)
    ensures Spelling(Decimal(p, q)).Some? && ReadsBack(Decimal(p, q))
  {
    DecimalReadBack(p, q);
  }

  lemma {:induction false} TimestampBase(a: Atom)
    requires a.Timestamp? || a.TimestampNtz?
    ensures Spelling(a).Some? && ReadsBack(a)
  {
    var d := Digits(a.unit)[0];
    TimestampSpelling(a);
    TimestampReadBack(d, a.Timestamp?);
    var s := "TIMESTAMP" + ("(" + [d] + ")" + Zone(a.Timestamp?));
    BackAs(a, s, if a.Timestamp? then Timestamp(Some(Bucket(DigitValue(d)))) else TimestampNtz(Some(Bucket(DigitValue(d)))));
  }

  lemma {:induction false} BackAs(a: Atom, s: string, b: Atom)
    requires Spelling(a) == Some(s) && Tidy(s) && ParseBase(s) == Some(b) && ReadAs(a) == b
    ensures ReadsBack(a)
  {
  }

  lemma {:induction false} PlainBase(a: Atom)
    requires Spelling(a).Some? && !a.Decimal? && !a.Timestamp? && !a.TimestampNtz?
    ensures ReadsBack(a)
  {
    PlainReadBack(a);
  }

  lemma {:induction false} BaseReadBack(a: Atom)
    requires Spelling(a).Some?
    ensures ReadsBack(a)
  {
    if a.Decimal? {
      DecimalBase(a.precision, a.scale);
    } else if a.Timestamp? || a.TimestampNtz? {
      TimestampBase(a);
    } else {
      PlainBase(a);
    }
  }

  /** Every scalar type Paimon can hold is read back as itself, up to the stated widenings, if and only if it
      has no negative decimal parameter. */
  lemma {:induction false} AtomRoundTrip(a: Atom, nullable: bool)
    requires Spelling(a).Some?
    ensures ParseAtomic(WithNullability(Spelling(a).value, nullable)) == Some(Scalar(ReadAs(a), nullable))
    ensures ReadAs(a) == Widened(a) <==> Unsigned(a)
  {
    BaseReadBack(a);
    SuffixReads(Spelling(a).value, ReadAs(a), nullable);
    WidenedUnsigned(a);
  }

  lemma {:induction false} SuffixReads(s: string, b: Atom, nullable: bool)
    requires Tidy(s) && ParseBase(s) == Some(b)
    ensures ParseAtomic(WithNullability(s, nullable)) == Some(Scalar(b, nullable))
  {
    SuffixRoundTrip(s, nullable);
  }

  lemma {:induction false} WidenedUnsigned(a: Atom)
    ensures ReadAs(a) == Widened(a) <==> Unsigned(a)
  {
  }

  /** The scalar types as they are written out. */
  lemma {:induction false} WrittenScalars()
    ensures Spelling(Boolean) == Some("BOOLEAN") && Spelling(Int) == Some("INT") && Spelling(Long) == Some("BIGINT")
    ensures Spelling(Float) == Some("FLOAT") && Spelling(Double) == Some("DOUBLE") && Spelling(Date) == Some("DATE")
    ensures Spelling(String) == Spelling(Uuid) == Some("STRING") && Spelling(Bytes) == Spelling(Fixed(None)) == Some("BYTES")
    ensures Spelling(Decimal(10, 2)) == Some("DECIMAL(10, 2)")
  {
    assert Itoa(10) == "10" && Itoa(2) == "2";
    assert "DECIMAL(" + ("10" + (", " + ("2" + ")"))) == "DECIMAL(10, 2)";
  }

  lemma {:induction false} WrittenTimestamps()
    ensures Spelling(TimestampNtz(Some(Millis))) == Some("TIMESTAMP(3)") && Spelling(TimestampNtz(Some(Nanos))) == Some("TIMESTAMP(9)")
    ensures Spelling(TimestampNtz(Some(Micros))) == Spelling(TimestampNtz(None)) == Some("TIMESTAMP(6)")
    ensures Spelling(Timestamp(Some(Millis))) == Some("TIMESTAMP(3) WITH LOCAL TIME ZONE")
  {
    assert "TIMESTAMP(" + "3" + ")" == "TIMESTAMP(3)" && "TIMESTAMP(" + "6" + ")" == "TIMESTAMP(6)" && "TIMESTAMP(" + "9" + ")" == "TIMESTAMP(9)";
    assert "TIMESTAMP(" + "3" + ") WITH LOCAL TIME ZONE" == "TIMESTAMP(3) WITH LOCAL TIME ZONE";
  }

  /** The spellings of other writers that are read as well. */
  lemma {:induction false} ForeignSpellings(rest: string)
    ensures ParseBase("TINYINT") == ParseBase("SMALLINT") == ParseBase("INTEGER") == Some(Int) && ParseBase("DOUBLE PRECISION") == Some(Double)
    ensures ParseBase("VARCHAR" + rest) == Some(String) && ParseBase("CHAR" + rest) == Some(String)
    ensures ParseBase("BINARY" + rest) == Some(Bytes) && ParseBase("VARBINARY" + rest) == Some(Bytes)
    ensures ParseBase("NUMERIC" + rest) == match FindParams("NUMERIC" + rest) case None => Some(Decimal(10, 0)) case Some(pq) => Some(Decimal(pq.0, pq.1))
  {
    ForeignText(rest);
    ForeignBinary(rest);
    ForeignDecimal(rest);
  }

  lemma {:induction false} ForeignText(rest: string)
    ensures ParseBase("VARCHAR" + rest) == Some(String) && ParseBase("CHAR" + rest) == Some(String)
  {
    var v, c := "VARCHAR" + rest, "CHAR" + rest;
    assert v[0] == 'V' && c[0] == 'C';
    assert HasPrefix(v, "VARCHAR") && HasPrefix(c, "CHAR");
  }

  lemma {:induction false} ForeignBinary(rest: string)
    ensures ParseBase("BINARY" + rest) == Some(Bytes) && ParseBase("VARBINARY" + rest) == Some(Bytes)
  {
    var b, v := "BINARY" + rest, "VARBINARY" + rest;
    assert b[0] == 'B' && b[1] == 'I' && b[2] == 'N' && v[0] == 'V' && v[3] == 'B';
    assert HasPrefix(b, "BINARY") && HasPrefix(v, "VARBINARY");
  }

  lemma {:induction false} ForeignDecimal(rest: string)
    ensures ParseBase("NUMERIC" + rest) == match FindParams("NUMERIC" + rest) case None => Some(Decimal(10, 0)) case Some(pq) => Some(Decimal(pq.0, pq.1))
  {
    var n := "NUMERIC" + rest;
    assert n[0] == 'N';
    assert HasPrefix(n, "NUMERIC");
  }

  /** Timestamps of other writers: no precision means microseconds, TIMESTAMP_LTZ means the zone. */
  lemma {:induction false} ForeignTimestamps(zone: string)
    requires zone == "WITHOUT TIME ZONE" || zone == "WITH LOCAL TIME ZONE"
    ensures ParseBase("TIMESTAMP") == Some(TimestampNtz(Some(Micros))) && ParseBase("TIMESTAMP_LTZ") == Some(Timestamp(Some(Micros)))
    ensures ParseBase("TIMESTAMP" + (" " + zone)) == Some(if zone == "WITHOUT TIME ZONE" then TimestampNtz(Some(Micros)) else Timestamp(Some(Micros)))
  {
    LongWord("", "");
    assert "TIMESTAMP" + "" == "TIMESTAMP";
    LongWord(" " + zone, zone);
    ZonedWord();
  }

  lemma {:induction false} ZonedWord()
    ensures ParseBase("TIMESTAMP_LTZ") == Some(Timestamp(Some(Micros)))
  {
    var z := "TIMESTAMP_LTZ";
    assert z[2] == 'M' && "TINYINT"[2] == 'N';
    OtherWords(z);
    assert z[13..] == "" && TrimSpace("") == "";
    assert HasPrefix(z, "TIMESTAMP_LTZ") && HasPrefix(z, "TIMESTAMP");
  }

  lemma {:induction false} LongWord(tail: string, zone: string)
    requires tail == zone == "" || (tail == " " + zone && zone != "" && zone[0] == 'W' && Last(zone) == 'E')
    ensures ParseBase("TIMESTAMP" + tail) == TimestampOf(false, 6, zone)
  {
    var s := "TIMESTAMP" + tail;
    assert s[2] == 'M' && "TINYINT"[2] == 'N' && s[9..] == tail;
    OtherWords(s);
    if tail != "" {
      assert s[9] == ' ' && "TIMESTAMP_LTZ"[9] == '_';
      assert tail[1..] == zone;
      TidyTrim(zone);
    }
    assert HasPrefix(s, "TIMESTAMP") && !HasPrefix(s, "TIMESTAMP_LTZ");
  }
}
