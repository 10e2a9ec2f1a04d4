/** Which footer decides in MergeFooterSchemas of pkg/formats/parquet/merge.go: the newest one that carries a
    column, in terms of modification time and path alone. */
module FooterNewest {
  import opened Common
  import opened FooterMerge
  import opened FooterBounds
  import opened FooterLoops
  import opened FooterOrders

  /** Modified later, or at the same time and with a smaller path. */
  ghost predicate Newer(a: Footer, b: Footer)
  {
    a.modTime > b.modTime || (a.modTime == b.modTime && Smaller(a.path, b.path))
  }

  lemma {:induction false} NewerMeans(a: Footer, b: Footer)
    ensures Newer(a, b) <==> !FooterLe(b, a)
  {
    SmallerMeans(a.path, b.path);
    StrLeTotal(a.path, b.path);
  }

  predicate Carries(f: Footer, name: string) { f.columns.Some? && Has(f.columns.value, name) }

  /** A footer with the column, none of the others with it being newer. */
  ghost predicate NewestWith(footers: seq<Footer>, name: string, f: Footer)
  {
    f in footers && Carries(f, name) && forall g :: g in footers && Carries(g, name) ==> !Newer(g, f)
  }

  // ---------------------------------------------------------------------------------------
  // First carriers
  // ---------------------------------------------------------------------------------------

  ghost predicate FirstWith(parts: seq<seq<Column>>, name: string, f: nat)
  {
    f < |parts| && Has(parts[f], name) && forall g :: 0 <= g < f ==> !Has(parts[g], name)
  }

  lemma {:induction false} SomeFirst(parts: seq<seq<Column>>, name: string) returns (f: nat)
    requires InUse(parts, name)
    ensures FirstWith(parts, name, f)
    ensures Occurrences(parts[f], name) != [] && Occurrences(Flatten(parts), name)[0] == Occurrences(parts[f], name)[0]
  {
    OccurrencesConcat(parts[0], Flatten(parts[1..]), name);
    OccursIff(parts[0], name);
    if Has(parts[0], name) {
      f := 0;
    } else {
      var g := SomeFirst(parts[1..], name);
      f := g + 1;
      forall k | 0 <= k < f ensures !Has(parts[k], name) {
        assert k > 0 ==> !Has(parts[1..][k - 1], name);
      }
    }
  }

  lemma {:induction false} OrderPrefix(a: seq<Column>, b: seq<Column>)
    ensures |Order(a)| <= |Order(a + b)| && Order(a + b)[..|Order(a)|] == Order(a)
  {
    if b == [] {
      assert a + b == a;
    } else {
      var init := b[..|b| - 1];
      OrderPrefix(a, init);
      assert (a + b)[..|a + b| - 1] == a + init;
    }
  }

  /** The names of the first files come first. */
  lemma {:induction false} NamesUpTo(parts: seq<seq<Column>>, f: nat)
    requires f <= |parts|
    ensures var head := Order(Flatten(parts[..f])); var all := Order(Flatten(parts));
      |head| <= |all| && all[..|head|] == head
  {
    assert parts == parts[..f] + parts[f..];
    FlattenConcat(parts[..f], parts[f..]);
    OrderPrefix(Flatten(parts[..f]), Flatten(parts[f..]));
  }

  lemma {:induction false} InHeadIff(parts: seq<seq<Column>>, f: nat, name: string)
    requires f <= |parts|
    ensures name in Order(Flatten(parts[..f])) <==> exists g :: 0 <= g < f && Has(parts[g], name)
  {
    var head := parts[..f];
    if g :| 0 <= g < f && Has(parts[g], name) {
      assert head[g] == parts[g];
      NamesKept(head, g, name);
    }
    if name in Order(Flatten(head)) {
      InOrderIff(head, name);
      var g := SomeFirst(head, name);
      assert head[g] == parts[g];
    }
  }

  /** Of two columns the one that stands first has a first file that does not come after the other's. */
  lemma {:induction false} EarlierFirst(parts: seq<seq<Column>>, i: nat, j: nat, f: nat, g: nat)
    requires i < j < |Order(Flatten(parts))|
    requires FirstWith(parts, Order(Flatten(parts))[i], f) && FirstWith(parts, Order(Flatten(parts))[j], g)
    ensures f <= g
  {
    var names, head := Order(Flatten(parts)), Order(Flatten(parts[..g + 1]));
    NamesUpTo(parts, g + 1);
    InHeadIff(parts, g + 1, names[j]);
    var k :| 0 <= k < |head| && head[k] == names[j];
    OrderMembers(Flatten(parts));
    assert names[..|head|][k] == names[k];
    assert k == j;
    assert names[..|head|][i] == names[i] && head[i] in head;
    InHeadIff(parts, g + 1, names[i]);
  }

  // ---------------------------------------------------------------------------------------
  // Main result
  // ---------------------------------------------------------------------------------------

  lemma {:induction false} OrderedMembers(footers: seq<Footer>, x: seq<Footer>, f: Footer)
    requires IsOrdered(footers, x)
    ensures f in x <==> f in footers && f.columns.Some?
  {
    SameMembers(x, Present(footers));
    PresentMembers(footers);
    assert f in Present(footers) <==> multiset(Present(footers))[f] > 0;
    assert f in footers <==> multiset(footers)[f] > 0;
  }

  lemma {:induction false} FirstIsNewest(footers: seq<Footer>, x: seq<Footer>, name: string, f: nat)
    requires IsOrdered(footers, x) && FirstWith(Parts(x), name, f)
    ensures NewestWith(footers, name, x[f])
  {
    OrderedMembers(footers, x, x[f]);
    forall g | g in footers && Carries(g, name) ensures !Newer(g, x[f]) {
      OrderedMembers(footers, x, g);
      var k :| 0 <= k < |x| && x[k] == g;
      assert Has(Parts(x)[k], name);
      NewerMeans(g, x[f]);
      StrLeTotal(g.path, g.path);
    }
  }

  /** The footer that decides: its column gives the id, and unless it is a struct the type. */
  ghost predicate Decides(footers: seq<Footer>, f: Footer, c: Column)
  {
    && NewestWith(footers, c.name, f) && c.typ.Some? && Occurrences(f.columns.value, c.name) != []
    && var first := Occurrences(f.columns.value, c.name)[0];
      && first.typ.Some? && c.id == first.id && (IsStruct(c) <==> IsStruct(first))
      && (!IsStruct(c) ==> c.typ.value.shape == first.typ.value.shape)
  }

  /** Stands first: a newest footer's own columns, in its order. */
  ghost predicate Leads(footers: seq<Footer>, f: Footer, m: seq<Column>)
  {
    && f in footers && f.columns.Some? && (forall g :: g in footers && g.columns.Some? ==> !Newer(g, f))
    && |Order(f.columns.value)| <= |m| && forall k :: 0 <= k < |Order(f.columns.value)| ==> m[k].name == Order(f.columns.value)[k]
  }

  ghost predicate SomeDecides(footers: seq<Footer>, c: Column) { exists f :: Decides(footers, f, c) }

  /** A newest carrier of the first column is not older than one of the second. */
  ghost predicate InTurn(footers: seq<Footer>, c: Column, d: Column)
  {
    exists f, g :: NewestWith(footers, c.name, f) && NewestWith(footers, d.name, g) && !Newer(g, f)
  }

  /** Any merged schema: the newest footer's columns come first in its order, every column has the id and type of
      the newest footer that carries it, and columns of newer footers stand before those of older ones alone. */
  lemma {:induction false} NewestDecides(footers: seq<Footer>, m: seq<Column>)
    requires IsMergeOf(footers, Ok(Some(m)))
    ensures exists f :: Leads(footers, f, m)
    ensures forall k :: 0 <= k < |m| ==> SomeDecides(footers, m[k])
    ensures forall i, j :: 0 <= i < j < |m| ==> InTurn(footers, m[i], m[j])
  {
    var x :| IsOrdered(footers, x) && Ok(Some(m)) == Wrapped(MergeRecords(Parts(x), ""));
    NewestLeads(footers, x, m);
    forall k | 0 <= k < |m| ensures SomeDecides(footers, m[k]) {
      var f := ColumnDecided(footers, x, m, k);
    }
    forall i, j | 0 <= i < j < |m| ensures InTurn(footers, m[i], m[j]) {
      ColumnsInTurn(footers, x, m, i, j);
    }
  }

  lemma {:induction false} NewestLeads(footers: seq<Footer>, x: seq<Footer>, m: seq<Column>)
    requires IsOrdered(footers, x) && x != [] && MergeRecords(Parts(x), "") == Ok(m)
    ensures Leads(footers, x[0], m)
  {
    var parts := Parts(x);
    MergedAt(parts, "");
    NamesUpTo(parts, 1);
    assert parts[..1] == [parts[0]];
    FlattenOne(parts[0]);
    OrderedMembers(footers, x, x[0]);
    forall g | g in footers && g.columns.Some? ensures !Newer(g, x[0]) {
      OrderedMembers(footers, x, g);
      var k :| 0 <= k < |x| && x[k] == g;
      NewerMeans(g, x[0]);
      StrLeTotal(g.path, g.path);
    }
    var head := Order(parts[0]);
    forall k | 0 <= k < |head| ensures m[k].name == head[k] {
      assert Order(Flatten(parts))[..|head|][k] == head[k];
    }
  }

  lemma {:induction false} ColumnDecided(footers: seq<Footer>, x: seq<Footer>, m: seq<Column>, k: nat) returns (f: nat)
    requires IsOrdered(footers, x) && MergeRecords(Parts(x), "") == Ok(m) && k < |m|
    ensures f < |x| && FirstWith(Parts(x), m[k].name, f) && Decides(footers, x[f], m[k])
  {
    var parts := Parts(x);
    MergedAt(parts, "");
    f := SomeFirst(parts, m[k].name);
    FirstIsNewest(footers, x, m[k].name, f);
    MergeColumnIs(parts, m[k].name, "");
  }

  lemma {:induction false} ColumnsInTurn(footers: seq<Footer>, x: seq<Footer>, m: seq<Column>, i: nat, j: nat)
    requires IsOrdered(footers, x) && MergeRecords(Parts(x), "") == Ok(m) && i < j < |m|
    ensures InTurn(footers, m[i], m[j])
  {
    MergedAt(Parts(x), "");
    var f := ColumnDecided(footers, x, m, i);
    var g := ColumnDecided(footers, x, m, j);
    EarlierFirst(Parts(x), i, j, f, g);
    NewerMeans(x[g], x[f]);
    StrLeTotal(x[f].path, x[f].path);
  }
}
