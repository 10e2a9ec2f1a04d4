/** What the order of the files changes in the footer merge of pkg/formats/parquet/merge.go: types and field
    ids come from a column's first occurrence. */
module FooterOrders {
  import opened Common
  import opened FooterMerge
  import opened FooterBounds
  import opened FooterJoins

  // ---------------------------------------------------------------------------------------
  // Permutations
  // ---------------------------------------------------------------------------------------

  /** Position k moved to the front. */
  function Front<T>(s: seq<T>, k: nat): seq<T>
    requires k < |s|
  {
    [s[k]] + s[..k] + s[k + 1..]
  }

  lemma {:induction false} FrontPermutes<T>(s: seq<T>, k: nat)
    requires k < |s|
    ensures multiset(Front(s, k)) == multiset(s)
  {
    assert s == s[..k] + [s[k]] + s[k + 1..];
  }

  lemma {:induction false} WithoutOne<T>(a: seq<T>, b: seq<T>) returns (k: nat)
    requires a != [] && multiset(a) == multiset(b)
    ensures k < |b| && b[k] == a[0] && multiset(b[..k] + b[k + 1..]) == multiset(a[1..])
  {
    assert a[0] in multiset(b);
    var i :| 0 <= i < |b| && b[i] == a[0];
    k := i;
    TailMultiset(a);
    Removed(b, k);
  }

  lemma {:induction false} Removed<T>(b: seq<T>, k: nat)
    requires k < |b|
    ensures multiset(b[..k] + b[k + 1..]) == multiset(b) - multiset{b[k]}
  {
    assert b == b[..k] + [b[k]] + b[k + 1..];
    assert multiset(b) == multiset(b[..k]) + multiset{b[k]} + multiset(b[k + 1..]);
  }

  lemma {:induction false} FlattenAround<T>(b: seq<seq<T>>, k: nat)
    requires k < |b|
    ensures multiset(Flatten(b)) == multiset(b[k]) + multiset(Flatten(b[..k] + b[k + 1..]))
  {
    assert b == b[..k] + ([b[k]] + b[k + 1..]);
    FlattenConcat(b[..k], [b[k]] + b[k + 1..]);
    FlattenConcat([b[k]], b[k + 1..]);
    FlattenOne(b[k]);
    FlattenConcat(b[..k], b[k + 1..]);
  }

  lemma {:induction false} FlattenPermutes<T>(a: seq<seq<T>>, b: seq<seq<T>>)
    requires multiset(a) == multiset(b)
    ensures multiset(Flatten(a)) == multiset(Flatten(b))
    decreases |a|
  {
    SameLength(a, b);
    if a != [] {
      var k := WithoutOne(a, b);
      FlattenPermutes(a[1..], b[..k] + b[k + 1..]);
      FlattenAround(b, k);
    }
  }

  lemma {:induction false} OccurrencesCount(columns: seq<Column>, name: string, c: Column)
    ensures multiset(Occurrences(columns, name))[c] == if c.name == name then multiset(columns)[c] else 0
  {
    if columns != [] {
      OccurrencesCount(columns[..|columns| - 1], name, c);
      assert columns == columns[..|columns| - 1] + [Last(columns)];
    }
  }

  /** The occurrences of a name, permuted with the files. */
  lemma {:induction false} OccurrencesPermute(a: seq<seq<Column>>, b: seq<seq<Column>>, name: string)
    requires multiset(a) == multiset(b)
    ensures multiset(Occurrences(Flatten(a), name)) == multiset(Occurrences(Flatten(b), name))
    ensures |Occurrences(Flatten(a), name)| == |Occurrences(Flatten(b), name)| && |a| == |b|
  {
    FlattenPermutes(a, b);
    var x, y := Occurrences(Flatten(a), name), Occurrences(Flatten(b), name);
    forall c ensures multiset(x)[c] == multiset(y)[c] {
      OccurrencesCount(Flatten(a), name, c);
      OccurrencesCount(Flatten(b), name, c);
    }
    assert multiset(x) == multiset(y);
    SameLength(x, y);
    SameLength(a, b);
  }

  lemma {:induction false} InsidesAround(b: seq<Column>, k: nat)
    requires k < |b| && Structs(b)
    ensures Structs(b[..k] + b[k + 1..])
    ensures multiset(Insides(b)) == multiset{b[k].typ.value.shape.columns} + multiset(Insides(b[..k] + b[k + 1..]))
  {
    var all := Insides(b);
    assert all == all[..k] + [all[k]] + all[k + 1..];
    assert Insides(b[..k] + b[k + 1..]) == all[..k] + all[k + 1..];
  }

  lemma {:induction false} InsidesPermute(a: seq<Column>, b: seq<Column>)
    requires multiset(a) == multiset(b) && Structs(a) && Structs(b)
    ensures multiset(Insides(a)) == multiset(Insides(b))
    decreases |a|
  {
    SameLength(a, b);
    if a != [] {
      var k := WithoutOne(a, b);
      InsidesAround(b, k);
      InsidesPermute(a[1..], b[..k] + b[k + 1..]);
      assert Insides(a) == [a[0].typ.value.shape.columns] + Insides(a[1..]);
    }
  }

  // ---------------------------------------------------------------------------------------
  // Two orders
  // ---------------------------------------------------------------------------------------

  /** The same columns with the same types and ids, in any order, at every depth. */
  ghost predicate SameColumns(a: seq<Column>, b: seq<Column>)
    decreases a, 1
  {
    && (forall i :: 0 <= i < |a| ==> Has(b, a[i].name) && SameColumn(a[i], Find(b, a[i].name)))
    && (forall j :: 0 <= j < |b| ==> Has(a, b[j].name))
  }

  ghost predicate SameColumn(c: Column, d: Column)
    decreases c, 0
  {
    && c.id == d.id && c.typ.Some? && d.typ.Some? && c.typ.value.nullable == d.typ.value.nullable
    && (if IsStruct(c) && IsStruct(d) then SameColumns(c.typ.value.shape.columns, d.typ.value.shape.columns)
        else c.typ.value.shape == d.typ.value.shape)
  }

  /** A condition on the two file orders alone: of every column, the occurrences that come first have the same
      id and type, structs by the same condition inside. */
  ghost predicate FirstsAgree(a: seq<seq<Column>>, b: seq<seq<Column>>)
    decreases Height(Flatten(a)), 1
  {
    forall k :: 0 <= k < |Order(Flatten(a))| ==> FirstsAgreeAt(a, b, Order(Flatten(a))[k])
  }

  ghost predicate FirstsAgreeAt(a: seq<seq<Column>>, b: seq<seq<Column>>, name: string)
    decreases Height(Flatten(a)), 0
  {
    var x, y := Occurrences(Flatten(a), name), Occurrences(Flatten(b), name);
    && x != [] && y != [] && x[0].typ.Some? && y[0].typ.Some? && x[0].id == y[0].id
    && if Structs(x) && Structs(y) then (
         OccurrencesMembers(Flatten(a), name);
         InsideIsLower(Flatten(a), x);
         FirstsAgree(Insides(x), Insides(y)))
       else x[0].typ.value.shape == y[0].typ.value.shape
  }

  /** Both orders use the same names. */
  lemma {:induction false} SameNames(a: seq<seq<Column>>, b: seq<seq<Column>>, name: string)
    requires multiset(a) == multiset(b)
    ensures InUse(a, name) <==> InUse(b, name)
    ensures name in Order(Flatten(a)) <==> name in Order(Flatten(b))
  {
    OccurrencesPermute(a, b, name);
    InOrderIff(a, name);
    InOrderIff(b, name);
  }

  lemma {:induction false} InOrderIff(a: seq<seq<Column>>, name: string)
    ensures name in Order(Flatten(a)) <==> InUse(a, name)
  {
    var all := Flatten(a);
    OrderMembers(all);
    OccurrencesMembers(all, name);
    if InUse(a, name) {
      assert Occurrences(all, name)[0] in Occurrences(all, name);
      assert NamesColumn(all, name);
    }
    if NamesColumn(all, name) {
      var c :| c in all && c.name == name;
      assert c in Occurrences(all, name);
    }
  }

  lemma {:induction false} SameNullability(a: seq<seq<Column>>, b: seq<seq<Column>>, name: string)
    requires multiset(a) == multiset(b)
    ensures ShowsNull(a, name) <==> ShowsNull(b, name)
  {
    var x, y := Occurrences(Flatten(a), name), Occurrences(Flatten(b), name);
    OccurrencesPermute(a, b, name);
    SameMembers(x, y);
    if i :| 0 <= i < |x| && Nullable(x[i]) {
      assert x[i] in y;
      var k :| 0 <= k < |y| && y[k] == x[i];
    }
    if i :| 0 <= i < |y| && Nullable(y[i]) {
      assert y[i] in x;
      var k :| 0 <= k < |x| && x[k] == y[i];
    }
  }

  /** The first occurrences of an agreeing column are of one kind in both orders. */
  lemma {:induction false} SameKind(a: seq<seq<Column>>, b: seq<seq<Column>>, name: string, parent: string)
    requires multiset(a) == multiset(b) && InUse(a, name) && InUse(b, name)
    requires MergeColumn(a, name, parent).Ok? && MergeColumn(b, name, parent).Ok?
    ensures var x, y := Occurrences(Flatten(a), name), Occurrences(Flatten(b), name);
      IsStruct(x[0]) == IsStruct(y[0]) && (Structs(x) <==> IsStruct(x[0])) && (Structs(y) <==> IsStruct(y[0]))
  {
    var x, y := Occurrences(Flatten(a), name), Occurrences(Flatten(b), name);
    MergeColumnIs(a, name, parent);
    MergeColumnIs(b, name, parent);
    OccurrencesPermute(a, b, name);
    SameMembers(x, y);
    assert y[0] in y && x[0] in x;
    if IsStruct(x[0]) {
      AgreeingStructs(x);
      var i :| 0 <= i < |x| && x[i] == y[0];
    }
    if IsStruct(y[0]) {
      AgreeingStructs(y);
      var i :| 0 <= i < |y| && y[i] == x[0];
    }
  }

  lemma {:induction false} ColumnOrdersIff(a: seq<seq<Column>>, b: seq<seq<Column>>, name: string, parent: string)
    requires multiset(a) == multiset(b) && InUse(a, name) && InUse(b, name)
    requires MergeColumn(a, name, parent).Ok? && MergeColumn(b, name, parent).Ok?
    ensures SameColumn(MergeColumn(a, name, parent).value, MergeColumn(b, name, parent).value) <==> FirstsAgreeAt(a, b, name)
    decreases Height(Flatten(a)), 0
  {
    var x, y := Occurrences(Flatten(a), name), Occurrences(Flatten(b), name);
    MergeColumnIs(a, name, parent);
    MergeColumnIs(b, name, parent);
    SameNullability(a, b, name);
    SameKind(a, b, name, parent);
    if IsStruct(x[0]) {
      MergeColumnInside(a, name, parent);
      MergeColumnInside(b, name, parent);
      OccurrencesPermute(a, b, name);
      InsidesPermute(x, y);
      TwoOrdersIff(Insides(x), Insides(y), PathOf(parent, name));
    }
  }

  /** Two orders of the same files give the same columns, types and ids if and only if their first occurrences
      agree; only the place of the columns may differ. */
  lemma {:induction false} TwoOrdersIff(a: seq<seq<Column>>, b: seq<seq<Column>>, parent: string)
    requires multiset(a) == multiset(b) && MergeRecords(a, parent).Ok? && MergeRecords(b, parent).Ok?
    ensures SameColumns(MergeRecords(a, parent).value, MergeRecords(b, parent).value) <==> FirstsAgree(a, b)
    decreases Height(Flatten(a)), 2
  {
    var m, n, names := MergeRecords(a, parent).value, MergeRecords(b, parent).value, Order(Flatten(a));
    MergedAt(a, parent);
    forall k | 0 <= k < |m|
      ensures Has(n, m[k].name) && (SameColumn(m[k], Find(n, m[k].name)) <==> FirstsAgreeAt(a, b, names[k])) {
      MatchedColumn(a, b, parent, k);
    }
    forall l | 0 <= l < |n| ensures Has(m, n[l].name) {
      NameMatched(b, a, parent, l);
    }
  }

  lemma {:induction false} NameMatched(a: seq<seq<Column>>, b: seq<seq<Column>>, parent: string, k: nat)
    requires multiset(a) == multiset(b) && MergeRecords(a, parent).Ok? && MergeRecords(b, parent).Ok? && k < |MergeRecords(a, parent).value|
    ensures var m, n := MergeRecords(a, parent).value, MergeRecords(b, parent).value;
      && InUse(a, m[k].name) && MergeColumn(a, m[k].name, parent) == Ok(m[k])
      && InUse(b, m[k].name) && Has(n, m[k].name) && MergeColumn(b, m[k].name, parent) == Ok(Find(n, m[k].name))
      && k < |Order(Flatten(a))| && m[k].name == Order(Flatten(a))[k]
  {
    var names, others := Order(Flatten(a)), Order(Flatten(b));
    MergedAt(a, parent);
    MergedAt(b, parent);
    assert names[k] in names;
    SameNames(a, b, names[k]);
    var l :| 0 <= l < |others| && others[l] == names[k];
    FindAt(MergeRecords(b, parent).value, l);
  }

  lemma {:induction false} MatchedColumn(a: seq<seq<Column>>, b: seq<seq<Column>>, parent: string, k: nat)
    requires multiset(a) == multiset(b) && MergeRecords(a, parent).Ok? && MergeRecords(b, parent).Ok? && k < |MergeRecords(a, parent).value|
    ensures var m, n := MergeRecords(a, parent).value, MergeRecords(b, parent).value;
      && k < |Order(Flatten(a))| && Has(n, m[k].name)
      && (SameColumn(m[k], Find(n, m[k].name)) <==> FirstsAgreeAt(a, b, Order(Flatten(a))[k]))
    decreases Height(Flatten(a)), 1
  {
    MergedAt(a, parent);
    NameMatched(a, b, parent, k);
    ColumnOrdersIff(a, b, Order(Flatten(a))[k], parent);
  }

  // ---------------------------------------------------------------------------------------
  // What no order changes
  // ---------------------------------------------------------------------------------------

  lemma {:induction false} ColumnOrderBelow(a: seq<seq<Column>>, b: seq<seq<Column>>, name: string, parent: string)
    requires multiset(a) == multiset(b) && InUse(a, name) && InUse(b, name)
    requires MergeColumn(a, name, parent).Ok? && MergeColumn(b, name, parent).Ok?
    ensures TypeBelow(SameSignature, MergeColumn(a, name, parent).value.typ.value, MergeColumn(b, name, parent).value.typ.value)
    decreases Height(Flatten(a)), 0
  {
    var x, y := Occurrences(Flatten(a), name), Occurrences(Flatten(b), name);
    MergeColumnIs(a, name, parent);
    MergeColumnIs(b, name, parent);
    SameNullability(a, b, name);
    SameKind(a, b, name, parent);
    OccurrencesPermute(a, b, name);
    if IsStruct(x[0]) {
      MergeColumnInside(a, name, parent);
      MergeColumnInside(b, name, parent);
      InsidesPermute(x, y);
      OrdersBelow(Insides(x), Insides(y), PathOf(parent, name));
    } else {
      SameMembers(x, y);
      assert y[0] in y;
      var i :| 0 <= i < |x| && x[i] == y[0];
      assert Agree(x[0].typ.value, x[i].typ.value);
    }
  }

  lemma {:induction false} OrdersBelow(a: seq<seq<Column>>, b: seq<seq<Column>>, parent: string)
    requires multiset(a) == multiset(b) && MergeRecords(a, parent).Ok? && MergeRecords(b, parent).Ok?
    ensures ColumnsBelow(SameSignature, MergeRecords(a, parent).value, MergeRecords(b, parent).value)
    decreases Height(Flatten(a)), 1
  {
    var m, n := MergeRecords(a, parent).value, MergeRecords(b, parent).value;
    forall k | 0 <= k < |m| ensures ColumnBelow(SameSignature, m[k], n) {
      NameMatched(a, b, parent, k);
      ColumnOrderBelow(a, b, m[k].name, parent);
    }
    forall l | 0 <= l < |n| ensures Has(m, n[l].name) {
      NameMatched(b, a, parent, l);
    }
  }

  /** Another order of the footers changes neither failure nor what the comparison of printed types can see
      of the result: columns, nullability and signatures. What it can change is the next section's subject. */
  lemma {:induction false} MergeOrderIndependent(a: seq<seq<Column>>, b: seq<seq<Column>>, parent: string)
    requires multiset(a) == multiset(b)
    ensures MergeRecords(a, parent).Ok? <==> MergeRecords(b, parent).Ok?
    ensures MergeRecords(a, parent).Ok? ==>
      && ColumnsBelow(SameSignature, MergeRecords(a, parent).value, MergeRecords(b, parent).value)
      && ColumnsBelow(SameSignature, MergeRecords(b, parent).value, MergeRecords(a, parent).value)
  {
    SameLength(a, b);
    if a != [] {
      SameMembers(a, b);
      MergeIsLeastBound(a, parent);
      MergeIsLeastBound(b, parent);
      if u :| IsBound(SameSignature, a, u) {
        SameBound(a, b, u);
      }
      if u :| IsBound(SameSignature, b, u) {
        SameBound(b, a, u);
      }
      if MergeRecords(a, parent).Ok? {
        OrdersBelow(a, b, parent);
        OrdersBelow(b, a, parent);
      }
    }
  }

  lemma {:induction false} SameBound(a: seq<seq<Column>>, b: seq<seq<Column>>, u: seq<Column>)
    requires (forall x :: x in b ==> x in a) && IsBound(SameSignature, a, u)
    ensures IsBound(SameSignature, b, u)
  {
    forall i | 0 <= i < |b| ensures ColumnsBelow(SameSignature, b[i], u) {
      assert b[i] in a;
    }
  }

  // ---------------------------------------------------------------------------------------
  // Every order
  // ---------------------------------------------------------------------------------------

  /** All occurrences of a column have one id and one type, structs by the same condition inside. */
  ghost predicate Uniform(a: seq<seq<Column>>)
    decreases Height(Flatten(a)), 1
  {
    forall k :: 0 <= k < |Order(Flatten(a))| ==> UniformAt(a, Order(Flatten(a))[k])
  }

  ghost predicate UniformAt(a: seq<seq<Column>>, name: string)
    decreases Height(Flatten(a)), 0
  {
    var x := Occurrences(Flatten(a), name);
    && x != [] && Typed(x) && (forall i :: 0 <= i < |x| ==> x[i].id == x[0].id)
    && if Structs(x) then (
         OccurrencesMembers(Flatten(a), name);
         InsideIsLower(Flatten(a), x);
         Uniform(Insides(x)))
       else forall i :: 0 <= i < |x| ==> x[i].typ.value.shape == x[0].typ.value.shape
  }

  lemma {:induction false} UniformFirsts(a: seq<seq<Column>>, b: seq<seq<Column>>)
    requires multiset(a) == multiset(b) && Uniform(a)
    ensures FirstsAgree(a, b)
    decreases Height(Flatten(a))
  {
    var names := Order(Flatten(a));
    OrderInUse(a);
    forall k | 0 <= k < |names| ensures FirstsAgreeAt(a, b, names[k]) {
      assert UniformAt(a, names[k]);
      var x, y := Occurrences(Flatten(a), names[k]), Occurrences(Flatten(b), names[k]);
      OccurrencesPermute(a, b, names[k]);
      SameMembers(x, y);
      assert y[0] in y;
      var i :| 0 <= i < |x| && x[i] == y[0];
      if Structs(x) {
        PermutedStructs(x, y);
        InsidesPermute(x, y);
        OccurrencesMembers(Flatten(a), names[k]);
        InsideIsLower(Flatten(a), x);
        UniformFirsts(Insides(x), Insides(y));
      } else {
        PermutedStructs(y, x);
      }
    }
  }

  lemma {:induction false} PermutedStructs(x: seq<Column>, y: seq<Column>)
    requires forall c :: c in x <==> c in y
    ensures Structs(x) ==> Structs(y)
  {
    if Structs(x) {
      forall k | 0 <= k < |y| ensures IsStruct(y[k]) {
        assert y[k] in x;
      }
    }
  }

  /** File f holds the k-th occurrence, the files before it the earlier ones, those after it the rest. */
  ghost predicate SplitsAt(a: seq<seq<Column>>, name: string, k: nat, f: nat)
    requires k < |Occurrences(Flatten(a), name)| && f < |a|
  {
    var x := Occurrences(Flatten(a), name);
    && Occurrences(Flatten(a[..f]), name) == x[..k] && Occurrences(a[f], name) == [x[k]]
    && Occurrences(Flatten(a[f + 1..]), name) == x[k + 1..]
  }

  function Before(a: seq<seq<Column>>, name: string, f: nat): seq<Column>
    requires f <= |a|
  {
    Occurrences(Flatten(a[..f]), name)
  }

  lemma {:induction false} BeforeNext(a: seq<seq<Column>>, name: string, f: nat)
    requires f < |a|
    ensures Before(a, name, f + 1) == Before(a, name, f) + Occurrences(a[f], name)
  {
    assert a[..f + 1] == a[..f] + [a[f]];
    FlattenConcat(a[..f], [a[f]]);
    FlattenOne(a[f]);
    OccurrencesConcat(Flatten(a[..f]), a[f], name);
  }

  lemma {:induction false} BeforeAndAfter(a: seq<seq<Column>>, name: string, f: nat)
    requires f <= |a|
    ensures Occurrences(Flatten(a), name) == Before(a, name, f) + Occurrences(Flatten(a[f..]), name)
  {
    assert a == a[..f] + a[f..];
    FlattenConcat(a[..f], a[f..]);
    OccurrencesConcat(Flatten(a[..f]), Flatten(a[f..]), name);
  }

  /** The file behind the k-th occurrence of a name, when no file repeats one. */
  lemma {:induction false} FileOf(a: seq<seq<Column>>, name: string, k: nat) returns (f: nat)
    requires (forall i :: 0 <= i < |a| ==> DistinctNames(a[i])) && k < |Occurrences(Flatten(a), name)|
    ensures f < |a| && SplitsAt(a, name, k, f)
  {
    assert a[..|a|] == a && a[..0] == [];
    f := 0;
    while f + 1 < |a| && |Before(a, name, f + 1)| <= k
      invariant f < |a| && |Before(a, name, f)| <= k
    {
      f := f + 1;
    }
    assert |Before(a, name, f + 1)| > k;
    BeforeNext(a, name, f);
    OccursOnce(a[f], name);
    BeforeAndAfter(a, name, f + 1);
    Placed(a, name, Before(a, name, f), Occurrences(a[f], name), f);
  }

  lemma {:induction false} Placed(a: seq<seq<Column>>, name: string, head: seq<Column>, one: seq<Column>, f: nat)
    requires f < |a| && |one| == 1 && head == Before(a, name, f) && one == Occurrences(a[f], name)
    requires Occurrences(Flatten(a), name) == (head + one) + Occurrences(Flatten(a[f + 1..]), name)
    ensures SplitsAt(a, name, |head|, f)
  {
    assert one == [one[0]];
  }

  /** Moving that file to the front moves the occurrence to the front. */
  lemma {:induction false} FrontOccurrences(a: seq<seq<Column>>, name: string, k: nat) returns (f: nat)
    requires (forall i :: 0 <= i < |a| ==> DistinctNames(a[i])) && k < |Occurrences(Flatten(a), name)|
    ensures f < |a| && Occurrences(Flatten(Front(a, f)), name) == Front(Occurrences(Flatten(a), name), k)
  {
    f := FileOf(a, name, k);
    var p, q := a[..f], a[f + 1..];
    FlattenConcat([a[f]] + p, q);
    FlattenConcat([a[f]], p);
    FlattenOne(a[f]);
    OccurrencesConcat(a[f] + Flatten(p), Flatten(q), name);
    OccurrencesConcat(a[f], Flatten(p), name);
  }

  lemma {:induction false} InsidesFront(x: seq<Column>, k: nat)
    requires Structs(x) && k < |x|
    ensures Structs(Front(x, k)) && Insides(Front(x, k)) == Front(Insides(x), k)
  {
  }

  lemma {:induction false} NotUniformAt(a: seq<seq<Column>>, name: string, parent: string) returns (f: nat)
    requires AllWellFormed(a) && InUse(a, name) && MergeColumn(a, name, parent).Ok? && !UniformAt(a, name)
    ensures f < |a| && !FirstsAgreeAt(a, Front(a, f), name)
    decreases Height(Flatten(a)), 0
  {
    var x := Occurrences(Flatten(a), name);
    MergeColumnIs(a, name, parent);
    if i :| 0 <= i < |x| && (x[i].id != x[0].id || (!Structs(x) && x[i].typ.value.shape != x[0].typ.value.shape)) {
      f := FrontOccurrences(a, name, i);
      FrontHead(x, i);
    } else {
      assert IsStruct(x[0]);
      MergeColumnInside(a, name, parent);
      InsidesWellFormed(a, name);
      var k := NotUniform(Insides(x), PathOf(parent, name));
      f := FrontOccurrences(a, name, k);
      InsidesFront(x, k);
    }
  }

  lemma {:induction false} FrontHead(x: seq<Column>, i: nat)
    requires i < |x|
    ensures Front(x, i) != [] && Front(x, i)[0] == x[i] && (Structs(Front(x, i)) <==> Structs(x))
  {
    FrontPermutes(x, i);
    SameMembers(Front(x, i), x);
    PermutedStructs(x, Front(x, i));
    PermutedStructs(Front(x, i), x);
  }

  /** Where the files differ, moving one of them to the front shows it. */
  lemma {:induction false} NotUniform(a: seq<seq<Column>>, parent: string) returns (f: nat)
    requires AllWellFormed(a) && MergeRecords(a, parent).Ok? && !Uniform(a)
    ensures f < |a| && !FirstsAgree(a, Front(a, f))
    decreases Height(Flatten(a)), 1
  {
    var names := Order(Flatten(a));
    MergedAt(a, parent);
    var k :| 0 <= k < |names| && !UniformAt(a, names[k]);
    f := NotUniformAt(a, names[k], parent);
  }

  ghost predicate SameMerge(a: seq<seq<Column>>, b: seq<seq<Column>>, parent: string)
    requires MergeRecords(a, parent).Ok?
  {
    MergeRecords(b, parent).Ok? && SameColumns(MergeRecords(a, parent).value, MergeRecords(b, parent).value)
  }

  /** Every order of the files gives the same types and ids if and only if the files themselves do. */
  lemma {:induction false} EveryOrderIff(a: seq<seq<Column>>, parent: string)
    requires AllWellFormed(a) && MergeRecords(a, parent).Ok?
    ensures (forall b :: multiset(b) == multiset(a) ==> SameMerge(a, b, parent)) <==> Uniform(a)
  {
    if Uniform(a) {
      forall b | multiset(b) == multiset(a) ensures SameMerge(a, b, parent) {
        MergeOrderIndependent(a, b, parent);
        UniformFirsts(a, b);
        TwoOrdersIff(a, b, parent);
      }
    } else {
      var f := NotUniform(a, parent);
      var b := Front(a, f);
      FrontPermutes(a, f);
      if MergeRecords(b, parent).Ok? {
        TwoOrdersIff(a, b, parent);
      }
      assert !SameMerge(a, b, parent);
    }
  }
}
