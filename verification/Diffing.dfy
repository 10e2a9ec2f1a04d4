/** DiffFiles of pkg/model/diff.go, and when its diff, applied, gives back the new file list. */
module Diffing {
  import opened Common
  import opened Files

  function PathLe(a: DataFile, b: DataFile): bool { StrLe(a.path, b.path) }

  lemma {:induction false} PathLeOrder()
    ensures TotalPreorder(PathLe)
  {
    forall x: DataFile, y: DataFile ensures PathLe(x, y) || PathLe(y, x) {
      StrLeTotal(x.path, y.path);
    }
    forall x: DataFile, y: DataFile, z: DataFile | PathLe(x, y) && PathLe(y, z) ensures PathLe(x, z) {
      StrLeTransitive(x.path, y.path, z.path);
    }
  }

  /** New or rewritten files: absent from the was map, or there with other content. */
  function Changed(was: map<string, DataFile>, files: seq<DataFile>): seq<DataFile>
  {
    if files == [] then []
    else
      var rest, f := Changed(was, files[..|files| - 1]), Last(files);
      if f.path in was && was[f.path] == f then rest else rest + [f]
  }

  /** The was records of the rewritten files. */
  function Replaced(was: map<string, DataFile>, files: seq<DataFile>): seq<DataFile>
  {
    if files == [] then []
    else
      var rest, f := Replaced(was, files[..|files| - 1]), Last(files);
      if f.path in was && was[f.path] != f then rest + [was[f.path]] else rest
  }

  function Gone(now: map<string, DataFile>, files: seq<DataFile>): seq<DataFile>
  {
    if files == [] then []
    else
      var rest, f := Gone(now, files[..|files| - 1]), Last(files);
      if f.path in now then rest else rest + [f]
  }

  /** A possible result of DiffFiles: the collected lists under any sort by path. */
  ghost predicate IsDiff(was: seq<DataFile>, now: seq<DataFile>, d: FilesDiff)
  {
    && IsSortOf(d.added, Changed(ToMap(was), now), PathLe)
    && IsSortOf(d.removed, Replaced(ToMap(was), now) + Gone(ToMap(now), was), PathLe)
  }

  method IndexByPath(files: seq<DataFile>) returns (m: map<string, DataFile>)
    ensures m == ToMap(files)
  {
    m := map[];
    for i := 0 to |files|
      invariant m == ToMap(files[..i])
    {
      assert files[..i + 1][..i] == files[..i];
      m := m[files[i].path := files[i]];
    }
    assert files[..|files|] == files;
  }

  method DiffFiles(was: seq<DataFile>, now: seq<DataFile>) returns (d: FilesDiff)
    ensures IsDiff(was, now, d)
  {
    var oldMap := IndexByPath(was);
    var newMap := IndexByPath(now);
    var added: seq<DataFile>, removed: seq<DataFile> := [], [];
    for i := 0 to |now|
      invariant added == Changed(oldMap, now[..i])
      invariant removed == Replaced(oldMap, now[..i])
    {
      assert now[..i + 1][..i] == now[..i];
      if now[i].path !in oldMap {
        added := added + [now[i]];
      } else if oldMap[now[i].path] != now[i] {
        removed := removed + [oldMap[now[i].path]];
        added := added + [now[i]];
      }
    }
    assert now[..|now|] == now;
    ghost var replaced := removed;
    for i := 0 to |was|
      invariant removed == replaced + Gone(newMap, was[..i])
    {
      assert was[..i + 1][..i] == was[..i];
      if was[i].path !in newMap {
        removed := removed + [was[i]];
      }
    }
    assert was[..|was|] == was;
    PathLeOrder();
    SortIsSort(added, PathLe);
    SortIsSort(removed, PathLe);
    d := FilesDiff(Sort(added, PathLe), Sort(removed, PathLe));
  }

  // ---------------------------------------------------------------------------------------
  // Membership of the collected lists
  // ---------------------------------------------------------------------------------------

  lemma {:induction false} ChangedMembers(was: map<string, DataFile>, files: seq<DataFile>)
    ensures forall f :: f in Changed(was, files) <==> f in files && !(f.path in was && was[f.path] == f)
  {
    if files != [] {
      ChangedMembers(was, files[..|files| - 1]);
      assert files == files[..|files| - 1] + [Last(files)];
    }
  }

  lemma {:induction false} GoneMembers(now: map<string, DataFile>, files: seq<DataFile>)
    ensures forall f :: f in Gone(now, files) <==> f in files && f.path !in now
  {
    if files != [] {
      GoneMembers(now, files[..|files| - 1]);
      assert files == files[..|files| - 1] + [Last(files)];
    }
  }

  ghost predicate Rewritten(was: map<string, DataFile>, files: seq<DataFile>, p: string)
  {
    p in was && exists f :: f in files && f.path == p && f != was[p]
  }

  lemma {:induction false} ReplacedMembers(was: map<string, DataFile>, files: seq<DataFile>)
    requires forall p :: p in was ==> was[p].path == p
    ensures forall g :: g in Replaced(was, files) <==> Rewritten(was, files, g.path) && g == was[g.path]
  {
    if files != [] {
      var init, last := files[..|files| - 1], Last(files);
      ReplacedMembers(was, init);
      assert files == init + [last];
      forall g ensures g in Replaced(was, files) <==> Rewritten(was, files, g.path) && g == was[g.path] {
        if Rewritten(was, files, g.path) && !Rewritten(was, init, g.path) {
          var f :| f in files && f.path == g.path && f != was[g.path];
          assert f == last;
        }
        if Rewritten(was, init, g.path) {
          var f :| f in init && f.path == g.path && f != was[g.path];
          assert f in files;
        }
      }
    }
  }

  // ---------------------------------------------------------------------------------------
  // Applying the diff
  // ---------------------------------------------------------------------------------------

  lemma {:induction false} DiffMembers(was: seq<DataFile>, now: seq<DataFile>, d: FilesDiff)
    requires IsDiff(was, now, d)
    ensures forall f :: f in d.added <==> f in now && !(f.path in ToMap(was) && ToMap(was)[f.path] == f)
    ensures forall p :: p in Paths(d.removed) <==>
      Rewritten(ToMap(was), now, p) || (p in ToMap(was) && p !in ToMap(now))
  {
    var replaced, gone := Replaced(ToMap(was), now), Gone(ToMap(now), was);
    SameMembers(d.added, Changed(ToMap(was), now));
    SameMembers(d.removed, replaced + gone);
    ChangedMembers(ToMap(was), now);
    ToMapKeys(was);
    ReplacedMembers(ToMap(was), now);
    GoneMembers(ToMap(now), was);
    forall p ensures p in Paths(d.removed) <==>
      Rewritten(ToMap(was), now, p) || (p in ToMap(was) && p !in ToMap(now)) {
      if p in Paths(d.removed) {
        var f :| f in d.removed && f.path == p;
        assert f in replaced || f in gone;
        assert f in gone ==> p in Paths(was);
      }
      if Rewritten(ToMap(was), now, p) {
        assert ToMap(was)[p] in d.removed;
      } else if p in ToMap(was) && p !in ToMap(now) {
        assert ToMap(was)[p] in d.removed;
      }
    }
  }

  /** Per path, every entry of the new list is the last one for that path or repeats the old file.
      A list without duplicate paths always qualifies. */
  ghost predicate LastOrOld(was: seq<DataFile>, now: seq<DataFile>)
  {
    forall f :: f in now ==>
      Effective(now, f) || (f.path in ToMap(was) && f == ToMap(was)[f.path])
  }

  ghost predicate Effective(files: seq<DataFile>, f: DataFile)
  {
    f.path in ToMap(files) && ToMap(files)[f.path] == f
  }

  /** Every path added is new, was removed by the same diff, or repeats the live file; and a path added
      twice is added alike. */
  ghost predicate Settled(live: map<string, DataFile>, d: FilesDiff)
  {
    forall f :: f in d.added ==>
      Effective(d.added, f) && (f.path in live && f.path !in Paths(d.removed) ==> live[f.path] == f)
  }

  /** A path that the diff does not add keeps its old entry exactly when it is still listed. */
  lemma {:induction false} UnaddedPath(was: seq<DataFile>, now: seq<DataFile>, d: FilesDiff, p: string)
    requires IsDiff(was, now, d) && p !in Paths(d.added)
    ensures p in ToMap(now) <==> p in ToMap(was) && p !in Paths(d.removed)
    ensures p in ToMap(now) ==> p in ToMap(was) && ToMap(now)[p] == ToMap(was)[p]
  {
    var w, n := ToMap(was), ToMap(now);
    DiffMembers(was, now, d);
    ToMapKeys(now);
    if p in n {
      assert n[p] in now && n[p].path == p;
      assert n[p] !in d.added;
    }
  }

  lemma {:induction false} DiffApplyExact(was: seq<DataFile>, now: seq<DataFile>, d: FilesDiff)
    requires IsDiff(was, now, d) && LastOrOld(was, now)
    ensures ToMap(Applied(was, d)) == ToMap(now)
  {
    var r, n, a := (ToMap(was) - Paths(d.removed)) + ToMap(d.added), ToMap(now), ToMap(d.added);
    assert ToMap(Applied(was, d)) == r by { AppliedMap(was, d); }
    assert a.Keys == Paths(d.added) by { ToMapKeys(d.added); }
    forall p ensures (p in r <==> p in n) && (p in r ==> r[p] == n[p]) {
      if p in a {
        assert Effective(now, a[p]) && a[p].path == p by {
          ToMapKeys(d.added);
          DiffMembers(was, now, d);
        }
      } else {
        UnaddedPath(was, now, d, p);
      }
    }
  }

  /** PathLe refined so that one chosen file comes last on its path: a sort the code may produce. */
  function Worst(bad: DataFile): (DataFile, DataFile) -> bool
  {
    (a: DataFile, b: DataFile) => StrLe(a.path, b.path) && (a.path == b.path && a == bad ==> b == bad)
  }

  lemma {:induction false} WorstOrder(bad: DataFile)
    ensures TotalPreorder(Worst(bad))
  {
    var le := Worst(bad);
    forall x, y ensures le(x, y) || le(y, x) {
      StrLeTotal(x.path, y.path);
      if x.path != y.path && StrLe(x.path, y.path) && StrLe(y.path, x.path) {
        StrLeAntisymmetric(x.path, y.path);
      }
    }
    forall x, y, z | le(x, y) && le(y, z) ensures le(x, z) {
      StrLeTransitive(x.path, y.path, z.path);
      if x.path == z.path {
        StrLeAntisymmetric(x.path, y.path);
      }
    }
  }

  lemma {:induction false} LastEntryWins(s: seq<DataFile>, f: DataFile)
    requires f in s
    requires forall i, j :: 0 <= i < j < |s| && s[i] == f && s[j].path == f.path ==> s[j] == f
    ensures f.path in ToMap(s) && ToMap(s)[f.path] == f
  {
    var init := s[..|s| - 1];
    if Last(s) != f {
      var i :| 0 <= i < |s| && s[i] == f;
      assert init[i] == f;
      LastEntryWins(init, f);
    }
  }

  lemma {:induction false} DiffApplyFails(was: seq<DataFile>, now: seq<DataFile>) returns (d: FilesDiff)
    requires !LastOrOld(was, now)
    ensures IsDiff(was, now, d) && ToMap(Applied(was, d)) != ToMap(now)
  {
    var bad :| bad in now && !Effective(now, bad) && !(bad.path in ToMap(was) && bad == ToMap(was)[bad.path]);
    var added := Changed(ToMap(was), now);
    var removed := Replaced(ToMap(was), now) + Gone(ToMap(now), was);
    WorstOrder(bad);
    PathLeOrder();
    SortIsSort(added, Worst(bad));
    SortIsSort(removed, PathLe);
    d := FilesDiff(Sort(added, Worst(bad)), Sort(removed, PathLe));
    assert SortedBy(d.added, Worst(bad));
    assert SortedBy(d.added, PathLe);
    DiffMembers(was, now, d);
    AppliedMap(was, d);
    LastEntryWins(d.added, bad);
    ToMapKeys(now);
  }

  /** Applying the reported diff gives back the new live map, whatever order the sort leaves equal
      paths in, if and only if the new list is unambiguous in the sense of LastOrOld. */
  lemma {:induction false} DiffApplyIff(was: seq<DataFile>, now: seq<DataFile>)
    ensures (forall d :: IsDiff(was, now, d) ==> ToMap(Applied(was, d)) == ToMap(now)) <==> LastOrOld(was, now)
  {
    if LastOrOld(was, now) {
      forall d | IsDiff(was, now, d) ensures ToMap(Applied(was, d)) == ToMap(now) {
        DiffApplyExact(was, now, d);
      }
    } else {
      var d := DiffApplyFails(was, now);
    }
  }

  /** A list that names one path twice loses its last entry where that is the old file: the diff takes the other
      for new, and applied it leaves the reader with that one. */
  lemma {:induction false} DuplicateEntryLost(f: DataFile, g: DataFile)
    requires f.path == g.path && f != g
    ensures var was, now, d := [f], [g, f], FilesDiff([g], [f]);
      && IsDiff(was, now, d)
      && ToMap(now) == map[f.path := f] && ToMap(Applied(was, d)) == map[f.path := g]
  {
    OneEntry(f);
    OneEntry(g);
    TwoEntries(g, f);
    DuplicateDiff(f, g);
    ReplaceOnly(f, g);
  }

  lemma {:induction false} DuplicateDiff(f: DataFile, g: DataFile)
    requires f.path == g.path && f != g && ToMap([f]) == map[f.path := f] && ToMap([g, f]) == map[f.path := f]
    ensures IsDiff([f], [g, f], FilesDiff([g], [f]))
  {
    DuplicateCollected(f, g);
    assert [f] + [] == [f];
    SingleSorted(f);
    SingleSorted(g);
  }

  lemma {:induction false} SingleSorted(x: DataFile)
    ensures IsSortOf([x], [x], PathLe)
  {
  }

  lemma {:induction false} ReplaceOnly(f: DataFile, g: DataFile)
    requires f.path == g.path && ToMap([f]) == map[f.path := f] && ToMap([g]) == map[g.path := g]
    ensures ToMap(Applied([f], FilesDiff([g], [f]))) == map[f.path := g]
  {
    assert f in [f] && f.path in Paths([f]);
    AppliedMap([f], FilesDiff([g], [f]));
  }

  /** Of two entries for a path the later counts. */
  lemma {:induction false} TwoEntries(f: DataFile, g: DataFile)
    requires f.path == g.path
    ensures ToMap([f, g]) == map[f.path := g]
  {
    OneEntry(f);
    assert [f, g][..1] == [f];
    assert ToMap([f, g]) == ToMap([f])[g.path := g];
  }

  lemma {:induction false} OneEntry(f: DataFile)
    ensures ToMap([f]) == map[f.path := f]
  {
    assert [f][..0] == [];
    assert ToMap([f]) == ToMap([])[f.path := f];
  }

  lemma {:induction false} DuplicateCollected(f: DataFile, g: DataFile)
    requires f.path == g.path && f != g
    ensures var w := map[f.path := f];
      Changed(w, [g, f]) == [g] && Replaced(w, [g, f]) == [f] && Gone(w, [f]) == []
  {
    var w := map[f.path := f];
    assert [g][..0] == [] && [f][..0] == [] && [g, f][..1] == [g];
    assert Changed(w, []) == [] && Replaced(w, []) == [] && Gone(w, []) == [];
    assert Changed(w, [g]) == [] + [g] && Replaced(w, [g]) == [] + [f];
  }

  // ---------------------------------------------------------------------------------------
  // Lists without repeated paths
  // ---------------------------------------------------------------------------------------

  ghost predicate UniquePaths(s: seq<DataFile>)
  {
    forall i, j :: 0 <= i < j < |s| ==> s[i].path != s[j].path
  }

  /** UniquePaths in a form that survives a permutation. */
  ghost predicate OncePerPath(s: seq<DataFile>)
  {
    && (forall x :: x in s ==> multiset(s)[x] == 1)
    && (forall x, y :: x in s && y in s && x.path == y.path ==> x == y)
  }

  lemma {:induction false} UniqueIsOnce(s: seq<DataFile>)
    requires UniquePaths(s)
    ensures OncePerPath(s)
  {
    if s != [] {
      var init, last := s[..|s| - 1], Last(s);
      UniqueIsOnce(init);
      assert s == init + [last];
      assert last !in init;
    }
  }

  lemma {:induction false} UniqueIsEffective(s: seq<DataFile>)
    requires UniquePaths(s)
    ensures forall f :: f in s ==> Effective(s, f)
  {
    UniqueIsOnce(s);
    ToMapKeys(s);
    forall f | f in s ensures Effective(s, f) {
      assert f.path in Paths(s);
    }
  }

  lemma {:induction false} Appended(s: seq<DataFile>, x: DataFile)
    ensures UniquePaths(s) && x.path !in Paths(s) ==> UniquePaths(s + [x])
    ensures Paths(s + [x]) == Paths(s) + {x.path}
  {
    assert forall i :: 0 <= i < |s| ==> s[i].path in Paths(s);
    assert forall f :: f in s + [x] <==> f in s || f == x;
  }

  /** Both lists of a diff are in ascending order of path. */
  lemma {:induction false} DiffAscends(was: seq<DataFile>, now: seq<DataFile>, d: FilesDiff, i: nat, j: nat)
    requires IsDiff(was, now, d) && i < j
    ensures j < |d.added| ==> !Smaller(d.added[j].path, d.added[i].path)
    ensures j < |d.removed| ==> !Smaller(d.removed[j].path, d.removed[i].path)
  {
    if j < |d.added| {
      assert PathLe(d.added[i], d.added[j]);
      SmallerMeans(d.added[j].path, d.added[i].path);
    }
    if j < |d.removed| {
      assert PathLe(d.removed[i], d.removed[j]);
      SmallerMeans(d.removed[j].path, d.removed[i].path);
    }
  }
}
