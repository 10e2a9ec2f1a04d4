/** The two directions of a diff (pkg/model/diff.go): when diffing from the new list to the old one swaps
    what is added and what is removed. */
module DiffMirror {
  import opened Common
  import opened Files
  import opened Diffing

  // ---------------------------------------------------------------------------------------
  // When every sort of two lists gives the same result
  // ---------------------------------------------------------------------------------------

  /** Entries of one path are alike. */
  ghost predicate AlikeByPath(s: seq<DataFile>)
  {
    forall f, g :: f in s && g in s && f.path == g.path ==> f == g
  }

  ghost predicate SortsAgree(s: seq<DataFile>, t: seq<DataFile>)
  {
    forall x, y :: IsSortOf(x, s, PathLe) && IsSortOf(y, t, PathLe) ==> x == y
  }

  lemma {:induction false} AlikeSortsAgree(s: seq<DataFile>, t: seq<DataFile>)
    requires multiset(s) == multiset(t) && AlikeByPath(s)
    ensures SortsAgree(s, t)
  {
    forall x, y | IsSortOf(x, s, PathLe) && IsSortOf(y, t, PathLe) ensures x == y {
      SameMembers(x, s);
      forall f, g | f in x && g in x && PathLe(f, g) && PathLe(g, f) ensures f == g {
        StrLeAntisymmetric(f.path, g.path);
      }
      SortUnique(x, y, PathLe);
    }
  }

  /** The sort that puts one entry last on its path. */
  lemma {:induction false} LastOnPath(s: seq<DataFile>, f: DataFile) returns (x: seq<DataFile>)
    ensures IsSortOf(x, s, PathLe)
    ensures forall i, j :: 0 <= i < j < |x| && x[i] == f && x[j].path == f.path ==> x[j] == f
  {
    WorstOrder(f);
    SortIsSort(s, Worst(f));
    x := Sort(s, Worst(f));
    assert SortedBy(x, Worst(f));
    assert SortedBy(x, PathLe);
  }

  lemma {:induction false} UnlikeSortsDiffer(s: seq<DataFile>, t: seq<DataFile>, f: DataFile, g: DataFile)
    requires multiset(s) == multiset(t) && f in s && g in s && f.path == g.path && f != g
    ensures !SortsAgree(s, t)
  {
    var x := LastOnPath(s, f);
    var y := LastOnPath(t, g);
    SameMembers(x, s);
    var i :| 0 <= i < |x| && x[i] == f;
    var j :| 0 <= j < |x| && x[j] == g;
    assert j < i;
    assert y != x;
  }

  /** All sorts of two lists agree if and only if the lists are permutations of one another and no path
      has two different entries. */
  lemma {:induction false} SortsAgreeIff(s: seq<DataFile>, t: seq<DataFile>)
    ensures SortsAgree(s, t) <==> multiset(s) == multiset(t) && AlikeByPath(s)
  {
    if multiset(s) == multiset(t) {
      if AlikeByPath(s) {
        AlikeSortsAgree(s, t);
      } else {
        var f, g :| f in s && g in s && f.path == g.path && f != g;
        UnlikeSortsDiffer(s, t, f, g);
      }
    } else {
      PathLeOrder();
      SortIsSort(s, PathLe);
      SortIsSort(t, PathLe);
      assert Sort(s, PathLe) != Sort(t, PathLe);
    }
  }

  // ---------------------------------------------------------------------------------------
  // Counting the collected lists
  // ---------------------------------------------------------------------------------------

  /** How many entries on the path of g differ from it. */
  function Others(files: seq<DataFile>, g: DataFile): nat
  {
    if files == [] then 0
    else Others(files[..|files| - 1], g) + if Last(files).path == g.path && Last(files) != g then 1 else 0
  }

  lemma {:induction false} CountSnoc(files: seq<DataFile>, f: DataFile)
    requires files != []
    ensures multiset(files)[f] == multiset(files[..|files| - 1])[f] + if Last(files) == f then 1 else 0
  {
    assert files == files[..|files| - 1] + [Last(files)];
  }

  lemma {:induction false} ChangedCount(was: map<string, DataFile>, files: seq<DataFile>, f: DataFile)
    ensures multiset(Changed(was, files))[f] == if f.path in was && was[f.path] == f then 0 else multiset(files)[f]
  {
    if files != [] {
      ChangedCount(was, files[..|files| - 1], f);
      CountSnoc(files, f);
    }
  }

  lemma {:induction false} GoneCount(now: map<string, DataFile>, files: seq<DataFile>, f: DataFile)
    ensures multiset(Gone(now, files))[f] == if f.path in now then 0 else multiset(files)[f]
  {
    if files != [] {
      GoneCount(now, files[..|files| - 1], f);
      CountSnoc(files, f);
    }
  }

  lemma {:induction false} ReplacedCount(was: map<string, DataFile>, files: seq<DataFile>, f: DataFile)
    requires forall p :: p in was ==> was[p].path == p
    ensures multiset(Replaced(was, files))[f] == if f.path in was && was[f.path] == f then Others(files, f) else 0
  {
    if files != [] {
      ReplacedCount(was, files[..|files| - 1], f);
    }
  }

  lemma {:induction false} OthersZero(files: seq<DataFile>, g: DataFile)
    ensures Others(files, g) == 0 <==> forall f :: f in files && f.path == g.path ==> f == g
  {
    if files != [] {
      OthersZero(files[..|files| - 1], g);
      assert files == files[..|files| - 1] + [Last(files)];
    }
  }

  /** Between two entries of a path, the others of one are the copies of the other. */
  lemma {:induction false} OthersCount(files: seq<DataFile>, g: DataFile, f: DataFile)
    requires f.path == g.path && f != g && forall x :: x in files && x.path == g.path ==> x == f || x == g
    ensures Others(files, g) == multiset(files)[f]
  {
    if files != [] {
      var init, last := files[..|files| - 1], Last(files);
      assert files == init + [last];
      OthersCount(init, g, f);
      CountSnoc(files, f);
    }
  }

  // ---------------------------------------------------------------------------------------
  // The mirror condition
  // ---------------------------------------------------------------------------------------

  /** What one direction adds is what the other removes, as collected. */
  ghost predicate Half(was: seq<DataFile>, now: seq<DataFile>)
  {
    && multiset(Changed(ToMap(was), now)) == multiset(Replaced(ToMap(now), was) + Gone(ToMap(was), now))
    && AlikeByPath(Changed(ToMap(was), now))
  }

  /** The entries of the path are all the given ones. */
  ghost predicate Only(files: seq<DataFile>, p: string, a: DataFile, b: DataFile)
  {
    forall f :: f in files && f.path == p ==> f == a || f == b
  }

  /** On a path of both lists every entry counts for its list or for the other, and the new entry stands in the
      new list as often as the old one in the old; on a path of one list all entries are alike. */
  ghost predicate MirrorsAt(was: seq<DataFile>, now: seq<DataFile>, p: string)
  {
    var w, n := ToMap(was), ToMap(now);
    if p in w && p in n then
      && Only(was, p, w[p], n[p]) && Only(now, p, w[p], n[p])
      && (w[p] != n[p] ==> multiset(was)[w[p]] == multiset(now)[n[p]])
    else (p in w ==> Only(was, p, w[p], w[p])) && (p in n ==> Only(now, p, n[p], n[p]))
  }

  ghost predicate Mirrors(was: seq<DataFile>, now: seq<DataFile>) { forall p :: MirrorsAt(was, now, p) }

  lemma {:induction false} MirrorsSwap(was: seq<DataFile>, now: seq<DataFile>)
    requires Mirrors(was, now)
    ensures Mirrors(now, was)
  {
    forall p ensures MirrorsAt(now, was, p) {
      assert MirrorsAt(was, now, p);
    }
  }

  /** Both sides of Half, counted for one entry. */
  ghost predicate HalfAt(was: seq<DataFile>, now: seq<DataFile>, f: DataFile)
  {
    var w, n := ToMap(was), ToMap(now);
    (if f.path in w && w[f.path] == f then 0 else multiset(now)[f])
      == (if f.path in n && n[f.path] == f then Others(was, f) else 0) + (if f.path in w then 0 else multiset(now)[f])
  }

  lemma {:induction false} HalfCounts(was: seq<DataFile>, now: seq<DataFile>, f: DataFile)
    ensures multiset(Changed(ToMap(was), now))[f] == multiset(Replaced(ToMap(now), was) + Gone(ToMap(was), now))[f] <==> HalfAt(was, now, f)
  {
    ToMapKeys(now);
    ChangedCount(ToMap(was), now, f);
    ReplacedCount(ToMap(now), was, f);
    GoneCount(ToMap(was), now, f);
  }

  lemma {:induction false} MirrorCounts(was: seq<DataFile>, now: seq<DataFile>, f: DataFile)
    requires MirrorsAt(was, now, f.path)
    ensures HalfAt(was, now, f)
  {
    var w, n, p := ToMap(was), ToMap(now), f.path;
    ToMapKeys(was);
    ToMapKeys(now);
    OthersZero(was, f);
    if p in w && p in n && f == n[p] && w[p] != f {
      OthersCount(was, f, w[p]);
    }
  }

  lemma {:induction false} MirrorsHalf(was: seq<DataFile>, now: seq<DataFile>)
    requires Mirrors(was, now)
    ensures Half(was, now)
  {
    var a, b := multiset(Changed(ToMap(was), now)), multiset(Replaced(ToMap(now), was) + Gone(ToMap(was), now));
    forall f ensures a[f] == b[f] {
      assert MirrorsAt(was, now, f.path);
      MirrorCounts(was, now, f);
      HalfCounts(was, now, f);
    }
    assert a == b;
    MirrorsAlike(was, now);
  }

  lemma {:induction false} MirrorsAlike(was: seq<DataFile>, now: seq<DataFile>)
    requires Mirrors(was, now)
    ensures AlikeByPath(Changed(ToMap(was), now))
  {
    ChangedMembers(ToMap(was), now);
    ToMapKeys(now);
    forall f, g | f in Changed(ToMap(was), now) && g in Changed(ToMap(was), now) && f.path == g.path ensures f == g {
      assert MirrorsAt(was, now, f.path);
    }
  }

  /** An entry of the new list on a path of both is the old or the new one. */
  lemma {:induction false} HalfOnly(was: seq<DataFile>, now: seq<DataFile>, p: string)
    requires Half(was, now) && p in ToMap(now)
    ensures p in ToMap(was) ==> Only(now, p, ToMap(was)[p], ToMap(now)[p])
    ensures p !in ToMap(was) ==> Only(now, p, ToMap(now)[p], ToMap(now)[p])
  {
    var w, n := ToMap(was), ToMap(now);
    ToMapKeys(was);
    ToMapKeys(now);
    ChangedMembers(w, now);
    forall f | f in now && f.path == p && !(p in w && f == w[p]) ensures f == n[p] {
      HalfCounts(was, now, f);
      assert f in Changed(w, now);
      assert p !in w ==> n[p] in Changed(w, now);
    }
  }

  lemma {:induction false} HalvesMirrorAt(was: seq<DataFile>, now: seq<DataFile>, p: string)
    requires Half(was, now) && Half(now, was)
    ensures MirrorsAt(was, now, p)
  {
    var w, n := ToMap(was), ToMap(now);
    ToMapKeys(was);
    ToMapKeys(now);
    if p in n {
      HalfOnly(was, now, p);
    }
    if p in w {
      HalfOnly(now, was, p);
    }
    if p in w && p in n && w[p] != n[p] {
      HalfCounts(was, now, n[p]);
      OthersCount(was, n[p], w[p]);
    }
  }

  ghost predicate MirrorDiffs(was: seq<DataFile>, now: seq<DataFile>)
  {
    forall d, e :: IsDiff(was, now, d) && IsDiff(now, was, e) ==> d.added == e.removed && d.removed == e.added
  }

  lemma {:induction false} MirrorIsHalves(was: seq<DataFile>, now: seq<DataFile>)
    ensures MirrorDiffs(was, now) <==> Half(was, now) && Half(now, was)
  {
    var w, n := ToMap(was), ToMap(now);
    MirrorIsSorts(was, now);
    SortsAgreeIff(Changed(w, now), Replaced(n, was) + Gone(w, now));
    SortsAgreeIff(Changed(n, was), Replaced(w, now) + Gone(n, was));
  }

  lemma {:induction false} MirrorIsSorts(was: seq<DataFile>, now: seq<DataFile>)
    ensures MirrorDiffs(was, now) <==> HalfSorts(was, now) && HalfSorts(now, was)
  {
    PathLeOrder();
    if !HalfSorts(was, now) {
      UnmirroredHalf(was, now);
    }
    if !HalfSorts(now, was) {
      UnmirroredHalf(now, was);
    }
  }

  /** Every sort of one direction's additions is every sort of the other's removals. */
  ghost predicate HalfSorts(was: seq<DataFile>, now: seq<DataFile>)
  {
    SortsAgree(Changed(ToMap(was), now), Replaced(ToMap(now), was) + Gone(ToMap(was), now))
  }

  lemma {:induction false} UnmirroredHalf(was: seq<DataFile>, now: seq<DataFile>)
    requires !HalfSorts(was, now)
    ensures !MirrorDiffs(was, now) && !MirrorDiffs(now, was)
  {
    var w, n := ToMap(was), ToMap(now);
    var removed, added := Replaced(w, now) + Gone(n, was), Changed(n, was);
    PathLeOrder();
    SortIsSort(removed, PathLe);
    SortIsSort(added, PathLe);
    var x, y :| IsSortOf(x, Changed(w, now), PathLe) && IsSortOf(y, Replaced(n, was) + Gone(w, now), PathLe) && x != y;
    var d, e := FilesDiff(x, Sort(removed, PathLe)), FilesDiff(Sort(added, PathLe), y);
    assert IsDiff(was, now, d) && IsDiff(now, was, e) && d.added != e.removed;
  }

  /** Diffing in the other direction swaps the two lists, under every sort, if and only if on each path of both
      lists every entry is the old or the new one, the new one as often now as the old one was, and on every other
      path all entries are alike. */
  lemma {:induction false} MirrorIff(was: seq<DataFile>, now: seq<DataFile>)
    ensures MirrorDiffs(was, now) <==> Mirrors(was, now)
  {
    MirrorIsHalves(was, now);
    if Mirrors(was, now) {
      MirrorsHalf(was, now);
      MirrorsSwap(was, now);
      MirrorsHalf(now, was);
    }
    if Half(was, now) && Half(now, was) {
      forall p ensures MirrorsAt(was, now, p) {
        HalvesMirrorAt(was, now, p);
      }
    }
  }

  /** Lists without repeated paths always mirror. */
  lemma {:induction false} UniqueMirrors(was: seq<DataFile>, now: seq<DataFile>)
    requires UniquePaths(was) && UniquePaths(now)
    ensures MirrorDiffs(was, now)
  {
    UniqueIsOnce(was);
    UniqueIsOnce(now);
    ToMapKeys(was);
    ToMapKeys(now);
    forall p ensures MirrorsAt(was, now, p) {
      assert p in ToMap(was) ==> multiset(was)[ToMap(was)[p]] == 1;
      assert p in ToMap(now) ==> multiset(now)[ToMap(now)[p]] == 1;
    }
    MirrorIff(was, now);
  }

  /** Lists that repeat a path need not mirror: one direction reports a rewrite, the other nothing. */
  lemma {:induction false} RepeatedPathUnmirrored(f: DataFile, g: DataFile)
    requires f.path == g.path && f != g
    ensures IsDiff([f], [g, f], FilesDiff([g], [f])) && IsDiff([g, f], [f], FilesDiff([], []))
  {
    OneEntry(f);
    TwoEntries(g, f);
    DuplicateDiff(f, g);
    var w := map[f.path := f];
    assert [g][..0] == [] && [f][..0] == [] && [g, f][..1] == [g];
    assert Changed(w, []) == [] && Replaced(w, []) == [] && Gone(w, []) == [];
    assert Changed(w, [f]) == [] && Replaced(w, [f]) == [];
    assert Gone(w, [g]) == [] && Gone(w, [g, f]) == [];
  }
}
