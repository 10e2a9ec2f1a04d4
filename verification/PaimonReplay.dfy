/** Paimon's two ways of computing a table's files: replaying a snapshot's base and delta manifests
    (liveFiles of pkg/formats/paimon/source.go) and folding a diff into the list the next commit starts
    from (applyDiff of pkg/formats/paimon/target.go). A file is named by its path relative to the table. */
module PaimonReplay {
  import opened Common
  import opened Files
  import opened Diffing

  const KindAdd := 0
  const KindDelete := 1

  datatype Entry = Entry(kind: int, file: DataFile)

  // ---------------------------------------------------------------------------------------
  // Replay
  // ---------------------------------------------------------------------------------------

  /** Names in the order they became live, and the live files by name. */
  datatype Scan = Scan(order: seq<string>, live: map<string, DataFile>)

  function ScanEntry(s: Scan, e: Entry): Scan
  {
    var name := e.file.path;
    if e.kind == KindDelete then s.(live := s.live - {name})
    else Scan(if name in s.live then s.order else s.order + [name], s.live[name := e.file])
  }

  function ScanAll(entries: seq<Entry>): Scan
  {
    if entries == [] then Scan([], map[]) else ScanEntry(ScanAll(entries[..|entries| - 1]), Last(entries))
  }

  function Listed(order: seq<string>, live: map<string, DataFile>): seq<DataFile>
  {
    if order == [] then []
    else
      var rest := Listed(order[..|order| - 1], live);
      if Last(order) in live then rest + [live[Last(order)]] else rest
  }

  function Replayed(entries: seq<Entry>): seq<DataFile>
  {
    Listed(ScanAll(entries).order, ScanAll(entries).live)
  }

  method LiveFiles(base: seq<Entry>, delta: seq<Entry>) returns (files: seq<DataFile>)
    ensures files == Replayed(base + delta)
  {
    var entries := base + delta;
    var order: seq<string>, live: map<string, DataFile> := [], map[];
    for i := 0 to |entries|
      invariant Scan(order, live) == ScanAll(entries[..i])
    {
      assert entries[..i + 1][..i] == entries[..i];
      var name := entries[i].file.path;
      if entries[i].kind == KindDelete {
        live := live - {name};
      } else {
        if name !in live {
          order := order + [name];
        }
        live := live[name := entries[i].file];
      }
    }
    assert entries[..|entries|] == entries;
    files := [];
    for i := 0 to |order|
      invariant files == Listed(order[..i], live)
    {
      assert order[..i + 1][..i] == order[..i];
      if order[i] in live {
        files := files + [live[order[i]]];
      }
    }
    assert order[..|order|] == order;
  }

  /** The entries of one kind for a file list. */
  function EntriesOf(kind: int, files: seq<DataFile>): seq<Entry>
  {
    seq(|files|, i requires 0 <= i < |files| => Entry(kind, files[i]))
  }

  /** What a commit writes: removals before additions. */
  function DeltaEntries(d: FilesDiff): seq<Entry>
  {
    EntriesOf(KindDelete, d.removed) + EntriesOf(KindAdd, d.added)
  }

  /** The file list a reader of the committed snapshot sees. */
  function View(base: seq<DataFile>, d: FilesDiff): seq<DataFile>
  {
    Replayed(EntriesOf(KindAdd, base) + DeltaEntries(d))
  }

  // ---------------------------------------------------------------------------------------
  // Fold
  // ---------------------------------------------------------------------------------------

  /** Additions whose name is not yet taken; the first of a name wins. */
  function NewNames(seen: set<string>, added: seq<DataFile>): seq<DataFile>
  {
    if added == [] then []
    else
      var rest := NewNames(seen, added[..|added| - 1]);
      if Last(added).path in seen + Paths(rest) then rest else rest + [Last(added)]
  }

  function Folded(base: seq<DataFile>, d: FilesDiff): seq<DataFile>
  {
    var kept := Surviving(base, Paths(d.removed));
    kept + NewNames(Paths(kept), d.added)
  }

  method ApplyDiff(base: seq<DataFile>, added: seq<DataFile>, removed: seq<DataFile>) returns (result: seq<DataFile>)
    ensures result == Folded(base, FilesDiff(added, removed))
  {
    var dropped: set<string> := {};
    for i := 0 to |removed|
      invariant dropped == Paths(removed[..i])
    {
      assert removed[..i + 1] == removed[..i] + [removed[i]];
      dropped := dropped + {removed[i].path};
    }
    assert removed[..|removed|] == removed;
    result := [];
    var seen: set<string> := {};
    for i := 0 to |base|
      invariant result == Surviving(base[..i], dropped) && seen == Paths(result)
    {
      assert base[..i + 1][..i] == base[..i];
      if base[i].path !in dropped {
        seen := seen + {base[i].path};
        result := result + [base[i]];
      }
    }
    assert base[..|base|] == base;
    ghost var kept := result;
    ghost var more: seq<DataFile> := [];
    for i := 0 to |added|
      invariant more == NewNames(Paths(kept), added[..i])
      invariant result == kept + more && seen == Paths(kept) + Paths(more)
    {
      assert added[..i + 1][..i] == added[..i];
      if added[i].path !in seen {
        seen := seen + {added[i].path};
        result := result + [added[i]];
        more := more + [added[i]];
      }
    }
    assert added[..|added|] == added;
  }

  // ---------------------------------------------------------------------------------------
  // What replay shows
  // ---------------------------------------------------------------------------------------

  /** The meaning of a diff on the live map, independent of both computations. */
  ghost function Updated(live: map<string, DataFile>, d: FilesDiff): map<string, DataFile>
  {
    (live - Paths(d.removed)) + ToMap(d.added)
  }

  ghost predicate ScanOk(s: Scan)
  {
    forall p :: p in s.live ==> p in s.order && s.live[p].path == p
  }

  lemma {:induction false} ScanAllOk(entries: seq<Entry>)
    ensures ScanOk(ScanAll(entries))
  {
    if entries != [] {
      ScanAllOk(entries[..|entries| - 1]);
    }
  }

  lemma {:induction false} ListedMembers(order: seq<string>, live: map<string, DataFile>)
    ensures forall f :: f in Listed(order, live) <==> exists p :: p in order && p in live && live[p] == f
  {
    if order != [] {
      ListedMembers(order[..|order| - 1], live);
      assert order == order[..|order| - 1] + [Last(order)];
    }
  }

  lemma {:induction false} ListedMap(s: Scan)
    requires ScanOk(s)
    ensures ToMap(Listed(s.order, s.live)) == s.live
  {
    var files := Listed(s.order, s.live);
    ListedMembers(s.order, s.live);
    ToMapKeys(files);
    forall p | p in s.live ensures p in ToMap(files) {
      assert s.live[p] in files && s.live[p].path == p;
    }
    forall p | p in ToMap(files) ensures p in s.live && ToMap(files)[p] == s.live[p] {
      assert ToMap(files)[p] in files && ToMap(files)[p].path == p;
    }
  }

  lemma {:induction false} ScanSnoc(before: seq<Entry>, e: Entry)
    ensures ScanAll(before + [e]) == ScanEntry(ScanAll(before), e)
  {
    assert (before + [e])[..|before|] == before;
  }

  lemma {:induction false} EntriesSnoc(before: seq<Entry>, kind: int, files: seq<DataFile>)
    requires files != []
    ensures before + EntriesOf(kind, files) == (before + EntriesOf(kind, files[..|files| - 1])) + [Entry(kind, Last(files))]
  {
  }

  lemma {:induction false} ScanAdds(before: seq<Entry>, files: seq<DataFile>)
    ensures ScanAll(before + EntriesOf(KindAdd, files)).live == ScanAll(before).live + ToMap(files)
  {
    if files == [] {
      assert before + EntriesOf(KindAdd, files) == before;
    } else {
      var init := files[..|files| - 1];
      ScanAdds(before, init);
      EntriesSnoc(before, KindAdd, files);
      ScanSnoc(before + EntriesOf(KindAdd, init), Entry(KindAdd, Last(files)));
    }
  }

  lemma {:induction false} ScanDeletes(before: seq<Entry>, files: seq<DataFile>)
    ensures ScanAll(before + EntriesOf(KindDelete, files)).live == ScanAll(before).live - Paths(files)
    ensures ScanAll(before + EntriesOf(KindDelete, files)).order == ScanAll(before).order
  {
    if files == [] {
      assert before + EntriesOf(KindDelete, files) == before;
    } else {
      var init := files[..|files| - 1];
      ScanDeletes(before, init);
      EntriesSnoc(before, KindDelete, files);
      ScanSnoc(before + EntriesOf(KindDelete, init), Entry(KindDelete, Last(files)));
      assert files == init + [Last(files)];
      PathsSnoc(init, Last(files));
    }
  }

  /** A reader of the snapshot sees exactly the base updated by the diff. */
  lemma {:induction false} ReplayIsUpdate(base: seq<DataFile>, d: FilesDiff)
    ensures ToMap(View(base, d)) == Updated(ToMap(base), d)
  {
    var none: seq<Entry> := [];
    var adds, deletes := EntriesOf(KindAdd, base), EntriesOf(KindDelete, d.removed);
    var all := adds + DeltaEntries(d);
    assert ScanAll(adds).live == ToMap(base) by {
      assert none + adds == adds;
      ScanAdds(none, base);
      assert map[] + ToMap(base) == ToMap(base);
    }
    ScanDeletes(adds, d.removed);
    ScanAdds(adds + deletes, d.added);
    DeltaSplit(adds, d);
    ScanAllOk(all);
    ListedMap(ScanAll(all));
  }

  // ---------------------------------------------------------------------------------------
  // Where the fold agrees
  // ---------------------------------------------------------------------------------------

  function FirstWins(files: seq<DataFile>): map<string, DataFile>
  {
    if files == [] then map[]
    else
      var m := FirstWins(files[..|files| - 1]);
      if Last(files).path in m then m else m[Last(files).path := Last(files)]
  }

  lemma {:induction false} FirstWinsKeys(files: seq<DataFile>)
    ensures FirstWins(files).Keys == Paths(files)
  {
    if files != [] {
      FirstWinsKeys(files[..|files| - 1]);
      assert files == files[..|files| - 1] + [Last(files)];
    }
  }

  lemma {:induction false} PathsSnoc(files: seq<DataFile>, f: DataFile)
    ensures Paths(files + [f]) == Paths(files) + {f.path}
  {
    assert f in files + [f];
    forall g | g in files ensures g in files + [f] {
    }
  }

  lemma {:induction false} NewNamesSnoc(seen: set<string>, init: seq<DataFile>, last: DataFile)
    ensures NewNames(seen, init + [last]) ==
      if last.path in seen + Paths(NewNames(seen, init)) then NewNames(seen, init) else NewNames(seen, init) + [last]
  {
    assert (init + [last])[..|init|] == init;
  }

  lemma {:induction false} NewNamesPaths(seen: set<string>, added: seq<DataFile>)
    ensures Paths(NewNames(seen, added)) == Paths(added) - seen
  {
    if added != [] {
      var init, last := added[..|added| - 1], Last(added);
      NewNamesPaths(seen, init);
      assert added == init + [last];
      NewNamesSnoc(seen, init, last);
      PathsSnoc(init, last);
      PathsSnoc(NewNames(seen, init), last);
    }
  }

  lemma {:induction false} FirstWinsSnoc(init: seq<DataFile>, last: DataFile)
    ensures FirstWins(init + [last]) == if last.path in FirstWins(init) then FirstWins(init) else FirstWins(init)[last.path := last]
  {
    assert (init + [last])[..|init|] == init;
  }

  lemma {:induction false} ToMapSnoc(init: seq<DataFile>, last: DataFile)
    ensures ToMap(init + [last]) == ToMap(init)[last.path := last]
  {
    assert (init + [last])[..|init|] == init;
  }

  lemma {:induction false} PutMinus(m: map<string, DataFile>, seen: set<string>, f: DataFile)
    ensures f.path !in seen ==> m[f.path := f] - seen == (m - seen)[f.path := f]
    ensures f.path in seen ==> m[f.path := f] - seen == m - seen
  {
  }

  lemma {:induction false} NewNamesMap(seen: set<string>, added: seq<DataFile>)
    ensures ToMap(NewNames(seen, added)) == FirstWins(added) - seen
  {
    if added != [] {
      var init, last := added[..|added| - 1], Last(added);
      NewNamesMap(seen, init);
      assert added == init + [last];
      assert last.path in seen + Paths(NewNames(seen, init)) <==> last.path in seen || last.path in FirstWins(init) by {
        NewNamesPaths(seen, init);
        FirstWinsKeys(init);
      }
      NewNamesSnoc(seen, init, last);
      FirstWinsSnoc(init, last);
      PutMinus(FirstWins(init), seen, last);
      ToMapSnoc(NewNames(seen, init), last);
    }
  }

  /** The fold keeps what survives and takes the first addition of every other name. */
  lemma {:induction false} FoldMap(base: seq<DataFile>, d: FilesDiff)
    ensures ToMap(Folded(base, d)) == FirstWins(d.added) + (ToMap(base) - Paths(d.removed))
  {
    var kept := Surviving(base, Paths(d.removed));
    ToMapConcat(kept, NewNames(Paths(kept), d.added));
    ToMapSurviving(base, Paths(d.removed));
    NewNamesMap(Paths(kept), d.added);
    ToMapKeys(kept);
  }

  /** The two computations never disagree about which files exist. */
  lemma {:induction false} SamePaths(base: seq<DataFile>, d: FilesDiff)
    ensures Paths(Folded(base, d)) == Paths(View(base, d))
  {
    ToMapKeys(Folded(base, d));
    ToMapKeys(View(base, d));
    FoldMap(base, d);
    ReplayIsUpdate(base, d);
    FirstWinsKeys(d.added);
    ToMapKeys(d.added);
  }

  /** The file the fold has for an added name. */
  ghost function Kept(live: map<string, DataFile>, d: FilesDiff, p: string): DataFile
    requires p in FirstWins(d.added)
  {
    if p in live && p !in Paths(d.removed) then live[p] else FirstWins(d.added)[p]
  }

  /** At least the first and the last addition of every name agree with what the fold keeps. */
  ghost predicate EndsAgree(live: map<string, DataFile>, d: FilesDiff)
  {
    forall p :: p in Paths(d.added) ==> p in ToMap(d.added) && p in FirstWins(d.added) && ToMap(d.added)[p] == Kept(live, d, p)
  }

  lemma {:induction false} FirstWinsMember(files: seq<DataFile>)
    ensures forall p :: p in FirstWins(files) ==> FirstWins(files)[p] in files && FirstWins(files)[p].path == p
  {
    if files != [] {
      FirstWinsMember(files[..|files| - 1]);
      assert files == files[..|files| - 1] + [Last(files)];
    }
  }

  lemma {:induction false} SettledEndsAgree(live: map<string, DataFile>, d: FilesDiff)
    requires Settled(live, d)
    ensures EndsAgree(live, d)
  {
    ToMapKeys(d.added);
    FirstWinsKeys(d.added);
    FirstWinsMember(d.added);
    forall p | p in Paths(d.added)
      ensures p in ToMap(d.added) && p in FirstWins(d.added) && ToMap(d.added)[p] == Kept(live, d, p) {
      assert Effective(d.added, ToMap(d.added)[p]) && Effective(d.added, FirstWins(d.added)[p]);
    }
  }

  /** The list the next commit starts from carries the files the reader sees if and only if, per added
      name, the last addition equals what the fold keeps. */
  lemma {:induction false} FoldAgreesIff(base: seq<DataFile>, d: FilesDiff)
    ensures ToMap(Folded(base, d)) == ToMap(View(base, d)) <==> EndsAgree(ToMap(base), d)
  {
    FoldMap(base, d);
    ReplayIsUpdate(base, d);
    ToMapKeys(d.added);
    FirstWinsKeys(d.added);
    OverlayIff(FirstWins(d.added), ToMap(base) - Paths(d.removed), ToMap(d.added));
  }

  /** Two maps with the same keys laid under and over a third give the same map exactly when they agree with
      it, or with each other where it has nothing. */
  lemma {:induction false} OverlayIff(first: map<string, DataFile>, kept: map<string, DataFile>, last: map<string, DataFile>)
    requires first.Keys == last.Keys
    ensures first + kept == kept + last <==> forall p :: p in last ==> last[p] == if p in kept then kept[p] else first[p]
  {
    var f, v := first + kept, kept + last;
    if forall p :: p in last ==> last[p] == if p in kept then kept[p] else first[p] {
      assert f.Keys == v.Keys;
      assert forall p :: p in f ==> f[p] == v[p];
    } else {
      var p :| p in last && last[p] != if p in kept then kept[p] else first[p];
      assert f[p] != v[p];
    }
  }

  // ---------------------------------------------------------------------------------------
  // Names listed twice
  // ---------------------------------------------------------------------------------------

  /** A rewrite in place: live, removed and added again by the same diff. */
  ghost predicate RewritesInPlace(base: seq<DataFile>, d: FilesDiff)
  {
    exists p :: p in Paths(base) && p in Paths(d.removed) && p in Paths(d.added)
  }

  ghost predicate NoRepeat(order: seq<string>)
  {
    forall i, j :: 0 <= i < j < |order| ==> order[i] != order[j]
  }

  function Names(files: seq<DataFile>): seq<string>
  {
    seq(|files|, i requires 0 <= i < |files| => files[i].path)
  }

  lemma {:induction false} NamesMembers(files: seq<DataFile>, p: string)
    ensures p in Names(files) <==> p in Paths(files)
  {
    if p in Paths(files) {
      var f :| f in files && f.path == p;
      var i :| 0 <= i < |files| && files[i] == f;
      assert Names(files)[i] == p;
    }
    if p in Names(files) {
      var i :| 0 <= i < |files| && Names(files)[i] == p;
      assert files[i].path == p;
    }
  }

  lemma {:induction false} NewNamesDistinct(seen: set<string>, added: seq<DataFile>)
    ensures NoRepeat(Names(NewNames(seen, added)))
  {
    if added != [] {
      var rest := NewNames(seen, added[..|added| - 1]);
      NewNamesDistinct(seen, added[..|added| - 1]);
      if Last(added).path !in seen + Paths(rest) {
        NamesMembers(rest, Last(added).path);
        assert Names(rest + [Last(added)]) == Names(rest) + [Last(added).path];
      }
    }
  }

  lemma {:induction false} ScanAddsOrder(before: seq<Entry>, files: seq<DataFile>)
    ensures ScanAll(before + EntriesOf(KindAdd, files)).order ==
      ScanAll(before).order + Names(NewNames(ScanAll(before).live.Keys, files))
  {
    var a := ScanAll(before);
    if files == [] {
      assert before + EntriesOf(KindAdd, files) == before;
      assert a.order + Names([]) == a.order;
    } else {
      var init, last := files[..|files| - 1], Last(files);
      var rest, c := NewNames(a.live.Keys, init), ScanAll(before + EntriesOf(KindAdd, init));
      ScanAddsOrder(before, init);
      assert last.path in c.live <==> last.path in a.live.Keys + Paths(rest) by {
        ScanAdds(before, init);
        ToMapKeys(init);
        NewNamesPaths(a.live.Keys, init);
      }
      EntriesSnoc(before, KindAdd, files);
      ScanSnoc(before + EntriesOf(KindAdd, init), Entry(KindAdd, last));
      assert files == init + [last];
      NewNamesSnoc(a.live.Keys, init, last);
      OrderSnoc(a.order, rest, last);
    }
  }

  lemma {:induction false} OrderSnoc(order: seq<string>, rest: seq<DataFile>, last: DataFile)
    ensures (order + Names(rest)) + [last.path] == order + Names(rest + [last])
  {
  }

  ghost predicate LiveOnce(order: seq<string>, live: map<string, DataFile>)
  {
    forall i, j :: 0 <= i < j < |order| && order[i] in live ==> order[i] != order[j]
  }

  lemma {:induction false} LiveOnceSnoc(order: seq<string>, p: string, live: map<string, DataFile>)
    ensures LiveOnce(order + [p], live) <==> LiveOnce(order, live) && (p in live ==> p !in order)
  {
    var longer := order + [p];
    if LiveOnce(longer, live) {
      assert forall i :: 0 <= i < |order| ==> longer[i] == order[i];
      assert longer[|order|] == p;
    }
  }

  lemma {:induction false} UniqueSnoc(files: seq<DataFile>, f: DataFile)
    ensures UniquePaths(files + [f]) <==> UniquePaths(files) && f.path !in Paths(files)
  {
    var longer := files + [f];
    assert forall i :: 0 <= i < |files| ==> longer[i] == files[i];
    assert longer[|files|] == f;
    if f.path in Paths(files) {
      var g :| g in files && g.path == f.path;
      var i :| 0 <= i < |files| && files[i] == g;
      assert longer[i].path == longer[|files|].path;
    } else {
      forall i | 0 <= i < |files| ensures files[i].path != f.path {
        assert files[i] in files;
      }
    }
  }

  /** A listing repeats a path exactly when the order repeats a live name. */
  lemma {:induction false} ListedUniqueIff(order: seq<string>, live: map<string, DataFile>)
    requires forall p :: p in live ==> live[p].path == p
    ensures UniquePaths(Listed(order, live)) <==> LiveOnce(order, live)
  {
    if order != [] {
      var init, last := order[..|order| - 1], Last(order);
      ListedUniqueIff(init, live);
      LiveOnceSnoc(init, last, live);
      assert order == init + [last];
      if last in live {
        UniqueSnoc(Listed(init, live), live[last]);
        ListedMembers(init, live);
        assert last in Paths(Listed(init, live)) <==> last in init;
      }
    }
  }

  /** The names of a snapshot in listing order: the base's, then those the additions brought back or
      brought in. */
  lemma {:induction false} ViewOrder(base: seq<DataFile>, d: FilesDiff)
    ensures ScanAll(EntriesOf(KindAdd, base) + DeltaEntries(d)).order ==
      Names(NewNames({}, base)) + Names(NewNames(Paths(base) - Paths(d.removed), d.added))
  {
    var adds, deletes := EntriesOf(KindAdd, base), EntriesOf(KindDelete, d.removed);
    var front := Names(NewNames({}, base));
    BaseScanned(base);
    assert ScanAll(adds + deletes).order == front && ScanAll(adds + deletes).live.Keys == Paths(base) - Paths(d.removed) by {
      ScanDeletes(adds, d.removed);
    }
    ScanAddsOrder(adds + deletes, d.added);
    DeltaSplit(adds, d);
  }

  lemma {:induction false} BaseScanned(base: seq<DataFile>)
    ensures var s := ScanAll(EntriesOf(KindAdd, base)); s.order == Names(NewNames({}, base)) && s.live.Keys == Paths(base)
  {
    var none: seq<Entry>, empty: map<string, DataFile>, nobody: seq<string> := [], map[], [];
    var adds := EntriesOf(KindAdd, base);
    assert none + adds == adds;
    assert ScanAll(none) == Scan(nobody, empty) && empty.Keys == {};
    assert ScanAll(adds).order == nobody + Names(NewNames({}, base)) by { ScanAddsOrder(none, base); }
    assert ScanAll(adds).live == empty + ToMap(base) by { ScanAdds(none, base); }
    assert (empty + ToMap(base)).Keys == Paths(base) by { ToMapKeys(base); }
  }

  lemma {:induction false} DeltaSplit(adds: seq<Entry>, d: FilesDiff)
    ensures adds + DeltaEntries(d) == (adds + EntriesOf(KindDelete, d.removed)) + EntriesOf(KindAdd, d.added)
  {
  }

  /** A reader sees a path listed twice if and only if the diff rewrote a live file in place. */
  lemma {:induction false} ListedTwiceIff(base: seq<DataFile>, d: FilesDiff)
    ensures UniquePaths(View(base, d)) <==> !RewritesInPlace(base, d)
  {
    var entries := EntriesOf(KindAdd, base) + DeltaEntries(d);
    var s := ScanAll(entries);
    var front, back := Names(NewNames({}, base)), Names(NewNames(Paths(base) - Paths(d.removed), d.added));
    assert s.order == front + back by { ViewOrder(base, d); }
    assert ScanOk(s) by { ScanAllOk(entries); }
    assert s.live == Updated(ToMap(base), d) by {
      ListedMap(s);
      ReplayIsUpdate(base, d);
    }
    ListedUniqueIff(s.order, s.live);
    assert forall p :: p in front <==> p in Paths(base) by {
      NewNamesPaths({}, base);
      forall p ensures p in front <==> p in Paths(base) { NamesMembers(NewNames({}, base), p); }
    }
    var seen := Paths(base) - Paths(d.removed);
    assert forall p :: p in back <==> p in Paths(d.added) && p !in seen by {
      NewNamesPaths(seen, d.added);
      forall p ensures p in back <==> p in Paths(d.added) && p !in seen { NamesMembers(NewNames(seen, d.added), p); }
    }
    NewNamesDistinct({}, base);
    NewNamesDistinct(seen, d.added);
    ToMapKeys(d.added);
    TwiceIff(front, back, s.live);
    if p :| p in Paths(base) && p in Paths(d.removed) && p in Paths(d.added) {
      assert p in front && p in back && p in s.live;
    }
    if p :| p in front && p in back && p in s.live {
      assert RewritesInPlace(base, d);
    }
  }

  lemma {:induction false} TwiceIff(front: seq<string>, back: seq<string>, live: map<string, DataFile>)
    requires NoRepeat(front) && NoRepeat(back)
    ensures LiveOnce(front + back, live) <==> !exists p :: p in front && p in back && p in live
  {
    var all := front + back;
    if p :| p in front && p in back && p in live {
      var i :| 0 <= i < |front| && front[i] == p;
      var j :| 0 <= j < |back| && back[j] == p;
      assert all[i] == p && all[|front| + j] == p;
    } else {
      forall i, j | 0 <= i < j < |all| && all[i] in live ensures all[i] != all[j] {
        if i < |front| && j >= |front| {
          assert all[i] in front && all[j] in back;
        }
      }
    }
  }

  // ---------------------------------------------------------------------------------------
  // What a replay means
  // ---------------------------------------------------------------------------------------

  /** Entry i is the last one about the name. */
  ghost predicate LastAbout(entries: seq<Entry>, i: nat, name: string)
  {
    i < |entries| && entries[i].file.path == name && forall j :: i < j < |entries| ==> entries[j].file.path != name
  }

  /** A file is live after any entries if and only if the last one about its name is the file's and does not delete it
      (kind 1); every other kind adds. */
  lemma {:induction false} ScanMeans(entries: seq<Entry>, f: DataFile)
    ensures var live := ScanAll(entries).live;
      f.path in live && live[f.path] == f <==> exists i: nat :: LastAbout(entries, i, f.path) && entries[i].kind != 1 && entries[i].file == f
  {
    if entries != [] {
      var init, last := entries[..|entries| - 1], Last(entries);
      ScanMeans(init, f);
      assert entries[|entries| - 1] == last;
      if last.file.path == f.path {
        assert LastAbout(entries, |entries| - 1, f.path);
        forall i: nat | LastAbout(entries, i, f.path) ensures i == |entries| - 1 {
        }
      } else {
        forall i: nat ensures LastAbout(entries, i, f.path) <==> LastAbout(init, i, f.path) {
        }
      }
    }
  }

  // ---------------------------------------------------------------------------------------
  // Record counters
  // ---------------------------------------------------------------------------------------

  function Records(files: seq<DataFile>): int
  {
    if files == [] then 0 else Records(files[..|files| - 1]) + Last(files).records
  }

  method SumRecords(files: seq<DataFile>) returns (total: int)
    ensures total == Records(files)
  {
    total := 0;
    for i := 0 to |files|
      invariant total == Records(files[..i])
    {
      assert files[..i + 1][..i] == files[..i];
      total := total + files[i].records;
    }
    assert files[..|files|] == files;
  }

  function TotalRecords(base: seq<DataFile>, d: FilesDiff): int
  {
    Records(base) + Records(d.added) - Records(d.removed)
  }

  /** The part of a list a set of names takes out. */
  function Dropped(files: seq<DataFile>, gone: set<string>): seq<DataFile>
  {
    if files == [] then []
    else
      var rest := Dropped(files[..|files| - 1], gone);
      if Last(files).path in gone then rest + [Last(files)] else rest
  }

  /** The additions the fold skips. */
  function Skipped(seen: set<string>, added: seq<DataFile>): seq<DataFile>
  {
    if added == [] then []
    else
      var init := added[..|added| - 1];
      if Last(added).path in seen + Paths(NewNames(seen, init)) then Skipped(seen, init) + [Last(added)] else Skipped(seen, init)
  }

  lemma {:induction false} RecordsConcat(a: seq<DataFile>, b: seq<DataFile>)
    ensures Records(a + b) == Records(a) + Records(b)
  {
    if b == [] {
      assert a + b == a;
    } else {
      RecordsConcat(a, b[..|b| - 1]);
      assert (a + b)[..|a + b| - 1] == a + b[..|b| - 1];
    }
  }

  lemma {:induction false} RecordsSplit(files: seq<DataFile>, gone: set<string>)
    ensures Records(files) == Records(Surviving(files, gone)) + Records(Dropped(files, gone))
  {
    if files != [] {
      RecordsSplit(files[..|files| - 1], gone);
      RecordsConcat(Surviving(files[..|files| - 1], gone), [Last(files)]);
      RecordsConcat(Dropped(files[..|files| - 1], gone), [Last(files)]);
    }
  }

  lemma {:induction false} RecordsSkipped(seen: set<string>, added: seq<DataFile>)
    ensures Records(added) == Records(NewNames(seen, added)) + Records(Skipped(seen, added))
  {
    if added != [] {
      var init := added[..|added| - 1];
      RecordsSkipped(seen, init);
      RecordsConcat(NewNames(seen, init), [Last(added)]);
      RecordsConcat(Skipped(seen, init), [Last(added)]);
    }
  }

  /** The record total a snapshot claims is the total of the folded files if and only if the removals
      carry the counts of what they took out, skipped additions included. */
  lemma {:induction false} TotalRecordsIff(base: seq<DataFile>, d: FilesDiff)
    ensures TotalRecords(base, d) == Records(Folded(base, d)) <==>
      Records(d.removed) == Records(Dropped(base, Paths(d.removed)))
                            + Records(Skipped(Paths(Surviving(base, Paths(d.removed))), d.added))
  {
    var kept := Surviving(base, Paths(d.removed));
    RecordsSplit(base, Paths(d.removed));
    RecordsSkipped(Paths(kept), d.added);
    RecordsConcat(kept, NewNames(Paths(kept), d.added));
  }

  lemma {:induction false} DroppedMembers(files: seq<DataFile>, gone: set<string>, f: DataFile)
    ensures f in Dropped(files, gone) <==> f in files && f.path in gone
  {
    if files != [] {
      DroppedMembers(files[..|files| - 1], gone, f);
      assert files == files[..|files| - 1] + [Last(files)];
    }
  }

  lemma {:induction false} SkippedMembers(seen: set<string>, added: seq<DataFile>, f: DataFile)
    ensures f in Skipped(seen, added) ==> f in added
  {
    if added != [] {
      SkippedMembers(seen, added[..|added| - 1], f);
      assert added == added[..|added| - 1] + [Last(added)];
    }
  }

  ghost predicate Counted(files: seq<DataFile>) { forall f :: f in files ==> f.records >= 0 }

  lemma {:induction false} RecordsPositive(files: seq<DataFile>)
    requires Counted(files)
    ensures Records(files) >= 0 && (Records(files) == 0 <==> forall f :: f in files ==> f.records == 0)
  {
    if files != [] {
      var init, last := files[..|files| - 1], Last(files);
      assert files == init + [last];
      RecordsPositive(init);
      assert last in files;
    }
  }

  /** Removals that carry no counts, as Delta's remove actions do: the total is right if and only if every file
      taken out or skipped was empty, and otherwise too high. */
  lemma {:induction false} UncountedRemovalsIff(base: seq<DataFile>, d: FilesDiff)
    requires Counted(base) && Counted(d.added) && Records(d.removed) == 0
    ensures TotalRecords(base, d) >= Records(Folded(base, d))
    ensures TotalRecords(base, d) == Records(Folded(base, d)) <==>
      && (forall f :: f in base && f.path in Paths(d.removed) ==> f.records == 0)
      && (forall f :: f in Skipped(Paths(Surviving(base, Paths(d.removed))), d.added) ==> f.records == 0)
  {
    var gone := Paths(d.removed);
    var kept := Surviving(base, gone);
    var dropped, skipped := Dropped(base, gone), Skipped(Paths(kept), d.added);
    forall f ensures f in dropped <==> f in base && f.path in gone {
      DroppedMembers(base, gone, f);
    }
    forall f | f in skipped ensures f in d.added {
      SkippedMembers(Paths(kept), d.added, f);
    }
    RecordsPositive(dropped);
    RecordsPositive(skipped);
    RecordsSplit(base, gone);
    RecordsSkipped(Paths(kept), d.added);
    RecordsConcat(kept, NewNames(Paths(kept), d.added));
  }
}
