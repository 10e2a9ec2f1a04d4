/** Histories the Iceberg target writes (pkg/formats/iceberg/target.go), as the Iceberg source reads them back:
    when its backlog folds exactly, a written history on which it does not, and the schemas along the way. */
module IcebergWritten {
  import opened Common
  import opened Files
  import opened Diffing
  import opened Model
  import opened DeltaSource
  import opened FieldIdHistory
  import opened IcebergTable
  import opened IcebergCommit
  import Instants
  import IcebergHistory

  // ---------------------------------------------------------------------------------------
  // Unambiguous lists
  // ---------------------------------------------------------------------------------------

  /** All entries of a path are alike. */
  ghost predicate Unambiguous(files: seq<DataFile>) { forall f :: f in files ==> Effective(files, f) }

  lemma {:induction false} UnambiguousClean(was: seq<DataFile>, now: seq<DataFile>)
    requires Unambiguous(now)
    ensures LastOrOld(was, now)
  {
  }

  lemma {:induction false} SurvivingMembers(live: seq<DataFile>, gone: set<string>, f: DataFile)
    ensures f in Surviving(live, gone) <==> f in live && f.path !in gone
  {
    if live != [] {
      SurvivingMembers(live[..|live| - 1], gone, f);
      assert live == live[..|live| - 1] + [Last(live)];
    }
  }

  /** A settled change keeps a list unambiguous. */
  lemma {:induction false} AppliedUnambiguous(live: seq<DataFile>, d: FilesDiff)
    requires Unambiguous(live) && Settled(ToMap(live), d)
    ensures Unambiguous(Applied(live, d))
  {
    forall f | f in Applied(live, d) ensures Effective(Applied(live, d), f) {
      AppliedMap(live, d);
      ToMapKeys(d.added);
      if f !in d.added {
        assert f in Surviving(live, Paths(d.removed));
        SurvivingMembers(live, Paths(d.removed), f);
        SurvivorEffective(live, d, f);
      }
    }
  }

  lemma {:induction false} SurvivorEffective(live: seq<DataFile>, d: FilesDiff, f: DataFile)
    requires Effective(live, f) && f.path !in Paths(d.removed) && Settled(ToMap(live), d)
    ensures var m := (ToMap(live) - Paths(d.removed)) + ToMap(d.added); f.path in m && m[f.path] == f
  {
    ToMapKeys(d.added);
    if f.path in ToMap(d.added) {
      var a := ToMap(d.added)[f.path];
      assert a in d.added && a.path == f.path;
    }
  }

  // ---------------------------------------------------------------------------------------
  // Clean histories
  // ---------------------------------------------------------------------------------------

  ghost predicate CleanSnapshot(st: Store, s: TableSnapshot)
  {
    SnapshotFiles(st, s).Ok? && Unambiguous(SnapshotFiles(st, s).value)
  }

  ghost predicate CleanSnapshots(st: Store, snaps: seq<TableSnapshot>) { forall s :: s in snaps ==> CleanSnapshot(st, s) }

  /** Every retained snapshot reads back as an unambiguous list. */
  ghost predicate CleanHistory(st: Store) { st.metadata != [] ==> CleanSnapshots(st, Last(st.metadata).meta.snapshots) }

  lemma {:induction false} CleanFrame(a: Store, b: Store, snaps: seq<TableSnapshot>)
    requires Extends(a, b) && Resolves(a, snaps) && CleanSnapshots(a, snaps)
    ensures CleanSnapshots(b, snaps)
  {
    forall s | s in snaps ensures CleanSnapshot(b, s) {
      assert CleanSnapshot(a, s);
      SnapshotFrame(a, b, s);
    }
  }

  lemma {:induction false} CleanQuiet(a: Store, b: Store)
    requires Valid(a) && CleanHistory(a) && Extends(a, b) && b.metadata == a.metadata
    ensures CleanHistory(b)
  {
    if a.metadata != [] {
      CleanFrame(a, b, Last(a.metadata).meta.snapshots);
    }
  }

  /** The state once the metadata file is in place. */
  lemma {:induction false} CleanPublished(st: Store, s2: Store, version: int, meta: Metadata, files: seq<DataFile>)
    requires Valid(st) && CleanHistory(st) && Extends(st, s2) && Unambiguous(files) && meta.snapshots != []
    requires meta.snapshots[..|meta.snapshots| - 1] == (if st.metadata == [] then [] else Last(st.metadata).meta.snapshots)
    requires SnapshotFiles(s2, Last(meta.snapshots)) == Ok(files)
    ensures CleanHistory(PutMetadata(s2, version, meta))
  {
    var before, last, s3 := if st.metadata == [] then [] else Last(st.metadata).meta.snapshots, Last(meta.snapshots), PutMetadata(s2, version, meta);
    CleanFrame(st, s3, before);
    SameFiles(s2, s3, last);
    assert meta.snapshots == before + [last];
  }

  /** Files are read from manifests and lists alone. */
  lemma {:induction false} SameFiles(a: Store, b: Store, snap: TableSnapshot)
    requires a.manifests == b.manifests && a.lists == b.lists
    ensures SnapshotFiles(a, snap) == SnapshotFiles(b, snap)
  {
    if snap.manifestList in a.lists {
      SameList(a, b, a.lists[snap.manifestList]);
    }
  }

  lemma {:induction false} SameList(a: Store, b: Store, entries: seq<ListEntry>)
    requires a.manifests == b.manifests
    ensures ReadList(a, entries) == ReadList(b, entries)
  {
    if entries != [] {
      SameList(a, b, entries[1..]);
    }
  }

  ghost predicate AllClean(w: seq<Store>) { forall s :: s in w ==> CleanHistory(s) }

  /** Committing an unambiguous list keeps the history clean, after every write. */
  lemma {:induction false} CommitKeepsClean(st: Store, snapshot: Snapshot, now: int)
    requires Valid(st) && CleanHistory(st) && Unambiguous(snapshot.files) && CommitWrites(st, snapshot, now).Ok?
    ensures AllClean(CommitWrites(st, snapshot, now).value)
  {
    var meta := WritesAre(st, snapshot, now);
    var s1 := PutManifest(st, snapshot.files);
    var s2 := PutList(s1, st.unused);
    var s3 := PutMetadata(s2, NextVersion(st), meta);
    CleanBefore(st, snapshot.files);
    CleanAfter(st, s2, snapshot, now, meta);
    CleanHint(s3, Some(NextVersion(st)));
  }

  lemma {:induction false} CleanBefore(st: Store, files: seq<DataFile>)
    requires Valid(st) && CleanHistory(st)
    ensures CleanHistory(PutManifest(st, files)) && CleanHistory(PutList(PutManifest(st, files), st.unused))
  {
    TwoWrites(st, files);
    CleanQuiet(st, PutManifest(st, files));
    CleanQuiet(st, PutList(PutManifest(st, files), st.unused));
  }

  lemma {:induction false} CleanAfter(st: Store, s2: Store, snapshot: Snapshot, now: int, meta: Metadata)
    requires Valid(st) && CleanHistory(st) && Unambiguous(snapshot.files)
    requires s2 == PutList(PutManifest(st, snapshot.files), st.unused)
    requires NextMetadata(PreviousMeta(st), snapshot, now, st.unused + 1) == Ok(meta)
    ensures CleanHistory(PutMetadata(s2, NextVersion(st), meta))
  {
    TwoWrites(st, snapshot.files);
    NewHistory(st, snapshot, now, st.unused + 1);
    NewListReads(st, snapshot.files, Last(meta.snapshots));
    CleanPublished(st, s2, NextVersion(st), meta, snapshot.files);
  }

  lemma {:induction false} CleanHint(a: Store, hint: Option<int>)
    requires CleanHistory(a)
    ensures CleanHistory(a.(hint := hint))
  {
    if a.metadata != [] {
      forall s | s in Last(a.metadata).meta.snapshots ensures CleanSnapshot(a.(hint := hint), s) {
        SameFiles(a, a.(hint := hint), s);
      }
    }
  }

  /** On a clean history the live list is unambiguous too. */
  lemma {:induction false} CleanLive(st: Store)
    requires Valid(st) && CleanHistory(st)
    ensures LiveFiles(st).Ok? && Unambiguous(LiveFiles(st).value)
  {
    if st.metadata != [] {
      LiveIsLast(st);
      assert CleanSnapshot(st, Last(Last(st.metadata).meta.snapshots));
    }
  }

  /** Every change, in turn, is settled. */
  ghost predicate SettledChanges(live: seq<DataFile>, changes: seq<TableChange>)
    decreases |changes|
  {
    changes == [] || (Settled(ToMap(live), changes[0].diff) && SettledChanges(Applied(live, changes[0].diff), changes[1..]))
  }

  /** So do settled changes, whatever the write the target stops after. */
  lemma {:induction false} ChangesKeepClean(st: Store, changes: seq<TableChange>, clock: seq<int>, live: seq<DataFile>, sync: Option<SyncMetadata>)
    requires |clock| == |changes| && Shows(st, live, sync) && CleanHistory(st) && SettledChanges(live, changes)
    ensures AllClean(ChangesWrites(st, changes, clock).0)
    decreases |changes|
  {
    var (writes, done) := ChangesWrites(st, changes, clock);
    if writes != [] {
      var snapshot := ChangeSnapshot(changes[0], live);
      CleanLive(st);
      AppliedUnambiguous(live, changes[0].diff);
      CommitKeepsClean(st, snapshot, clock[0]);
      CommitShows(st, snapshot, clock[0], live, sync);
      var one := CommitWrites(st, snapshot, clock[0]).value;
      assert one[3] in one;
      ChangesKeepClean(one[3], changes[1..], clock[1..], snapshot.files, Some(SyncMetadata(changes[0].instant, changes[0].version)));
    }
  }

  // ---------------------------------------------------------------------------------------
  // Reading back
  // ---------------------------------------------------------------------------------------

  lemma {:induction false} CleanPairs(st: Store, snaps: seq<TableSnapshot>, j: nat)
    requires CleanSnapshots(st, snaps) && j <= |snaps|
    ensures IcebergHistory.CleanFrom(st, snaps, j, |snaps|)
  {
    forall i | j <= i < |snaps| ensures IcebergHistory.CleanAt(st, snaps, i) {
      assert CleanSnapshot(st, snaps[i]);
      UnambiguousClean(IcebergHistory.BaseFiles(st, snaps, i), IcebergHistory.BaseFiles(st, snaps, i + 1));
    }
  }

  /** On a clean history, whole or with any prefix expired, every backlog the source answers with folds from the
      reader's files to the current ones. */
  lemma {:induction false} CleanHistoryTelescopes(st: Store, from: int, changes: seq<IcebergHistory.SnapshotChange>, live: seq<DataFile>)
    requires st.metadata != [] && HistoryOk(Last(st.metadata).meta) && CleanHistory(st)
    requires IcebergHistory.Acyclic(IcebergHistory.ById(Last(st.metadata).meta.snapshots)) && IcebergHistory.IsBacklog(st, from, Ok(changes))
    requires var snaps := Last(st.metadata).meta.snapshots;
      ToMap(live) == ToMap(IcebergHistory.BaseFiles(st, snaps, IcebergHistory.FirstLater(snaps, from, |snaps|)))
    ensures LiveFiles(st).Ok? && ToMap(IcebergHistory.FoldApplied(live, changes)) == ToMap(LiveFiles(st).value)
  {
    var snaps := Last(st.metadata).meta.snapshots;
    CleanPairs(st, snaps, IcebergHistory.FirstLater(snaps, from, |snaps|));
    assert CleanSnapshot(st, Last(snaps));
    IcebergHistory.WrittenHistoryTelescopes(st, from, changes, live);
  }

  /** The changes fold from every retained set to every later one, from the first unseen snapshot on. */
  ghost predicate BacklogFolds(st: Store, from: int, changes: seq<IcebergHistory.SnapshotChange>)
  {
    var snaps := Retained(st);
    var j := IcebergHistory.FirstLater(snaps, from, |snaps|);
    |changes| == |snaps| - j && IcebergHistory.FoldsExactly(st, snaps, j, |snaps|, changes)
  }

  lemma {:induction false} AllReportable(st: Store, j: nat)
    requires Valid(st) && st.metadata != [] && IcebergHistory.IsLineage(IcebergHistory.ById(Retained(st)), Retained(st))
    requires j == 0 ==> Retained(st)[0].parent.None?
    ensures IcebergHistory.Reportable(st, IcebergHistory.ById(Retained(st)), Retained(st), j, |Retained(st)|)
  {
    var snaps := Retained(st);
    var byId := IcebergHistory.ById(snaps);
    forall k | j <= k < |snaps| ensures SnapshotFiles(st, snaps[k]).Ok? && IcebergHistory.ParentFiles(st, byId, snaps[k]).Ok? {
      SnapshotFrame(st, st, snaps[k]);
      if k > 0 {
        assert IcebergHistory.FollowsParent(byId, snaps, k);
        SnapshotFrame(st, st, snaps[k - 1]);
      }
    }
  }

  lemma {:induction false} BacklogIsReport(st: Store, from: int, changes: seq<IcebergHistory.SnapshotChange>)
    requires Valid(st) && st.metadata != [] && IcebergHistory.Acyclic(IcebergHistory.ById(Retained(st))) && !IcebergHistory.Uncovered(Retained(st)[0], from)
    ensures var snaps := Retained(st);
      IcebergHistory.IsBacklog(st, from, Ok(changes)) <==>
        IcebergHistory.ReportsFrom(st, IcebergHistory.ById(snaps), snaps, IcebergHistory.FirstLater(snaps, from, |snaps|), |snaps|, changes)
  {
    IcebergHistory.LineageOfLinked(Retained(st));
  }

  /** For any storage the target keeps: the backlogs the source can answer with from a watermark all fold to the
      table if and only if no reported list is ambiguous against the one before. */
  lemma {:induction false} StoreTelescopesIff(st: Store, from: int)
    requires Valid(st) && st.metadata != [] && !IcebergHistory.Uncovered(Retained(st)[0], from)
    ensures IcebergHistory.Acyclic(IcebergHistory.ById(Retained(st)))
    ensures var snaps := Retained(st);
      (forall changes :: IcebergHistory.IsBacklog(st, from, Ok(changes)) ==> BacklogFolds(st, from, changes)) <==>
        IcebergHistory.CleanFrom(st, snaps, IcebergHistory.FirstLater(snaps, from, |snaps|), |snaps|)
  {
    var snaps := Retained(st);
    var byId, j := IcebergHistory.ById(snaps), IcebergHistory.FirstLater(snaps, from, |snaps|);
    IcebergHistory.LinkedAcyclic(snaps);
    IcebergHistory.LineageOfLinked(snaps);
    IcebergHistory.LineageLinks(byId, Last(snaps).id);
    FirstInstant(snaps);
    AllReportable(st, j);
    forall changes ensures IcebergHistory.IsBacklog(st, from, Ok(changes)) <==> IcebergHistory.ReportsFrom(st, byId, snaps, j, |snaps|, changes) {
      BacklogIsReport(st, from, changes);
    }
    IcebergHistory.TelescopesIff(st, byId, snaps, j, |snaps|);
  }

  lemma {:induction false} FirstInstant(snaps: seq<TableSnapshot>)
    requires snaps != []
    ensures IcebergHistory.InstantOf(snaps, 0) == Instants.Advance(0, snaps[0].timestamp)
  {
    var stamps := IcebergHistory.Stamps(snaps);
    Instants.ChainStep(stamps, 0);
    assert stamps[..0] == [];
  }

  // ---------------------------------------------------------------------------------------
  // A written history that reverts
  // ---------------------------------------------------------------------------------------

  /** The diff of such a list with itself takes the earlier entry for new. */
  lemma {:induction false} SelfDiff(f: DataFile, g: DataFile, d: FilesDiff)
    requires f.path == g.path && f != g && IsDiff([f, g], [f, g], d)
    ensures ToMap(Applied([f, g], d)) == map[f.path := f]
  {
    TwoEntries(f, g);
    DiffMembers([f, g], [f, g], d);
    AppliedMap([f, g], d);
    ToMapKeys(d.added);
    assert f in [f, g] && g in [f, g];
    assert f in d.added;
    forall x | x in d.added ensures x == f {
      assert x in [f, g];
    }
    assert f.path in Paths(d.added);
    assert ToMap(d.added).Keys == {f.path} && ToMap(d.added)[f.path] == f;
  }

  const NoColumns := Table([], [])

  /** Three commits: a file, the same path re-added with other content and not removed, and a change without
      files. */
  function Readded(f: DataFile, g: DataFile, clock: (int, int, int)): Result<Store, SchemaError>
  {
    match CommitWrites(EmptyStore, Snapshot(NoColumns, 1, [f], 0), clock.0)
    case Err(e) => Err(e)
    case Ok(w) =>
      match CommitWrites(w[3], Snapshot(NoColumns, 2, Applied([f], FilesDiff([g], [])), 1), clock.1)
      case Err(e) => Err(e)
      case Ok(w) =>
        match CommitWrites(w[3], Snapshot(NoColumns, 3, Applied([f, g], FilesDiff([], [])), 2), clock.2)
        case Err(e) => Err(e)
        case Ok(w) => Ok(w[3])
  }

  lemma {:induction false} NoColumnsConvert(prev: Option<Written>)
    ensures CommitSchema(prev, NoColumns).Ok?
  {
  }

  function Retained(st: Store): seq<TableSnapshot> { if st.metadata == [] then [] else Last(st.metadata).meta.snapshots }

  /** A complete commit adds one snapshot with the committed files; the others read as before. */
  lemma {:induction false} CommitAppends(st: Store, snapshot: Snapshot, now: int)
    requires Valid(st) && CommitWrites(st, snapshot, now).Ok?
    ensures |CommitWrites(st, snapshot, now).value| == 4 && Grown(st, CommitWrites(st, snapshot, now).value[3], snapshot.files)
  {
    LiveReads(st);
    CommitShows(st, snapshot, now, LiveFiles(st).value, TableMetadata(st));
    var meta := WritesAre(st, snapshot, now);
    NewHistory(st, snapshot, now, st.unused + 1);
    var s2 := PutList(PutManifest(st, snapshot.files), st.unused);
    var st' := CommitWrites(st, snapshot, now).value[3];
    TwoWrites(st, snapshot.files);
    NewListReads(st, snapshot.files, Last(meta.snapshots));
    SameFiles(s2, st', Last(meta.snapshots));
    forall s | s in Retained(st) ensures SnapshotFiles(st', s) == SnapshotFiles(st, s) {
      SnapshotFrame(st, st', s);
    }
  }

  /** Without columns every commit succeeds. */
  lemma {:induction false} NoColumnsCommit(st: Store, snapshot: Snapshot, now: int)
    requires Valid(st) && snapshot.table == NoColumns
    ensures CommitWrites(st, snapshot, now).Ok? && Grown(st, CommitWrites(st, snapshot, now).value[3], snapshot.files)
  {
    NoColumnsConvert(if PreviousMeta(st).Some? then Some(PreviousMeta(st).value.schema) else None);
    assert CommitWrites(st, snapshot, now).Ok?;
    CommitAppends(st, snapshot, now);
  }

  /** One more snapshot, with these files. */
  ghost predicate Grown(st: Store, st': Store, files: seq<DataFile>)
  {
    var n := |Retained(st)|;
    && Valid(st') && |Retained(st')| == n + 1 && Retained(st')[..n] == Retained(st) && st'.metadata != []
    && SnapshotFiles(st', Retained(st')[n]) == Ok(files)
    && forall s :: s in Retained(st) ==> SnapshotFiles(st', s) == SnapshotFiles(st, s)
  }

  lemma {:induction false} GrownThrice(s0: Store, s1: Store, s2: Store, s3: Store, a: seq<DataFile>, b: seq<DataFile>, c: seq<DataFile>)
    requires Retained(s0) == [] && Grown(s0, s1, a) && Grown(s1, s2, b) && Grown(s2, s3, c)
    ensures Valid(s3) && s3.metadata != [] && |Retained(s3)| == 3
    ensures SnapshotFiles(s3, Retained(s3)[1]) == Ok(b) && SnapshotFiles(s3, Retained(s3)[2]) == Ok(c)
  {
    assert Retained(s3)[1] == Retained(s3)[..2][1] == Retained(s2)[1];
    assert Retained(s2)[1] in Retained(s2);
  }

  lemma {:induction false} ReaddedStore(f: DataFile, g: DataFile, clock: (int, int, int))
    ensures Readded(f, g, clock).Ok?
    ensures var st := Readded(f, g, clock).value;
      && Valid(st) && st.metadata != [] && |Retained(st)| == 3
      && SnapshotFiles(st, Retained(st)[1]) == Ok([f, g]) && SnapshotFiles(st, Retained(st)[2]) == Ok([f, g])
  {
    EmptyValid();
    var a := Snapshot(NoColumns, 1, [f], 0);
    var b := Snapshot(NoColumns, 2, Applied([f], FilesDiff([g], [])), 1);
    var c := Snapshot(NoColumns, 3, Applied([f, g], FilesDiff([], [])), 2);
    AppliedLists(f, g);
    NoColumnsCommit(EmptyStore, a, clock.0);
    var s1 := CommitWrites(EmptyStore, a, clock.0).value[3];
    NoColumnsCommit(s1, b, clock.1);
    var s2 := CommitWrites(s1, b, clock.1).value[3];
    NoColumnsCommit(s2, c, clock.2);
    GrownThrice(EmptyStore, s1, s2, CommitWrites(s2, c, clock.2).value[3], [f], [f, g], [f, g]);
  }

  lemma {:induction false} AppliedLists(f: DataFile, g: DataFile)
    ensures Applied([f], FilesDiff([g], [])) == [f, g] && Applied([f, g], FilesDiff([], [])) == [f, g]
  {
    assert [f][..0] == [] && [f, g][..1] == [f];
    assert Surviving([], {}) == [] && Surviving([f], {}) == [] + [f] && Surviving([f, g], {}) == [f] + [g];
    assert Paths([]) == {};
  }

  /** The target's own history, read back: the table says the new file, the backlog of the last commit, whatever
      the clock was and however the diff was sorted, puts the old one back. */
  lemma {:induction false} BacklogReverts(f: DataFile, g: DataFile, clock: (int, int, int), changes: seq<IcebergHistory.SnapshotChange>)
    requires f.path == g.path && f != g
    ensures Readded(f, g, clock).Ok?
    ensures var st := Readded(f, g, clock).value;
      && LiveFiles(st) == Ok([f, g]) && ToMap([f, g]) == map[f.path := g]
      && st.metadata != [] && |Retained(st)| == 3 && IcebergHistory.Acyclic(IcebergHistory.ById(Last(st.metadata).meta.snapshots))
      && (IcebergHistory.IsBacklog(st, IcebergHistory.InstantOf(Retained(st), 1), Ok(changes)) ==>
            ToMap(IcebergHistory.FoldApplied([f, g], changes)) == map[f.path := f])
  {
    ReaddedStore(f, g, clock);
    ReadBackReverts(f, g, Readded(f, g, clock).value, changes);
  }

  lemma {:induction false} ReadBackReverts(f: DataFile, g: DataFile, st: Store, changes: seq<IcebergHistory.SnapshotChange>)
    requires f.path == g.path && f != g && Valid(st) && st.metadata != [] && |Retained(st)| == 3
    requires SnapshotFiles(st, Retained(st)[1]) == Ok([f, g]) && SnapshotFiles(st, Retained(st)[2]) == Ok([f, g])
    ensures LiveFiles(st) == Ok([f, g]) && ToMap([f, g]) == map[f.path := g]
    ensures IcebergHistory.Acyclic(IcebergHistory.ById(Last(st.metadata).meta.snapshots))
    ensures IcebergHistory.IsBacklog(st, IcebergHistory.InstantOf(Retained(st), 1), Ok(changes)) ==>
      ToMap(IcebergHistory.FoldApplied([f, g], changes)) == map[f.path := f]
  {
    TwoEntries(f, g);
    LiveIsLast(st);
    var snaps := Retained(st);
    IcebergHistory.LinkedAcyclic(snaps);
    if IcebergHistory.IsBacklog(st, IcebergHistory.InstantOf(snaps, 1), Ok(changes)) {
      OneChange(st, snaps, changes);
      OneRevert(f, g, changes);
    }
  }

  lemma {:induction false} OneRevert(f: DataFile, g: DataFile, changes: seq<IcebergHistory.SnapshotChange>)
    requires f.path == g.path && f != g && |changes| == 1 && IsDiff([f, g], [f, g], changes[0].diff)
    ensures ToMap(IcebergHistory.FoldApplied([f, g], changes)) == map[f.path := f]
  {
    SelfDiff(f, g, changes[0].diff);
    IcebergHistory.FoldOne([f, g], changes[0]);
    assert changes == [changes[0]];
  }

  /** From the second snapshot's instant the backlog is the third snapshot's diff. */
  lemma {:induction false} OneChange(st: Store, snaps: seq<TableSnapshot>, changes: seq<IcebergHistory.SnapshotChange>)
    requires st.metadata != [] && HistoryOk(Last(st.metadata).meta) && snaps == Last(st.metadata).meta.snapshots && |snaps| == 3
    requires IcebergHistory.Acyclic(IcebergHistory.ById(snaps)) && SnapshotFiles(st, snaps[1]).Ok? && SnapshotFiles(st, snaps[2]).Ok?
    requires IcebergHistory.IsBacklog(st, IcebergHistory.InstantOf(snaps, 1), Ok(changes))
    ensures |changes| == 1 && IsDiff(SnapshotFiles(st, snaps[1]).value, SnapshotFiles(st, snaps[2]).value, changes[0].diff)
  {
    var byId, from := IcebergHistory.ById(snaps), IcebergHistory.InstantOf(snaps, 1);
    IcebergHistory.LineageOfLinked(snaps);
    IcebergHistory.LineageLinks(byId, Last(snaps).id);
    Instants.ChainIncreases(IcebergHistory.Stamps(snaps), 2, 3);
    assert IcebergHistory.FirstLater(snaps, from, 3) == 2;
    assert IcebergHistory.ReportedAt(st, byId, snaps, 2, changes, 0);
    IcebergHistory.ChangeIsDiff(st, byId, snaps, 2, changes[0]);
  }

  // ---------------------------------------------------------------------------------------
  // Schemas
  // ---------------------------------------------------------------------------------------

  /** The schemas of all metadata files, oldest first. */
  function Schemas(st: Store): seq<Written> { seq(|st.metadata|, i requires 0 <= i < |st.metadata| => st.metadata[i].meta.schema) }

  /** The metadata files are the history of some plain tables, in the sense of the field-id theorems. */
  ghost predicate SchemaHistory(st: Store) { exists tables :: IsHistory(tables, Schemas(st)) }

  lemma {:induction false} WrittenSnoc(tables: seq<Table>, ws: seq<Written>, t: Table, w: Written, i: nat)
    requires |ws| == |tables| && i < |ws| && WrittenAt(tables, ws, i)
    ensures WrittenAt(tables + [t], ws + [w], i)
  {
    assert Before(ws + [w], i) == Before(ws, i);
  }

  lemma {:induction false} WrittenLast(tables: seq<Table>, ws: seq<Written>, t: Table, w: Written)
    requires |ws| == |tables| && PlainTable(t) && CommitSchema(Before(ws, |ws|), t) == Ok(w)
    ensures WrittenAt(tables + [t], ws + [w], |ws|)
  {
    assert Before(ws + [w], |ws|) == Before(ws, |ws|);
  }

  lemma {:induction false} HistorySnoc(tables: seq<Table>, ws: seq<Written>, t: Table, w: Written)
    requires IsHistory(tables, ws) && PlainTable(t) && CommitSchema(Before(ws, |ws|), t) == Ok(w)
    ensures IsHistory(tables + [t], ws + [w])
  {
    forall i | 0 <= i < |ws + [w]| ensures WrittenAt(tables + [t], ws + [w], i) {
      if i < |ws| {
        WrittenSnoc(tables, ws, t, w, i);
      } else {
        WrittenLast(tables, ws, t, w);
      }
    }
  }

  lemma {:induction false} SchemasGrow(st: Store, version: int, meta: Metadata)
    ensures Schemas(PutMetadata(st, version, meta)) == Schemas(st) + [meta.schema]
  {
  }

  lemma {:induction false} SchemasQuiet(a: Store, b: Store)
    requires a.metadata == b.metadata
    ensures Schemas(a) == Schemas(b)
  {
  }

  /** The schema a commit writes is the conversion of the table after the schema before. */
  lemma {:induction false} MetadataSchema(prev: Option<Metadata>, snapshot: Snapshot, now: int, list: nat, meta: Metadata)
    requires NextMetadata(prev, snapshot, now, list) == Ok(meta)
    ensures CommitSchema(if prev.Some? then Some(prev.value.schema) else None, snapshot.table) == Ok(meta.schema)
  {
  }

  ghost predicate AllSchemaHistories(w: seq<Store>) { forall s :: s in w ==> SchemaHistory(s) }

  lemma {:induction false} PublishedHistory(st: Store, s2: Store, version: int, meta: Metadata, t: Table)
    requires SchemaHistory(st) && s2.metadata == st.metadata && PlainTable(t)
    requires CommitSchema(Before(Schemas(st), |Schemas(st)|), t) == Ok(meta.schema)
    ensures SchemaHistory(PutMetadata(s2, version, meta))
  {
    var tables :| IsHistory(tables, Schemas(st));
    HistorySnoc(tables, Schemas(st), t, meta.schema);
    SchemasQuiet(st, s2);
    SchemasGrow(s2, version, meta);
  }

  lemma {:induction false} QuietHistory(a: Store, b: Store)
    requires SchemaHistory(a) && a.metadata == b.metadata
    ensures SchemaHistory(b)
  {
    SchemasQuiet(a, b);
  }

  /** Committing a plain table extends the history, after every write. */
  lemma {:induction false} CommitKeepsSchemas(st: Store, snapshot: Snapshot, now: int)
    requires SchemaHistory(st) && PlainTable(snapshot.table) && CommitWrites(st, snapshot, now).Ok?
    ensures AllSchemaHistories(CommitWrites(st, snapshot, now).value)
  {
    var meta := WritesAre(st, snapshot, now);
    MetadataSchema(PreviousMeta(st), snapshot, now, st.unused + 1, meta);
    PreviousSchema(st);
    var s1 := PutManifest(st, snapshot.files);
    var s2 := PutList(s1, st.unused);
    var s3 := PutMetadata(s2, NextVersion(st), meta);
    QuietHistory(st, s1);
    QuietHistory(st, s2);
    PublishedHistory(st, s2, NextVersion(st), meta, snapshot.table);
    QuietHistory(s3, s3.(hint := Some(NextVersion(st))));
  }

  lemma {:induction false} PreviousSchema(st: Store)
    ensures Before(Schemas(st), |Schemas(st)|) == if PreviousMeta(st).Some? then Some(PreviousMeta(st).value.schema) else None
  {
  }

  ghost predicate PlainTables(changes: seq<TableChange>) { forall i :: 0 <= i < |changes| ==> PlainTable(changes[i].table) }

  lemma {:induction false} ChangesKeepSchemas(st: Store, changes: seq<TableChange>, clock: seq<int>)
    requires |clock| == |changes| && SchemaHistory(st) && PlainTables(changes)
    ensures AllSchemaHistories(ChangesWrites(st, changes, clock).0)
    decreases |changes|
  {
    var (writes, done) := ChangesWrites(st, changes, clock);
    if writes != [] {
      var snapshot := ChangeSnapshot(changes[0], LiveFiles(st).value);
      CommitKeepsSchemas(st, snapshot, clock[0]);
      var one := CommitWrites(st, snapshot, clock[0]).value;
      assert one[3] in one;
      ChangesKeepSchemas(one[3], changes[1..], clock[1..]);
    }
  }
}
