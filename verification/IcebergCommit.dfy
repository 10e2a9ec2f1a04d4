/** What every commit of the Iceberg target keeps, and what a reader sees when CommitChanges stops
    after any storage write. */
module IcebergCommit {
  import opened Common
  import opened Files
  import opened Model
  import opened DeltaSource
  import opened IcebergTable

  // ---------------------------------------------------------------------------------------
  // The snapshot history
  // ---------------------------------------------------------------------------------------

  /** Neighbours in a history: strictly increasing ids, consecutive sequence numbers, parent links. */
  ghost predicate Next(a: TableSnapshot, b: TableSnapshot)
  {
    b.parent == Some(a.id) && a.id < b.id && b.sequence == a.sequence + 1
  }

  ghost predicate NextAt(snaps: seq<TableSnapshot>, i: nat)
    requires 0 < i < |snaps|
  {
    Next(snaps[i - 1], snaps[i])
  }

  ghost predicate Linked(snaps: seq<TableSnapshot>)
  {
    && (forall i :: 0 < i < |snaps| ==> NextAt(snaps, i))
    && (snaps != [] ==> snaps[0].sequence >= 0)
    && (snaps != [] && snaps[0].parent.Some? ==> snaps[0].parent.value < snaps[0].id)
  }

  ghost predicate HistoryOk(meta: Metadata)
  {
    && meta.snapshots != [] && Linked(meta.snapshots)
    && meta.currentSnapshot == Some(Last(meta.snapshots).id)
    && Last(meta.snapshots).sequence == meta.lastSequence
  }

  lemma {:induction false} IdsIncrease(snaps: seq<TableSnapshot>, i: nat, j: nat)
    requires Linked(snaps) && i < j < |snaps|
    ensures snaps[i].id < snaps[j].id
    decreases j
  {
    if i < j - 1 {
      IdsIncrease(snaps, i, j - 1);
    }
    assert NextAt(snaps, j);
  }

  /** A commit keeps the history in order even when the clock stalls or runs backwards. */
  lemma {:induction false} CommitKeepsHistory(prev: Metadata, snapshot: Snapshot, now: int, list: nat)
    requires HistoryOk(prev) && NextMetadata(Some(prev), snapshot, now, list).Ok?
    ensures HistoryOk(NextMetadata(Some(prev), snapshot, now, list).value)
  {
    BumpIdAbove(now, prev.snapshots);
    var snaps := NextMetadata(Some(prev), snapshot, now, list).value.snapshots;
    assert snaps[..|snaps| - 1] == prev.snapshots;
    forall i | 0 < i < |snaps| ensures NextAt(snaps, i) {
      if i < |prev.snapshots| {
        assert snaps[i] == prev.snapshots[i] && snaps[i - 1] == prev.snapshots[i - 1];
        assert NextAt(prev.snapshots, i);
      }
    }
  }

  lemma {:induction false} FirstCommitHistory(snapshot: Snapshot, now: int, list: nat)
    requires NextMetadata(None, snapshot, now, list).Ok?
    ensures HistoryOk(NextMetadata(None, snapshot, now, list).value)
  {
  }

  /** Expiring any proper prefix of the snapshots keeps it in order too. */
  lemma {:induction false} ExpireKeepsHistory(meta: Metadata, k: nat)
    requires HistoryOk(meta) && k < |meta.snapshots|
    ensures HistoryOk(meta.(snapshots := meta.snapshots[k..]))
  {
    LinkedSuffix(meta.snapshots, k);
    assert Last(meta.snapshots[k..]) == Last(meta.snapshots);
  }

  lemma {:induction false} LinkedSuffix(snaps: seq<TableSnapshot>, k: nat)
    requires Linked(snaps) && k < |snaps|
    ensures Linked(snaps[k..])
  {
    var rest := snaps[k..];
    forall i | 0 < i < |rest| ensures NextAt(rest, i) {
      assert rest[i] == snaps[k + i] && rest[i - 1] == snaps[k + i - 1];
      assert NextAt(snaps, k + i);
    }
    SequencesFrom(snaps, k);
    if k > 0 {
      assert NextAt(snaps, k);
    }
  }

  lemma {:induction false} SequencesFrom(snaps: seq<TableSnapshot>, i: nat)
    requires Linked(snaps) && i < |snaps|
    ensures snaps[i].sequence == snaps[0].sequence + i
    decreases i
  {
    if i > 0 {
      SequencesFrom(snaps, i - 1);
      assert NextAt(snaps, i);
    }
  }

  lemma {:induction false} FindLast(snaps: seq<TableSnapshot>, i: nat)
    requires Linked(snaps) && i < |snaps|
    ensures FindSnapshot(snaps[i..], Last(snaps).id) == Some(Last(snaps))
    decreases |snaps| - i
  {
    if i < |snaps| - 1 {
      IdsIncrease(snaps, i, |snaps| - 1);
      FindLast(snaps, i + 1);
      assert snaps[i..][1..] == snaps[i + 1..];
    }
  }

  // ---------------------------------------------------------------------------------------
  // Well-formed storage
  // ---------------------------------------------------------------------------------------

  ghost predicate Readable(st: Store, entries: seq<ListEntry>)
  {
    forall e :: e in entries && e.data ==> e.manifest in st.manifests
  }

  ghost predicate Resolves(st: Store, snaps: seq<TableSnapshot>)
  {
    forall s :: s in snaps ==> s.manifestList in st.lists && Readable(st, st.lists[s.manifestList])
  }

  /** Generated names stay below `unused`; the latest metadata is in order and resolves. */
  ghost predicate Valid(st: Store)
  {
    && (forall m :: m in st.manifests ==> m < st.unused)
    && (forall l :: l in st.lists ==> l < st.unused)
    && (st.metadata != [] ==> HistoryOk(Last(st.metadata).meta) && Resolves(st, Last(st.metadata).meta.snapshots))
  }

  const EmptyStore := Store(map[], map[], [], None, 0)

  lemma {:induction false} EmptyValid()
    ensures Valid(EmptyStore) && LiveFiles(EmptyStore) == Ok([]) && TableMetadata(EmptyStore) == None
  {
  }

  /** Storage that only gained files. */
  ghost predicate Extends(a: Store, b: Store)
  {
    && (forall m :: m in a.manifests ==> m in b.manifests && b.manifests[m] == a.manifests[m])
    && (forall l :: l in a.lists ==> l in b.lists && b.lists[l] == a.lists[l])
  }

  lemma {:induction false} ReadListFrame(a: Store, b: Store, entries: seq<ListEntry>)
    requires Extends(a, b) && Readable(a, entries)
    ensures ReadList(a, entries).Ok? && ReadList(b, entries) == ReadList(a, entries)
  {
    if entries != [] {
      ReadListFrame(a, b, entries[1..]);
    }
  }

  lemma {:induction false} SnapshotFrame(a: Store, b: Store, snap: TableSnapshot)
    requires Extends(a, b) && snap.manifestList in a.lists && Readable(a, a.lists[snap.manifestList])
    ensures SnapshotFiles(a, snap).Ok? && SnapshotFiles(b, snap) == SnapshotFiles(a, snap)
  {
    ReadListFrame(a, b, a.lists[snap.manifestList]);
  }

  /** On valid storage the live files are those of the last snapshot. */
  lemma {:induction false} LiveIsLast(st: Store)
    requires Valid(st) && st.metadata != []
    ensures LiveFiles(st) == SnapshotFiles(st, Last(Last(st.metadata).meta.snapshots)) && LiveFiles(st).Ok?
  {
    var snaps := Last(st.metadata).meta.snapshots;
    FindLast(snaps, 0);
    assert snaps[0..] == snaps;
    SnapshotFrame(st, st, Last(snaps));
  }

  lemma {:induction false} LiveReads(st: Store)
    requires Valid(st)
    ensures LiveFiles(st).Ok?
  {
    if st.metadata != [] {
      LiveIsLast(st);
    }
  }

  /** A write that adds files without touching the metadata is invisible. */
  lemma {:induction false} InvisibleWrite(a: Store, b: Store)
    requires Valid(a) && Extends(a, b) && b.metadata == a.metadata
    requires (forall m :: m in b.manifests ==> m < b.unused) && (forall l :: l in b.lists ==> l < b.unused)
    ensures Valid(b) && LiveFiles(b) == LiveFiles(a) && TableMetadata(b) == TableMetadata(a)
  {
    if a.metadata != [] {
      var snaps := Last(a.metadata).meta.snapshots;
      assert Resolves(b, snaps);
      LiveIsLast(a);
      LiveIsLast(b);
      SnapshotFrame(a, b, Last(snaps));
    }
  }

  /** What a reader sees. */
  ghost predicate Shows(st: Store, live: seq<DataFile>, sync: Option<SyncMetadata>)
  {
    Valid(st) && LiveFiles(st) == Ok(live) && TableMetadata(st) == sync
  }

  lemma {:induction false} MetadataWrite(a: Store, version: int, meta: Metadata, files: seq<DataFile>)
    requires Valid(a) && HistoryOk(meta) && Resolves(a, meta.snapshots)
    requires SnapshotFiles(a, Last(meta.snapshots)) == Ok(files)
    ensures Shows(PutMetadata(a, version, meta), files, meta.sync)
  {
    var b := PutMetadata(a, version, meta);
    SnapshotFrame(a, b, Last(meta.snapshots));
    LiveIsLast(b);
  }

  lemma {:induction false} NewListReads(st: Store, files: seq<DataFile>, snap: TableSnapshot)
    requires snap.manifestList == st.unused + 1
    ensures SnapshotFiles(PutList(PutManifest(st, files), st.unused), snap) == Ok(files)
  {
    EntriesRead(files);
    var s2 := PutList(PutManifest(st, files), st.unused);
    var entries := [ListEntry(st.unused, true)];
    assert s2.lists[snap.manifestList] == entries && entries[1..] == [];
    assert ReadList(s2, []) == Ok([]);
    assert files + [] == files;
  }

  lemma {:induction false} NewHistory(st: Store, snapshot: Snapshot, now: int, list: nat)
    requires Valid(st) && NextMetadata(PreviousMeta(st), snapshot, now, list).Ok?
    ensures var meta := NextMetadata(PreviousMeta(st), snapshot, now, list).value;
      && HistoryOk(meta) && Last(meta.snapshots).manifestList == list
      && meta.snapshots[..|meta.snapshots| - 1] == (if st.metadata == [] then [] else Last(st.metadata).meta.snapshots)
      && meta.sync == Some(SyncMetadata(snapshot.instant, snapshot.version))
  {
    if st.metadata == [] {
      FirstCommitHistory(snapshot, now, list);
    } else {
      CommitKeepsHistory(Last(st.metadata).meta, snapshot, now, list);
    }
  }

  lemma {:induction false} StillResolves(a: Store, b: Store, before: seq<TableSnapshot>, last: TableSnapshot)
    requires Extends(a, b) && Resolves(a, before)
    requires last.manifestList in b.lists && Readable(b, b.lists[last.manifestList])
    ensures Resolves(b, before + [last])
  {
  }

  lemma {:induction false} ThirdWrite(st: Store, s2: Store, version: int, meta: Metadata, files: seq<DataFile>)
    requires Valid(st) && Valid(s2) && Extends(st, s2) && HistoryOk(meta)
    requires meta.snapshots[..|meta.snapshots| - 1] == (if st.metadata == [] then [] else Last(st.metadata).meta.snapshots)
    requires var l := Last(meta.snapshots).manifestList; l in s2.lists && Readable(s2, s2.lists[l])
    requires SnapshotFiles(s2, Last(meta.snapshots)) == Ok(files)
    ensures Shows(PutMetadata(s2, version, meta), files, meta.sync)
    ensures Shows(PutMetadata(s2, version, meta).(hint := Some(version)), files, meta.sync)
  {
    var before := if st.metadata == [] then [] else Last(st.metadata).meta.snapshots;
    assert Resolves(s2, meta.snapshots) by {
      StillResolves(st, s2, before, Last(meta.snapshots));
      assert meta.snapshots == before + [Last(meta.snapshots)];
    }
    MetadataWrite(s2, version, meta, files);
    HintWrite(PutMetadata(s2, version, meta), version, files, meta.sync);
  }

  lemma {:induction false} HintWrite(a: Store, version: int, files: seq<DataFile>, sync: Option<SyncMetadata>)
    requires Shows(a, files, sync)
    ensures Shows(a.(hint := Some(version)), files, sync)
  {
    InvisibleWrite(a, a.(hint := Some(version)));
  }

  /** The four states of one commit, as a reader sees them. */
  ghost predicate CommitStates(w: seq<Store>, live: seq<DataFile>, sync: Option<SyncMetadata>, snapshot: Snapshot)
  {
    && |w| == 4
    && Shows(w[0], live, sync) && Shows(w[1], live, sync)
    && Shows(w[2], snapshot.files, Some(SyncMetadata(snapshot.instant, snapshot.version)))
    && Shows(w[3], snapshot.files, Some(SyncMetadata(snapshot.instant, snapshot.version)))
  }

  lemma {:induction false} LateWrites(st: Store, snapshot: Snapshot, now: int, meta: Metadata, version: int)
    requires Valid(st) && NextMetadata(PreviousMeta(st), snapshot, now, st.unused + 1) == Ok(meta)
    ensures var s3 := PutMetadata(PutList(PutManifest(st, snapshot.files), st.unused), version, meta);
      && Shows(s3, snapshot.files, meta.sync) && Shows(s3.(hint := Some(version)), snapshot.files, meta.sync)
    ensures meta.sync == Some(SyncMetadata(snapshot.instant, snapshot.version))
  {
    NewHistory(st, snapshot, now, st.unused + 1);
    AfterTwo(st, PutList(PutManifest(st, snapshot.files), st.unused), version, meta, snapshot.files);
  }

  lemma {:induction false} AfterTwo(st: Store, s2: Store, version: int, meta: Metadata, files: seq<DataFile>)
    requires Valid(st) && s2 == PutList(PutManifest(st, files), st.unused) && HistoryOk(meta)
    requires Last(meta.snapshots).manifestList == st.unused + 1
    requires meta.snapshots[..|meta.snapshots| - 1] == (if st.metadata == [] then [] else Last(st.metadata).meta.snapshots)
    ensures Shows(PutMetadata(s2, version, meta), files, meta.sync)
    ensures Shows(PutMetadata(s2, version, meta).(hint := Some(version)), files, meta.sync)
  {
    TwoWrites(st, files);
    NewListReads(st, files, Last(meta.snapshots));
    ThirdWrite(st, s2, version, meta, files);
  }

  lemma {:induction false} WritesAre(st: Store, snapshot: Snapshot, now: int) returns (meta: Metadata)
    requires CommitWrites(st, snapshot, now).Ok?
    ensures NextMetadata(PreviousMeta(st), snapshot, now, st.unused + 1) == Ok(meta)
    ensures var s1 := PutManifest(st, snapshot.files); var s2 := PutList(s1, st.unused);
      var s3 := PutMetadata(s2, NextVersion(st), meta);
      CommitWrites(st, snapshot, now).value == [s1, s2, s3, s3.(hint := Some(NextVersion(st)))]
  {
    meta := NextMetadata(PreviousMeta(st), snapshot, now, st.unused + 1).value;
  }

  /** The first two writes of a commit are invisible; from the third on a reader sees exactly the
      committed files and watermark. Validity holds throughout. */
  lemma {:induction false} CommitShows(st: Store, snapshot: Snapshot, now: int, live: seq<DataFile>, sync: Option<SyncMetadata>)
    requires Shows(st, live, sync) && CommitWrites(st, snapshot, now).Ok?
    ensures CommitStates(CommitWrites(st, snapshot, now).value, live, sync, snapshot)
  {
    var meta := WritesAre(st, snapshot, now);
    var w := CommitWrites(st, snapshot, now).value;
    assert Shows(w[0], live, sync) && Shows(w[1], live, sync) by { TwoWrites(st, snapshot.files); }
    LateWrites(st, snapshot, now, meta, NextVersion(st));
  }

  lemma {:induction false} TwoWrites(st: Store, files: seq<DataFile>)
    requires Valid(st)
    ensures var s1 := PutManifest(st, files); var s2 := PutList(s1, st.unused);
      && Extends(st, s2) && Valid(s1) && Valid(s2)
      && LiveFiles(s1) == LiveFiles(st) && TableMetadata(s1) == TableMetadata(st)
      && LiveFiles(s2) == LiveFiles(st) && TableMetadata(s2) == TableMetadata(st)
      && (st.unused + 1) in s2.lists && Readable(s2, s2.lists[st.unused + 1])
  {
    var s1 := PutManifest(st, files);
    var s2 := PutList(s1, st.unused);
    InvisibleWrite(st, s1);
    InvisibleWrite(s1, s2);
  }

  // ---------------------------------------------------------------------------------------
  // Stopping CommitChanges after any write
  // ---------------------------------------------------------------------------------------

  /** The list view after the first j changes. */
  function AfterChanges(live: seq<DataFile>, changes: seq<TableChange>, j: nat): seq<DataFile>
    requires j <= |changes|
    decreases j
  {
    if j == 0 then live else AfterChanges(Applied(live, changes[0].diff), changes[1..], j - 1)
  }

  function SyncAfter(sync: Option<SyncMetadata>, changes: seq<TableChange>, j: nat): Option<SyncMetadata>
    requires j <= |changes|
  {
    if j == 0 then sync else Some(SyncMetadata(changes[j - 1].instant, changes[j - 1].version))
  }

  /** Commits visible after b writes: the third of every four. */
  function Visible(b: nat): nat { (b + 1) / 4 }

  /** Within a commit of four writes the third is the one that shows. */
  lemma {:induction false} PickState(st: Store, one: seq<Store>, rest: seq<Store>, b: nat, before: Store -> bool, after: Store -> bool)
    requires |one| == 4 && b < 4 && before(st) && before(one[0]) && before(one[1]) && after(one[2])
    ensures if b < 3 then before(Stopped(st, one + rest, b)) else after(Stopped(st, one + rest, b))
  {
    var all := one + rest;
    assert b > 0 ==> all[b - 1] == one[b - 1];
  }

  /** Within the first commit the reader is before or after its first change. */
  lemma {:induction false} StoppedFirst(st: Store, one: seq<Store>, rest: seq<Store>, b: nat, live: seq<DataFile>, sync: Option<SyncMetadata>, changes: seq<TableChange>)
    requires changes != [] && b < 4 && Shows(st, live, sync)
    requires CommitStates(one, live, sync, ChangeSnapshot(changes[0], live))
    ensures Shows(Stopped(st, one + rest, b), AfterChanges(live, changes, Visible(b)), SyncAfter(sync, changes, Visible(b)))
  {
    var live', sync' := Applied(live, changes[0].diff), Some(SyncMetadata(changes[0].instant, changes[0].version));
    PickState(st, one, rest, b, s => Shows(s, live, sync), s => Shows(s, live', sync'));
    if b < 3 {
      assert Visible(b) == 0;
    } else {
      assert Visible(b) == 1;
      AfterOne(live, changes);
    }
  }

  lemma {:induction false} AfterOne(live: seq<DataFile>, changes: seq<TableChange>)
    requires changes != []
    ensures AfterChanges(live, changes, 1) == Applied(live, changes[0].diff)
  {
    assert AfterChanges(live, changes, 1) == AfterChanges(Applied(live, changes[0].diff), changes[1..], 0);
  }

  /** What StoppedShows claims of a run of writes. */
  ghost predicate StopsWell(st: Store, writes: seq<Store>, changes: seq<TableChange>, live: seq<DataFile>, sync: Option<SyncMetadata>)
  {
    && |writes| <= 4 * |changes|
    && forall b: nat {:trigger Visible(b)} :: b <= |writes| ==>
         Visible(b) <= |changes|
         && Shows(Stopped(st, writes, b), AfterChanges(live, changes, Visible(b)), SyncAfter(sync, changes, Visible(b)))
  }

  lemma {:induction false} StopsWellStep(st: Store, one: seq<Store>, rest: seq<Store>, changes: seq<TableChange>, live: seq<DataFile>, sync: Option<SyncMetadata>)
    requires changes != [] && Shows(st, live, sync)
    requires CommitStates(one, live, sync, ChangeSnapshot(changes[0], live))
    requires StopsWell(one[3], rest, changes[1..], Applied(live, changes[0].diff), Some(SyncMetadata(changes[0].instant, changes[0].version)))
    ensures StopsWell(st, one + rest, changes, live, sync)
  {
    forall b: nat {:trigger Visible(b)} | b <= |one + rest|
      ensures Visible(b) <= |changes|
      ensures Shows(Stopped(st, one + rest, b), AfterChanges(live, changes, Visible(b)), SyncAfter(sync, changes, Visible(b))) {
      if b < 4 {
        StoppedFirst(st, one, rest, b, live, sync, changes);
      } else {
        StoppedLater(st, one, rest, b, live, sync, changes);
      }
    }
  }

  lemma {:induction false} StoppedLater(st: Store, one: seq<Store>, rest: seq<Store>, b: nat, live: seq<DataFile>, sync: Option<SyncMetadata>, changes: seq<TableChange>)
    requires changes != [] && |one| == 4 && 4 <= b <= |one + rest|
    requires StopsWell(one[3], rest, changes[1..], Applied(live, changes[0].diff), Some(SyncMetadata(changes[0].instant, changes[0].version)))
    ensures Visible(b) <= |changes|
    ensures Shows(Stopped(st, one + rest, b), AfterChanges(live, changes, Visible(b)), SyncAfter(sync, changes, Visible(b)))
  {
    var j := Visible(b - 4);
    assert Visible(b) == j + 1;
    StoppedConcat(st, one, rest, b);
    assert AfterChanges(live, changes, j + 1) == AfterChanges(Applied(live, changes[0].diff), changes[1..], j);
  }

  /** Whatever number b of writes succeeds, the reader sees the table after exactly Visible(b) of the
      changes, with the last of those as watermark. */
  lemma {:induction false} StoppedShows(st: Store, changes: seq<TableChange>, clock: seq<int>, live: seq<DataFile>, sync: Option<SyncMetadata>)
    requires |clock| == |changes| && Shows(st, live, sync)
    ensures StopsWell(st, ChangesWrites(st, changes, clock).0, changes, live, sync)
    decreases changes
  {
    var (writes, done) := ChangesWrites(st, changes, clock);
    if writes != [] {
      var snapshot := ChangeSnapshot(changes[0], live);
      CommitShows(st, snapshot, clock[0], live, sync);
      var one := CommitWrites(st, snapshot, clock[0]).value;
      var (rest, fin) := ChangesWrites(one[3], changes[1..], clock[1..]);
      StoppedShows(one[3], changes[1..], clock[1..], snapshot.files, Some(SyncMetadata(changes[0].instant, changes[0].version)));
      StopsWellStep(st, one, rest, changes, live, sync);
    }
  }
}
