/** What a reader of the Paimon target sees while commits are written and after any of them failed, and
    when a sequence of commits shows the table its changes describe. */
module PaimonSync {
  import opened Common
  import opened Files
  import opened Model
  import opened DeltaLog
  import opened DeltaSource
  import opened DeltaResume
  import opened Diffing
  import opened PaimonReplay
  import opened PaimonTable
  import Instants
  import IcebergCommit
  import SyncProtocol

  // ---------------------------------------------------------------------------------------
  // Storage
  // ---------------------------------------------------------------------------------------

  ghost predicate ListOk(st: Disk, name: Option<nat>)
  {
    name.Some? ==> name.value in st.lists && forall m :: m in st.lists[name.value] ==> m in st.manifests
  }

  ghost predicate Resolves(st: Disk, snap: PaimonSnapshot)
  {
    snap.schemaId in st.schemas && ListOk(st, snap.baseList) && ListOk(st, snap.deltaList)
  }

  ghost predicate NamesOk(st: Disk)
  {
    (forall m :: m in st.manifests ==> m < st.unused) && (forall l :: l in st.lists ==> l < st.unused)
  }

  ghost predicate Valid(st: Disk)
  {
    NamesOk(st) && forall id :: id in st.snapshots ==> Resolves(st, st.snapshots[id])
  }

  const EmptyDisk := Disk(map[], map[], map[], map[], None, None, 0)

  lemma {:induction false} EmptyShows()
    ensures Shows(EmptyDisk, [], None)
  {
  }

  /** Storage that only gained files: nothing written before is gone or overwritten, hints aside. */
  ghost predicate Extends(a: Disk, b: Disk)
  {
    && (forall x :: x in a.schemas ==> x in b.schemas && b.schemas[x] == a.schemas[x])
    && (forall x :: x in a.manifests ==> x in b.manifests && b.manifests[x] == a.manifests[x])
    && (forall x :: x in a.lists ==> x in b.lists && b.lists[x] == a.lists[x])
    && (forall x :: x in a.snapshots ==> x in b.snapshots && b.snapshots[x] == a.snapshots[x])
  }

  lemma {:induction false} ManifestsFrame(a: Disk, b: Disk, names: seq<nat>)
    requires Extends(a, b) && forall m :: m in names ==> m in a.manifests
    ensures ReadManifests(a, names).Some? && ReadManifests(b, names) == ReadManifests(a, names)
  {
    if names != [] {
      ManifestsFrame(a, b, names[..|names| - 1]);
    }
  }

  lemma {:induction false} ListFrame(a: Disk, b: Disk, name: Option<nat>)
    requires Extends(a, b) && ListOk(a, name)
    ensures ReadManifestList(a, name).Some? && ReadManifestList(b, name) == ReadManifestList(a, name)
  {
    if name.Some? {
      ManifestsFrame(a, b, a.lists[name.value]);
    }
  }

  lemma {:induction false} FilesFrame(a: Disk, b: Disk, snap: PaimonSnapshot)
    requires Extends(a, b) && Resolves(a, snap)
    ensures SnapshotFiles(a, snap).Some? && SnapshotFiles(b, snap) == SnapshotFiles(a, snap)
  {
    ListFrame(a, b, snap.baseList);
    ListFrame(a, b, snap.deltaList);
  }

  /** What a reader sees. */
  ghost predicate Shows(st: Disk, live: seq<DataFile>, sync: Option<SyncMetadata>)
  {
    Valid(st) && CurrentFiles(st) == Some(live) && TableMetadata(st) == sync
  }

  /** A write that touches neither the snapshots nor the LATEST hint. */
  ghost predicate Quiet(a: Disk, b: Disk)
  {
    Extends(a, b) && NamesOk(b) && b.snapshots == a.snapshots && b.latest == a.latest
  }

  lemma {:induction false} QuietShows(a: Disk, b: Disk, live: seq<DataFile>, sync: Option<SyncMetadata>)
    requires Shows(a, live, sync) && Quiet(a, b)
    ensures Shows(b, live, sync)
  {
    assert Visible(b) == Visible(a);
    if Visible(a).Some? {
      assert Resolves(a, Visible(a).value);
      FilesFrame(a, b, Visible(a).value);
    }
  }

  lemma {:induction false} ListTraceQuiet(st: Disk, entries: seq<Entry>)
    requires NamesOk(st)
    ensures forall s :: s in ListTrace(st, entries) ==> Quiet(st, s)
    ensures var s := Last(ListTrace(st, entries));
      && s.unused == st.unused + 1 && ListOk(s, Some(st.unused)) && ReadManifestList(s, Some(st.unused)) == Some(entries)
  {
    if entries == [] {
      EmptyListWritten(st, Last(ListTrace(st, entries)));
    } else {
      var s1 := PutManifest(st, entries);
      ListWritten(st, s1, s1.(lists := s1.lists[st.unused := [st.unused]]), entries);
    }
  }

  lemma {:induction false} EmptyListWritten(st: Disk, s: Disk)
    requires NamesOk(st) && s == st.(lists := st.lists[st.unused := []], unused := st.unused + 1)
    ensures Quiet(st, s) && ListOk(s, Some(st.unused)) && ReadManifestList(s, Some(st.unused)) == Some([])
  {
  }

  lemma {:induction false} ListWritten(st: Disk, s1: Disk, s: Disk, entries: seq<Entry>)
    requires NamesOk(st) && s1 == PutManifest(st, entries) && s == s1.(lists := s1.lists[st.unused := [st.unused]])
    ensures Quiet(st, s1) && Quiet(st, s) && ListOk(s, Some(st.unused)) && ReadManifestList(s, Some(st.unused)) == Some(entries)
  {
    assert s.lists[st.unused] == [st.unused];
    ReadOne(s, st.unused);
  }

  lemma {:induction false} ReadOne(st: Disk, name: nat)
    requires name in st.manifests
    ensures ReadManifests(st, [name]) == Some(st.manifests[name])
  {
    assert [name][..0] == [] && ReadManifests(st, []) == Some([]);
    assert [] + st.manifests[name] == st.manifests[name];
  }

  lemma {:induction false} EnsureQuiet(st: Disk, schema: string)
    requires NamesOk(st)
    ensures var (w, id) := EnsureTrace(st, schema);
      && (forall s :: s in w ==> Quiet(st, s))
      && id in EndOf(st, w).schemas && EndOf(st, w).schemas[id] == schema
  {
    var (w, id) := EnsureTrace(st, schema);
    if st.schemas.Keys != {} {
      assert MaxOf(st.schemas.Keys) + 1 !in st.schemas;
    }
  }

  // ---------------------------------------------------------------------------------------
  // Publishing
  // ---------------------------------------------------------------------------------------

  /** Snapshot ids only go up: the next one is above every id on storage, orphans included. */
  lemma {:induction false} NextIdFresh(ids: set<nat>)
    ensures NextId(ids) >= 1 && forall id :: id in ids ==> id < NextId(ids)
    ensures MaxOf(ids + {NextId(ids)}) == NextId(ids)
  {
  }

  lemma {:induction false} SnapshotWritten(st: Disk, snap: PaimonSnapshot)
    requires Valid(st) && Resolves(st, snap)
    ensures var s := WithSnapshot(st, NextId(st.snapshots.Keys), snap);
      Valid(s) && Extends(st, s) && Visible(s) == (if Hinted(st) then Visible(st) else Some(snap))
  {
    var id := NextId(st.snapshots.Keys);
    NextIdFresh(st.snapshots.Keys);
    var s := WithSnapshot(st, id, snap);
    assert s.snapshots.Keys == st.snapshots.Keys + {id};
  }

  /** The states of a commit whose snapshot file is write number q: only the last write moves a reader
      that follows the hint; without a hint the snapshot file itself does. */
  ghost predicate StepStates(w: seq<Disk>, q: nat, hinted: bool, live: seq<DataFile>, sync: Option<SyncMetadata>,
                             live': seq<DataFile>, sync': Option<SyncMetadata>)
  {
    && q < |w| && Shows(Last(w), live', sync') && Hinted(Last(w))
    && (forall i :: 0 <= i < |w| - 1 ==> if hinted || i < q then Shows(w[i], live, sync) else Shows(w[i], live', sync'))
    && (forall s :: s in w && hinted ==> Hinted(s))
  }

  lemma {:induction false} PrependQuiet(t: seq<Disk>, w: seq<Disk>, q: nat, hinted: bool, live: seq<DataFile>, sync: Option<SyncMetadata>,
                                        live': seq<DataFile>, sync': Option<SyncMetadata>)
    requires StepStates(w, q, hinted, live, sync, live', sync') && forall s :: s in t ==> Shows(s, live, sync) && (hinted ==> Hinted(s))
    ensures StepStates(t + w, |t| + q, hinted, live, sync, live', sync')
  {
    var all := t + w;
    forall i | 0 <= i < |all| - 1
      ensures if hinted || i < |t| + q then Shows(all[i], live, sync) else Shows(all[i], live', sync') {
      if i < |t| {
        assert all[i] == t[i] && t[i] in t;
      } else {
        assert all[i] == w[i - |t|];
      }
    }
  }

  lemma {:induction false} PublishFirst(st: Disk, snap: PaimonSnapshot, live: seq<DataFile>, sync: Option<SyncMetadata>, live': seq<DataFile>)
    requires Shows(st, live, sync) && Resolves(st, snap) && SnapshotFiles(st, snap) == Some(live')
    ensures var s1 := WithSnapshot(st, NextId(st.snapshots.Keys), snap);
      && (if Hinted(st) then Shows(s1, live, sync) else Shows(s1, live', snap.sync))
      && Extends(st, s1) && Valid(s1) && SnapshotFiles(s1, snap) == Some(live') && (Hinted(st) ==> Hinted(s1))
  {
    var s1 := WithSnapshot(st, NextId(st.snapshots.Keys), snap);
    SnapshotWritten(st, snap);
    FilesFrame(st, s1, snap);
    if Hinted(st) {
      FilesFrame(st, s1, Visible(st).value);
    }
  }

  lemma {:induction false} PublishShows(st: Disk, snap: PaimonSnapshot, live: seq<DataFile>, sync: Option<SyncMetadata>, live': seq<DataFile>)
    requires Shows(st, live, sync) && Resolves(st, snap) && SnapshotFiles(st, snap) == Some(live')
    ensures var w := PublishTrace(st, NextId(st.snapshots.Keys), snap);
      && StepStates(w, 0, Hinted(st), live, sync, live', snap.sync)
      && forall s :: s in w ==> Extends(st, s)
  {
    var id := NextId(st.snapshots.Keys);
    var s1 := WithSnapshot(st, id, snap);
    PublishFirst(st, snap, live, sync, live');
    if Hinted(st) {
      PublishedStates(s1, id, true, live, sync, live, sync, live');
    } else {
      PublishedStates(s1, id, false, live, sync, live', snap.sync, live');
    }
    TraceExtends(st, id, snap);
  }

  lemma {:induction false} TraceExtends(st: Disk, id: nat, snap: PaimonSnapshot)
    requires Extends(st, WithSnapshot(st, id, snap))
    ensures forall s :: s in PublishTrace(st, id, snap) ==> Extends(st, s)
  {
  }

  /** The snapshot file in place, `seen` being what a reader now sees, followed by the hints. */
  function AfterSnapshot(s1: Disk, id: nat): seq<Disk>
  {
    if id == 1 then [s1, s1.(earliest := Some(1)), s1.(earliest := Some(1), latest := Some(1))]
    else [s1, s1.(latest := Some(id))]
  }

  lemma {:induction false} PublishedStates(s1: Disk, id: nat, hinted: bool, live: seq<DataFile>, sync: Option<SyncMetadata>,
                                           seen: seq<DataFile>, mark: Option<SyncMetadata>, live': seq<DataFile>)
    requires Shows(s1, seen, mark) && id in s1.snapshots && SnapshotFiles(s1, s1.snapshots[id]) == Some(live')
    requires if hinted then Hinted(s1) && seen == live && mark == sync else seen == live' && mark == s1.snapshots[id].sync
    ensures StepStates(AfterSnapshot(s1, id), 0, hinted, live, sync, live', s1.snapshots[id].sync)
  {
    PublishRest(s1, id, seen, mark, live');
    HintedOnly(AfterSnapshot(s1, id), hinted, live, sync, live', s1.snapshots[id].sync);
  }

  lemma {:induction false} HintedOnly(w: seq<Disk>, hinted: bool, live: seq<DataFile>, sync: Option<SyncMetadata>, live': seq<DataFile>, sync': Option<SyncMetadata>)
    requires w != [] && Shows(Last(w), live', sync') && Hinted(Last(w))
    requires forall i :: 0 <= i < |w| - 1 ==> if hinted then Shows(w[i], live, sync) && Hinted(w[i]) else Shows(w[i], live', sync')
    ensures StepStates(w, 0, hinted, live, sync, live', sync')
  {
    forall s | s in w && hinted ensures Hinted(s) {
      var i :| 0 <= i < |w| && w[i] == s;
      assert i == |w| - 1 ==> s == Last(w);
    }
  }

  /** The states after the snapshot file. */
  lemma {:induction false} PublishRest(s1: Disk, id: nat, seen: seq<DataFile>, mark: Option<SyncMetadata>, live': seq<DataFile>)
    requires Shows(s1, seen, mark) && id in s1.snapshots && SnapshotFiles(s1, s1.snapshots[id]) == Some(live')
    ensures var e := s1.(earliest := Some(1)); Shows(e, seen, mark) && (Hinted(s1) ==> Hinted(e))
    ensures forall b :: b == s1.(latest := Some(id)) || b == s1.(earliest := Some(1), latest := Some(id)) ==>
      Shows(b, live', s1.snapshots[id].sync) && Hinted(b)
  {
    ShownAgain(s1, s1.(earliest := Some(1)), seen, mark);
    HintMoves(s1, s1.(latest := Some(id)), id, live');
    HintMoves(s1, s1.(earliest := Some(1), latest := Some(id)), id, live');
  }

  lemma {:induction false} ShownAgain(a: Disk, b: Disk, live: seq<DataFile>, sync: Option<SyncMetadata>)
    requires Shows(a, live, sync) && (b == a || b == a.(earliest := Some(1)))
    ensures Shows(b, live, sync)
  {
    QuietShows(a, b, live, sync);
  }

  lemma {:induction false} HintMoves(a: Disk, b: Disk, id: nat, live: seq<DataFile>)
    requires Valid(a) && id in a.snapshots && SnapshotFiles(a, a.snapshots[id]) == Some(live)
    requires b == a.(latest := Some(id)) || b == a.(earliest := Some(1), latest := Some(id))
    ensures Shows(b, live, a.snapshots[id].sync) && Hinted(b)
  {
    FilesFrame(a, b, a.snapshots[id]);
  }

  // ---------------------------------------------------------------------------------------
  // One commit
  // ---------------------------------------------------------------------------------------

  ghost predicate AllExtend(st: Disk, w: seq<Disk>)
  {
    forall s :: s in w ==> Extends(st, s)
  }

  lemma {:induction false} ListShows(st: Disk, entries: seq<Entry>, live: seq<DataFile>, sync: Option<SyncMetadata>)
    requires Shows(st, live, sync)
    ensures var w := ListTrace(st, entries);
      && (forall s :: s in w ==> Shows(s, live, sync) && Hinted(s) == Hinted(st)) && AllExtend(st, w) && Last(w) in w
      && Hinted(Last(w)) == Hinted(st) && Last(w).unused == st.unused + 1
      && ListOk(Last(w), Some(st.unused)) && ReadManifestList(Last(w), Some(st.unused)) == Some(entries)
  {
    var w := ListTrace(st, entries);
    ListTraceQuiet(st, entries);
    forall s | s in w ensures Shows(s, live, sync) && Hinted(s) == Hinted(st) {
      QuietShows(st, s, live, sync);
    }
  }

  lemma {:induction false} ExtendsTwice(a: Disk, b: Disk, w: seq<Disk>)
    requires Extends(a, b) && AllExtend(b, w)
    ensures AllExtend(a, w)
  {
  }

  /** The number of the write that puts the snapshot file in place. */
  function SnapshotWrite(base: seq<DataFile>, d: FilesDiff): nat
  {
    (if base == [] then 1 else 2) + (if d.removed + d.added == [] then 1 else 2)
  }

  lemma {:induction false} DeltaShows(st: Disk, s1: Disk, schemaId: nat, base: seq<DataFile>, d: FilesDiff, meta: SyncMetadata,
                                      live: seq<DataFile>, sync: Option<SyncMetadata>)
    requires Shows(s1, live, sync) && schemaId in s1.schemas
    requires ListOk(s1, Some(st.unused)) && ReadManifestList(s1, Some(st.unused)) == Some(EntriesOf(KindAdd, base))
    ensures var w := DeltaTrace(st, s1, schemaId, base, d, meta);
      && StepStates(w, if d.removed + d.added == [] then 1 else 2, Hinted(s1), live, sync, View(base, d), Some(meta))
      && AllExtend(s1, w)
  {
    var t2 := ListTrace(s1, DeltaEntries(d));
    var s2, snap := Last(t2), SnapshotOf(st, s1, schemaId, base, d, meta);
    ListShows(s1, DeltaEntries(d), live, sync);
    NewSnapshotReads(st, s1, s2, schemaId, base, d, meta);
    PublishShows(s2, snap, live, sync, View(base, d));
    var t3 := PublishTrace(s2, NextId(s2.snapshots.Keys), snap);
    PrependQuiet(t2, t3, 0, Hinted(s1), live, sync, View(base, d), Some(meta));
    ExtendsTwice(s1, s2, t3);
    assert |DeltaEntries(d)| == |d.removed + d.added|;
  }

  lemma {:induction false} NewSnapshotReads(st: Disk, s1: Disk, s2: Disk, schemaId: nat, base: seq<DataFile>, d: FilesDiff, meta: SyncMetadata)
    requires Extends(s1, s2) && schemaId in s1.schemas
    requires ListOk(s1, Some(st.unused)) && ReadManifestList(s1, Some(st.unused)) == Some(EntriesOf(KindAdd, base))
    requires ListOk(s2, Some(s1.unused)) && ReadManifestList(s2, Some(s1.unused)) == Some(DeltaEntries(d))
    ensures var snap := SnapshotOf(st, s1, schemaId, base, d, meta); Resolves(s2, snap) && SnapshotFiles(s2, snap) == Some(View(base, d))
  {
    ListFrame(s1, s2, Some(st.unused));
  }

  /** A commit's states, write by write. */
  lemma {:induction false} CommitShows(st: Disk, schemaId: nat, base: seq<DataFile>, d: FilesDiff, meta: SyncMetadata,
                                       live: seq<DataFile>, sync: Option<SyncMetadata>)
    requires Shows(st, live, sync) && schemaId in st.schemas
    ensures var w := CommitTrace(st, schemaId, base, d, meta);
      StepStates(w, SnapshotWrite(base, d), Hinted(st), live, sync, View(base, d), Some(meta)) && AllExtend(st, w)
  {
    var t1 := ListTrace(st, EntriesOf(KindAdd, base));
    ListShows(st, EntriesOf(KindAdd, base), live, sync);
    var s1 := Last(t1);
    assert Extends(st, s1);
    DeltaShows(st, s1, schemaId, base, d, meta, live, sync);
    var rest := DeltaTrace(st, s1, schemaId, base, d, meta);
    PrependQuiet(t1, rest, if d.removed + d.added == [] then 1 else 2, Hinted(st), live, sync, View(base, d), Some(meta));
    ExtendsTwice(st, s1, rest);
    assert |EntriesOf(KindAdd, base)| == |base|;
  }

  /** What StepShows says of the writes of one commit, the schema's included. */
  ghost predicate StepWell(st: Disk, w: seq<Disk>, done: bool, live: seq<DataFile>, sync: Option<SyncMetadata>,
                           live': seq<DataFile>, sync': Option<SyncMetadata>)
  {
    && AllExtend(st, w)
    && (if done then exists q: nat :: StepStates(w, q, Hinted(st), live, sync, live', sync') else forall s :: s in w ==> Shows(s, live, sync) && Hinted(s) == Hinted(st))
  }

  lemma {:induction false} EnsureShows(st: Disk, schema: string, live: seq<DataFile>, sync: Option<SyncMetadata>)
    requires Shows(st, live, sync)
    ensures var (w, id) := EnsureTrace(st, schema);
      && (forall s :: s in w ==> Shows(s, live, sync) && Hinted(s) == Hinted(st)) && AllExtend(st, w)
      && id in EndOf(st, w).schemas && Shows(EndOf(st, w), live, sync) && Extends(st, EndOf(st, w))
      && Hinted(EndOf(st, w)) == Hinted(st)
  {
    EnsureQuiet(st, schema);
    var (w, id) := EnsureTrace(st, schema);
    forall s | s in w ensures Shows(s, live, sync) && Hinted(s) == Hinted(st) {
      QuietShows(st, s, live, sync);
    }
  }

  /** One commit from the schema on: a reader that follows the hint sees the old table until the very
      last write and the new one after it; nothing on storage is ever overwritten. */
  lemma {:induction false} StepShows(env: Env, st: Disk, base: seq<DataFile>, d: FilesDiff, table: Table, meta: SyncMetadata,
                                     live: seq<DataFile>, sync: Option<SyncMetadata>)
    requires Shows(st, live, sync)
    ensures var (w, done) := StepTrace(env, st, base, d, table, meta);
      StepWell(st, w, done, live, sync, View(base, d), Some(meta))
  {
    if env.convert(table).Some? {
      var (w, id) := EnsureTrace(st, env.convert(table).value);
      EnsureShows(st, env.convert(table).value, live, sync);
      PlacedStep(st, w, id, base, d, meta, live, sync);
    }
  }

  lemma {:induction false} PlacedStep(st: Disk, w: seq<Disk>, id: nat, base: seq<DataFile>, d: FilesDiff, meta: SyncMetadata,
                                      live: seq<DataFile>, sync: Option<SyncMetadata>)
    requires (forall s :: s in w ==> Shows(s, live, sync) && Hinted(s) == Hinted(st)) && AllExtend(st, w)
    requires Shows(EndOf(st, w), live, sync) && Extends(st, EndOf(st, w)) && Hinted(EndOf(st, w)) == Hinted(st)
    requires id in EndOf(st, w).schemas
    ensures StepWell(st, w + CommitTrace(EndOf(st, w), id, base, d, meta), true, live, sync, View(base, d), Some(meta))
  {
    var s := EndOf(st, w);
    var rest := CommitTrace(s, id, base, d, meta);
    CommitShows(s, id, base, d, meta, live, sync);
    PrependQuiet(w, rest, SnapshotWrite(base, d), Hinted(st), live, sync, View(base, d), Some(meta));
    ExtendsTwice(st, s, rest);
  }

  /** Whatever number b of writes succeeds: with a hint in place the reader stays on the old table until
      the last of them; everything stored before is still there, and the next id is above all of it, so
      the id of a snapshot left behind is not used again. */
  lemma {:induction false} FailedCommitInvisible(env: Env, st: Disk, base: seq<DataFile>, d: FilesDiff, table: Table, meta: SyncMetadata,
                                                 live: seq<DataFile>, sync: Option<SyncMetadata>, b: nat)
    requires Shows(st, live, sync) && Hinted(st)
    ensures var (w, done) := StepTrace(env, st, base, d, table, meta);
      var s := Stopped(st, w, b);
      && (if done && b >= |w| then Shows(s, View(base, d), Some(meta)) else Shows(s, live, sync))
      && Extends(st, s) && Hinted(s)
      && forall id :: id in s.snapshots ==> id < NextId(s.snapshots.Keys)
  {
    StepShows(env, st, base, d, table, meta, live, sync);
    var (w, done) := StepTrace(env, st, base, d, table, meta);
    HintedStop(st, w, done, live, sync, View(base, d), Some(meta), b);
    NextIdFresh(Stopped(st, w, b).snapshots.Keys);
  }

  lemma {:induction false} HintedStop(st: Disk, w: seq<Disk>, done: bool, live: seq<DataFile>, sync: Option<SyncMetadata>,
                                      live': seq<DataFile>, sync': Option<SyncMetadata>, b: nat)
    requires Shows(st, live, sync) && Hinted(st) && StepWell(st, w, done, live, sync, live', sync')
    ensures var s := Stopped(st, w, b);
      && (if done && b >= |w| then Shows(s, live', sync') else Shows(s, live, sync))
      && Extends(st, s) && Hinted(s)
  {
    if b > 0 && w != [] {
      var i := Min(b, |w|) - 1;
      assert w[i] in w;
      if done {
        var q: nat :| StepStates(w, q, true, live, sync, live', sync');
        assert i == |w| - 1 ==> w[i] == Last(w);
      }
    }
  }

  // ---------------------------------------------------------------------------------------
  // A sequence of commits
  // ---------------------------------------------------------------------------------------

  /** What a reader sees after j commits. */
  function ViewAfter(live: seq<DataFile>, base: seq<DataFile>, changes: seq<TableChange>, j: nat): seq<DataFile>
    requires j <= |changes|
    decreases j
  {
    if j == 0 then live
    else ViewAfter(View(base, changes[0].diff), Folded(base, changes[0].diff), changes[1..], j - 1)
  }

  function MarkAfter(sync: Option<SyncMetadata>, changes: seq<TableChange>, reached: int, j: nat): Option<SyncMetadata>
    requires j <= |changes|
    decreases j
  {
    if j == 0 then sync
    else
      var instant := Max(reached, changes[0].instant);
      MarkAfter(Some(SyncMetadata(instant, changes[0].version)), changes[1..], instant, j - 1)
  }

  ghost predicate SeenAt(s: Disk, j: nat, live: seq<DataFile>, base: seq<DataFile>, sync: Option<SyncMetadata>,
                         changes: seq<TableChange>, reached: int)
  {
    j <= |changes| && Shows(s, ViewAfter(live, base, changes, j), MarkAfter(sync, changes, reached, j))
  }

  /** Every state shows the table after some number of the changes; after all of them at the end. */
  ghost predicate ChangesWell(st: Disk, w: seq<Disk>, done: bool, live: seq<DataFile>, base: seq<DataFile>, sync: Option<SyncMetadata>,
                              changes: seq<TableChange>, reached: int)
  {
    && AllExtend(st, w)
    && (forall s :: s in w ==> exists j :: SeenAt(s, j, live, base, sync, changes, reached))
    && (done ==> SeenAt(EndOf(st, w), |changes|, live, base, sync, changes, reached))
  }

  lemma {:induction false} SeenLater(s: Disk, j: nat, live: seq<DataFile>, base: seq<DataFile>, sync: Option<SyncMetadata>,
                                     changes: seq<TableChange>, reached: int)
    requires changes != []
    ensures var d, instant := changes[0].diff, Max(reached, changes[0].instant);
      SeenAt(s, j + 1, live, base, sync, changes, reached) <==>
        SeenAt(s, j, View(base, d), Folded(base, d), Some(SyncMetadata(instant, changes[0].version)), changes[1..], instant)
  {
  }

  lemma {:induction false} SeenInStep(w: seq<Disk>, q: nat, hinted: bool, live: seq<DataFile>, base: seq<DataFile>, sync: Option<SyncMetadata>,
                                      changes: seq<TableChange>, reached: int, s: Disk)
    requires changes != [] && s in w
    requires StepStates(w, q, hinted, live, sync, View(base, changes[0].diff), Some(SyncMetadata(Max(reached, changes[0].instant), changes[0].version)))
    ensures SeenAt(s, 0, live, base, sync, changes, reached) || SeenAt(s, 1, live, base, sync, changes, reached)
  {
    EitherShown(w, q, hinted, live, sync, View(base, changes[0].diff), Some(SyncMetadata(Max(reached, changes[0].instant), changes[0].version)), s);
    SeenLater(s, 0, live, base, sync, changes, reached);
  }

  lemma {:induction false} EitherShown(w: seq<Disk>, q: nat, hinted: bool, live: seq<DataFile>, sync: Option<SyncMetadata>,
                                       live': seq<DataFile>, sync': Option<SyncMetadata>, s: Disk)
    requires StepStates(w, q, hinted, live, sync, live', sync') && s in w
    ensures Shows(s, live, sync) || Shows(s, live', sync')
  {
    var i :| 0 <= i < |w| && w[i] == s;
    assert i == |w| - 1 ==> s == Last(w);
  }

  lemma {:induction false} WellStep(st: Disk, one: seq<Disk>, rest: seq<Disk>, done: bool, live: seq<DataFile>, base: seq<DataFile>,
                                    sync: Option<SyncMetadata>, changes: seq<TableChange>, reached: int)
    requires changes != []
    requires var d, instant := changes[0].diff, Max(reached, changes[0].instant);
      var sync' := Some(SyncMetadata(instant, changes[0].version));
      && StepWell(st, one, true, live, sync, View(base, d), sync')
      && ChangesWell(EndOf(st, one), rest, done, View(base, d), Folded(base, d), sync', changes[1..], instant)
    ensures ChangesWell(st, one + rest, done, live, base, sync, changes, reached)
  {
    var d, instant := changes[0].diff, Max(reached, changes[0].instant);
    var sync' := Some(SyncMetadata(instant, changes[0].version));
    var q: nat :| StepStates(one, q, Hinted(st), live, sync, View(base, d), sync');
    forall s | s in one + rest ensures Extends(st, s) && exists j :: SeenAt(s, j, live, base, sync, changes, reached) {
      if s in one {
        SeenInStep(one, q, Hinted(st), live, base, sync, changes, reached, s);
      } else {
        assert s in rest && EndOf(st, one) in one;
        var j :| SeenAt(s, j, View(base, d), Folded(base, d), sync', changes[1..], instant);
        SeenLater(s, j, live, base, sync, changes, reached);
      }
    }
    if done {
      StoppedAppend(st, one, rest, 0);
      SeenLater(EndOf(st, one + rest), |changes| - 1, live, base, sync, changes, reached);
    }
  }

  /** Stopping CommitChanges after any write leaves the reader at the table after some number of the
      changes, with that change's watermark. */
  lemma {:induction false} ChangesShow(env: Env, st: Disk, live: seq<DataFile>, base: seq<DataFile>, sync: Option<SyncMetadata>,
                                       changes: seq<TableChange>, reached: int)
    requires Shows(st, live, sync)
    ensures var (w, done) := ChangesTrace(env, st, base, changes, reached);
      ChangesWell(st, w, done, live, base, sync, changes, reached)
    decreases |changes|
  {
    if changes == [] {
      assert SeenAt(st, 0, live, base, sync, changes, reached);
    } else {
      var d, instant := changes[0].diff, Max(reached, changes[0].instant);
      var sync' := SyncMetadata(instant, changes[0].version);
      StepShows(env, st, base, d, changes[0].table, sync', live, sync);
      var (one, placed) := NextStep(env, st, base, changes[0], reached);
      if placed {
        var s1 := EndOf(st, one);
        ChangesShow(env, s1, View(base, d), Folded(base, d), Some(sync'), changes[1..], instant);
        ChangesUnfold(env, st, base, changes, reached);
        WellStep(st, one, Later(env, s1, base, changes, reached).0, Later(env, s1, base, changes, reached).1, live, base, sync, changes, reached);
      } else {
        forall s | s in one ensures SeenAt(s, 0, live, base, sync, changes, reached) {
        }
      }
    }
  }

  // ---------------------------------------------------------------------------------------
  // The table the changes describe
  // ---------------------------------------------------------------------------------------

  /** The live map after j changes, by the meaning of a diff alone. */
  ghost function MapAfter(live: map<string, DataFile>, changes: seq<TableChange>, j: nat): map<string, DataFile>
    requires j <= |changes|
    decreases j
  {
    if j == 0 then live else MapAfter(Updated(live, changes[0].diff), changes[1..], j - 1)
  }

  /** Which files exist is right after any sequence of commits. */
  lemma {:induction false} PathsAlwaysRight(live: seq<DataFile>, base: seq<DataFile>, m: map<string, DataFile>, changes: seq<TableChange>, j: nat)
    requires j <= |changes| && Paths(live) == Paths(base) == m.Keys
    ensures Paths(ViewAfter(live, base, changes, j)) == MapAfter(m, changes, j).Keys
    decreases j
  {
    if j > 0 {
      var d := changes[0].diff;
      assert Paths(View(base, d)) == Updated(m, d).Keys by {
        ReplayIsUpdate(base, d);
        ToMapKeys(View(base, d));
        ToMapKeys(base);
      }
      SamePaths(base, d);
      PathsAlwaysRight(View(base, d), Folded(base, d), Updated(m, d), changes[1..], j - 1);
    }
  }

  /** Two live maps agree on every path the diff leaves alone. */
  ghost predicate SameOff(a: map<string, DataFile>, b: map<string, DataFile>, d: FilesDiff)
  {
    forall p :: p !in Paths(d.removed) && p !in Paths(d.added) ==> SameAt(a, b, p)
  }

  lemma {:induction false} UpdatedAgreeIff(a: map<string, DataFile>, b: map<string, DataFile>, d: FilesDiff)
    ensures Updated(a, d) == Updated(b, d) <==> SameOff(a, b, d)
  {
    var x, y := Updated(a, d), Updated(b, d);
    ToMapKeys(d.added);
    if SameOff(a, b, d) {
      forall p ensures SameAt(x, y, p) {
        assert p !in Paths(d.removed) && p !in Paths(d.added) ==> SameAt(a, b, p);
      }
      SameEverywhere(x, y);
    } else {
      var p :| p !in Paths(d.removed) && p !in Paths(d.added) && !SameAt(a, b, p);
      assert !SameAt(x, y, p);
    }
  }

  /** The map the fold carries on. */
  ghost function Carried(base: map<string, DataFile>, d: FilesDiff): map<string, DataFile>
  {
    FirstWins(d.added) + (base - Paths(d.removed))
  }

  /** At every change the carried map is right on every path the change leaves alone. */
  ghost predicate FoldsRight(base: map<string, DataFile>, live: map<string, DataFile>, changes: seq<TableChange>)
    decreases |changes|
  {
    changes == [] ||
    (SameOff(base, live, changes[0].diff) && FoldsRight(Carried(base, changes[0].diff), Updated(live, changes[0].diff), changes[1..]))
  }

  ghost predicate ViewRight(live: seq<DataFile>, base: seq<DataFile>, m: map<string, DataFile>, changes: seq<TableChange>, j: nat)
    requires j <= |changes|
  {
    ToMap(ViewAfter(live, base, changes, j)) == MapAfter(m, changes, j)
  }

  lemma {:induction false} ViewStep(live: seq<DataFile>, base: seq<DataFile>, m: map<string, DataFile>, changes: seq<TableChange>, j: nat)
    requires 0 < j <= |changes|
    ensures var d := changes[0].diff;
      ViewRight(live, base, m, changes, j) <==> ViewRight(View(base, d), Folded(base, d), Updated(m, d), changes[1..], j - 1)
  {
  }

  lemma {:induction false} FirstView(live: seq<DataFile>, base: seq<DataFile>, m: map<string, DataFile>, changes: seq<TableChange>)
    requires changes != []
    ensures ViewRight(live, base, m, changes, 1) <==> SameOff(ToMap(base), m, changes[0].diff)
  {
    var d := changes[0].diff;
    ViewStep(live, base, m, changes, 1);
    ReplayIsUpdate(base, d);
    UpdatedAgreeIff(ToMap(base), m, d);
  }

  /** After each of the changes the reader sees the table they describe, whatever it saw before, if and only if
      what the fold got wrong is always on paths of the very next change. */
  lemma {:induction false} ViewsRightIff(live: seq<DataFile>, base: seq<DataFile>, m: map<string, DataFile>, changes: seq<TableChange>)
    ensures (forall j: nat :: 0 < j <= |changes| ==> ViewRight(live, base, m, changes, j)) <==> FoldsRight(ToMap(base), m, changes)
    decreases |changes|
  {
    if changes != [] {
      var d, rest := changes[0].diff, changes[1..];
      FirstView(live, base, m, changes);
      FoldMap(base, d);
      ViewsRightIff(View(base, d), Folded(base, d), Updated(m, d), rest);
      LaterViews(live, base, m, changes);
    }
  }

  lemma {:induction false} LaterViews(live: seq<DataFile>, base: seq<DataFile>, m: map<string, DataFile>, changes: seq<TableChange>)
    requires changes != []
    ensures var d := changes[0].diff;
      (forall j: nat :: 0 < j <= |changes| ==> ViewRight(live, base, m, changes, j)) <==>
        ViewRight(live, base, m, changes, 1)
        && forall j: nat :: 0 < j <= |changes[1..]| ==> ViewRight(View(base, d), Folded(base, d), Updated(m, d), changes[1..], j)
  {
    var d := changes[0].diff;
    forall j: nat | 0 < j <= |changes[1..]|
      ensures ViewRight(live, base, m, changes, j + 1) <==> ViewRight(View(base, d), Folded(base, d), Updated(m, d), changes[1..], j) {
      ViewStep(live, base, m, changes, j + 1);
    }
    forall j: nat | 1 < j <= |changes|
      ensures ViewRight(live, base, m, changes, j) <==> ViewRight(View(base, d), Folded(base, d), Updated(m, d), changes[1..], j - 1) {
      ViewStep(live, base, m, changes, j);
    }
  }

  /** The list carried to the next commit shows the right table after every possible next change if and
      only if the change before it left the ends agreeing. */
  lemma {:induction false} NextViewIff(base: seq<DataFile>, d: FilesDiff)
    ensures (forall e :: RightNext(base, d, e)) <==> EndsAgree(ToMap(base), d)
  {
    if EndsAgree(ToMap(base), d) {
      forall e ensures RightNext(base, d, e) {
        RightNextIff(base, d, e);
      }
    } else {
      RightNextIff(base, d, FilesDiff([], []));
      assert !RightNext(base, d, FilesDiff([], []));
    }
  }

  ghost predicate RightNext(base: seq<DataFile>, d: FilesDiff, e: FilesDiff)
  {
    ToMap(View(Folded(base, d), e)) == Updated(Updated(ToMap(base), d), e)
  }

  lemma {:induction false} RightNextIff(base: seq<DataFile>, d: FilesDiff, e: FilesDiff)
    ensures EndsAgree(ToMap(base), d) ==> RightNext(base, d, e)
    ensures !EndsAgree(ToMap(base), d) && e == FilesDiff([], []) ==> !RightNext(base, d, e)
  {
    ReplayIsUpdate(Folded(base, d), e);
    assert ToMap(Folded(base, d)) == Updated(ToMap(base), d) <==> EndsAgree(ToMap(base), d) by {
      FoldAgreesIff(base, d);
      ReplayIsUpdate(base, d);
    }
    if e == FilesDiff([], []) {
      NoChange(ToMap(Folded(base, d)));
      NoChange(Updated(ToMap(base), d));
    }
  }

  lemma {:induction false} NoChange(m: map<string, DataFile>)
    ensures Updated(m, FilesDiff([], [])) == m
  {
  }

  /** A file re-added under its live name without a removal is there after its own commit and back to
      the old entry after the next one, whatever that commit is about. */
  lemma {:induction false} ReaddReverts(t: Table)
    ensures var before, after := DataFile("a", 1, 1), DataFile("a", 2, 2);
      var changes := [TableChange(FilesDiff([after], []), t, 1, 1), TableChange(FilesDiff([], []), t, 2, 2)];
      && ToMap(ViewAfter([before], [before], changes, 1)) == map["a" := after]
      && ToMap(ViewAfter([before], [before], changes, 2)) == map["a" := before]
  {
    var before, after := DataFile("a", 1, 1), DataFile("a", 2, 2);
    var d, e := FilesDiff([after], []), FilesDiff([], []);
    TwoViews([before], TableChange(d, t, 1, 1), TableChange(e, t, 2, 2));
    ReaddedOnce(before, after, d);
    ReplayIsUpdate(Folded([before], d), e);
    NoChange(ToMap(Folded([before], d)));
  }

  lemma {:induction false} ReaddedOnce(before: DataFile, after: DataFile, d: FilesDiff)
    requires before.path == after.path && d == FilesDiff([after], [])
    ensures ToMap(View([before], d)) == map[after.path := after]
    ensures ToMap(Folded([before], d)) == map[before.path := before]
  {
    One(before);
    One(after);
    ReplayIsUpdate([before], d);
    FoldMap([before], d);
  }

  lemma {:induction false} TwoViews(base: seq<DataFile>, c: TableChange, e: TableChange)
    ensures ViewAfter(base, base, [c, e], 1) == View(base, c.diff)
    ensures ViewAfter(base, base, [c, e], 2) == View(Folded(base, c.diff), e.diff)
  {
    assert [c, e][1..] == [e];
    assert ViewAfter(base, base, [c, e], 1) == ViewAfter(View(base, c.diff), Folded(base, c.diff), [e], 0);
    assert ViewAfter(base, base, [c, e], 2) == ViewAfter(View(base, c.diff), Folded(base, c.diff), [e], 1)
        == ViewAfter(View(Folded(base, c.diff), e.diff), Folded(Folded(base, c.diff), e.diff), [e][1..], 0);
  }

  lemma {:induction false} One(f: DataFile)
    ensures ToMap([f]) == map[f.path := f] == FirstWins([f]) && Paths([f]) == {f.path}
  {
    assert [f][..0] == [];
  }

  // ---------------------------------------------------------------------------------------
  // Following a Delta source
  // ---------------------------------------------------------------------------------------

  lemma {:induction false} MapAfterIsApplied(live: seq<DataFile>, changes: seq<TableChange>, j: nat)
    requires j <= |changes|
    ensures MapAfter(ToMap(live), changes, j) == ToMap(IcebergCommit.AfterChanges(live, changes, j))
    decreases j
  {
    if j > 0 {
      AppliedMap(live, changes[0].diff);
      MapAfterIsApplied(Applied(live, changes[0].diff), changes[1..], j - 1);
    }
  }

  /** Instants that increase pass into the watermark unchanged. */
  lemma {:induction false} MarkIsLast(sync: Option<SyncMetadata>, changes: seq<TableChange>, reached: int, j: nat)
    requires j <= |changes|
    requires forall i :: 0 <= i < |changes| ==> reached < changes[i].instant
    requires forall i, k :: 0 <= i < k < |changes| ==> changes[i].instant < changes[k].instant
    ensures MarkAfter(sync, changes, reached, j) ==
      if j == 0 then sync else Some(SyncMetadata(changes[j - 1].instant, changes[j - 1].version))
    decreases j
  {
    if j > 0 {
      MarkIsLast(Some(SyncMetadata(changes[0].instant, changes[0].version)), changes[1..], changes[0].instant, j - 1);
    }
  }

  /** From version v on, fold and replay of every commit agree. */
  ghost predicate FoldsAgree(h: seq<Commit>, v: nat) { forall u :: v <= u < |h| ==> FoldAgreesAt(h, u) }

  ghost predicate FoldAgreesAt(h: seq<Commit>, u: nat)
    requires u < |h|
  {
    EndsAgree(LiveAfter(h, u), DiffOf(h[u]))
  }

  lemma {:induction false} CleanAddsAgree(h: seq<Commit>, v: nat)
    requires CleanAdds(h, v)
    ensures FoldsAgree(h, v)
  {
    forall u | v <= u < |h| ensures FoldAgreesAt(h, u) {
      assert CleanAddsAt(h, u);
      SettledEndsAgree(LiveAfter(h, u), DiffOf(h[u]));
    }
  }

  /** Where fold and replay agree at every commit, the carried map is right throughout. */
  lemma {:induction false} AgreeingFoldsRight(h: seq<Commit>, v: nat, changes: seq<TableChange>)
    requires AllSurvive(h) && FoldsAgree(h, v) && v + |changes| <= |h| && SyncProtocol.DiffsFrom(h, changes, v)
    ensures FoldsRight(LiveAfter(h, v), LiveAfter(h, v), changes)
    decreases |changes|
  {
    if changes != [] {
      assert SyncProtocol.DiffAt(h, changes, v, 0);
      LaterDiffs(h, v, changes);
      AgreeingFoldsRight(h, v + 1, changes[1..]);
      assert FoldAgreesAt(h, v);
      UpdatedCommit(h, v);
      CarriedAgrees(LiveAfter(h, v), DiffOf(h[v]));
      FoldsRightCons(LiveAfter(h, v), changes);
    }
  }

  lemma {:induction false} LaterDiffs(h: seq<Commit>, v: nat, changes: seq<TableChange>)
    requires SyncProtocol.DiffsFrom(h, changes, v) && changes != []
    ensures SyncProtocol.DiffsFrom(h, changes[1..], v + 1)
  {
    var w := v + 1;
    forall i | 0 <= i < |changes[1..]| ensures SyncProtocol.DiffAt(h, changes[1..], w, i) {
      assert SyncProtocol.DiffAt(h, changes, v, i + 1);
    }
  }

  lemma {:induction false} FoldsRightCons(live: map<string, DataFile>, changes: seq<TableChange>)
    requires changes != [] && Carried(live, changes[0].diff) == Updated(live, changes[0].diff)
    requires FoldsRight(Updated(live, changes[0].diff), Updated(live, changes[0].diff), changes[1..])
    ensures FoldsRight(live, live, changes)
  {
  }

  lemma {:induction false} CarriedAgrees(live: map<string, DataFile>, d: FilesDiff)
    ensures Carried(live, d) == Updated(live, d) <==> EndsAgree(live, d)
  {
    ToMapKeys(d.added);
    FirstWinsKeys(d.added);
    OverlayIff(FirstWins(d.added), live - Paths(d.removed), ToMap(d.added));
  }

  lemma {:induction false} DiffOfChange(h: seq<Commit>, s: nat, v: nat, i: nat)
    requires s <= v && v + i < |h| && Tabled(h, v, |h|)
    ensures |ChangesFrom(h, s, v, |h|)| == |h| - v
    ensures ChangesFrom(h, s, v, |h|)[i].diff == DiffOf(h[v + i]) && ChangesFrom(h, s, v, |h|)[i].instant == InstantAt(h, s, v + i)
  {
    ChangesFromAt(h, s, v, |h|, i);
  }

  lemma {:induction false} UpdatedCommit(h: seq<Commit>, v: nat)
    requires AllSurvive(h) && v < |h|
    ensures Updated(LiveAfter(h, v), DiffOf(h[v])) == LiveAfter(h, v + 1)
  {
    CommitDiffIff(LiveAfter(h, v), h[v]);
  }

  lemma {:induction false} SourceInstants(h: seq<Commit>, s: nat, v: nat)
    requires s <= v <= |h| && Tabled(h, v, |h|)
    ensures var changes := ChangesFrom(h, s, v, |h|);
      && (forall i :: 0 <= i < |changes| ==> 0 < changes[i].instant)
      && (forall i, k :: 0 <= i < k < |changes| ==> changes[i].instant < changes[k].instant)
  {
    var changes := ChangesFrom(h, s, v, |h|);
    ChangesFromAt(h, s, v, |h|, 0);
    forall i | 0 <= i < |changes| ensures 0 < changes[i].instant {
      DiffOfChange(h, s, v, i);
      ChainIncreasesAt(h, s, v + i);
    }
    forall i, k | 0 <= i < k < |changes| ensures changes[i].instant < changes[k].instant {
      LaterInstant(h, s, v, i, k);
    }
  }

  lemma {:induction false} LaterInstant(h: seq<Commit>, s: nat, v: nat, i: nat, k: nat)
    requires s <= v <= |h| && Tabled(h, v, |h|) && i < k < |ChangesFrom(h, s, v, |h|)| == |h| - v
    ensures ChangesFrom(h, s, v, |h|)[i].instant < ChangesFrom(h, s, v, |h|)[k].instant
  {
    DiffOfChange(h, s, v, i);
    DiffOfChange(h, s, v, k);
    InstantsIncrease(h, s, v + i, v + k);
  }

  lemma {:induction false} ChainIncreasesAt(h: seq<Commit>, s: nat, v: nat)
    requires s <= v < |h|
    ensures 0 < InstantAt(h, s, v)
  {
    var r := Raws(h)[s..v + 1];
    Instants.ChainIncreases(r, 0, |r|);
    assert r[..|r|] == r;
  }

  /** The reader is where the source was at version k + j, and the watermark says so. */
  ghost predicate At(h: seq<Commit>, s: nat, k: nat, j: nat, st: Disk, sync: SyncMetadata)
  {
    && s <= k + 1 && k + 1 + j <= |h| && Valid(st)
    && CurrentFiles(st).Some? && ToMap(CurrentFiles(st).value) == LiveAfter(h, k + 1 + j)
    && TableMetadata(st) == Some(if j == 0 then sync else SyncMetadata(InstantAt(h, s, k + j), k + j))
  }

  /** The versions after k can be carried over by folding. */
  ghost predicate Carries(h: seq<Commit>, s: nat, k: nat)
  {
    && s <= k + 1 <= |h| && Tabled(h, k + 1, |h|)
    && FoldsRight(LiveAfter(h, k + 1), LiveAfter(h, k + 1), ChangesFrom(h, s, k + 1, |h|))
  }

  lemma {:induction false} AgreeingCarries(h: seq<Commit>, s: nat, k: nat)
    requires AllSurvive(h) && s <= k + 1 <= |h| && Tabled(h, k + 1, |h|) && FoldsAgree(h, k + 1)
    ensures Carries(h, s, k)
  {
    SyncProtocol.DiffsAre(h, s, k + 1);
    AgreeingFoldsRight(h, k + 1, ChangesFrom(h, s, k + 1, |h|));
  }

  /** The view after j changes is the source's live map if and only if it is the map the changes describe. */
  lemma {:induction false} RightIsVersion(h: seq<Commit>, s: nat, k: nat, j: nat, live: seq<DataFile>)
    requires AllSurvive(h) && s <= k + 1 <= |h| && Tabled(h, k + 1, |h|) && ToMap(live) == LiveAfter(h, k + 1) && k + 1 + j <= |h|
    ensures |ChangesFrom(h, s, k + 1, |h|)| == |h| - k - 1
    ensures ViewRight(live, live, LiveAfter(h, k + 1), ChangesFrom(h, s, k + 1, |h|), j) <==>
      ToMap(ViewAfter(live, live, ChangesFrom(h, s, k + 1, |h|), j)) == LiveAfter(h, k + 1 + j)
  {
    ChangesFromAt(h, s, k + 1, |h|, 0);
    MapAfterIsApplied(live, ChangesFrom(h, s, k + 1, |h|), j);
    SyncProtocol.ChangesWalk(h, s, k, live, j);
  }

  lemma {:induction false} ViewAtVersion(h: seq<Commit>, s: nat, k: nat, j: nat, live: seq<DataFile>)
    requires AllSurvive(h) && Carries(h, s, k) && ToMap(live) == LiveAfter(h, k + 1) && k + 1 + j <= |h|
    requires |ChangesFrom(h, s, k + 1, |h|)| == |h| - k - 1
    ensures ToMap(ViewAfter(live, live, ChangesFrom(h, s, k + 1, |h|), j)) == LiveAfter(h, k + 1 + j)
  {
    if j > 0 {
      ViewsRightIff(live, live, LiveAfter(h, k + 1), ChangesFrom(h, s, k + 1, |h|));
      RightIsVersion(h, s, k, j, live);
    }
  }

  ghost predicate FollowsAt(h: seq<Commit>, k: nat, live: seq<DataFile>, changes: seq<TableChange>, j: nat)
    requires j <= |changes| && k + 1 + j <= |h|
  {
    ToMap(ViewAfter(live, live, changes, j)) == LiveAfter(h, k + 1 + j)
  }

  /** Every commit of a resumed sync shows the source's live map at its version if and only if what the fold got
      wrong is always on paths of the very next version. */
  lemma {:induction false} FollowsIff(h: seq<Commit>, s: nat, k: nat, live: seq<DataFile>)
    requires AllSurvive(h) && s <= k + 1 <= |h| && Tabled(h, k + 1, |h|) && ToMap(live) == LiveAfter(h, k + 1)
    ensures var changes := ChangesFrom(h, s, k + 1, |h|);
      && |changes| == |h| - k - 1
      && ((forall j: nat :: j <= |changes| ==> FollowsAt(h, k, live, changes, j)) <==> Carries(h, s, k))
  {
    var changes := ChangesFrom(h, s, k + 1, |h|);
    ChangesFromAt(h, s, k + 1, |h|, 0);
    var m := LiveAfter(h, k + 1);
    forall j: nat | j <= |changes| ensures FollowsAt(h, k, live, changes, j) <==> ViewRight(live, live, m, changes, j) {
      RightIsVersion(h, s, k, j, live);
    }
    ViewsRightIff(live, live, m, changes);
    FromTheFirst(h, k, live, m, changes);
  }

  lemma {:induction false} FromTheFirst(h: seq<Commit>, k: nat, live: seq<DataFile>, m: map<string, DataFile>, changes: seq<TableChange>)
    requires k + 1 + |changes| <= |h| && m == LiveAfter(h, k + 1) == ToMap(live)
    requires forall j: nat :: j <= |changes| ==> (FollowsAt(h, k, live, changes, j) <==> ViewRight(live, live, m, changes, j))
    ensures (forall j: nat :: j <= |changes| ==> FollowsAt(h, k, live, changes, j)) <==>
      (forall j: nat :: 0 < j <= |changes| ==> ViewRight(live, live, m, changes, j))
  {
    assert FollowsAt(h, k, live, changes, 0);
    if forall j: nat :: j <= |changes| ==> FollowsAt(h, k, live, changes, j) {
      forall j: nat | 0 < j <= |changes| ensures ViewRight(live, live, m, changes, j) {
        assert FollowsAt(h, k, live, changes, j);
      }
    }
    if forall j: nat :: 0 < j <= |changes| ==> ViewRight(live, live, m, changes, j) {
      forall j: nat | j <= |changes| ensures FollowsAt(h, k, live, changes, j) {
        assert j > 0 ==> ViewRight(live, live, m, changes, j);
      }
    }
  }

  lemma {:induction false} MarkAtVersion(h: seq<Commit>, s: nat, k: nat, j: nat, sync: SyncMetadata)
    requires s <= k + 1 <= |h| && Tabled(h, k + 1, |h|) && k + 1 + j <= |h| && |ChangesFrom(h, s, k + 1, |h|)| == |h| - k - 1
    ensures MarkAfter(Some(sync), ChangesFrom(h, s, k + 1, |h|), 0, j) ==
      Some(if j == 0 then sync else SyncMetadata(InstantAt(h, s, k + j), k + j))
  {
    SourceInstants(h, s, k + 1);
    MarkIsLast(Some(sync), ChangesFrom(h, s, k + 1, |h|), 0, j);
    if j > 0 {
      ChangesFromAt(h, s, k + 1, |h|, j - 1);
    }
  }

  lemma {:induction false} SeenIsAt(h: seq<Commit>, s: nat, k: nat, j: nat, st: Disk, live: seq<DataFile>, sync: SyncMetadata)
    requires AllSurvive(h) && Carries(h, s, k)
    requires ToMap(live) == LiveAfter(h, k + 1) && |ChangesFrom(h, s, k + 1, |h|)| == |h| - k - 1
    requires SeenAt(st, j, live, live, Some(sync), ChangesFrom(h, s, k + 1, |h|), 0)
    ensures At(h, s, k, j, st, sync)
  {
    ViewAtVersion(h, s, k, j, live);
    MarkAtVersion(h, s, k, j, sync);
  }

  /** A resumed sync of a Delta table into Paimon, stopped after any number b of writes, leaves the reader
      at one of the source's own versions with that version as watermark; run to the end, at the newest. */
  lemma {:induction false} PaimonFollowsDelta(env: Env, h: seq<Commit>, s: nat, k: nat, st: Disk, live: seq<DataFile>, sync: SyncMetadata, b: nat)
    requires AllSurvive(h) && Carries(h, s, k)
    requires Shows(st, live, Some(sync)) && ToMap(live) == LiveAfter(h, k + 1)
    ensures StopsAtVersion(h, s, k, st, sync, ChangesTrace(env, st, live, ChangesFrom(h, s, k + 1, |h|), 0), b)
  {
    var changes := ChangesFrom(h, s, k + 1, |h|);
    ChangesShow(env, st, live, live, Some(sync), changes, 0);
    WellStops(h, s, k, st, live, sync, changes, ChangesTrace(env, st, live, changes, 0), b);
  }

  lemma {:induction false} WellStops(h: seq<Commit>, s: nat, k: nat, st: Disk, live: seq<DataFile>, sync: SyncMetadata, changes: seq<TableChange>, trace: (seq<Disk>, bool), b: nat)
    requires AllSurvive(h) && Carries(h, s, k) && changes == ChangesFrom(h, s, k + 1, |h|)
    requires Shows(st, live, Some(sync)) && ToMap(live) == LiveAfter(h, k + 1)
    requires ChangesWell(st, trace.0, trace.1, live, live, Some(sync), changes, 0)
    ensures StopsAtVersion(h, s, k, st, sync, trace, b)
  {
    ChangesFromAt(h, s, k + 1, |h|, 0);
    var j := StoppedSeen(st, trace.0, trace.1, live, Some(sync), changes, b);
    SeenIsAt(h, s, k, j, Stopped(st, trace.0, b), live, sync);
    StopsThere(h, s, k, st, sync, trace, b, j, |changes|);
  }

  lemma {:induction false} StopsThere(h: seq<Commit>, s: nat, k: nat, st: Disk, sync: SyncMetadata, trace: (seq<Disk>, bool), b: nat, j: nat, n: nat)
    requires Extends(st, Stopped(st, trace.0, b)) && At(h, s, k, j, Stopped(st, trace.0, b), sync)
    requires n == |h| - k - 1 && (trace.1 && b >= |trace.0| ==> j == n)
    ensures StopsAtVersion(h, s, k, st, sync, trace, b)
  {
  }

  /** Stopped after b of these writes, the reader is at one of the source's versions; after all, at the newest. */
  ghost predicate StopsAtVersion(h: seq<Commit>, s: nat, k: nat, st: Disk, sync: SyncMetadata, trace: (seq<Disk>, bool), b: nat)
  {
    var st' := Stopped(st, trace.0, b);
    && Extends(st, st') && (exists j :: At(h, s, k, j, st', sync))
    && (trace.1 && b >= |trace.0| ==> At(h, s, k, |h| - k - 1, st', sync))
  }

  lemma {:induction false} StoppedSeen(st: Disk, w: seq<Disk>, done: bool, live: seq<DataFile>, sync: Option<SyncMetadata>, changes: seq<TableChange>, b: nat)
    returns (j: nat)
    requires Shows(st, live, sync) && ChangesWell(st, w, done, live, live, sync, changes, 0)
    ensures SeenAt(Stopped(st, w, b), j, live, live, sync, changes, 0) && Extends(st, Stopped(st, w, b))
    ensures done && b >= |w| ==> j == |changes|
  {
    var st' := Stopped(st, w, b);
    if done && b >= |w| {
      assert st' == EndOf(st, w);
      j := |changes|;
    } else if b == 0 || w == [] {
      j := 0;
    } else {
      assert st' in w;
      j :| SeenAt(st', j, live, live, sync, changes, 0);
    }
  }

  // ---------------------------------------------------------------------------------------
  // Record counters fed by Delta
  // ---------------------------------------------------------------------------------------

  lemma {:induction false} RemovedUncounted(c: Commit)
    ensures Records(Removed(c)) == 0
  {
    if c != [] {
      var init := c[..|c| - 1];
      RemovedUncounted(init);
      if Last(c).RemoveFile? {
        var gone := DataFile(Last(c).path, 0, 0);
        assert (Removed(init) + [gone])[..|Removed(init)|] == Removed(init);
      }
    }
  }

  /** A Delta commit that removes a live file with records makes the total of the Paimon snapshot too high. */
  lemma {:induction false} DeltaTotalsTooHigh(base: seq<DataFile>, c: Commit, f: DataFile)
    requires Counted(base) && Counted(Added(c)) && f in base && f.records > 0 && f.path in Paths(Removed(c))
    ensures TotalRecords(base, DiffOf(c)) > Records(Folded(base, DiffOf(c)))
  {
    RemovedUncounted(c);
    UncountedRemovalsIff(base, DiffOf(c));
  }
}
