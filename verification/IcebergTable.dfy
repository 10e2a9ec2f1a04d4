/** The Iceberg target (pkg/formats/iceberg/target.go) over a storage of manifests, manifest lists and
    metadata files, with every intermediate state a failing write can leave behind. */
module IcebergTable {
  import opened Common
  import opened Files
  import opened Model
  import opened IcebergIds
  import opened FieldIdHistory
  import opened DeltaSource
  import IcebergSchema

  datatype TableSnapshot = TableSnapshot(
    id: int, parent: Option<int>, sequence: int, timestamp: int, manifestList: nat, schemaId: int)

  datatype Metadata = Metadata(
    lastSequence: int, lastUpdated: int, currentSchemaId: int, schema: Written,
    sync: Option<SyncMetadata>, nameMapping: seq<MappingEntry>,
    currentSnapshot: Option<int>, snapshots: seq<TableSnapshot>)

  datatype MetadataFile = MetadataFile(version: int, meta: Metadata)

  datatype Status = Existing | New | Deleted

  /** `data` is false for delete files. */
  datatype ManifestEntry = ManifestEntry(status: Status, data: bool, file: DataFile)

  datatype ListEntry = ListEntry(manifest: nat, data: bool)

  /** Storage by kind. Manifests and lists carry generated names, `unused` being the next unused one;
      metadata files are listed in version order. */
  datatype Store = Store(
    manifests: map<nat, seq<ManifestEntry>>, lists: map<nat, seq<ListEntry>>,
    metadata: seq<MetadataFile>, hint: Option<int>, unused: nat)

  // ---------------------------------------------------------------------------------------
  // Reading
  // ---------------------------------------------------------------------------------------

  datatype ReadError = NoMetadataFiles | MissingList(name: nat) | MissingManifest(name: nat)

  /** Entries that are data files and not deleted. */
  function LiveEntries(entries: seq<ManifestEntry>): seq<DataFile>
  {
    if entries == [] then []
    else if entries[0].status == Deleted || !entries[0].data then LiveEntries(entries[1..])
    else [entries[0].file] + LiveEntries(entries[1..])
  }

  function ReadList(st: Store, entries: seq<ListEntry>): Result<seq<DataFile>, ReadError>
  {
    if entries == [] then Ok([])
    else if !entries[0].data then ReadList(st, entries[1..])
    else if entries[0].manifest !in st.manifests then Err(MissingManifest(entries[0].manifest))
    else
      match ReadList(st, entries[1..])
      case Err(e) => Err(e)
      case Ok(rest) => Ok(LiveEntries(st.manifests[entries[0].manifest]) + rest)
  }

  function SnapshotFiles(st: Store, snap: TableSnapshot): Result<seq<DataFile>, ReadError>
  {
    if snap.manifestList in st.lists then ReadList(st, st.lists[snap.manifestList])
    else Err(MissingList(snap.manifestList))
  }

  function FindSnapshot(snapshots: seq<TableSnapshot>, id: int): Option<TableSnapshot>
  {
    if snapshots == [] then None
    else if snapshots[0].id == id then Some(snapshots[0])
    else FindSnapshot(snapshots[1..], id)
  }

  /** The live files the latest metadata describes; none for a table without metadata. */
  function LiveFiles(st: Store): Result<seq<DataFile>, ReadError>
  {
    if st.metadata == [] then Ok([])
    else
      var meta := Last(st.metadata).meta;
      if meta.currentSnapshot.None? || meta.snapshots == [] then Ok([])
      else
        var found := FindSnapshot(meta.snapshots, meta.currentSnapshot.value);
        SnapshotFiles(st, if found.Some? then found.value else Last(meta.snapshots))
  }

  function TableMetadata(st: Store): Option<SyncMetadata>
  {
    if st.metadata == [] then None else Last(st.metadata).meta.sync
  }

  // ---------------------------------------------------------------------------------------
  // Committing a snapshot
  // ---------------------------------------------------------------------------------------

  function BumpId(id: int, snapshots: seq<TableSnapshot>): int
  {
    if snapshots == [] then id
    else
      var before := BumpId(id, snapshots[..|snapshots| - 1]);
      if Last(snapshots).id >= before then Last(snapshots).id + 1 else before
  }

  /** The id loop of CommitSnapshot: at least the clock, above every id on record, and no higher than
      those two demand. */
  method NextSnapshotId(now: int, snapshots: seq<TableSnapshot>) returns (id: int)
    ensures id == BumpId(now, snapshots)
    ensures now <= id && forall i :: 0 <= i < |snapshots| ==> snapshots[i].id < id
    ensures id == now || exists i :: 0 <= i < |snapshots| && id == snapshots[i].id + 1
  {
    id := now;
    for i := 0 to |snapshots|
      invariant id == BumpId(now, snapshots[..i])
      invariant now <= id && forall k :: 0 <= k < i ==> snapshots[k].id < id
      invariant id == now || exists k :: 0 <= k < i && id == snapshots[k].id + 1
    {
      assert snapshots[..i + 1][..i] == snapshots[..i];
      if snapshots[i].id >= id {
        id := snapshots[i].id + 1;
      }
    }
    assert snapshots[..|snapshots|] == snapshots;
  }

  lemma {:induction false} BumpIdAbove(now: int, snapshots: seq<TableSnapshot>)
    ensures now <= BumpId(now, snapshots)
    ensures forall i :: 0 <= i < |snapshots| ==> snapshots[i].id < BumpId(now, snapshots)
  {
    if snapshots != [] {
      BumpIdAbove(now, snapshots[..|snapshots| - 1]);
    }
  }

  /** The metadata a commit writes after the previous one. */
  function NextMetadata(prev: Option<Metadata>, snapshot: Snapshot, now: int, list: nat): Result<Metadata, SchemaError>
  {
    var prevSchema := if prev.Some? then Some(prev.value.schema) else None;
    match CommitSchema(prevSchema, snapshot.table)
    case Err(e) => Err(e)
    case Ok(w) =>
      var before := if prev.Some? then prev.value.snapshots else [];
      var id := BumpId(now, before);
      var schemaId := if prev.Some? then prev.value.currentSchemaId + 1 else 0;
      var sequence := if prev.Some? then prev.value.lastSequence + 1 else 1;
      var parent := if prev.Some? then prev.value.currentSnapshot else None;
      Ok(Metadata(sequence, now, schemaId, w, Some(SyncMetadata(snapshot.instant, snapshot.version)),
                  MappingForFields(w.fields), Some(id),
                  before + [TableSnapshot(id, parent, sequence, now, list, schemaId)]))
  }

  /** The same, through the loops of the conversion, the partition columns and the snapshot id. */
  method BuildMetadata(prev: Option<Metadata>, snapshot: Snapshot, now: int, list: nat) returns (r: Result<Metadata, SchemaError>)
    ensures r == NextMetadata(prev, snapshot, now, list)
  {
    var before := if prev.Some? then prev.value.snapshots else [];
    var id := NextSnapshotId(now, before);
    var schema := BuildSchema(if prev.Some? then Some(prev.value.schema) else None, snapshot.table);
    if schema.Err? {
      return Err(schema.error);
    }
    var schemaId, sequence, parent := 0, 1, None;
    if prev.Some? {
      schemaId, sequence, parent := prev.value.currentSchemaId + 1, prev.value.lastSequence + 1, prev.value.currentSnapshot;
    }
    var sync := Some(SyncMetadata(snapshot.instant, snapshot.version));
    var added := TableSnapshot(id, parent, sequence, now, list, schemaId);
    r := Ok(Metadata(sequence, now, schemaId, schema.value, sync, MappingForFields(schema.value.fields), Some(id), before + [added]));
  }

  method BuildSchema(prev: Option<Written>, t: Table) returns (r: Result<Written, SchemaError>)
    ensures r == CommitSchema(prev, t)
  {
    var ids, last := IdsOf(prev), LastOf(prev);
    var fields, lastColumn := IcebergSchema.SchemaToIceberg(t.fields, ids, last);
    r := PlacePartitions(fields, t.partitions, ids, lastColumn);
  }

  function Entries(files: seq<DataFile>): seq<ManifestEntry>
  {
    if files == [] then [] else [ManifestEntry(New, true, files[0])] + Entries(files[1..])
  }

  lemma {:induction false} EntriesRead(files: seq<DataFile>)
    ensures LiveEntries(Entries(files)) == files
  {
    if files != [] {
      EntriesRead(files[1..]);
    }
  }

  function PreviousMeta(st: Store): Option<Metadata>
  {
    if st.metadata == [] then None else Some(Last(st.metadata).meta)
  }

  function NextVersion(st: Store): int
  {
    if st.metadata == [] then 1 else Last(st.metadata).version + 1
  }

  function PutManifest(st: Store, files: seq<DataFile>): Store
  {
    st.(manifests := st.manifests[st.unused := Entries(files)], unused := st.unused + 1)
  }

  function PutList(st: Store, manifest: nat): Store
  {
    st.(lists := st.lists[st.unused := [ListEntry(manifest, true)]], unused := st.unused + 1)
  }

  function PutMetadata(st: Store, version: int, meta: Metadata): Store
  {
    st.(metadata := st.metadata + [MetadataFile(version, meta)])
  }

  /** The storage after each of the four writes of a commit: manifest, manifest list, metadata file,
      version hint. Conversion errors strike before the first. */
  function CommitWrites(st: Store, snapshot: Snapshot, now: int): Result<seq<Store>, SchemaError>
  {
    match NextMetadata(PreviousMeta(st), snapshot, now, st.unused + 1)
    case Err(e) => Err(e)
    case Ok(meta) =>
      var s1 := PutManifest(st, snapshot.files);
      var s2 := PutList(s1, st.unused);
      var s3 := PutMetadata(s2, NextVersion(st), meta);
      Ok([s1, s2, s3, s3.(hint := Some(NextVersion(st)))])
  }

  function ChangeSnapshot(change: TableChange, live: seq<DataFile>): Snapshot
  {
    Snapshot(change.table, change.instant, Applied(live, change.diff), change.version)
  }

  /** The states CommitChanges passes through, one commit per change, and whether it runs to the end.
      `clock` gives the wall-clock reading of each commit. */
  function ChangesWrites(st: Store, changes: seq<TableChange>, clock: seq<int>): (seq<Store>, bool)
    requires |clock| == |changes|
    decreases changes
  {
    if changes == [] then ([], true)
    else
      match LiveFiles(st)
      case Err(_) => ([], false)
      case Ok(live) =>
        match CommitWrites(st, ChangeSnapshot(changes[0], live), clock[0])
        case Err(_) => ([], false)
        case Ok(writes) =>
          var (rest, done) := ChangesWrites(writes[3], changes[1..], clock[1..]);
          (writes + rest, done)
  }

  /** Where CommitChanges ends on a given budget: storage, remaining budget, success. */
  function Outcome(st: Store, changes: seq<TableChange>, clock: seq<int>, budget: nat): (Store, nat, bool)
    requires |clock| == |changes|
  {
    Spent(st, ChangesWrites(st, changes, clock), budget)
  }

  /** Where a series of writes ends on a given budget. */
  function Spent(st: Store, all: (seq<Store>, bool), budget: nat): (Store, nat, bool)
  {
    (Stopped(st, all.0, budget), Max(0, budget - |all.0|), all.1 && budget >= |all.0|)
  }

  function FirstCommit(st: Store, change: TableChange, now: int): Option<seq<Store>>
  {
    match LiveFiles(st)
    case Err(_) => None
    case Ok(live) =>
      match CommitWrites(st, ChangeSnapshot(change, live), now)
      case Err(_) => None
      case Ok(writes) => Some(writes)
  }

  lemma {:induction false} ChangesStep(st: Store, changes: seq<TableChange>, clock: seq<int>, one: Option<seq<Store>>)
    requires |clock| == |changes| && changes != [] && one == FirstCommit(st, changes[0], clock[0])
    ensures one.None? ==> ChangesWrites(st, changes, clock) == ([], false)
    ensures one.Some? ==> |one.value| == 4 && FollowsFirst(ChangesWrites(st, changes, clock), one.value, ChangesWrites(one.value[3], changes[1..], clock[1..]))
  {
  }

  ghost predicate FollowsFirst(all: (seq<Store>, bool), one: seq<Store>, rest: (seq<Store>, bool))
  {
    all == (one + rest.0, rest.1)
  }

  lemma {:induction false} StoppedStep(st: Store, one: seq<Store>, all: (seq<Store>, bool), rest: (seq<Store>, bool), budget: nat)
    requires |one| == 4 && FollowsFirst(all, one, rest)
    ensures Spent(st, all, budget) == if budget < 4 then (Stopped(st, one, budget), 0, false) else Spent(one[3], rest, budget - 4)
  {
    StoppedConcat(st, one, rest.0, budget);
  }

  lemma {:induction false} OutcomeStep(st: Store, changes: seq<TableChange>, clock: seq<int>, budget: nat)
    requires |clock| == |changes| && changes != []
    ensures var one := FirstCommit(st, changes[0], clock[0]);
      Outcome(st, changes, clock, budget) ==
        if one.None? then (st, budget, false)
        else if budget < 4 then (Stopped(st, one.value, budget), 0, false)
        else Outcome(one.value[3], changes[1..], clock[1..], budget - 4)
  {
    var one := FirstCommit(st, changes[0], clock[0]);
    ChangesStep(st, changes, clock, one);
    if one.Some? {
      StoppedStep(st, one.value, ChangesWrites(st, changes, clock), ChangesWrites(one.value[3], changes[1..], clock[1..]), budget);
    }
  }

  /** A target whose storage accepts `budget` more writes. */
  class IcebergTarget {
    var store: Store
    var budget: nat

    constructor (store: Store, budget: nat)
      ensures this.store == store && this.budget == budget
    {
      this.store := store;
      this.budget := budget;
    }

    method GetTableMetadata() returns (sync: Option<SyncMetadata>)
      ensures sync == TableMetadata(store)
    {
      sync := if store.metadata == [] then None else Last(store.metadata).meta.sync;
    }

    /** One storage write: takes effect whole, or not at all once the budget is spent. */
    method Write(next: Store) returns (ok: bool)
      modifies this
      ensures ok == (old(budget) > 0)
      ensures store == (if ok then next else old(store)) && budget == (if ok then old(budget) - 1 else 0)
    {
      ok := budget > 0;
      if ok {
        store := next;
        budget := budget - 1;
      }
    }

    method CommitSnapshot(snapshot: Snapshot, now: int) returns (ok: bool)
      modifies this
      ensures var r := CommitWrites(old(store), snapshot, now);
        if r.Err? then !ok && store == old(store) && budget == old(budget)
        else && store == Stopped(old(store), r.value, old(budget))
             && ok == (old(budget) >= 4) && budget == Max(0, old(budget) - 4)
    {
      var next := BuildMetadata(PreviousMeta(store), snapshot, now, store.unused + 1);
      if next.Err? {
        return false;
      }
      var version, manifest := NextVersion(store), store.unused;
      ok := Write(PutManifest(store, snapshot.files));
      if !ok {
        return;
      }
      ok := Write(PutList(store, manifest));
      if !ok {
        return;
      }
      ok := Write(PutMetadata(store, version, next.value));
      if !ok {
        return;
      }
      ok := Write(store.(hint := Some(version)));
    }

    /** One change of CommitChanges: the live set read back, the diff applied, the result committed. */
    method CommitChange(change: TableChange, now: int) returns (ok: bool)
      modifies this
      ensures var one := FirstCommit(old(store), change, now);
        if one.None? then !ok && store == old(store) && budget == old(budget)
        else && store == Stopped(old(store), one.value, old(budget))
             && ok == (old(budget) >= 4) && budget == Max(0, old(budget) - 4)
    {
      var live := LiveFiles(store);
      if live.Err? {
        return false;
      }
      var files := ApplyFilesDiff(live.value, Some(change.diff));
      ok := CommitSnapshot(Snapshot(change.table, change.instant, files, change.version), now);
    }

    method CommitChanges(changes: seq<TableChange>, clock: seq<int>) returns (ok: bool)
      requires |clock| == |changes|
      modifies this
      ensures (store, budget, ok) == Outcome(old(store), changes, clock, old(budget))
    {
      ghost var goal := Outcome(store, changes, clock, budget);
      assert changes[0..] == changes && clock[0..] == clock;
      for i := 0 to |changes|
        invariant goal == Outcome(store, changes[i..], clock[i..], budget)
      {
        OutcomeStep(store, changes[i..], clock[i..], budget);
        assert changes[i..][1..] == changes[i + 1..] && clock[i..][1..] == clock[i + 1..];
        var committed := CommitChange(changes[i], clock[i]);
        if !committed {
          return false;
        }
      }
      ok := true;
    }
  }
}
