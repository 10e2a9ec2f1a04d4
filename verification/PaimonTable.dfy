/** The Paimon target (pkg/formats/paimon/target.go) over a storage of schemas, manifests, manifest lists,
    snapshots and hint files, with every intermediate state a failing write can leave behind. */
module PaimonTable {
  import opened Common
  import opened Files
  import opened Model
  import opened DeltaSource
  import opened PaimonReplay

  /** A snapshot file; those of other writers carry no sync properties and may lack a list. */
  datatype PaimonSnapshot = PaimonSnapshot(
    schemaId: nat, baseList: Option<nat>, deltaList: Option<nat>, sync: Option<SyncMetadata>,
    totalRecords: int, deltaRecords: int)

  /** Storage by kind. Manifests and lists carry generated names, `unused` being the next unused one. */
  datatype Disk = Disk(
    schemas: map<nat, string>, manifests: map<nat, seq<Entry>>, lists: map<nat, seq<nat>>,
    snapshots: map<nat, PaimonSnapshot>, earliest: Option<nat>, latest: Option<nat>, unused: nat)

  /** What the target needs to know of a table: its schema file's content, if it converts at all, and
      which files lie under the table's directory. */
  datatype Env = Env(convert: Table -> Option<string>, inside: string -> bool)

  // ---------------------------------------------------------------------------------------
  // Reading
  // ---------------------------------------------------------------------------------------

  ghost function NextId(ids: set<nat>): nat
  {
    if ids == {} then 1 else MaxOf(ids) + 1
  }

  ghost predicate Hinted(st: Disk)
  {
    st.latest.Some? && st.latest.value in st.snapshots
  }

  /** The hinted snapshot if it is there, else the highest numbered, if any. */
  ghost function Visible(st: Disk): Option<PaimonSnapshot>
  {
    if Hinted(st) then Some(st.snapshots[st.latest.value])
    else if st.snapshots.Keys == {} then None
    else Some(st.snapshots[MaxOf(st.snapshots.Keys)])
  }

  function ReadManifests(st: Disk, names: seq<nat>): Option<seq<Entry>>
  {
    if names == [] then Some([])
    else if Last(names) !in st.manifests then None
    else
      match ReadManifests(st, names[..|names| - 1])
      case None => None
      case Some(entries) => Some(entries + st.manifests[Last(names)])
  }

  function ReadManifestList(st: Disk, name: Option<nat>): Option<seq<Entry>>
  {
    if name.None? then Some([])
    else if name.value !in st.lists then None
    else ReadManifests(st, st.lists[name.value])
  }

  function SnapshotFiles(st: Disk, snap: PaimonSnapshot): Option<seq<DataFile>>
  {
    var base, delta := ReadManifestList(st, snap.baseList), ReadManifestList(st, snap.deltaList);
    if snap.schemaId !in st.schemas || base.None? || delta.None? then None
    else Some(Replayed(base.value + delta.value))
  }

  /** The files of the visible snapshot; none for a table without one; no answer if something is missing. */
  ghost function CurrentFiles(st: Disk): Option<seq<DataFile>>
  {
    if Visible(st).None? then Some([]) else SnapshotFiles(st, Visible(st).value)
  }

  ghost function TableMetadata(st: Disk): Option<SyncMetadata>
  {
    if Visible(st).None? then None else Visible(st).value.sync
  }

  // ---------------------------------------------------------------------------------------
  // Writing
  // ---------------------------------------------------------------------------------------

  /** The schema id a commit refers to, and the write that records it when the latest one differs. */
  ghost function EnsureTrace(st: Disk, schema: string): (seq<Disk>, nat)
  {
    if st.schemas.Keys == {} then ([st.(schemas := st.schemas[0 := schema])], 0)
    else
      var latest := MaxOf(st.schemas.Keys);
      if st.schemas[latest] == schema then ([], latest)
      else ([st.(schemas := st.schemas[latest + 1 := schema])], latest + 1)
  }

  function PutManifest(st: Disk, entries: seq<Entry>): Disk
  {
    st.(manifests := st.manifests[st.unused := entries], unused := st.unused + 1)
  }

  /** The manifest, if there are entries, then the list naming it; both under the next unused name. */
  function ListTrace(st: Disk, entries: seq<Entry>): (w: seq<Disk>)
    ensures w != []
  {
    if entries == [] then [st.(lists := st.lists[st.unused := []], unused := st.unused + 1)]
    else
      var s1 := PutManifest(st, entries);
      [s1, s1.(lists := s1.lists[st.unused := [st.unused]])]
  }

  function WithSnapshot(st: Disk, id: nat, snap: PaimonSnapshot): Disk
  {
    st.(snapshots := st.snapshots[id := snap])
  }

  /** The snapshot, the EARLIEST hint for the very first one, the LATEST hint. */
  function PublishTrace(st: Disk, id: nat, snap: PaimonSnapshot): (w: seq<Disk>)
    ensures w != []
  {
    var s1 := WithSnapshot(st, id, snap);
    if id == 1 then [s1, s1.(earliest := Some(1)), s1.(earliest := Some(1), latest := Some(1))]
    else [s1, s1.(latest := Some(id))]
  }

  function SnapshotOf(st: Disk, s1: Disk, schemaId: nat, base: seq<DataFile>, d: FilesDiff, sync: SyncMetadata): PaimonSnapshot
  {
    PaimonSnapshot(schemaId, Some(st.unused), Some(s1.unused), Some(sync), TotalRecords(base, d), TotalRecords([], d))
  }

  /** The writes from the delta list on; `st` is the storage the commit started from. */
  ghost function DeltaTrace(st: Disk, s1: Disk, schemaId: nat, base: seq<DataFile>, d: FilesDiff, sync: SyncMetadata): (w: seq<Disk>)
    ensures w != []
  {
    var t2 := ListTrace(s1, DeltaEntries(d));
    t2 + PublishTrace(Last(t2), NextId(Last(t2).snapshots.Keys), SnapshotOf(st, s1, schemaId, base, d, sync))
  }

  ghost function CommitTrace(st: Disk, schemaId: nat, base: seq<DataFile>, d: FilesDiff, sync: SyncMetadata): (w: seq<Disk>)
    ensures w != []
  {
    var t1 := ListTrace(st, EntriesOf(KindAdd, base));
    t1 + DeltaTrace(st, Last(t1), schemaId, base, d, sync)
  }

  predicate Placed(env: Env, files: seq<DataFile>)
  {
    forall f :: f in files ==> env.inside(f.path)
  }

  /** One commit: the schema first, then the rest; a file outside the table fails it in between. */
  ghost function StepTrace(env: Env, st: Disk, base: seq<DataFile>, d: FilesDiff, table: Table, sync: SyncMetadata): (seq<Disk>, bool)
  {
    match env.convert(table)
    case None => ([], false)
    case Some(schema) =>
      var (w, id) := EnsureTrace(st, schema);
      if Placed(env, base) && Placed(env, d.removed) && Placed(env, d.added)
      then (w + CommitTrace(EndOf(st, w), id, base, d, sync), true)
      else (w, false)
  }

  /** One commit per change, the file list carried along by folding, the watermark never going back. */
  ghost function ChangesTrace(env: Env, st: Disk, base: seq<DataFile>, changes: seq<TableChange>, reached: int): (seq<Disk>, bool)
    decreases changes
  {
    if changes == [] then ([], true)
    else
      var instant := Max(reached, changes[0].instant);
      var (w, done) := StepTrace(env, st, base, changes[0].diff, changes[0].table, SyncMetadata(instant, changes[0].version));
      if !done then (w, false)
      else
        var (rest, all) := ChangesTrace(env, EndOf(st, w), Folded(base, changes[0].diff), changes[1..], instant);
        (w + rest, all)
  }

  /** A run of writes on a storage that accepts n more: where it ends, and whether it ran to the end. */
  ghost predicate Ran(st: Disk, n: nat, w: seq<Disk>, done: bool, st': Disk, n': nat, ok: bool)
  {
    st' == Stopped(st, w, n) && n' == Max(0, n - |w|) && (ok <==> done && n >= |w|)
  }

  lemma {:induction false} RanThen(st: Disk, n: nat, a: seq<Disk>, s1: Disk, n1: nat, b: seq<Disk>, done: bool, s2: Disk, n2: nat, ok: bool)
    requires Ran(st, n, a, true, s1, n1, true) && Ran(s1, n1, b, done, s2, n2, ok)
    ensures Ran(st, n, a + b, done, s2, n2, ok) && s1 == EndOf(st, a)
  {
    StoppedAppend(st, a, b, n);
  }

  lemma {:induction false} RanShort(st: Disk, n: nat, a: seq<Disk>, s1: Disk, n1: nat, b: seq<Disk>, done: bool)
    requires Ran(st, n, a, true, s1, n1, false)
    ensures Ran(st, n, a + b, done, s1, n1, false)
  {
    StoppedAppend(st, a, b, n);
  }

  /** How far CommitChanges is: `past` written, the rest of the goal w still to come. */
  ghost predicate Underway(env: Env, st: Disk, n: nat, past: seq<Disk>, now: Disk, left: nat, base: seq<DataFile>,
                           changes: seq<TableChange>, reached: int, w: seq<Disk>, done: bool)
  {
    && Ran(st, n, past, true, now, left, true)
    && (w, done) == (past + ChangesTrace(env, now, base, changes, reached).0, ChangesTrace(env, now, base, changes, reached).1)
  }

  ghost function NextStep(env: Env, now: Disk, base: seq<DataFile>, change: TableChange, reached: int): (seq<Disk>, bool)
  {
    StepTrace(env, now, base, change.diff, change.table, SyncMetadata(Max(reached, change.instant), change.version))
  }

  ghost function Later(env: Env, now: Disk, base: seq<DataFile>, changes: seq<TableChange>, reached: int): (seq<Disk>, bool)
    requires changes != []
  {
    ChangesTrace(env, now, Folded(base, changes[0].diff), changes[1..], Max(reached, changes[0].instant))
  }

  lemma {:induction false} ChangesUnfold(env: Env, now: Disk, base: seq<DataFile>, changes: seq<TableChange>, reached: int)
    requires changes != [] && NextStep(env, now, base, changes[0], reached).1
    ensures var one := NextStep(env, now, base, changes[0], reached).0;
      ChangesTrace(env, now, base, changes, reached) ==
        (one + Later(env, EndOf(now, one), base, changes, reached).0, Later(env, EndOf(now, one), base, changes, reached).1)
  {
  }

  lemma {:induction false} Regroup(st: Disk, n: nat, past: seq<Disk>, now: Disk, left: nat, one: seq<Disk>, now': Disk, left': nat, rest: seq<Disk>)
    requires Ran(st, n, past, true, now, left, true) && Ran(now, left, one, true, now', left', true)
    ensures Ran(st, n, past + one, true, now', left', true) && EndOf(now, one) == now'
    ensures past + (one + rest) == (past + one) + rest
  {
    RanThen(st, n, past, now, left, one, true, now', left', true);
    RanThen(now, left, one, now', left', [], true, now', left', true);
  }

  lemma {:induction false} StepGoesOn(env: Env, st: Disk, n: nat, past: seq<Disk>, now: Disk, left: nat, base: seq<DataFile>,
                                      changes: seq<TableChange>, reached: int, w: seq<Disk>, done: bool,
                                      one: seq<Disk>, now': Disk, left': nat)
    requires changes != [] && Underway(env, st, n, past, now, left, base, changes, reached, w, done)
    requires NextStep(env, now, base, changes[0], reached) == (one, true) && Ran(now, left, one, true, now', left', true)
    ensures Underway(env, st, n, past + one, now', left', Folded(base, changes[0].diff), changes[1..],
                     Max(reached, changes[0].instant), w, done)
  {
    ChangesUnfold(env, now, base, changes, reached);
    Regroup(st, n, past, now, left, one, now', left', Later(env, now', base, changes, reached).0);
  }

  lemma {:induction false} StepFails(env: Env, st: Disk, n: nat, past: seq<Disk>, now: Disk, left: nat, base: seq<DataFile>,
                                     changes: seq<TableChange>, reached: int, w: seq<Disk>, done: bool, now': Disk, left': nat)
    requires changes != [] && Underway(env, st, n, past, now, left, base, changes, reached, w, done)
    requires var (one, placed) := NextStep(env, now, base, changes[0], reached); Ran(now, left, one, placed, now', left', false)
    ensures Ran(st, n, w, done, now', left', false)
  {
    var (one, placed) := NextStep(env, now, base, changes[0], reached);
    if placed {
      var (rest, all) := ChangesTrace(env, EndOf(now, one), Folded(base, changes[0].diff), changes[1..], Max(reached, changes[0].instant));
      RanShort(now, left, one, now', left', rest, all);
      RanThen(st, n, past, now, left, one + rest, all, now', left', false);
    } else {
      RanThen(st, n, past, now, left, one, false, now', left', false);
    }
  }

  /** The numbered files of a directory, in numeric order whatever order storage lists them in. */
  method ListVersioned<T>(dir: map<nat, T>) returns (ids: seq<nat>)
    ensures forall id :: id in ids <==> id in dir
    ensures forall i, j :: 0 <= i < j < |ids| ==> ids[i] <= ids[j]
    ensures ids == [] <==> dir.Keys == {}
    ensures ids != [] ==> Last(ids) == MaxOf(dir.Keys)
  {
    var listed: seq<nat> := [];
    var rest := dir.Keys;
    while rest != {}
      invariant forall id :: id in dir <==> id in listed || id in rest
    {
      var id :| id in rest;
      listed := listed + [id];
      rest := rest - {id};
    }
    var le := (a: nat, b: nat) => a <= b;
    SortIsSort(listed, le);
    ids := Sort(listed, le);
    SameMembers(ids, listed);
    SortedListing(ids, dir.Keys, le);
  }

  /** In a sorted listing the last number is the highest. */
  lemma {:induction false} SortedListing(ids: seq<nat>, keys: set<nat>, le: (nat, nat) -> bool)
    requires SortedBy(ids, le) && (forall a, b :: le(a, b) <==> a <= b) && forall id :: id in ids <==> id in keys
    ensures forall i, j :: 0 <= i < j < |ids| ==> ids[i] <= ids[j]
    ensures (ids == [] <==> keys == {}) && (ids != [] ==> Last(ids) == MaxOf(keys))
  {
    if ids == [] {
      assert keys == {};
    } else {
      assert Last(ids) in ids && Last(ids) in keys;
      forall id | id in keys ensures id <= Last(ids) {
        var i :| 0 <= i < |ids| && ids[i] == id;
        assert i < |ids| - 1 ==> le(ids[i], ids[|ids| - 1]);
      }
      assert IsMax(keys, Last(ids));
    }
  }

  /** A target whose storage accepts `budget` more writes. */
  class PaimonTarget {
    const env: Env
    var disk: Disk
    var budget: nat

    constructor (env: Env, disk: Disk, budget: nat)
      ensures this.env == env && this.disk == disk && this.budget == budget
    {
      this.env := env;
      this.disk := disk;
      this.budget := budget;
    }

    method LatestSnapshot() returns (snap: Option<PaimonSnapshot>)
      ensures snap == Visible(disk)
    {
      if disk.latest.Some? && disk.latest.value in disk.snapshots {
        return Some(disk.snapshots[disk.latest.value]);
      }
      var ids := ListVersioned(disk.snapshots);
      if ids == [] {
        return None;
      }
      snap := Some(disk.snapshots[Last(ids)]);
    }

    method GetTableMetadata() returns (sync: Option<SyncMetadata>)
      ensures sync == TableMetadata(disk)
    {
      var snap := LatestSnapshot();
      sync := if snap.None? then None else snap.value.sync;
    }

    method GetCurrentFiles() returns (files: Option<seq<DataFile>>)
      ensures files == CurrentFiles(disk)
    {
      var snap := LatestSnapshot();
      if snap.None? {
        return Some([]);
      }
      var base := ReadManifestList(disk, snap.value.baseList);
      var delta := ReadManifestList(disk, snap.value.deltaList);
      if snap.value.schemaId !in disk.schemas || base.None? || delta.None? {
        return None;
      }
      var live := PaimonReplay.LiveFiles(base.value, delta.value);
      files := Some(live);
    }

    /** One storage write: takes effect whole, or not at all once the budget is spent. */
    method Write(next: Disk) returns (ok: bool)
      modifies this
      ensures Ran(old(disk), old(budget), [next], true, disk, budget, ok)
    {
      ok := budget > 0;
      if ok {
        disk := next;
        budget := budget - 1;
      }
    }

    method EnsureSchema(schema: string) returns (ok: bool, id: nat)
      modifies this
      ensures Ran(old(disk), old(budget), EnsureTrace(old(disk), schema).0, true, disk, budget, ok)
      ensures id == EnsureTrace(old(disk), schema).1
    {
      var ids := ListVersioned(disk.schemas);
      id := 0;
      if ids != [] {
        if disk.schemas[Last(ids)] == schema {
          return true, Last(ids);
        }
        id := Last(ids) + 1;
      }
      ok := Write(disk.(schemas := disk.schemas[id := schema]));
    }

    method WriteManifestList(entries: seq<Entry>) returns (ok: bool, name: nat)
      modifies this
      ensures Ran(old(disk), old(budget), ListTrace(old(disk), entries), true, disk, budget, ok)
      ensures name == old(disk).unused
    {
      name := disk.unused;
      if entries != [] {
        ok := Write(PutManifest(disk, entries));
        if !ok {
          return;
        }
        ok := Write(disk.(lists := disk.lists[name := [name]]));
      } else {
        ok := Write(disk.(lists := disk.lists[name := []], unused := name + 1));
      }
    }

    method Publish(id: nat, snap: PaimonSnapshot) returns (ok: bool)
      modifies this
      ensures Ran(old(disk), old(budget), PublishTrace(old(disk), id, snap), true, disk, budget, ok)
    {
      ok := Write(WithSnapshot(disk, id, snap));
      if !ok {
        return;
      }
      if id == 1 {
        ok := Write(disk.(earliest := Some(id)));
        if !ok {
          return;
        }
      }
      ok := Write(disk.(latest := Some(id)));
    }

    method PublishNext(snap: PaimonSnapshot) returns (ok: bool)
      modifies this
      ensures Ran(old(disk), old(budget), PublishTrace(old(disk), NextId(old(disk).snapshots.Keys), snap), true, disk, budget, ok)
    {
      var ids := ListVersioned(disk.snapshots);
      var id := if ids == [] then 1 else Last(ids) + 1;
      ok := Publish(id, snap);
    }

    method CommitDelta(schemaId: nat, ghost st: Disk, baseList: nat, base: seq<DataFile>, d: FilesDiff, sync: SyncMetadata) returns (ok: bool)
      requires baseList == st.unused
      modifies this
      ensures Ran(old(disk), old(budget), DeltaTrace(st, old(disk), schemaId, base, d, sync), true, disk, budget, ok)
    {
      ghost var s1, n1 := disk, budget;
      ghost var t2 := ListTrace(s1, DeltaEntries(d));
      ghost var t3 := PublishTrace(Last(t2), NextId(Last(t2).snapshots.Keys), SnapshotOf(st, s1, schemaId, base, d, sync));
      var deltaList;
      ok, deltaList := WriteManifestList(DeltaEntries(d));
      if !ok {
        RanShort(s1, n1, t2, disk, budget, t3, true);
        return;
      }
      ghost var s2, n2 := disk, budget;
      RanThen(s1, n1, t2, s2, n2, [], true, s2, n2, true);
      var inBase := SumRecords(base);
      var added := SumRecords(d.added);
      var removed := SumRecords(d.removed);
      ok := PublishNext(PaimonSnapshot(schemaId, Some(baseList), Some(deltaList), Some(sync), inBase + added - removed, added - removed));
      RanThen(s1, n1, t2, s2, n2, t3, true, disk, budget, ok);
    }

    method Commit(schemaId: nat, base: seq<DataFile>, d: FilesDiff, sync: SyncMetadata) returns (ok: bool)
      modifies this
      ensures Ran(old(disk), old(budget), CommitTrace(old(disk), schemaId, base, d, sync), true, disk, budget, ok)
    {
      ghost var st, n := disk, budget;
      ghost var t1 := ListTrace(st, EntriesOf(KindAdd, base));
      ghost var rest := DeltaTrace(st, Last(t1), schemaId, base, d, sync);
      var baseList;
      ok, baseList := WriteManifestList(EntriesOf(KindAdd, base));
      if !ok {
        RanShort(st, n, t1, disk, budget, rest, true);
        return;
      }
      ghost var s1, n1 := disk, budget;
      RanThen(st, n, t1, s1, n1, [], true, s1, n1, true);
      ok := CommitDelta(schemaId, st, baseList, base, d, sync);
      RanThen(st, n, t1, s1, n1, rest, true, disk, budget, ok);
    }

    method CommitStep(base: seq<DataFile>, d: FilesDiff, table: Table, sync: SyncMetadata) returns (ok: bool)
      modifies this
      ensures var (w, done) := StepTrace(env, old(disk), base, d, table, sync);
        Ran(old(disk), old(budget), w, done, disk, budget, ok)
    {
      var schema := env.convert(table);
      if schema.None? {
        return false;
      }
      ghost var st, n := disk, budget;
      ghost var (w, id) := EnsureTrace(st, schema.value);
      ghost var rest := CommitTrace(EndOf(st, w), id, base, d, sync);
      var schemaId;
      ok, schemaId := EnsureSchema(schema.value);
      if !ok {
        RanShort(st, n, w, disk, budget, rest, true);
        return;
      }
      if !(Placed(env, base) && Placed(env, d.removed) && Placed(env, d.added)) {
        return false;
      }
      ghost var s1, n1 := disk, budget;
      RanThen(st, n, w, s1, n1, [], true, s1, n1, true);
      ok := Commit(schemaId, base, d, sync);
      RanThen(st, n, w, s1, n1, rest, true, disk, budget, ok);
    }

    /** A full snapshot carries no base: the delta alone is the whole file list. */
    method CommitSnapshot(snapshot: Snapshot) returns (ok: bool)
      modifies this
      ensures var (w, done) := StepTrace(env, old(disk), [], FilesDiff(snapshot.files, []), snapshot.table,
                                         SyncMetadata(snapshot.instant, snapshot.version));
        Ran(old(disk), old(budget), w, done, disk, budget, ok)
    {
      ok := CommitStep([], FilesDiff(snapshot.files, []), snapshot.table, SyncMetadata(snapshot.instant, snapshot.version));
    }

    method CommitChanges(changes: seq<TableChange>) returns (ok: bool)
      modifies this
      ensures if CurrentFiles(old(disk)).None? then !ok && disk == old(disk) && budget == old(budget)
        else
          var (w, done) := ChangesTrace(env, old(disk), CurrentFiles(old(disk)).value, changes, 0);
          Ran(old(disk), old(budget), w, done, disk, budget, ok)
    {
      var files := GetCurrentFiles();
      if files.None? {
        return false;
      }
      var base, reached := files.value, 0;
      ghost var st, n := disk, budget;
      ghost var (w, done) := ChangesTrace(env, st, base, changes, 0);
      ghost var past: seq<Disk> := [];
      assert changes[0..] == changes && past + w == w;
      for i := 0 to |changes|
        invariant Underway(env, st, n, past, disk, budget, base, changes[i..], reached, w, done)
      {
        var change := changes[i];
        assert changes[i..][0] == change && changes[i..][1..] == changes[i + 1..];
        ghost var now, left, was := disk, budget, reached;
        reached := Max(reached, change.instant);
        var committed := CommitStep(base, change.diff, change.table, SyncMetadata(reached, change.version));
        if !committed {
          StepFails(env, st, n, past, now, left, base, changes[i..], was, w, done, disk, budget);
          return false;
        }
        ghost var one := NextStep(env, now, base, change, was).0;
        StepGoesOn(env, st, n, past, now, left, base, changes[i..], was, w, done, one, disk, budget);
        past := past + one;
        base := ApplyDiff(base, change.diff.added, change.diff.removed);
      }
      assert past + [] == past;
      ok := true;
    }
  }
}
