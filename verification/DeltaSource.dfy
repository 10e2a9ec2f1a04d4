/** The readers of pkg/formats/delta/source.go over one listing of the log, and what they see of the
    history behind it. */
module DeltaSource {
  import opened Common
  import opened Files
  import opened Model
  import opened Instants
  import opened DeltaLog
  import Diffing

  /** A retained JSON commit file. */
  datatype CommitFile = CommitFile(version: int, commit: Commit)

  datatype Checkpoint = Checkpoint(version: int, table: Table, adds: seq<DataFile>)

  /** One listing: the commit files sorted by version, and the checkpoint `_last_checkpoint` names. */
  datatype Log = Log(files: seq<CommitFile>, checkpoint: Option<Checkpoint>)

  datatype LogState = LogState(checkpoint: Option<Checkpoint>, tail: seq<CommitFile>)

  datatype LogError =
    | Truncated(earliest: int)
    | EmptyLog
    | Predates(version: int, checkpoint: int)
    | NoMetadata(version: int)

  datatype TableVersion = TableVersion(table: Table, instant: int)

  datatype Snapshot = Snapshot(table: Table, instant: int, files: seq<DataFile>, version: int)

  datatype TableChange = TableChange(diff: FilesDiff, table: Table, version: int, instant: int)

  predicate Sorted(files: seq<CommitFile>)
  {
    forall i, j :: 0 <= i < j < |files| ==> files[i].version < files[j].version
  }

  // ---------------------------------------------------------------------------------------
  // Loading the log
  // ---------------------------------------------------------------------------------------

  function After(files: seq<CommitFile>, version: int): seq<CommitFile>
  {
    if files == [] then []
    else
      var rest := After(files[..|files| - 1], version);
      if Last(files).version > version then rest + [Last(files)] else rest
  }

  function LoadedState(log: Log): Result<LogState, LogError>
  {
    match log.checkpoint
    case None =>
      if log.files != [] && log.files[0].version > 0 then Err(Truncated(log.files[0].version))
      else Ok(LogState(None, log.files))
    case Some(cp) => Ok(LogState(Some(cp), After(log.files, cp.version)))
  }

  method LoadLogState(log: Log) returns (r: Result<LogState, LogError>)
    ensures r == LoadedState(log)
  {
    if log.checkpoint.None? {
      if log.files != [] && log.files[0].version > 0 {
        return Err(Truncated(log.files[0].version));
      }
      return Ok(LogState(None, log.files));
    }
    var cp := log.checkpoint.value;
    var tail := [];
    for i := 0 to |log.files|
      invariant tail == After(log.files[..i], cp.version)
    {
      assert log.files[..i + 1][..i] == log.files[..i];
      if log.files[i].version > cp.version {
        tail := tail + [log.files[i]];
      }
    }
    assert log.files[..|log.files|] == log.files;
    r := Ok(LogState(Some(cp), tail));
  }

  function LatestVersion(st: LogState): Option<int>
  {
    if st.tail != [] then Some(Last(st.tail).version)
    else if st.checkpoint.Some? then Some(st.checkpoint.value.version)
    else None
  }

  function Commits(files: seq<CommitFile>): seq<Commit>
  {
    seq(|files|, i requires 0 <= i < |files| => files[i].commit)
  }

  lemma {:induction false} CommitsStep(files: seq<CommitFile>, i: nat)
    requires i < |files|
    ensures Commits(files[..i + 1]) == Commits(files[..i]) + [files[i].commit]
    ensures Raws(Commits(files[..i + 1])) == Raws(Commits(files[..i])) + [RawTime(files[i].commit)]
    ensures Chain(Raws(Commits(files[..i + 1]))) == Advance(Chain(Raws(Commits(files[..i]))), RawTime(files[i].commit))
  {
    var a, b := Raws(Commits(files[..i])), Raws(Commits(files[..i + 1]));
    assert b == a + [RawTime(files[i].commit)];
    assert b[..|b| - 1] == a;
  }

  // ---------------------------------------------------------------------------------------
  // The table at a version
  // ---------------------------------------------------------------------------------------

  function BaseTable(st: LogState): Option<Table>
  {
    if st.checkpoint.Some? then Some(st.checkpoint.value.table) else None
  }

  function BaseLive(st: LogState): map<string, DataFile>
  {
    if st.checkpoint.Some? then ToMap(st.checkpoint.value.adds) else map[]
  }

  /** The tail up to the first version past the target. */
  function UpTo(tail: seq<CommitFile>, target: int): seq<CommitFile>
  {
    if tail == [] || tail[0].version > target then [] else [tail[0]] + UpTo(tail[1..], target)
  }

  function TableAtSpec(st: LogState, target: int): Result<TableVersion, LogError>
  {
    if st.checkpoint.Some? && target < st.checkpoint.value.version then
      Err(Predates(target, st.checkpoint.value.version))
    else
      var seen := Commits(UpTo(st.tail, target));
      match TableOf(BaseTable(st), seen)
      case None => Err(NoMetadata(target))
      case Some(t) => Ok(TableVersion(t, Chain(Raws(seen))))
  }

  method LastMetaData(previous: Option<Table>, c: Commit) returns (t: Option<Table>)
    ensures t == LatestTable(previous, c)
  {
    t := previous;
    for i := 0 to |c|
      invariant t == LatestTable(previous, c[..i])
    {
      assert c[..i + 1][..i] == c[..i];
      if c[i].MetaData? {
        t := Some(c[i].table);
      }
    }
    assert c[..|c|] == c;
  }

  lemma {:induction false} UpToPrefix(tail: seq<CommitFile>, target: int, i: nat)
    requires i <= |tail|
    requires forall k :: 0 <= k < i ==> tail[k].version <= target
    requires i == |tail| || tail[i].version > target
    ensures UpTo(tail, target) == tail[..i]
  {
    if i > 0 {
      UpToPrefix(tail[1..], target, i - 1);
      assert tail[..i] == [tail[0]] + tail[1..][..i - 1];
    }
  }

  method TableAt(st: LogState, target: int) returns (r: Result<TableVersion, LogError>)
    ensures r == TableAtSpec(st, target)
  {
    if st.checkpoint.Some? && target < st.checkpoint.value.version {
      return Err(Predates(target, st.checkpoint.value.version));
    }
    var latest, commitTime := FoldTail(BaseTable(st), st.tail, target);
    r := match latest case None => Err(NoMetadata(target)) case Some(t) => Ok(TableVersion(t, commitTime));
  }

  method FoldTail(base: Option<Table>, tail: seq<CommitFile>, target: int) returns (latest: Option<Table>, commitTime: int)
    ensures latest == TableOf(base, Commits(UpTo(tail, target))) && commitTime == Chain(Raws(Commits(UpTo(tail, target))))
  {
    latest, commitTime := base, 0;
    var i := 0;
    while i < |tail| && tail[i].version <= target
      invariant 0 <= i <= |tail|
      invariant forall k :: 0 <= k < i ==> tail[k].version <= target
      invariant latest == TableOf(base, Commits(tail[..i])) && commitTime == Chain(Raws(Commits(tail[..i])))
    {
      CommitsStep(tail, i);
      TableStep(base, tail, i);
      commitTime := Advance(commitTime, RawTime(tail[i].commit));
      latest := LastMetaData(latest, tail[i].commit);
      i := i + 1;
    }
    UpToPrefix(tail, target, i);
  }

  lemma {:induction false} TableStep(base: Option<Table>, tail: seq<CommitFile>, i: nat)
    requires i < |tail|
    ensures TableOf(base, Commits(tail[..i + 1])) == LatestTable(TableOf(base, Commits(tail[..i])), tail[i].commit)
  {
    assert Commits(tail[..i + 1])[..i] == Commits(tail[..i]);
  }

  // ---------------------------------------------------------------------------------------
  // The current snapshot
  // ---------------------------------------------------------------------------------------

  /** What GetCurrentSnapshot may return. The file list is a map iteration, so its order is open. */
  ghost predicate IsCurrentSnapshot(log: Log, r: Result<Snapshot, LogError>)
  {
    match LoadedState(log)
    case Err(e) => r == Err(e)
    case Ok(st) =>
      match LatestVersion(st)
      case None => r == Err(EmptyLog)
      case Some(v) =>
        match TableAtSpec(st, v)
        case Err(e) => r == Err(e)
        case Ok(t) =>
          && r.Ok?
          && r.value.table == t.table && r.value.instant == t.instant && r.value.version == v
          && Diffing.UniquePaths(r.value.files)
          && ToMap(r.value.files) == ReplayAll(BaseLive(st), Commits(st.tail))
  }

  method ReplayCommit(live: map<string, DataFile>, c: Commit) returns (out: map<string, DataFile>)
    ensures out == Replay(live, c)
  {
    out := live;
    for i := 0 to |c|
      invariant out == Replay(live, c[..i])
    {
      assert c[..i + 1][..i] == c[..i];
      match c[i]
      case AddFile(f) => out := out[f.path := f];
      case RemoveFile(p) => out := out - {p};
      case _ =>
    }
    assert c[..|c|] == c;
  }

  /** The files list the map without the keys still to come. */
  ghost predicate Lists(files: seq<DataFile>, live: map<string, DataFile>, todo: set<string>)
  {
    ToMap(files) == live - todo && Diffing.UniquePaths(files)
  }

  lemma {:induction false} ListOne(files: seq<DataFile>, live: map<string, DataFile>, todo: set<string>, p: string)
    requires Lists(files, live, todo) && p in todo && p in live && live[p].path == p
    ensures Lists(files + [live[p]], live, todo - {p})
  {
    ListUnique(files, live[p]);
    MapSnoc(files, live[p]);
    OneLess(live, todo, p);
  }

  lemma {:induction false} ListUnique(files: seq<DataFile>, f: DataFile)
    requires Diffing.UniquePaths(files) && f.path !in ToMap(files)
    ensures Diffing.UniquePaths(files + [f])
  {
    ToMapKeys(files);
    Diffing.Appended(files, f);
  }

  lemma {:induction false} MapSnoc(files: seq<DataFile>, f: DataFile)
    ensures ToMap(files + [f]) == ToMap(files)[f.path := f]
  {
    assert (files + [f])[..|files|] == files;
  }

  lemma {:induction false} OneLess(live: map<string, DataFile>, todo: set<string>, p: string)
    requires p in todo && p in live
    ensures live - (todo - {p}) == (live - todo)[p := live[p]]
  {
  }

  method ListFiles(live: map<string, DataFile>) returns (files: seq<DataFile>)
    requires forall p :: p in live ==> live[p].path == p
    ensures ToMap(files) == live && Diffing.UniquePaths(files)
  {
    files := [];
    var todo := live.Keys;
    assert Lists(files, live, todo);
    while todo != {}
      invariant todo <= live.Keys && Lists(files, live, todo)
      decreases |todo|
    {
      var p :| p in todo;
      ListOne(files, live, todo, p);
      files := files + [live[p]];
      todo := todo - {p};
    }
    assert live - todo == live;
  }

  lemma {:induction false} ReplayKeys(live: map<string, DataFile>, c: Commit)
    requires forall p :: p in live ==> live[p].path == p
    ensures forall p :: p in Replay(live, c) ==> Replay(live, c)[p].path == p
  {
    if c != [] {
      ReplayKeys(live, c[..|c| - 1]);
    }
  }

  method GetCurrentSnapshot(log: Log) returns (r: Result<Snapshot, LogError>)
    ensures IsCurrentSnapshot(log, r)
  {
    var loaded := LoadLogState(log);
    if loaded.Err? {
      return Err(loaded.error);
    }
    var st := loaded.value;
    var latest := LatestVersion(st);
    if latest.None? {
      return Err(EmptyLog);
    }
    var table := TableAt(st, latest.value);
    if table.Err? {
      return Err(table.error);
    }
    var active: map<string, DataFile> := map[];
    if st.checkpoint.Some? {
      active := Diffing.IndexByPath(st.checkpoint.value.adds);
      ToMapKeys(st.checkpoint.value.adds);
    }
    for i := 0 to |st.tail|
      invariant active == ReplayAll(BaseLive(st), Commits(st.tail[..i]))
      invariant forall p :: p in active ==> active[p].path == p
    {
      CommitsStep(st.tail, i);
      assert Commits(st.tail[..i + 1])[..i] == Commits(st.tail[..i]);
      ReplayKeys(active, st.tail[i].commit);
      active := ReplayCommit(active, st.tail[i].commit);
    }
    assert st.tail[..|st.tail|] == st.tail;
    var files := ListFiles(active);
    r := Ok(Snapshot(table.value.table, table.value.instant, files, latest.value));
  }

  // ---------------------------------------------------------------------------------------
  // The backlog of changes
  // ---------------------------------------------------------------------------------------

  function Backlog(base: Option<Table>, tail: seq<CommitFile>, from: int): Result<seq<TableChange>, LogError>
  {
    if tail == [] then Ok([])
    else
      match Backlog(base, tail[..|tail| - 1], from)
      case Err(e) => Err(e)
      case Ok(before) =>
        var instant, f := Chain(Raws(Commits(tail))), Last(tail);
        if instant <= from then Ok(before)
        else
          match TableOf(base, Commits(tail))
          case None => Err(NoMetadata(f.version))
          case Some(t) => Ok(before + [TableChange(DiffOf(f.commit), t, f.version, instant)])
  }

  function ChangesSince(log: Log, from: int): Result<seq<TableChange>, LogError>
  {
    match LoadedState(log)
    case Err(e) => Err(e)
    case Ok(st) =>
      match LatestVersion(st)
      case None => Err(EmptyLog)
      case Some(v) =>
        match Backlog(BaseTable(st), st.tail, from)
        case Err(e) => Err(e)
        case Ok(changes) =>
          if TableOf(BaseTable(st), Commits(st.tail)).None? then Err(NoMetadata(v)) else Ok(changes)
  }

  method ChangeFromCommit(f: CommitFile, table: Table, instant: int) returns (change: TableChange)
    ensures change == TableChange(DiffOf(f.commit), table, f.version, instant)
  {
    var added, removed := [], [];
    var c := f.commit;
    for i := 0 to |c|
      invariant added == Added(c[..i]) && removed == Removed(c[..i])
    {
      assert c[..i + 1][..i] == c[..i];
      if c[i].AddFile? {
        added := added + [c[i].file];
      }
      if c[i].RemoveFile? {
        removed := removed + [DataFile(c[i].path, 0, 0)];
      }
    }
    assert c[..|c|] == c;
    change := TableChange(FilesDiff(added, removed), table, f.version, instant);
  }

  method GetChangesSince(log: Log, from: int) returns (r: Result<seq<TableChange>, LogError>)
    ensures r == ChangesSince(log, from)
  {
    var loaded := LoadLogState(log);
    if loaded.Err? {
      return Err(loaded.error);
    }
    var st := loaded.value;
    var latest := LatestVersion(st);
    if latest.None? {
      return Err(EmptyLog);
    }
    var changes: seq<TableChange> := [];
    var table: Option<Table> := if st.checkpoint.Some? then Some(st.checkpoint.value.table) else None;
    var commitTime := 0;
    for i := 0 to |st.tail|
      invariant Backlog(BaseTable(st), st.tail[..i], from) == Ok(changes)
      invariant table == TableOf(BaseTable(st), Commits(st.tail[..i]))
      invariant commitTime == Chain(Raws(Commits(st.tail[..i])))
    {
      var f := st.tail[i];
      CommitsStep(st.tail, i);
      assert Commits(st.tail[..i + 1])[..i] == Commits(st.tail[..i]);
      assert st.tail[..i + 1][..i] == st.tail[..i];
      commitTime := Advance(commitTime, RawTime(f.commit));
      table := LastMetaData(table, f.commit);
      if commitTime <= from {
        continue;
      }
      if table.None? {
        BacklogError(BaseTable(st), st.tail, from, i + 1);
        return Err(NoMetadata(f.version));
      }
      var change := ChangeFromCommit(f, table.value, commitTime);
      changes := changes + [change];
    }
    assert st.tail[..|st.tail|] == st.tail;
    if table.None? {
      return Err(NoMetadata(latest.value));
    }
    r := Ok(changes);
  }

  lemma {:induction false} BacklogError(base: Option<Table>, tail: seq<CommitFile>, from: int, i: nat)
    requires i <= |tail| && Backlog(base, tail[..i], from).Err?
    ensures Backlog(base, tail, from) == Backlog(base, tail[..i], from)
    decreases |tail|
  {
    if i == |tail| {
      assert tail[..i] == tail;
    } else {
      var init := tail[..|tail| - 1];
      assert init[..i] == tail[..i];
      BacklogError(base, init, from, i);
    }
  }

  /** Retention check: the raw timestamp of the earliest retained JSON commit, checkpoint or not. */
  predicate SafeFrom(log: Log, instant: int)
  {
    log.files != [] && 0 < RawTime(log.files[0].commit) <= instant
  }

  // ---------------------------------------------------------------------------------------
  // The listing as a view of the history
  // ---------------------------------------------------------------------------------------

  /** The first version the readers replay. */
  function Start(log: Log): int
  {
    if log.checkpoint.Some? then log.checkpoint.value.version + 1 else 0
  }

  ghost predicate Kept(files: seq<CommitFile>, v: int)
  {
    exists i :: 0 <= i < |files| && files[i].version == v
  }

  /** The listing shows this history: every kept file is genuine, cleanup spared every version after
      the checkpoint, and the checkpoint is the reconciled state of its version. JSON files at or
      below the checkpoint may or may not survive. */
  ghost predicate LogOf(h: seq<Commit>, log: Log)
  {
    && Genuine(h, log.files)
    && 0 <= Start(log) <= |h|
    && (forall v :: Start(log) <= v < |h| ==> Kept(log.files, v))
    && (log.checkpoint.Some? ==>
          && Start(log) > 0
          && ToMap(log.checkpoint.value.adds) == LiveAfter(h, Start(log))
          && Some(log.checkpoint.value.table) == TableAfter(h, Start(log)))
  }

  ghost predicate Genuine(h: seq<Commit>, files: seq<CommitFile>)
  {
    && Sorted(files)
    && (forall i :: 0 <= i < |files| ==> 0 <= files[i].version < |h| && files[i].commit == h[files[i].version])
  }

  /** Commit files of versions s..n-1. */
  function Versions(h: seq<Commit>, s: nat, n: nat): seq<CommitFile>
    requires s <= n <= |h|
  {
    if s == n then [] else Versions(h, s, n - 1) + [CommitFile(n - 1, h[n - 1])]
  }

  lemma {:induction false} AfterIsVersions(h: seq<Commit>, files: seq<CommitFile>, s: nat, n: nat)
    requires s <= n <= |h| && Genuine(h, files) && Below(files, n)
    requires forall v :: s <= v < n ==> Kept(files, v)
    ensures After(files, s - 1) == Versions(h, s, n)
    decreases n - s + |files|
  {
    if files == [] {
      assert s < n ==> Kept(files, n - 1);
    } else {
      var init := files[..|files| - 1];
      if s == n {
        AfterIsVersions(h, init, s, n);
      } else {
        assert Kept(files, n - 1);
        forall v | s <= v < n - 1 ensures Kept(init, v) {
          assert Kept(files, v);
          KeptBefore(h, files, n, v);
        }
        LastIsNewest(h, files, n);
        AfterIsVersions(h, init, s, n - 1);
      }
    }
  }

  ghost predicate Below(files: seq<CommitFile>, n: int) { forall i :: 0 <= i < |files| ==> files[i].version < n }

  /** A listing that keeps version n - 1 and nothing later keeps it last. */
  lemma {:induction false} LastIsNewest(h: seq<Commit>, files: seq<CommitFile>, n: nat)
    requires Genuine(h, files) && Below(files, n) && 0 < n <= |h| && Kept(files, n - 1)
    ensures Last(files) == CommitFile(n - 1, h[n - 1]) && Genuine(h, files[..|files| - 1]) && Below(files[..|files| - 1], n - 1)
  {
    var i :| 0 <= i < |files| && files[i].version == n - 1;
    assert files[|files| - 1].version < n;
    assert !(i < |files| - 1);
  }

  lemma {:induction false} KeptBefore(h: seq<Commit>, files: seq<CommitFile>, n: nat, v: int)
    requires Genuine(h, files) && Below(files, n) && 0 < n <= |h| && Kept(files, n - 1) && Kept(files, v) && v < n - 1
    ensures Kept(files[..|files| - 1], v)
  {
    LastIsNewest(h, files, n);
    var i :| 0 <= i < |files| && files[i].version == v;
    assert files[..|files| - 1][i] == files[i];
  }

  lemma {:induction false} AfterAll(files: seq<CommitFile>)
    requires forall i :: 0 <= i < |files| ==> files[i].version >= 0
    ensures After(files, -1) == files
  {
    if files != [] {
      AfterAll(files[..|files| - 1]);
    }
  }

  lemma {:induction false} VersionsAre(h: seq<Commit>, s: nat, n: nat)
    requires s <= n <= |h|
    ensures |Versions(h, s, n)| == n - s
    ensures Commits(Versions(h, s, n)) == h[s..n]
    ensures Raws(Commits(Versions(h, s, n))) == Raws(h)[s..n]
    ensures s < n ==> Last(Versions(h, s, n)).version == n - 1
    ensures forall i :: 0 <= i < n - s ==> Versions(h, s, n)[i] == CommitFile(s + i, h[s + i])
  {
    VersionsAt(h, s, n);
    var tail := Versions(h, s, n);
    assert Commits(tail) == h[s..n];
    assert Raws(h[s..n]) == Raws(h)[s..n];
  }

  lemma {:induction false} VersionAt(h: seq<Commit>, s: nat, n: nat, i: nat)
    requires s <= n <= |h|
    ensures |Versions(h, s, n)| == n - s
    ensures i < n - s ==> Versions(h, s, n)[i] == CommitFile(s + i, h[s + i])
    decreases n
  {
    if s < n {
      VersionAt(h, s, n - 1, i);
    }
  }

  lemma {:induction false} VersionsAt(h: seq<Commit>, s: nat, n: nat)
    requires s <= n <= |h|
    ensures |Versions(h, s, n)| == n - s
    ensures forall i :: 0 <= i < n - s ==> Versions(h, s, n)[i] == CommitFile(s + i, h[s + i])
  {
    VersionAt(h, s, n, 0);
    forall i | 0 <= i < n - s ensures Versions(h, s, n)[i] == CommitFile(s + i, h[s + i]) {
      VersionAt(h, s, n, i);
    }
  }

  /** Loading a genuine listing never fails and yields exactly the versions after the checkpoint. */
  lemma {:induction false} LoadsTail(h: seq<Commit>, log: Log)
    requires LogOf(h, log)
    ensures LoadedState(log) == Ok(LogState(log.checkpoint, Versions(h, Start(log), |h|)))
  {
    AfterIsVersions(h, log.files, Start(log), |h|);
    if log.checkpoint.None? {
      AfterAll(log.files);
      if |h| > 0 {
        assert Kept(log.files, 0);
      }
    }
  }

  ghost predicate HasTable(h: seq<Commit>)
  {
    |h| > 0 && TableAfter(h, |h|).Some?
  }

  lemma {:induction false} UpToAll(tail: seq<CommitFile>)
    requires Sorted(tail) && tail != []
    ensures UpTo(tail, Last(tail).version) == tail
  {
    UpToPrefix(tail, Last(tail).version, |tail|);
    assert tail[..|tail|] == tail;
  }

  /** Checkpoint refinement: whatever head of the log a checkpoint replaced, the snapshot read is the
      state full replay of the whole history gives — live files and table both. It exists exactly
      when the history has a commit and a metaData action. */
  lemma {:induction false} CheckpointRefinement(h: seq<Commit>, log: Log, r: Result<Snapshot, LogError>)
    requires LogOf(h, log) && IsCurrentSnapshot(log, r)
    ensures r.Ok? <==> HasTable(h)
    ensures r.Ok? ==> ToMap(r.value.files) == LiveAfter(h, |h|)
    ensures r.Ok? ==> Some(r.value.table) == TableAfter(h, |h|)
    ensures r.Ok? ==> r.value.version == |h| - 1
    ensures r.Ok? ==> r.value.instant == Chain(Raws(h)[Start(log)..])
    ensures r.Err? ==> r == Err(if |h| == 0 then EmptyLog else NoMetadata(|h| - 1))
  {
    LoadsTail(h, log);
    var st := LogState(log.checkpoint, Versions(h, Start(log), |h|));
    TailState(h, log.checkpoint, Start(log));
    ToTheEnd(Raws(h), Start(log));
    SnapshotOfState(h, log, st, Chain(Raws(h)[Start(log)..]), r);
  }

  lemma {:induction false} ToTheEnd(raws: seq<int>, s: nat)
    requires s <= |raws|
    ensures raws[s..|raws|] == raws[s..]
  {
  }

  /** What the snapshot says, given what the loaded state says of the newest version. */
  lemma {:induction false} SnapshotOfState(h: seq<Commit>, log: Log, st: LogState, instant: int, r: Result<Snapshot, LogError>)
    requires LoadedState(log) == Ok(st) && IsCurrentSnapshot(log, r)
    requires ReplayAll(BaseLive(st), Commits(st.tail)) == LiveAfter(h, |h|)
    requires LatestVersion(st) == if |h| == 0 then None else Some(|h| - 1)
    requires |h| > 0 ==> TableAtSpec(st, |h| - 1) == Versioned(TableAfter(h, |h|), |h| - 1, instant)
    ensures r.Ok? <==> HasTable(h)
    ensures r.Ok? ==> ToMap(r.value.files) == LiveAfter(h, |h|) && Some(r.value.table) == TableAfter(h, |h|)
    ensures r.Ok? ==> r.value.version == |h| - 1 && r.value.instant == instant
    ensures r.Err? ==> r == Err(if |h| == 0 then EmptyLog else NoMetadata(|h| - 1))
  {
  }

  /** What the state loaded for a history says of its newest version. */
  lemma {:induction false} TailState(h: seq<Commit>, checkpoint: Option<Checkpoint>, s: nat)
    requires s <= |h| && (checkpoint.None? ==> s == 0) && (checkpoint.Some? ==> s == checkpoint.value.version + 1)
    requires checkpoint.Some? ==> ToMap(checkpoint.value.adds) == LiveAfter(h, s) && Some(checkpoint.value.table) == TableAfter(h, s)
    ensures var st := LogState(checkpoint, Versions(h, s, |h|));
      && ReplayAll(BaseLive(st), Commits(st.tail)) == LiveAfter(h, |h|)
      && LatestVersion(st) == (if |h| == 0 then None else Some(|h| - 1))
      && (|h| > 0 ==> TableAtSpec(st, |h| - 1) == Versioned(TableAfter(h, |h|), |h| - 1, Chain(Raws(h)[s..|h|])))
  {
    var tail := Versions(h, s, |h|);
    TailFacts(h, s);
    TailReplay(h, s, |h|);
    BaseFacts(h, checkpoint, s, tail);
    assert checkpoint.Some? ==> TableAfter(h, s).Some? && s > 0;
    NewestOf(h, checkpoint, s, tail);
    if |h| > 0 {
      TailTable(LogState(checkpoint, tail), |h| - 1);
    }
  }

  lemma {:induction false} NewestOf(h: seq<Commit>, checkpoint: Option<Checkpoint>, s: nat, tail: seq<CommitFile>)
    requires s <= |h| && (checkpoint.None? ==> s == 0) && (checkpoint.Some? ==> s == checkpoint.value.version + 1)
    requires (tail != [] ==> Last(tail).version == |h| - 1) && (tail == [] <==> s == |h|) && (checkpoint.Some? ==> s > 0)
    ensures LatestVersion(LogState(checkpoint, tail)) == if |h| == 0 then None else Some(|h| - 1)
  {
  }

  lemma {:induction false} BaseFacts(h: seq<Commit>, checkpoint: Option<Checkpoint>, s: nat, tail: seq<CommitFile>)
    requires s <= |h| && (checkpoint.None? ==> s == 0)
    requires checkpoint.Some? ==> ToMap(checkpoint.value.adds) == LiveAfter(h, s) && Some(checkpoint.value.table) == TableAfter(h, s)
    ensures BaseLive(LogState(checkpoint, tail)) == LiveAfter(h, s) && BaseTable(LogState(checkpoint, tail)) == TableAfter(h, s)
  {
  }

  lemma {:induction false} TailFacts(h: seq<Commit>, s: nat)
    requires s <= |h|
    ensures var tail := Versions(h, s, |h|);
      && Commits(tail) == h[s..|h|] && Raws(Commits(tail)) == Raws(h)[s..|h|] && UpTo(tail, |h| - 1) == tail
      && (tail != [] ==> Last(tail).version == |h| - 1) && (tail == [] <==> s == |h|)
  {
    VersionsAre(h, s, |h|);
    UpToNewest(h, s);
  }

  lemma {:induction false} UpToNewest(h: seq<Commit>, s: nat)
    requires s <= |h|
    ensures UpTo(Versions(h, s, |h|), |h| - 1) == Versions(h, s, |h|)
  {
    var tail := Versions(h, s, |h|);
    VersionsAt(h, s, |h|);
    if tail != [] {
      VersionsSorted(h, s, |h|);
      UpToAll(tail);
    }
  }

  function Versioned(table: Option<Table>, version: int, instant: int): Result<TableVersion, LogError>
  {
    match table
    case None => Err(NoMetadata(version))
    case Some(t) => Ok(TableVersion(t, instant))
  }

  lemma {:induction false} TailTable(st: LogState, version: int)
    requires UpTo(st.tail, version) == st.tail && (st.checkpoint.Some? ==> version >= st.checkpoint.value.version)
    ensures TableAtSpec(st, version) == Versioned(TableOf(BaseTable(st), Commits(st.tail)), version, Chain(Raws(Commits(st.tail))))
  {
  }

  lemma {:induction false} VersionsSorted(h: seq<Commit>, s: nat, n: nat)
    requires s <= n <= |h|
    ensures Sorted(Versions(h, s, n))
  {
    VersionsAre(h, s, n);
  }
}
