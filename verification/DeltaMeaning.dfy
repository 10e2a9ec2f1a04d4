/** What the Delta readers' folds mean in terms of the actions themselves: which metaData action is in force at a
    version, which files are live, which timestamp a commit carries (pkg/formats/delta/source.go). */
module DeltaMeaning {
  import opened Common
  import opened Files
  import opened Model
  import opened Instants
  import opened DeltaLog
  import opened DeltaSource
  import opened DeltaResume

  // ---------------------------------------------------------------------------------------
  // The table in force
  // ---------------------------------------------------------------------------------------

  ghost predicate Tableless(c: Commit) { forall j :: 0 <= j < |c| ==> !c[j].MetaData? }

  /** The last metaData action of the commit. */
  ghost predicate LastTable(c: Commit, i: nat, t: Table)
  {
    i < |c| && c[i] == MetaData(t) && forall j :: i < j < |c| ==> !c[j].MetaData?
  }

  /** Action i of version v is the last metaData action before version n. */
  ghost predicate InForceAt(h: seq<Commit>, n: nat, v: nat, i: nat, t: Table)
  {
    v < n <= |h| && LastTable(h[v], i, t) && forall w :: v < w < n ==> Tableless(h[w])
  }

  ghost predicate InForce(h: seq<Commit>, n: nat, t: Table) { exists v, i :: InForceAt(h, n, v, i, t) }

  lemma {:induction false} LatestMeans(previous: Option<Table>, c: Commit)
    ensures Tableless(c) ==> LatestTable(previous, c) == previous
    ensures forall i: nat, t :: LastTable(c, i, t) ==> LatestTable(previous, c) == Some(t)
  {
    if c != [] {
      var init := c[..|c| - 1];
      LatestMeans(previous, init);
      forall i: nat, t | LastTable(c, i, t) ensures LatestTable(previous, c) == Some(t) {
        assert i < |init| ==> LastTable(init, i, t);
      }
      assert Last(c) == c[|c| - 1];
    }
  }

  lemma {:induction false} SomeLastTable(c: Commit) returns (i: nat, t: Table)
    requires !Tableless(c)
    ensures LastTable(c, i, t)
  {
    if Last(c).MetaData? {
      i, t := |c| - 1, Last(c).table;
    } else {
      i, t := SomeLastTable(c[..|c| - 1]);
    }
  }

  /** The table after n versions is the one of the last metaData action in them, and there is none exactly when
      they hold no such action. */
  lemma {:induction false} TableMeans(h: seq<Commit>, n: nat)
    requires n <= |h|
    ensures forall t :: TableAfter(h, n) == Some(t) <==> InForce(h, n, t)
    ensures TableAfter(h, n) == None <==> forall v :: 0 <= v < n ==> Tableless(h[v])
    decreases n
  {
    if n > 0 {
      TableMeans(h, n - 1);
      LatestMeans(TableAfter(h, n - 1), h[n - 1]);
      if Tableless(h[n - 1]) {
        forall t ensures InForce(h, n, t) <==> InForce(h, n - 1, t) {
          TablelessStep(h, n, n - 1, t);
        }
      } else {
        var i, t0 := SomeLastTable(h[n - 1]);
        assert InForceAt(h, n, n - 1, i, t0);
        forall t | InForce(h, n, t) ensures t == t0 {
          NewTable(h, n, i, t0, t);
        }
      }
    }
  }

  lemma {:induction false} TablelessStep(h: seq<Commit>, n: nat, m: nat, t: Table)
    requires 0 < n <= |h| && m == n - 1 && Tableless(h[m])
    ensures InForce(h, n, t) <==> InForce(h, m, t)
  {
    if v, i :| InForceAt(h, n, v, i, t) {
      assert v != m;
      assert InForceAt(h, m, v, i, t);
    }
    if v, i :| InForceAt(h, m, v, i, t) {
      assert InForceAt(h, n, v, i, t);
    }
  }

  lemma {:induction false} NewTable(h: seq<Commit>, n: nat, i: nat, t0: Table, t: Table)
    requires 0 < n <= |h| && LastTable(h[n - 1], i, t0) && InForce(h, n, t)
    ensures t == t0
  {
    var v, k :| InForceAt(h, n, v, k, t);
    assert !Tableless(h[n - 1]);
    assert v == n - 1;
  }

  // ---------------------------------------------------------------------------------------
  // Live files
  // ---------------------------------------------------------------------------------------

  predicate Touches(a: Action, p: string)
  {
    (a.AddFile? && a.file.path == p) || (a.RemoveFile? && a.path == p)
  }

  ghost predicate Untouched(c: Commit, p: string) { forall j :: 0 <= j < |c| ==> !Touches(c[j], p) }

  /** The commit's last action on the file's path adds it. */
  ghost predicate AddsLast(c: Commit, i: nat, f: DataFile)
  {
    i < |c| && c[i] == AddFile(f) && forall j :: i < j < |c| ==> !Touches(c[j], f.path)
  }

  ghost predicate LiveSince(h: seq<Commit>, n: nat, v: nat, i: nat, f: DataFile)
  {
    v < n <= |h| && AddsLast(h[v], i, f) && forall w :: v < w < n ==> Untouched(h[w], f.path)
  }

  /** The last action on the file's path before version n adds the file. */
  ghost predicate Live(h: seq<Commit>, n: nat, f: DataFile) { exists v, i :: LiveSince(h, n, v, i, f) }

  predicate Holds(m: map<string, DataFile>, f: DataFile) { f.path in m && m[f.path] == f }

  lemma {:induction false} ReplayMeans(live: map<string, DataFile>, c: Commit, f: DataFile)
    ensures Holds(Replay(live, c), f) <==> (exists i :: AddsLast(c, i, f)) || (Untouched(c, f.path) && Holds(live, f))
  {
    if c != [] {
      var init, last := c[..|c| - 1], Last(c);
      ReplayMeans(live, init, f);
      assert c[|c| - 1] == last;
      if Touches(last, f.path) {
        assert AddsLast(c, |c| - 1, f) <==> last == AddFile(f);
        forall i | AddsLast(c, i, f) ensures i == |c| - 1 {
        }
      } else {
        forall i ensures AddsLast(c, i, f) <==> AddsLast(init, i, f) {
        }
        assert Untouched(c, f.path) <==> Untouched(init, f.path);
      }
    }
  }

  /** A file is live after n versions if and only if the last action on its path before then adds it. */
  lemma {:induction false} LiveMeans(h: seq<Commit>, n: nat, f: DataFile)
    requires n <= |h|
    ensures Holds(LiveAfter(h, n), f) <==> Live(h, n, f)
    decreases n
  {
    if n > 0 {
      LiveMeans(h, n - 1, f);
      ReplayMeans(LiveAfter(h, n - 1), h[n - 1], f);
      LiveStep(h, n, n - 1, h[n - 1], f);
    }
  }

  lemma {:induction false} LiveStep(h: seq<Commit>, n: nat, m: nat, c: Commit, f: DataFile)
    requires 0 < n <= |h| && m == n - 1 && c == h[m]
    ensures Live(h, n, f) <==> (exists i :: AddsLast(c, i, f)) || (Untouched(c, f.path) && Live(h, m, f))
  {
    if i :| AddsLast(c, i, f) {
      assert LiveSince(h, n, m, i, f);
    }
    if v, i :| LiveSince(h, m, v, i, f) && Untouched(c, f.path) {
      assert LiveSince(h, n, v, i, f);
    }
    if v, i :| LiveSince(h, n, v, i, f) && v != m {
      assert LiveSince(h, m, v, i, f);
    }
  }

  // ---------------------------------------------------------------------------------------
  // Timestamps
  // ---------------------------------------------------------------------------------------

  /** The last commitInfo action of the commit. */
  ghost predicate LastInfo(c: Commit, i: nat, t: int)
  {
    i < |c| && c[i] == CommitInfo(t) && forall j :: i < j < |c| ==> !c[j].CommitInfo?
  }

  /** A commit's timestamp is that of its last commitInfo, and 0 without one. */
  lemma {:induction false} RawTimeMeans(c: Commit)
    ensures forall i: nat, t :: LastInfo(c, i, t) ==> RawTime(c) == t
    ensures (forall j :: 0 <= j < |c| ==> !c[j].CommitInfo?) ==> RawTime(c) == 0
  {
    if c != [] {
      var init := c[..|c| - 1];
      RawTimeMeans(init);
      assert c[|c| - 1] == Last(c);
      forall i: nat, t | LastInfo(c, i, t) ensures RawTime(c) == t {
        assert i < |init| ==> LastInfo(init, i, t);
      }
    }
  }

  // ---------------------------------------------------------------------------------------
  // What the readers return
  // ---------------------------------------------------------------------------------------

  /** The snapshot read from any listing of a history: the files whose last action adds them and the table of the
      last metaData action; it exists exactly when there is such an action. */
  lemma {:induction false} SnapshotMeans(h: seq<Commit>, log: Log, r: Result<Snapshot, LogError>)
    requires LogOf(h, log) && IsCurrentSnapshot(log, r)
    ensures r.Ok? <==> HasTableBefore(h, |h|)
    ensures r.Err? ==> r == Err(if h == [] then EmptyLog else NoMetadata(|h| - 1))
    ensures r.Ok? ==> InForce(h, |h|, r.value.table) && r.value.version == |h| - 1
    ensures r.Ok? ==> forall f :: f in r.value.files <==> Live(h, |h|, f)
  {
    CheckpointRefinement(h, log, r);
    TableMeans(h, |h|);
    if r.Ok? {
      Diffing.UniqueIsEffective(r.value.files);
      ToMapKeys(r.value.files);
      forall f ensures f in r.value.files <==> Live(h, |h|, f) {
        LiveMeans(h, |h|, f);
      }
    }
  }

  lemma {:induction false} UpToVersion(h: seq<Commit>, s: nat, v: nat)
    requires s <= v + 1 <= |h|
    ensures UpTo(Versions(h, s, |h|), v) == Versions(h, s, v + 1)
  {
    var tail := Versions(h, s, |h|);
    VersionsAt(h, s, |h|);
    VersionsAt(h, s, v + 1);
    UpToPrefix(tail, v, v + 1 - s);
    assert tail[..v + 1 - s] == Versions(h, s, v + 1);
  }

  ghost predicate HasTableBefore(h: seq<Commit>, n: nat) { exists t :: InForce(h, n, t) }

  /** The table read at a version at or after the checkpoint: that of the last metaData action up to it, with the
      version's instant; an error exactly when there is no such action. */
  lemma {:induction false} VersionMeans(h: seq<Commit>, log: Log, v: nat)
    requires LogOf(h, log) && Start(log) <= v + 1 <= |h|
    ensures LoadedState(log).Ok?
    ensures var r := TableAtSpec(LoadedState(log).value, v);
      && (r.Ok? <==> HasTableBefore(h, v + 1)) && (r.Err? ==> r == Err(NoMetadata(v)))
      && (r.Ok? ==> InForce(h, v + 1, r.value.table))
      && (r.Ok? && Start(log) <= v ==> r.value.instant == InstantAt(h, Start(log), v))
  {
    LoadsTail(h, log);
    TableThen(h, log.checkpoint, Start(log), v);
    TableMeans(h, v + 1);
  }

  lemma {:induction false} TableThen(h: seq<Commit>, checkpoint: Option<Checkpoint>, s: nat, v: nat)
    requires s <= v + 1 <= |h| && (checkpoint.None? ==> s == 0) && (checkpoint.Some? ==> s == checkpoint.value.version + 1)
    requires checkpoint.Some? ==> ToMap(checkpoint.value.adds) == LiveAfter(h, s) && Some(checkpoint.value.table) == TableAfter(h, s)
    ensures TableAtSpec(LogState(checkpoint, Versions(h, s, |h|)), v) == Versioned(TableAfter(h, v + 1), v, Chain(Raws(h)[s..v + 1]))
  {
    var st := LogState(checkpoint, Versions(h, s, |h|));
    UpToVersion(h, s, v);
    VersionsAre(h, s, v + 1);
    BaseFacts(h, checkpoint, s, st.tail);
    TailReplay(h, s, v + 1);
    ReadAt(st, v, Versions(h, s, v + 1));
  }

  lemma {:induction false} ReadAt(st: LogState, v: int, seen: seq<CommitFile>)
    requires UpTo(st.tail, v) == seen && (st.checkpoint.Some? ==> v >= st.checkpoint.value.version)
    ensures TableAtSpec(st, v) == Versioned(TableOf(BaseTable(st), Commits(seen)), v, Chain(Raws(Commits(seen))))
  {
  }

  /** Every change a backlog reports: the version it names, that version's diff and instant, and the table of the
      last metaData action up to it. */
  lemma {:induction false} ChangesMean(h: seq<Commit>, log: Log, from: int, i: nat)
    requires LogOf(h, log) && ChangesSince(log, from).Ok? && i < |ChangesSince(log, from).value|
    ensures var changes := ChangesSince(log, from).value; Reports(h, log, from, changes[i], |h| - |changes| + i)
  {
    var j := FirstPast(h, Start(log), from, |h|);
    ChangesListed(h, log, from, j);
    NthChange(h, Start(log), j, i, ChangesSince(log, from).value);
    ChangeMeans(h, log, from, j + i);
  }

  lemma {:induction false} ChangesListed(h: seq<Commit>, log: Log, from: int, j: nat)
    requires LogOf(h, log) && ChangesSince(log, from).Ok? && j == FirstPast(h, Start(log), from, |h|)
    ensures Tabled(h, j, |h|) && ChangesSince(log, from).value == ChangesFrom(h, Start(log), j, |h|)
  {
    ChangesExact(h, log, from);
  }

  lemma {:induction false} NthChange(h: seq<Commit>, s: nat, j: nat, i: nat, changes: seq<TableChange>)
    requires s <= j <= |h| && Tabled(h, j, |h|) && changes == ChangesFrom(h, s, j, |h|) && i < |changes|
    ensures |changes| == |h| - j && TableAfter(h, j + i + 1).Some? && changes[i] == ChangeAt(h, s, j + i)
  {
    ChangesFromAt(h, s, j, |h|, i);
  }

  lemma {:induction false} ChangeMeans(h: seq<Commit>, log: Log, from: int, v: nat)
    requires LogOf(h, log) && Start(log) <= FirstPast(h, Start(log), from, |h|) <= v < |h| && TableAfter(h, v + 1).Some?
    ensures Reports(h, log, from, ChangeAt(h, Start(log), v), v)
  {
    TableMeans(h, v + 1);
  }

  /** The change of version v, past the watermark, with the table then in force. */
  ghost predicate Reports(h: seq<Commit>, log: Log, from: int, c: TableChange, v: int)
  {
    && 0 <= Start(log) <= v < |h| && c.version == v && c.diff == DiffOf(h[v]) && InForce(h, v + 1, c.table)
    && c.instant == InstantAt(h, Start(log), v) > from
  }

  // ---------------------------------------------------------------------------------------
  // What the readers refuse
  // ---------------------------------------------------------------------------------------

  /** A listing that shows some of a history but has no checkpoint is refused by every reader if and only if it
      lost version 0. */
  lemma {:induction false} TruncatedRefused(h: seq<Commit>, log: Log)
    requires Genuine(h, log.files) && log.checkpoint.None? && log.files != []
    ensures LoadedState(log).Err? <==> !Kept(log.files, 0)
    ensures !Kept(log.files, 0) ==>
      && (forall r :: IsCurrentSnapshot(log, r) ==> r == Err(Truncated(log.files[0].version)))
      && forall from :: ChangesSince(log, from) == Err(Truncated(log.files[0].version))
  {
    if i :| 0 <= i < |log.files| && log.files[i].version == 0 {
      FirstIsLeast(log.files, i);
      assert log.files[0].version >= 0;
    }
    if log.files[0].version == 0 {
      assert Kept(log.files, 0);
    }
  }

  lemma {:induction false} FirstIsLeast(files: seq<CommitFile>, i: nat)
    requires Sorted(files) && i < |files|
    ensures files[0].version <= files[i].version
  {
  }

  /** A version below the checkpoint cannot be read; the refusal names both. */
  lemma {:induction false} BelowCheckpointRefused(log: Log, v: int)
    requires log.checkpoint.Some? && v < log.checkpoint.value.version
    ensures LoadedState(log).Ok? && TableAtSpec(LoadedState(log).value, v) == Err(Predates(v, log.checkpoint.value.version))
  {
  }
}
