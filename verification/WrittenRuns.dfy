/** What whole runs leave in the Iceberg target for its readers: every metadata file ever written assigns field
    ids as the history theorems say, and the Iceberg source's backlogs fold to the table. */
module WrittenRuns {
  import opened Common
  import opened Files
  import opened Diffing
  import opened Model
  import opened DeltaLog
  import opened DeltaSource
  import opened DeltaResume
  import opened FieldIdHistory
  import opened IcebergTable
  import opened IcebergCommit
  import opened IcebergWritten
  import opened SyncProtocol
  import opened SyncRuns
  import IcebergHistory

  // ---------------------------------------------------------------------------------------
  // What one sync can leave behind
  // ---------------------------------------------------------------------------------------

  ghost predicate AllKept(keep: Store -> bool, w: seq<Store>) { forall s :: s in w ==> keep(s) }

  /** The backlog a resuming sync works on. */
  ghost predicate Resuming(log: Log, st: Store, mode: Mode, probeFails: bool, changes: seq<TableChange>)
  {
    var d := Decide(TableMetadata(st), mode, log, probeFails);
    d.Resume? && ChangesSince(log, d.from) == Ok(changes)
  }

  /** What holds of the old storage and after every write of either path holds of the outcome. */
  lemma {:induction false} OutcomeKeeps(log: Log, st: Store, step: Step, keep: Store -> bool)
    requires step.Sync? && keep(st)
    requires step.read.Ok? && CommitWrites(st, step.read.value, step.clock(0)).Ok? ==>
      AllKept(keep, CommitWrites(st, step.read.value, step.clock(0)).value)
    requires forall changes :: Resuming(log, st, step.mode, step.probeFails, changes) ==>
      AllKept(keep, ChangesWrites(st, changes, Readings(step.clock, |changes|)).0)
    ensures keep(SyncOutcome(log, st, step.mode, step.dryRun, step.probeFails, step.read, step.clock, step.budget).0)
  {
    match Decide(TableMetadata(st), step.mode, log, step.probeFails)
    case Resume(from) =>
      if ChangesSince(log, from).Ok? {
        var changes := ChangesSince(log, from).value;
        assert Resuming(log, st, step.mode, step.probeFails, changes);
        StoppedKeeps(st, ChangesWrites(st, changes, Readings(step.clock, |changes|)).0, step.budget, keep);
      }
    case FullSync(_) =>
      if step.read.Ok? && CommitWrites(st, step.read.value, step.clock(0)).Ok? {
        StoppedKeeps(st, CommitWrites(st, step.read.value, step.clock(0)).value, step.budget, keep);
      }
  }

  lemma {:induction false} StoppedKeeps(st: Store, writes: seq<Store>, budget: nat, keep: Store -> bool)
    requires keep(st) && AllKept(keep, writes)
    ensures keep(Stopped(st, writes, budget))
  {
    if budget > 0 && writes != [] {
      assert writes[Min(budget, |writes|) - 1] in writes;
    }
  }

  // ---------------------------------------------------------------------------------------
  // Field ids
  // ---------------------------------------------------------------------------------------

  /** Every table the source ever declared is plain. */
  ghost predicate PlainSource(h: seq<Commit>) { forall i :: 0 <= i < |h| ==> PlainCommit(h[i]) }

  ghost predicate PlainCommit(c: Commit) { forall a :: a in c && a.MetaData? ==> PlainTable(a.table) }

  ghost predicate PlainOption(t: Option<Table>) { t.Some? ==> PlainTable(t.value) }

  lemma {:induction false} LatestPlain(previous: Option<Table>, c: Commit)
    requires PlainOption(previous) && PlainCommit(c)
    ensures PlainOption(LatestTable(previous, c))
  {
    if c != [] {
      assert Last(c) in c;
      var init := c[..|c| - 1];
      assert PlainCommit(init);
      LatestPlain(previous, init);
    }
  }

  lemma {:induction false} PlainTableAfter(h: seq<Commit>, n: nat)
    requires PlainSource(h) && n <= |h|
    ensures PlainOption(TableAfter(h, n))
    decreases n
  {
    if n > 0 {
      PlainTableAfter(h, n - 1);
      LatestPlain(TableAfter(h, n - 1), h[n - 1]);
    }
  }

  /** Whatever watermark a backlog is read from, its tables are the source's. */
  lemma {:induction false} BacklogPlain(h: seq<Commit>, log: Log, from: int)
    requires LogOf(h, log) && PlainSource(h) && ChangesSince(log, from).Ok?
    ensures PlainTables(ChangesSince(log, from).value)
  {
    ChangesExact(h, log, from);
    var s, j := Start(log), FirstPast(h, Start(log), from, |h|);
    ChangesPlain(h, s, j, |h|);
  }

  lemma {:induction false} ChangesPlain(h: seq<Commit>, s: nat, j: nat, n: nat)
    requires s <= j <= n <= |h| && Tabled(h, j, n) && PlainSource(h)
    ensures PlainTables(ChangesFrom(h, s, j, n))
  {
    var changes := ChangesFrom(h, s, j, n);
    ChangesFromAt(h, s, j, n, 0);
    forall i | 0 <= i < |changes| ensures PlainTable(changes[i].table) {
      ChangesFromAt(h, s, j, n, i);
      PlainTableAfter(h, j + i + 1);
    }
  }

  lemma {:induction false} SyncKeepsSchemas(w: World, step: Step)
    requires step.Sync? && Enabled(w, step) && LogOf(w.history, w.log) && PlainSource(w.history) && SchemaHistory(w.store)
    ensures SchemaHistory(Stepped(w, step).store)
  {
    var keep := s => SchemaHistory(s);
    if step.read.Ok? && CommitWrites(w.store, step.read.value, step.clock(0)).Ok? {
      CheckpointRefinement(w.history, w.log, step.read);
      PlainTableAfter(w.history, |w.history|);
      CommitKeepsSchemas(w.store, step.read.value, step.clock(0));
    }
    forall changes | Resuming(w.log, w.store, step.mode, step.probeFails, changes)
      ensures AllKept(keep, ChangesWrites(w.store, changes, Readings(step.clock, |changes|)).0) {
      BacklogPlain(w.history, w.log, Decide(TableMetadata(w.store), step.mode, w.log, step.probeFails).from);
      ChangesKeepSchemas(w.store, changes, Readings(step.clock, |changes|));
    }
    OutcomeKeeps(w.log, w.store, step, keep);
  }

  lemma {:induction false} StepLog(w: World, step: Step)
    requires LogOf(w.history, w.log) && Enabled(w, step)
    ensures LogOf(Stepped(w, step).history, Stepped(w, step).log)
  {
    if step.SourceCommit? {
      AppendedLog(w.history, step.commit, w.log);
    }
  }

  lemma {:induction false} RunSchemas(ws: seq<World>, steps: seq<Step>, n: nat)
    requires IsRun(ws, steps) && n <= |steps| && forall i :: 0 <= i < n ==> PlainSource(ws[i].history)
    ensures LogOf(ws[n].history, ws[n].log) && SchemaHistory(ws[n].store)
    decreases n
  {
    if n == 0 {
      assert Schemas(ws[0].store) == [];
      assert IsHistory([], Schemas(ws[0].store));
    } else {
      RunSchemas(ws, steps, n - 1);
      StepLog(ws[n - 1], steps[n - 1]);
      if steps[n - 1].Sync? {
        SyncKeepsSchemas(ws[n - 1], steps[n - 1]);
      }
    }
  }

  /** Field ids over whole runs. In the metadata files that any run over plain source tables leaves behind —
      sound resumes or not, interrupted anywhere — the last column id never falls, an id never passes from one
      column to another, a column keeps its id while it stays, and one that appears gets an unused id. */
  lemma {:induction false} RunFieldIds(ws: seq<World>, steps: seq<Step>, n: nat, i: nat, j: nat, p: string)
    requires IsRun(ws, steps) && n <= |steps| && forall k :: 0 <= k < n ==> PlainSource(ws[k].history)
    requires i <= j < |Schemas(ws[n].store)|
    ensures var s := Schemas(ws[n].store);
      && s[i].last <= s[j].last
      && (forall q :: p in IdsOf(Some(s[i])) && q in IdsOf(Some(s[j])) && IdsOf(Some(s[i]))[p] == IdsOf(Some(s[j]))[q] ==> p == q)
      && ((forall k :: i <= k <= j ==> p in IdsOf(Some(s[k]))) ==> IdsOf(Some(s[i]))[p] == IdsOf(Some(s[j]))[p])
      && (p !in IdsOf(Some(s[i])) && p in IdsOf(Some(s[j])) ==> IdsOf(Some(s[j]))[p] > s[i].last)
  {
    RunSchemas(ws, steps, n);
    var tables :| IsHistory(tables, Schemas(ws[n].store));
    HistoryIds(tables, Schemas(ws[n].store), i, j, p);
  }

  // ---------------------------------------------------------------------------------------
  // Backlogs
  // ---------------------------------------------------------------------------------------

  ghost predicate SettledAt(live: seq<DataFile>, changes: seq<TableChange>, j: nat)
    requires j < |changes|
  {
    Settled(ToMap(AfterChanges(live, changes, j)), changes[j].diff)
  }

  lemma {:induction false} SettledInTurn(live: seq<DataFile>, changes: seq<TableChange>)
    requires forall j :: 0 <= j < |changes| ==> SettledAt(live, changes, j)
    ensures SettledChanges(live, changes)
    decreases |changes|
  {
    if changes != [] {
      assert SettledAt(live, changes, 0);
      var rest := changes[1..];
      forall j | 0 <= j < |rest| ensures SettledAt(Applied(live, changes[0].diff), rest, j) {
        assert SettledAt(live, changes, j + 1);
        assert AfterChanges(live, changes, j + 1) == AfterChanges(Applied(live, changes[0].diff), rest, j);
      }
      SettledInTurn(Applied(live, changes[0].diff), rest);
    }
  }

  /** The changes a sound resume reports are settled when the commits are clean. */
  lemma {:induction false} MissingSettled(h: seq<Commit>, log: Log, live: seq<DataFile>, sync: SyncMetadata, changes: seq<TableChange>)
    requires AllSurvive(h) && CleanAdds(h, 0) && SyncedAt(h, Ok(live), sync) && Missing(h, log, sync, changes)
    ensures SettledChanges(live, changes)
  {
    forall j | 0 <= j < |changes| ensures SettledAt(live, changes, j) {
      ChangesWalk(h, Start(log), sync.source, live, j);
      ChangesFromAt(h, Start(log), sync.source + 1, |h|, j);
      assert CleanAddsAt(h, sync.source + 1 + j);
    }
    SettledInTurn(live, changes);
  }

  lemma {:induction false} SnapshotUnambiguous(log: Log, snapshot: Snapshot)
    requires IsCurrentSnapshot(log, Ok(snapshot))
    ensures Unambiguous(snapshot.files)
  {
    UniqueIsEffective(snapshot.files);
  }

  lemma {:induction false} ResumeKeepsClean(w: World, step: Step, changes: seq<TableChange>)
    requires Good(w) && step.Sync? && ResumesSoundly(w, step) && CleanAdds(w.history, 0) && CleanHistory(w.store)
    requires Resuming(w.log, w.store, step.mode, step.probeFails, changes)
    ensures AllClean(ChangesWrites(w.store, changes, Readings(step.clock, |changes|)).0)
  {
    var sync := TableMetadata(w.store).value;
    var live := LiveFiles(w.store).value;
    var missing := ResumedChanges(w.history, w.log, sync);
    MissingSettled(w.history, w.log, live, sync, changes);
    ChangesKeepClean(w.store, changes, Readings(step.clock, |changes|), live, Some(sync));
  }

  lemma {:induction false} SyncKeepsClean(w: World, step: Step)
    requires Good(w) && step.Sync? && Enabled(w, step) && ResumesSoundly(w, step) && CleanAdds(w.history, 0) && CleanHistory(w.store)
    ensures CleanHistory(Stepped(w, step).store)
  {
    var keep := s => CleanHistory(s);
    if step.read.Ok? && CommitWrites(w.store, step.read.value, step.clock(0)).Ok? {
      SnapshotUnambiguous(w.log, step.read.value);
      CommitKeepsClean(w.store, step.read.value, step.clock(0));
    }
    forall changes | Resuming(w.log, w.store, step.mode, step.probeFails, changes)
      ensures AllKept(keep, ChangesWrites(w.store, changes, Readings(step.clock, |changes|)).0) {
      ResumeKeepsClean(w, step, changes);
    }
    OutcomeKeeps(w.log, w.store, step, keep);
  }

  /** Resumes are sound, and no source commit re-adds a live path with other content without removing it. */
  ghost predicate CleanSound(ws: seq<World>, steps: seq<Step>, i: nat)
    requires i < |steps| && i < |ws|
  {
    CleanAdds(ws[i].history, 0) && (Good(ws[i]) ==> ResumesSoundly(ws[i], steps[i]))
  }

  lemma {:induction false} RunsStayClean(ws: seq<World>, steps: seq<Step>, n: nat)
    requires IsRun(ws, steps) && n <= |steps| && forall i :: 0 <= i < n ==> CleanSound(ws, steps, i)
    ensures Good(ws[n]) && CleanHistory(ws[n].store)
    decreases n
  {
    if n == 0 {
      StartGood();
    } else {
      RunsStayClean(ws, steps, n - 1);
      assert CleanSound(ws, steps, n - 1);
      StepKeeps(ws[n - 1], steps[n - 1]);
      if steps[n - 1].Sync? {
        SyncKeepsClean(ws[n - 1], steps[n - 1]);
      }
    }
  }

  /** Delta to Iceberg to the next reader, over whole runs: in whatever storage such a run leaves, every backlog
      the Iceberg source answers with, from any watermark, folds the reader's files into the source's live map
      at the version the watermark of the table names. */
  lemma {:induction false} RunBacklogsTelescope(ws: seq<World>, steps: seq<Step>, n: nat, from: int,
                                                changes: seq<IcebergHistory.SnapshotChange>, live: seq<DataFile>)
    requires IsRun(ws, steps) && n <= |steps| && forall i :: 0 <= i < n ==> CleanSound(ws, steps, i)
    ensures InSync(ws[n].history, ws[n].store)
    ensures var st := ws[n].store; var snaps := Retained(st);
      st.metadata != [] ==>
        && IcebergHistory.Acyclic(IcebergHistory.ById(snaps))
        && (IcebergHistory.IsBacklog(st, from, Ok(changes))
            && ToMap(live) == ToMap(IcebergHistory.BaseFiles(st, snaps, IcebergHistory.FirstLater(snaps, from, |snaps|))) ==>
              FoldsToSource(ws[n], IcebergHistory.FoldApplied(live, changes)))
  {
    RunsStayClean(ws, steps, n);
    var st := ws[n].store;
    if st.metadata != [] {
      var snaps := Retained(st);
      IcebergHistory.LinkedAcyclic(snaps);
      if && IcebergHistory.IsBacklog(st, from, Ok(changes))
         && ToMap(live) == ToMap(IcebergHistory.BaseFiles(st, snaps, IcebergHistory.FirstLater(snaps, from, |snaps|))) {
        CleanHistoryTelescopes(st, from, changes, live);
      }
    }
  }

  /** Without any condition on the source commits: in whatever storage a run with sound resumes leaves, the
      backlogs from a watermark the source answers fold to the table if and only if no reported list is ambiguous
      against the one before. */
  lemma {:induction false} RunBacklogsIff(ws: seq<World>, steps: seq<Step>, n: nat, from: int)
    requires IsRun(ws, steps) && n <= |steps| && forall i :: 0 <= i < n && Good(ws[i]) ==> ResumesSoundly(ws[i], steps[i])
    ensures Good(ws[n])
    ensures var st := ws[n].store; var snaps := Retained(st);
      st.metadata != [] && !IcebergHistory.Uncovered(snaps[0], from) ==>
        && IcebergHistory.Acyclic(IcebergHistory.ById(snaps))
        && ((forall changes :: IcebergHistory.IsBacklog(st, from, Ok(changes)) ==> BacklogFolds(st, from, changes)) <==>
              IcebergHistory.CleanFrom(st, snaps, IcebergHistory.FirstLater(snaps, from, |snaps|), |snaps|))
  {
    RunsStayInSync(ws, steps, n);
    var st := ws[n].store;
    if st.metadata != [] && !IcebergHistory.Uncovered(Retained(st)[0], from) {
      StoreTelescopesIff(st, from);
    }
  }

  /** The table's own live map, which is the source's at the version the watermark names. */
  ghost predicate FoldsToSource(w: World, files: seq<DataFile>)
  {
    && LiveFiles(w.store).Ok? && ToMap(files) == ToMap(LiveFiles(w.store).value)
    && (TableMetadata(w.store).Some? ==>
          var v := TableMetadata(w.store).value.source; 0 <= v < |w.history| && ToMap(files) == LiveAfter(w.history, v + 1))
  }
}
