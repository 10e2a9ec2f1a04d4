/** Safety over whole runs: source commits, checkpoints and log cleanups, and syncs of every kind —
    full, incremental, no-op, dry, or failing after any write — in any order. */
module SyncRuns {
  import opened Common
  import opened Files
  import opened Model
  import opened Instants
  import opened DeltaLog
  import opened DeltaSource
  import opened DeltaResume
  import opened IcebergTable
  import opened IcebergCommit
  import opened SyncProtocol

  /** The history as it happened, the log as listed now, and the target's storage. */
  datatype World = World(history: seq<Commit>, log: Log, store: Store)

  /** `read` is what reading the source snapshot returns during the sync, `budget` the number of
      target writes that succeed before storage fails. */
  datatype Step =
    | SourceCommit(commit: Commit)
    | Maintain(log: Log)
    | Sync(mode: Mode, dryRun: bool, probeFails: bool, read: Result<Snapshot, LogError>, clock: nat -> int, budget: nat)

  /** A commit keeps its own adds; maintenance leaves a listing of the same history whose checkpoint
      does not move back; reading the snapshot obeys the source. */
  ghost predicate Enabled(w: World, step: Step)
  {
    match step
    case SourceCommit(c) => AddsSurvive(c)
    case Maintain(log) => LogOf(w.history, log) && Start(w.log) <= Start(log)
    case Sync(_, _, _, read, _, _) => IsCurrentSnapshot(w.log, read)
  }

  function Stepped(w: World, step: Step): World
  {
    match step
    case SourceCommit(c) =>
      World(w.history + [c], w.log.(files := w.log.files + [CommitFile(|w.history|, c)]), w.store)
    case Maintain(log) => w.(log := log)
    case Sync(mode, dryRun, probeFails, read, clock, budget) =>
      w.(store := SyncOutcome(w.log, w.store, mode, dryRun, probeFails, read, clock, budget).0)
  }

  /** The invariant of every run. */
  ghost predicate Good(w: World)
  {
    && LogOf(w.history, w.log) && AllSurvive(w.history)
    && InSync(w.history, w.store)
    && (TableMetadata(w.store).Some? ==> Watermarked(w.history, w.log, TableMetadata(w.store).value))
  }

  const Start0 := World([], Log([], None), EmptyStore)

  lemma {:induction false} StartGood()
    ensures Good(Start0)
  {
    EmptyValid();
  }

  // ---------------------------------------------------------------------------------------
  // Source commits
  // ---------------------------------------------------------------------------------------

  lemma {:induction false} PrefixStable(h: seq<Commit>, c: Commit, n: nat)
    requires n <= |h|
    ensures LiveAfter(h + [c], n) == LiveAfter(h, n) && TableAfter(h + [c], n) == TableAfter(h, n)
    decreases n
  {
    if n > 0 {
      PrefixStable(h, c, n - 1);
    }
  }

  lemma {:induction false} AppendedLog(h: seq<Commit>, c: Commit, log: Log)
    requires LogOf(h, log)
    ensures LogOf(h + [c], log.(files := log.files + [CommitFile(|h|, c)]))
  {
    var h', files := h + [c], log.files + [CommitFile(|h|, c)];
    assert Genuine(h', files) by {
      forall i | 0 <= i < |files| ensures 0 <= files[i].version < |h'| && files[i].commit == h'[files[i].version] {
        assert i < |log.files| ==> files[i] == log.files[i];
      }
    }
    forall v | Start(log) <= v < |h'| ensures Kept(files, v) {
      if v < |h| {
        assert Kept(log.files, v);
        var i :| 0 <= i < |log.files| && log.files[i].version == v;
        assert files[i].version == v;
      } else {
        assert files[|log.files|].version == v;
      }
    }
    PrefixStable(h, c, Start(log));
  }

  lemma {:induction false} RawsStable(h: seq<Commit>, c: Commit, s: nat, n: nat)
    requires s <= n <= |h|
    ensures Raws(h + [c])[s..n] == Raws(h)[s..n]
  {
  }

  lemma {:induction false} WatermarkStable(h: seq<Commit>, c: Commit, log: Log, log': Log, sync: SyncMetadata)
    requires Watermarked(h, log, sync) && Start(log') == Start(log)
    ensures Watermarked(h + [c], log', sync)
  {
    var s0 :| 0 <= s0 <= Start(log) && DerivedFrom(h, s0, sync);
    RawsStable(h, c, s0, sync.source + 1);
    assert DerivedFrom(h + [c], s0, sync);
  }

  lemma {:induction false} SourceCommitKeeps(w: World, c: Commit)
    requires Good(w) && AddsSurvive(c)
    ensures Good(Stepped(w, SourceCommit(c)))
  {
    AppendedLog(w.history, c, w.log);
    var sync := TableMetadata(w.store);
    if sync.Some? {
      PrefixStable(w.history, c, sync.value.source + 1);
      WatermarkStable(w.history, c, w.log, Stepped(w, SourceCommit(c)).log, sync.value);
    }
  }

  // ---------------------------------------------------------------------------------------
  // Syncs
  // ---------------------------------------------------------------------------------------

  /** The hypothesis a resumed sync needs; see ResumeIff for why it cannot be dropped. */
  ghost predicate ResumesSoundly(w: World, step: Step)
    requires Good(w)
  {
    step.Sync? && Decide(TableMetadata(w.store), step.mode, w.log, step.probeFails).Resume? ==>
      ResumeSound(w.history, w.log, TableMetadata(w.store).value)
  }

  lemma {:induction false} FullStepKeeps(w: World, step: Step)
    requires Good(w) && step.Sync? && Enabled(w, step)
    requires Decide(TableMetadata(w.store), step.mode, w.log, step.probeFails).FullSync?
    ensures Good(Stepped(w, step))
  {
    LiveReads(w.store);
    var live, sync := LiveFiles(w.store).value, TableMetadata(w.store);
    if step.read.Ok? && !step.dryRun {
      var snapshot := step.read.value;
      if CommitWrites(w.store, snapshot, step.clock(0)).Ok? {
        FullSyncKeeps(w.history, w.log, w.store, snapshot, step.clock(0), step.budget, live, sync);
        SnapshotSynced(w.history, w.log, snapshot);
        assert Watermarked(w.history, w.log, SyncMetadata(snapshot.instant, snapshot.version));
      }
    }
  }

  /** The stop of an incremental sync is the stop after as many writes as the budget allows. */
  lemma {:induction false} OutcomeStops(log: Log, st: Store, mode: Mode, probeFails: bool, read: Result<Snapshot, LogError>,
                                        clock: nat -> int, budget: nat, changes: seq<TableChange>)
    requires TableMetadata(st).Some?
    requires Decide(TableMetadata(st), mode, log, probeFails).Resume?
    requires ChangesSince(log, TableMetadata(st).value.instant) == Ok(changes)
    ensures var writes := ChangesWrites(st, changes, Readings(clock, |changes|)).0;
      SyncOutcome(log, st, mode, false, probeFails, read, clock, budget).0 == Stopped(st, writes, Min(budget, |writes|))
  {
  }

  lemma {:induction false} ResumedChanges(h: seq<Commit>, log: Log, sync: SyncMetadata) returns (changes: seq<TableChange>)
    requires LogOf(h, log) && 0 <= sync.source < |h| && TableAfter(h, sync.source + 1).Some?
    requires Watermarked(h, log, sync) && ResumeSound(h, log, sync)
    ensures Missing(h, log, sync, changes) && ChangesSince(log, sync.instant) == Ok(changes)
  {
    SoundIsResumable(h, log, sync);
    ResumeIff(h, log, sync.source, sync.instant);
    changes := ChangesFrom(h, Start(log), sync.source + 1, |h|);
    ChangesFromVersions(h, Start(log), sync.source + 1, |h|);
  }

  /** A target some number of versions on, still in sync. */
  ghost predicate Resumed(h: seq<Commit>, log: Log, st: Store, sync: SyncMetadata, j: nat)
  {
    && InSync(h, st) && TableMetadata(st).Some? && TableMetadata(st).value.source == sync.source + j
    && (if j == 0 then TableMetadata(st).value == sync else DerivedFrom(h, Start(log), TableMetadata(st).value))
  }

  lemma {:induction false} ResumedShows(h: seq<Commit>, log: Log, st: Store, sync: SyncMetadata, changes: seq<TableChange>, clock: seq<int>, b: nat) returns (j: nat)
    requires LogOf(h, log) && AllSurvive(h) && InSync(h, st) && TableMetadata(st) == Some(sync)
    requires Missing(h, log, sync, changes) && |clock| == |changes| && b <= |ChangesWrites(st, changes, clock).0|
    ensures Resumed(h, log, Stopped(st, ChangesWrites(st, changes, clock).0, b), sync, j)
  {
    var live := LiveFiles(st).value;
    assert Shows(st, live, Some(sync)) && SyncedAt(h, Ok(live), sync);
    ResumeKeeps(h, log, st, changes, clock, b, live, sync);
    j := Visible(b);
    MovedOn(h, log, live, sync, changes, j);
  }

  lemma {:induction false} MovedOn(h: seq<Commit>, log: Log, live: seq<DataFile>, sync: SyncMetadata, changes: seq<TableChange>, j: nat)
    requires LogOf(h, log) && AllSurvive(h) && SyncedAt(h, Ok(live), sync) && Missing(h, log, sync, changes) && j <= |changes|
    ensures var now := SyncAfter(Some(sync), changes, j).value;
      now.source == sync.source + j && (j == 0 ==> now == sync) && (j > 0 ==> DerivedFrom(h, Start(log), now))
  {
    ChangesSynced(h, log, live, sync, j);
  }

  /** Where a resumed sync leaves the target: some number of versions further, still in sync. */
  lemma {:induction false} ResumeStep(h: seq<Commit>, log: Log, st: Store, sync: SyncMetadata, mode: Mode, probeFails: bool,
                                      read: Result<Snapshot, LogError>, clock: nat -> int, budget: nat)
    returns (j: nat)
    requires LogOf(h, log) && AllSurvive(h) && InSync(h, st) && TableMetadata(st) == Some(sync)
    requires Watermarked(h, log, sync) && ResumeSound(h, log, sync)
    requires Decide(Some(sync), mode, log, probeFails).Resume?
    ensures Resumed(h, log, SyncOutcome(log, st, mode, false, probeFails, read, clock, budget).0, sync, j)
  {
    var changes := ResumedChanges(h, log, sync);
    OutcomeStops(log, st, mode, probeFails, read, clock, budget, changes);
    var readings := Readings(clock, |changes|);
    j := ResumedShows(h, log, st, sync, changes, readings, Min(budget, |ChangesWrites(st, changes, readings).0|));
  }

  lemma {:induction false} ResumeStepKeeps(w: World, step: Step)
    requires Good(w) && step.Sync? && ResumesSoundly(w, step)
    requires Decide(TableMetadata(w.store), step.mode, w.log, step.probeFails).Resume?
    ensures Good(Stepped(w, step))
  {
    if step.dryRun {
      DryRunAndNoOpChangeNothing(w.log, w.store, step.mode, true, step.probeFails, step.read, step.clock, step.budget);
    } else {
      var sync := TableMetadata(w.store).value;
      var j := ResumeStep(w.history, w.log, w.store, sync, step.mode, step.probeFails, step.read, step.clock, step.budget);
      var st' := Stepped(w, step).store;
      assert st' == SyncOutcome(w.log, w.store, step.mode, false, step.probeFails, step.read, step.clock, step.budget).0;
      assert j > 0 ==> DerivedFrom(w.history, Start(w.log), TableMetadata(st').value);
    }
  }

  lemma {:induction false} StepKeeps(w: World, step: Step)
    requires Good(w) && Enabled(w, step) && ResumesSoundly(w, step)
    ensures Good(Stepped(w, step))
  {
    match step
    case SourceCommit(c) => SourceCommitKeeps(w, c);
    case Maintain(log) =>
      var sync := TableMetadata(w.store);
      if sync.Some? {
        var s0 :| 0 <= s0 <= Start(w.log) && DerivedFrom(w.history, s0, sync.value);
        assert 0 <= s0 <= Start(log);
      }
    case Sync(mode, _, probeFails, _, _, _) =>
      if Decide(TableMetadata(w.store), mode, w.log, probeFails).Resume? {
        ResumeStepKeeps(w, step);
      } else {
        FullStepKeeps(w, step);
      }
  }

  // ---------------------------------------------------------------------------------------
  // Runs
  // ---------------------------------------------------------------------------------------

  ghost predicate IsRun(ws: seq<World>, steps: seq<Step>)
  {
    && |ws| == |steps| + 1 && ws[0] == Start0
    && forall i :: 0 <= i < |steps| ==> Enabled(ws[i], steps[i]) && ws[i + 1] == Stepped(ws[i], steps[i])
  }

  /** Main safety theorem: in every run, as long as resumed syncs resume soundly, the target's live
      map is at all times the source's live map at the version its watermark names. */
  lemma {:induction false} RunsStayInSync(ws: seq<World>, steps: seq<Step>, n: nat)
    requires IsRun(ws, steps) && n <= |steps|
    requires forall i :: 0 <= i < n && Good(ws[i]) ==> ResumesSoundly(ws[i], steps[i])
    ensures Good(ws[n])
    decreases n
  {
    if n == 0 {
      StartGood();
    } else {
      RunsStayInSync(ws, steps, n - 1);
      StepKeeps(ws[n - 1], steps[n - 1]);
    }
  }

  /** On a log that never had a checkpoint every resume is sound, whatever the timestamps: missing,
      equal, or running backwards. */
  lemma {:induction false} UncheckpointedResumes(w: World, step: Step)
    requires Good(w) && w.log.checkpoint.None?
    ensures ResumesSoundly(w, step)
  {
    var sync := TableMetadata(w.store);
    if sync.Some? && sync.value.instant > 0 {
      var s0 :| 0 <= s0 <= Start(w.log) && DerivedFrom(w.history, s0, sync.value);
      assert sync.value.instant == InstantAt(w.history, 0, sync.value.source);
      SameStartResumes(w.history, w.log, sync.value.source);
    }
  }

  lemma {:induction false} UncheckpointedRuns(ws: seq<World>, steps: seq<Step>, n: nat)
    requires IsRun(ws, steps) && n <= |steps|
    requires forall i :: 0 <= i < n ==> ws[i].log.checkpoint.None?
    ensures Good(ws[n])
  {
    forall i | 0 <= i < n && Good(ws[i]) ensures ResumesSoundly(ws[i], steps[i]) {
      UncheckpointedResumes(ws[i], steps[i]);
    }
    RunsStayInSync(ws, steps, n);
  }

  /** With positive, strictly increasing timestamps and cleanup that spares no commit below the
      checkpoint, the controller's own safety check makes every resume sound. */
  lemma {:induction false} OrderedResumes(w: World, step: Step)
    requires Good(w) && Increasing(Raws(w.history)) && HeadCleaned(w.log)
    ensures ResumesSoundly(w, step)
  {
    var sync := TableMetadata(w.store);
    if sync.Some? && sync.value.instant > 0 && SafeFrom(w.log, sync.value.instant) {
      var s0 :| 0 <= s0 <= Start(w.log) && DerivedFrom(w.history, s0, sync.value);
      assert s0 <= sync.value.source;
      IncreasingInstant(w.history, s0, sync.value.source);
      RetentionSound(w.history, w.log, sync.value.source);
    }
  }

  /** Where the check is sound at the first version it accepts, on every chain started no later, it makes every
      resume sound, whatever the timestamps; see RetentionIff for why that is the weakest such condition. */
  lemma {:induction false} CheckedResumes(w: World, step: Step)
    requires Good(w) && forall s0: nat :: s0 <= Start(w.log) ==> FirstYesSound(w.history, w.log, s0)
    ensures ResumesSoundly(w, step)
  {
    var sync := TableMetadata(w.store);
    if sync.Some? && sync.value.instant > 0 && SafeFrom(w.log, sync.value.instant) {
      var s0 :| 0 <= s0 <= Start(w.log) && DerivedFrom(w.history, s0, sync.value);
      assert s0 <= sync.value.source;
      assert FirstYesSound(w.history, w.log, s0);
      assert sync.value.instant == InstantAt(w.history, s0, sync.value.source);
      RetentionIff(w.history, w.log, s0);
    }
  }

  lemma {:induction false} CheckedRuns(ws: seq<World>, steps: seq<Step>, n: nat)
    requires IsRun(ws, steps) && n <= |steps|
    requires forall i, s0: nat :: 0 <= i < n && s0 <= Start(ws[i].log) && LogOf(ws[i].history, ws[i].log) ==>
      FirstYesSound(ws[i].history, ws[i].log, s0)
    ensures Good(ws[n])
  {
    forall i | 0 <= i < n && Good(ws[i]) ensures ResumesSoundly(ws[i], steps[i]) {
      CheckedResumes(ws[i], steps[i]);
    }
    RunsStayInSync(ws, steps, n);
  }

  lemma {:induction false} OrderedRuns(ws: seq<World>, steps: seq<Step>, n: nat)
    requires IsRun(ws, steps) && n <= |steps|
    requires forall i :: 0 <= i < n ==> Increasing(Raws(ws[i].history)) && HeadCleaned(ws[i].log)
    ensures Good(ws[n])
  {
    forall i | 0 <= i < n && Good(ws[i]) ensures ResumesSoundly(ws[i], steps[i]) {
      OrderedResumes(ws[i], steps[i]);
    }
    RunsStayInSync(ws, steps, n);
  }

  // ---------------------------------------------------------------------------------------
  // Progress: completed syncs, and resuming after a failure
  // ---------------------------------------------------------------------------------------

  lemma {:induction false} CompleteRunWritesAll(st: Store, changes: seq<TableChange>, clock: seq<int>)
    requires |clock| == |changes| && ChangesWrites(st, changes, clock).1
    ensures |ChangesWrites(st, changes, clock).0| == 4 * |changes|
    decreases changes
  {
    if changes != [] {
      var live := LiveFiles(st).value;
      var one := CommitWrites(st, ChangeSnapshot(changes[0], live), clock[0]).value;
      assert |one| == 4;
      CompleteRunWritesAll(one[3], changes[1..], clock[1..]);
    }
  }

  /** All pending changes applied is the source's latest version. */
  lemma {:induction false} AllPending(h: seq<Commit>, log: Log, live: seq<DataFile>, sync: SyncMetadata, changes: seq<TableChange>)
    requires LogOf(h, log) && Missing(h, log, sync, changes) && AllSurvive(h) && SyncedAt(h, Ok(live), sync)
    ensures |changes| == |h| - sync.source - 1
    ensures var sync' := SyncAfter(Some(sync), changes, |changes|).value;
      SyncedAt(h, Ok(AfterChanges(live, changes, |changes|)), sync') && sync'.source == |h| - 1
  {
    ChangesSynced(h, log, live, sync, 0);
    ChangesSynced(h, log, live, sync, |changes|);
  }

  lemma {:induction false} CompleteShows(st: Store, changes: seq<TableChange>, clock: seq<int>, budget: nat, live: seq<DataFile>, sync: Option<SyncMetadata>)
    requires |clock| == |changes| && Shows(st, live, sync) && Outcome(st, changes, clock, budget).2
    ensures Shows(Outcome(st, changes, clock, budget).0, AfterChanges(live, changes, |changes|), SyncAfter(sync, changes, |changes|))
  {
    var writes := ChangesWrites(st, changes, clock).0;
    CompleteRunWritesAll(st, changes, clock);
    StoppedShows(st, changes, clock, live, sync);
    AtTheEnd(st, writes, changes, live, sync, budget);
  }

  lemma {:induction false} AtTheEnd(st: Store, writes: seq<Store>, changes: seq<TableChange>, live: seq<DataFile>, sync: Option<SyncMetadata>, budget: nat)
    requires StopsWell(st, writes, changes, live, sync) && |writes| == 4 * |changes| && budget >= |writes|
    ensures Shows(Stopped(st, writes, budget), AfterChanges(live, changes, |changes|), SyncAfter(sync, changes, |changes|))
  {
    assert Visible(|writes|) == |changes|;
    assert Stopped(st, writes, budget) == Stopped(st, writes, |writes|);
  }

  lemma {:induction false} CompleteResume(h: seq<Commit>, log: Log, st: Store, sync: SyncMetadata, changes: seq<TableChange>, clock: seq<int>, budget: nat)
    requires LogOf(h, log) && Missing(h, log, sync, changes) && AllSurvive(h) && InSync(h, st) && TableMetadata(st) == Some(sync)
    requires |clock| == |changes| && Outcome(st, changes, clock, budget).2
    ensures var st' := Outcome(st, changes, clock, budget).0;
      InSync(h, st') && TableMetadata(st').Some? && TableMetadata(st').value.source == |h| - 1
  {
    var live := LiveFiles(st).value;
    AllPending(h, log, live, sync, changes);
    CompleteShows(st, changes, clock, budget, live, Some(sync));
    ShowsInSync(h, Outcome(st, changes, clock, budget).0, AfterChanges(live, changes, |changes|), SyncAfter(Some(sync), changes, |changes|));
  }

  /** A resumed sync that succeeded ran its changes to the end, or had none. */
  lemma {:induction false} OutcomeCompletes(log: Log, st: Store, mode: Mode, probeFails: bool, read: Result<Snapshot, LogError>,
                                            clock: nat -> int, budget: nat, changes: seq<TableChange>)
    requires TableMetadata(st).Some?
    requires Decide(TableMetadata(st), mode, log, probeFails).Resume?
    requires ChangesSince(log, TableMetadata(st).value.instant) == Ok(changes)
    requires SyncOutcome(log, st, mode, false, probeFails, read, clock, budget).1.Synced?
    ensures var st' := SyncOutcome(log, st, mode, false, probeFails, read, clock, budget).0;
      if changes == [] then st' == st
      else st' == Outcome(st, changes, Readings(clock, |changes|), budget).0 && Outcome(st, changes, Readings(clock, |changes|), budget).2
  {
  }

  lemma {:induction false} SuccessfulResume(h: seq<Commit>, log: Log, st: Store, sync: SyncMetadata, mode: Mode, probeFails: bool,
                                            read: Result<Snapshot, LogError>, clock: nat -> int, budget: nat)
    requires LogOf(h, log) && AllSurvive(h) && InSync(h, st) && TableMetadata(st) == Some(sync)
    requires Watermarked(h, log, sync) && ResumeSound(h, log, sync)
    requires Decide(Some(sync), mode, log, probeFails).Resume?
    requires SyncOutcome(log, st, mode, false, probeFails, read, clock, budget).1.Synced?
    ensures var st' := SyncOutcome(log, st, mode, false, probeFails, read, clock, budget).0;
      InSync(h, st') && TableMetadata(st').Some? && TableMetadata(st').value.source == |h| - 1
  {
    var changes := ResumedChanges(h, log, sync);
    OutcomeCompletes(log, st, mode, probeFails, read, clock, budget, changes);
    CompleteOrNothing(h, log, st, sync, changes, Readings(clock, |changes|), budget);
  }

  lemma {:induction false} CompleteOrNothing(h: seq<Commit>, log: Log, st: Store, sync: SyncMetadata, changes: seq<TableChange>, clock: seq<int>, budget: nat)
    requires LogOf(h, log) && Missing(h, log, sync, changes) && AllSurvive(h) && InSync(h, st) && TableMetadata(st) == Some(sync)
    requires |clock| == |changes| && (changes != [] ==> Outcome(st, changes, clock, budget).2)
    ensures changes == [] ==> sync.source == |h| - 1
    ensures changes != [] ==>
      var st' := Outcome(st, changes, clock, budget).0;
      InSync(h, st') && TableMetadata(st').Some? && TableMetadata(st').value.source == |h| - 1
  {
    if changes != [] {
      CompleteResume(h, log, st, sync, changes, clock, budget);
    }
  }

  lemma {:induction false} SuccessfulFull(h: seq<Commit>, log: Log, st: Store, mode: Mode, probeFails: bool,
                                          read: Result<Snapshot, LogError>, clock: nat -> int, budget: nat)
    requires LogOf(h, log) && InSync(h, st) && IsCurrentSnapshot(log, read)
    requires Decide(TableMetadata(st), mode, log, probeFails).FullSync?
    requires SyncOutcome(log, st, mode, false, probeFails, read, clock, budget).1.Synced?
    ensures var st' := SyncOutcome(log, st, mode, false, probeFails, read, clock, budget).0;
      InSync(h, st') && TableMetadata(st').Some? && TableMetadata(st').value.source == |h| - 1
  {
    LiveReads(st);
    FullSyncKeeps(h, log, st, read.value, clock(0), budget, LiveFiles(st).value, TableMetadata(st));
    SnapshotSynced(h, log, read.value);
  }

  /** The fast path lands where the simple path would: whichever way a committing sync decided to go,
      success means the target holds the source's latest live map. */
  lemma {:induction false} SuccessIsCurrent(w: World, step: Step)
    requires Good(w) && step.Sync? && Enabled(w, step) && ResumesSoundly(w, step) && !step.dryRun
    requires SyncOutcome(w.log, w.store, step.mode, false, step.probeFails, step.read, step.clock, step.budget).1.Synced?
    ensures var st' := Stepped(w, step).store;
      InSync(w.history, st') && TableMetadata(st').Some? && TableMetadata(st').value.source == |w.history| - 1
  {
    if Decide(TableMetadata(w.store), step.mode, w.log, step.probeFails).Resume? {
      SuccessfulResume(w.history, w.log, w.store, TableMetadata(w.store).value, step.mode, step.probeFails, step.read, step.clock, step.budget);
    } else {
      SuccessfulFull(w.history, w.log, w.store, step.mode, step.probeFails, step.read, step.clock, step.budget);
    }
  }

  /** After a resumed sync failed at any write, the next one is offered exactly the versions still
      missing, and the safety check still allows it. */
  lemma {:induction false} FailureResumes(h: seq<Commit>, log: Log, st: Store, sync: SyncMetadata, mode: Mode, probeFails: bool,
                                          read: Result<Snapshot, LogError>, clock: nat -> int, budget: nat)
    returns (now: SyncMetadata)
    requires LogOf(h, log) && AllSurvive(h) && InSync(h, st) && TableMetadata(st) == Some(sync)
    requires Watermarked(h, log, sync) && ResumeSound(h, log, sync)
    requires Decide(Some(sync), mode, log, probeFails).Resume?
    ensures TableMetadata(SyncOutcome(log, st, mode, false, probeFails, read, clock, budget).0) == Some(now)
    ensures sync.source <= now.source < |h| && ReportsAfter(h, log, now.source, now.instant)
    ensures Decide(Some(now), mode, log, probeFails).Resume?
  {
    var j := ResumeStep(h, log, st, sync, mode, probeFails, read, clock, budget);
    now := TableMetadata(SyncOutcome(log, st, mode, false, probeFails, read, clock, budget).0).value;
    if j == 0 {
      SoundIsResumable(h, log, sync);
      ResumeIff(h, log, sync.source, sync.instant);
    } else {
      LaterWatermark(h, log, sync, now);
    }
  }

  lemma {:induction false} LaterWatermark(h: seq<Commit>, log: Log, sync: SyncMetadata, now: SyncMetadata)
    requires LogOf(h, log) && 0 <= sync.source < now.source < |h| && ResumeSound(h, log, sync)
    requires DerivedFrom(h, Start(log), now) && TableAfter(h, now.source + 1).Some?
    ensures ReportsAfter(h, log, now.source, now.instant) && now.instant > sync.instant
  {
    var s := Start(log);
    assert now.instant == InstantAt(h, s, now.source);
    if sync.source + 1 < now.source {
      InstantsIncrease(h, s, sync.source + 1, now.source);
    }
    SameStartResumes(h, log, now.source);
    ResumeIff(h, log, now.source, now.instant);
  }
}
