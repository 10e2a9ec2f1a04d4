/** The controller over a Paimon target: safety over whole runs of source commits, checkpoints, log cleanups and
    syncs of every kind, each of which may stop after any storage write. */
module PaimonRuns {
  import opened Common
  import opened Files
  import opened Model
  import opened DeltaLog
  import opened DeltaSource
  import opened DeltaResume
  import opened PaimonReplay
  import opened PaimonTable
  import opened PaimonSync
  import opened SyncProtocol
  import SyncRuns

  // ---------------------------------------------------------------------------------------
  // One sync
  // ---------------------------------------------------------------------------------------

  /** The writes a sync sets out to make, and whether it can make them all. */
  ghost function Planned(env: Env, log: Log, st: Disk, mode: Mode, probeFails: bool, read: Result<Snapshot, LogError>): (seq<Disk>, bool)
  {
    match Decide(TableMetadata(st), mode, log, probeFails)
    case Resume(from) => ResumePlan(env, log, st, from)
    case FullSync(_) => FullPlan(env, st, read)
  }

  ghost function FullTrace(env: Env, st: Disk, snapshot: Snapshot): (seq<Disk>, bool)
  {
    StepTrace(env, st, [], FilesDiff(snapshot.files, []), snapshot.table, SyncMetadata(snapshot.instant, snapshot.version))
  }

  /** So many snapshots more. */
  ghost predicate AddsSnapshots(st: Disk, st': Disk, n: nat) { |st'.snapshots| == |st.snapshots| + n }

  /** What the watermark, the mode, the probe and the log settle, as for any target: see SyncProtocol.GoesTheWay. */
  ghost predicate GoesTheWay(log: Log, st: Disk, mode: Mode, dryRun: bool, probeFails: bool, st': Disk, r: SyncResult)
  {
    var sync := TableMetadata(st);
    && (r.fellBack <==> Asked(sync, mode) && !Allowed(log, sync.value, probeFails))
    && (dryRun || (r.Synced? && r.noOp) ==> st' == st)
    && (if Asked(sync, mode) && Allowed(log, sync.value, probeFails) then Offered(log, st, sync.value, dryRun, st', r)
        else r.Synced? ==> !r.noOp && (!dryRun ==> AddsSnapshots(st, st', 1)))
  }

  ghost predicate Offered(log: Log, st: Disk, sync: SyncMetadata, dryRun: bool, st': Disk, r: SyncResult)
  {
    match ChangesSince(log, sync.instant)
    case Err(_) => r.Failed? && st' == st
    case Ok(changes) =>
      if changes == [] then r == Synced(sync.instant, true, false)
      else r.Synced? ==> !r.noOp && r.instant == Last(changes).instant && (!dryRun ==> AddsSnapshots(st, st', |changes|))
  }

  lemma {:induction false} ListAdds(st: Disk, entries: seq<Entry>)
    ensures Last(ListTrace(st, entries)).snapshots == st.snapshots
  {
  }

  lemma {:induction false} EnsureAdds(st: Disk, schema: string)
    ensures EndOf(st, EnsureTrace(st, schema).0).snapshots == st.snapshots
  {
  }

  lemma {:induction false} PublishAdds(st: Disk, snap: PaimonSnapshot)
    ensures AddsSnapshots(st, Last(PublishTrace(st, NextId(st.snapshots.Keys), snap)), 1)
  {
    NextIdFresh(st.snapshots.Keys);
    var id := NextId(st.snapshots.Keys);
    assert st.snapshots[id := snap].Keys == st.snapshots.Keys + {id};
  }

  lemma {:induction false} CommitAddsOne(st: Disk, schemaId: nat, base: seq<DataFile>, d: FilesDiff, sync: SyncMetadata)
    ensures AddsSnapshots(st, Last(CommitTrace(st, schemaId, base, d, sync)), 1)
  {
    var s1 := Last(ListTrace(st, EntriesOf(KindAdd, base)));
    var s2 := Last(ListTrace(s1, DeltaEntries(d)));
    ListAdds(st, EntriesOf(KindAdd, base));
    ListAdds(s1, DeltaEntries(d));
    PublishAdds(s2, SnapshotOf(st, s1, schemaId, base, d, sync));
  }

  /** A commit carried to its end adds one snapshot. */
  lemma {:induction false} StepAdds(env: Env, st: Disk, base: seq<DataFile>, d: FilesDiff, table: Table, sync: SyncMetadata)
    ensures var t := StepTrace(env, st, base, d, table, sync); t.1 ==> t.0 != [] && AddsSnapshots(st, Last(t.0), 1)
  {
    if env.convert(table).Some? {
      var (w, id) := EnsureTrace(st, env.convert(table).value);
      EnsureAdds(st, env.convert(table).value);
      CommitAddsOne(EndOf(st, w), id, base, d, sync);
      LastOf(w, CommitTrace(EndOf(st, w), id, base, d, sync));
    }
  }

  lemma {:induction false} LastOf(a: seq<Disk>, b: seq<Disk>)
    requires b != []
    ensures a + b != [] && Last(a + b) == Last(b)
  {
  }

  /** So do several. */
  lemma {:induction false} ChangesAdd(env: Env, st: Disk, base: seq<DataFile>, changes: seq<TableChange>, reached: int)
    ensures var t := ChangesTrace(env, st, base, changes, reached); t.1 ==> AddsSnapshots(st, EndOf(st, t.0), |changes|)
    decreases |changes|
  {
    if changes != [] {
      var one := NextStep(env, st, base, changes[0], reached);
      StepAdds(env, st, base, changes[0].diff, changes[0].table, SyncMetadata(Max(reached, changes[0].instant), changes[0].version));
      if one.1 {
        ChangesUnfold(env, st, base, changes, reached);
        ChangesAdd(env, Last(one.0), Folded(base, changes[0].diff), changes[1..], Max(reached, changes[0].instant));
        EndsLater(st, one.0, Later(env, Last(one.0), base, changes, reached).0);
      }
    }
  }

  lemma {:induction false} EndsLater(st: Disk, one: seq<Disk>, rest: seq<Disk>)
    requires one != []
    ensures EndOf(st, one) == Last(one) && EndOf(st, one + rest) == EndOf(Last(one), rest)
  {
    StoppedAppend(st, one, rest, 0);
  }

  lemma {:induction false} PlannedAdds(env: Env, st: Disk, t: (seq<Disk>, bool), n: nat, budget: nat)
    requires t.1 ==> AddsSnapshots(st, EndOf(st, t.0), n)
    ensures t.1 && budget >= |t.0| ==> AddsSnapshots(st, Stopped(st, t.0, budget), n)
  {
  }

  lemma {:induction false} ResumedAdds(env: Env, st: Disk, changes: seq<TableChange>, budget: nat, st': Disk, left: nat, ok: bool)
    requires if CurrentFiles(st).None? then !ok
             else var t := ChangesTrace(env, st, CurrentFiles(st).value, changes, 0); Ran(st, budget, t.0, t.1, st', left, ok)
    ensures ok ==> AddsSnapshots(st, st', |changes|)
  {
    if ok {
      ChangesAdd(env, st, CurrentFiles(st).value, changes, 0);
      PlannedAdds(env, st, ChangesTrace(env, st, CurrentFiles(st).value, changes, 0), |changes|, budget);
    }
  }

  lemma {:induction false} FullAdds(env: Env, st: Disk, snapshot: Snapshot, budget: nat, st': Disk, left: nat, ok: bool)
    requires Ran(st, budget, FullTrace(env, st, snapshot).0, FullTrace(env, st, snapshot).1, st', left, ok)
    ensures ok ==> AddsSnapshots(st, st', 1)
  {
    StepAdds(env, st, [], FilesDiff(snapshot.files, []), snapshot.table, SyncMetadata(snapshot.instant, snapshot.version));
    PlannedAdds(env, st, FullTrace(env, st, snapshot), 1, budget);
  }

  /** What a sync did: the planned writes as far as storage let it, success if all of them. */
  ghost predicate CarriedOut(st: Disk, budget: nat, plan: (seq<Disk>, bool), st': Disk, ok: bool)
  {
    st' == Stopped(st, plan.0, budget) && (ok <==> plan.1 && budget >= |plan.0|)
  }

  ghost function ResumePlan(env: Env, log: Log, st: Disk, from: int): (seq<Disk>, bool)
  {
    match ChangesSince(log, from)
    case Err(_) => ([], false)
    case Ok(changes) =>
      if changes == [] then ([], true)
      else if CurrentFiles(st).None? then ([], false)
      else ChangesTrace(env, st, CurrentFiles(st).value, changes, 0)
  }

  ghost function FullPlan(env: Env, st: Disk, read: Result<Snapshot, LogError>): (seq<Disk>, bool)
  {
    match read
    case Err(_) => ([], false)
    case Ok(snapshot) => FullTrace(env, st, snapshot)
  }

  /** The incremental path of syncToTarget. */
  method ResumeSync(log: Log, target: PaimonTarget, sync: SyncMetadata, dryRun: bool) returns (result: SyncResult)
    modifies target
    ensures !result.fellBack && Offered(log, old(target.disk), sync, dryRun, target.disk, result)
    ensures dryRun || (result.Synced? && result.noOp) ==> target.disk == old(target.disk)
    ensures !dryRun ==> CarriedOut(old(target.disk), old(target.budget), ResumePlan(target.env, log, old(target.disk), sync.instant), target.disk, result.Synced?)
  {
    ghost var st, budget := target.disk, target.budget;
    var changes := GetChangesSince(log, sync.instant);
    if changes.Err? {
      return Failed(false);
    }
    if changes.value == [] {
      return Synced(sync.instant, true, false);
    }
    var ok := true;
    if !dryRun {
      ok := target.CommitChanges(changes.value);
      ResumedAdds(target.env, st, changes.value, budget, target.disk, target.budget, ok);
    }
    result := if ok then Synced(Last(changes.value).instant, false, false) else Failed(false);
  }

  /** The full path. */
  method SnapshotSync(log: Log, target: PaimonTarget, dryRun: bool, fellBack: bool) returns (result: SyncResult, ghost read: Result<Snapshot, LogError>)
    modifies target
    ensures IsCurrentSnapshot(log, read) && (result.fellBack <==> fellBack)
    ensures (result.Synced? ==> read.Ok? && result.instant == read.value.instant) && (dryRun && read.Ok? ==> result.Synced?)
    ensures dryRun ==> target.disk == old(target.disk)
    ensures result.Synced? ==> !result.noOp && (!dryRun ==> AddsSnapshots(old(target.disk), target.disk, 1))
    ensures !dryRun ==> CarriedOut(old(target.disk), old(target.budget), FullPlan(target.env, old(target.disk), read), target.disk, result.Synced?)
  {
    ghost var st, budget := target.disk, target.budget;
    var snapshot := GetCurrentSnapshot(log);
    read := snapshot;
    if snapshot.Err? {
      return Failed(fellBack), read;
    }
    var ok := true;
    if !dryRun {
      ok := target.CommitSnapshot(snapshot.value);
      FullAdds(target.env, st, snapshot.value, budget, target.disk, target.budget, ok);
    }
    result := if ok then Synced(snapshot.value.instant, false, fellBack) else Failed(fellBack);
  }

  /** syncToTarget of pkg/conversion/controller.go with a Paimon target. */
  method SyncToPaimon(log: Log, target: PaimonTarget, mode: Mode, dryRun: bool, probeFails: bool)
    returns (result: SyncResult, ghost read: Result<Snapshot, LogError>)
    modifies target
    ensures Decide(TableMetadata(old(target.disk)), mode, log, probeFails).FullSync? ==> IsCurrentSnapshot(log, read)
    ensures !dryRun ==>
      CarriedOut(old(target.disk), old(target.budget), Planned(target.env, log, old(target.disk), mode, probeFails, read), target.disk, result.Synced?)
    ensures GoesTheWay(log, old(target.disk), mode, dryRun, probeFails, target.disk, result)
    ensures var sync := TableMetadata(old(target.disk));
      (Asked(sync, mode) && Allowed(log, sync.value, probeFails)) || (IsCurrentSnapshot(log, read) && (result.Synced? ==> read.Ok? && result.instant == read.value.instant))
  {
    var meta := target.GetTableMetadata();
    read := Err(EmptyLog);
    var resume, fellBack := false, false;
    if meta.Some? && meta.value.instant > 0 && mode != FullMode {
      var safe := IsIncrementalSyncSafeFrom(log, meta.value.instant);
      resume := !probeFails && safe;
      fellBack := !resume;
    }
    if resume {
      result := ResumeSync(log, target, meta.value, dryRun);
    } else {
      result, read := SnapshotSync(log, target, dryRun, fellBack);
    }
  }

  // ---------------------------------------------------------------------------------------
  // Runs
  // ---------------------------------------------------------------------------------------

  datatype World = World(history: seq<Commit>, log: Log, disk: Disk)

  datatype Step =
    | SourceCommit(commit: Commit)
    | Maintain(log: Log)
    | Sync(mode: Mode, dryRun: bool, probeFails: bool, read: Result<Snapshot, LogError>, budget: nat)

  ghost predicate Enabled(w: World, step: Step)
  {
    match step
    case SourceCommit(c) => AddsSurvive(c)
    case Maintain(log) => LogOf(w.history, log) && Start(w.log) <= Start(log)
    case Sync(_, _, _, read, _) => IsCurrentSnapshot(w.log, read)
  }

  ghost function Stepped(env: Env, w: World, step: Step): World
  {
    match step
    case SourceCommit(c) => World(w.history + [c], w.log.(files := w.log.files + [CommitFile(|w.history|, c)]), w.disk)
    case Maintain(log) => w.(log := log)
    case Sync(mode, dryRun, probeFails, read, budget) =>
      if dryRun then w else w.(disk := Stopped(w.disk, Planned(env, w.log, w.disk, mode, probeFails, read).0, budget))
  }

  /** A reader finds the source's live map at the version the watermark names, and the watermark is one some
      chain, started no later than the current one, gave that version. */
  ghost predicate Follows(h: seq<Commit>, log: Log, live: seq<DataFile>, sync: Option<SyncMetadata>)
  {
    sync.Some? ==> SyncedAt(h, Ok(live), sync.value) && Watermarked(h, log, sync.value)
  }

  ghost predicate ShowsSource(h: seq<Commit>, log: Log, st: Disk)
  {
    Valid(st) && CurrentFiles(st).Some? && Follows(h, log, CurrentFiles(st).value, TableMetadata(st))
  }

  ghost predicate Good(w: World)
  {
    LogOf(w.history, w.log) && AllSurvive(w.history) && ShowsSource(w.history, w.log, w.disk)
  }

  const Start0 := World([], Log([], None), EmptyDisk)

  lemma {:induction false} StartGood()
    ensures Good(Start0)
  {
    EmptyShows();
  }

  lemma {:induction false} ShownIsSource(h: seq<Commit>, log: Log, st: Disk, live: seq<DataFile>, sync: Option<SyncMetadata>)
    requires Shows(st, live, sync) && Follows(h, log, live, sync)
    ensures ShowsSource(h, log, st)
  {
  }

  // ---------------------------------------------------------------------------------------
  // Full syncs
  // ---------------------------------------------------------------------------------------

  /** Stopped anywhere, a commit shows the old table or the new one; run to the end, the new one. */
  lemma {:induction false} StoppedStep(st: Disk, w: seq<Disk>, done: bool, live: seq<DataFile>, sync: Option<SyncMetadata>,
                                       live': seq<DataFile>, sync': Option<SyncMetadata>, b: nat)
    requires Shows(st, live, sync) && StepWell(st, w, done, live, sync, live', sync')
    ensures Shows(Stopped(st, w, b), live, sync) || Shows(Stopped(st, w, b), live', sync')
    ensures done && b >= |w| ==> Shows(Stopped(st, w, b), live', sync')
  {
    if done {
      var q: nat :| StepStates(w, q, Hinted(st), live, sync, live', sync');
      StoppedStates(st, w, q, Hinted(st), live, sync, live', sync', b);
    } else if b > 0 && w != [] {
      assert w[Min(b, |w|) - 1] in w;
    }
  }

  lemma {:induction false} StoppedStates(st: Disk, w: seq<Disk>, q: nat, hinted: bool, live: seq<DataFile>, sync: Option<SyncMetadata>,
                                         live': seq<DataFile>, sync': Option<SyncMetadata>, b: nat)
    requires Shows(st, live, sync) && StepStates(w, q, hinted, live, sync, live', sync')
    ensures Shows(Stopped(st, w, b), live, sync) || Shows(Stopped(st, w, b), live', sync')
    ensures b >= |w| ==> Shows(Stopped(st, w, b), live', sync')
  {
    if b >= |w| {
      assert Stopped(st, w, b) == Last(w);
    } else if b > 0 {
      assert Stopped(st, w, b) == w[b - 1] && w[b - 1] in w;
      EitherShown(w, q, hinted, live, sync, live', sync', w[b - 1]);
    }
  }

  /** A full list without a base reads back as itself. */
  lemma {:induction false} FullView(files: seq<DataFile>)
    ensures ToMap(View([], FilesDiff(files, []))) == ToMap(files)
  {
    ReplayIsUpdate([], FilesDiff(files, []));
    assert ToMap([]) == map[];
  }

  lemma {:induction false} SnapshotFollows(h: seq<Commit>, log: Log, snapshot: Snapshot)
    requires LogOf(h, log) && IsCurrentSnapshot(log, Ok(snapshot))
    ensures Follows(h, log, View([], FilesDiff(snapshot.files, [])), Some(SyncMetadata(snapshot.instant, snapshot.version)))
    ensures snapshot.version == |h| - 1
  {
    SnapshotSynced(h, log, snapshot);
    FullView(snapshot.files);
    assert 0 <= Start(log) <= Start(log);
  }

  lemma {:induction false} FullKeeps(env: Env, h: seq<Commit>, log: Log, st: Disk, snapshot: Snapshot, b: nat)
    requires LogOf(h, log) && ShowsSource(h, log, st) && IsCurrentSnapshot(log, Ok(snapshot))
    ensures Lands(h, log, st, FullTrace(env, st, snapshot), b)
  {
    var live, sync, meta := CurrentFiles(st).value, TableMetadata(st), SyncMetadata(snapshot.instant, snapshot.version);
    var d := FilesDiff(snapshot.files, []);
    var (w, done) := FullTrace(env, st, snapshot);
    StepShows(env, st, [], d, snapshot.table, meta, live, sync);
    StoppedStep(st, w, done, live, sync, View([], d), Some(meta), b);
    SnapshotFollows(h, log, snapshot);
    if Shows(Stopped(st, w, b), View([], d), Some(meta)) {
      ShownIsSource(h, log, Stopped(st, w, b), View([], d), Some(meta));
    } else {
      ShownIsSource(h, log, Stopped(st, w, b), live, sync);
    }
  }

  // ---------------------------------------------------------------------------------------
  // Resumed syncs
  // ---------------------------------------------------------------------------------------

  /** What a resumed sync needs: a sound watermark, and versions ahead that folding carries over; FollowsIff has
      why that cannot be dropped, AgreeingCarries and CleanAddsAgree where it holds. */
  ghost predicate ResumesCleanly(w: World, step: Step)
    requires Good(w)
  {
    step.Sync? && Decide(TableMetadata(w.disk), step.mode, w.log, step.probeFails).Resume? ==>
      var sync := TableMetadata(w.disk).value;
      ResumeSound(w.history, w.log, sync) && Carries(w.history, Start(w.log), sync.source)
  }

  lemma {:induction false} AtFollows(h: seq<Commit>, log: Log, k: nat, j: nat, st: Disk, sync: SyncMetadata)
    requires LogOf(h, log) && At(h, Start(log), k, j, st, sync) && sync.source == k && TableAfter(h, k + 1).Some? && Watermarked(h, log, sync)
    ensures ShowsSource(h, log, st) && TableMetadata(st).Some? && TableMetadata(st).value.source == k + j
  {
    TablesStay(h, k + 1, k + 1 + j);
    if j > 0 {
      InstantMarks(h, log, k + j);
      MarkedFollows(h, log, st, SyncMetadata(InstantAt(h, Start(log), k + j), k + j));
    } else {
      MarkedFollows(h, log, st, sync);
    }
  }

  lemma {:induction false} MarkedFollows(h: seq<Commit>, log: Log, st: Disk, now: SyncMetadata)
    requires Valid(st) && CurrentFiles(st).Some? && TableMetadata(st) == Some(now) && Watermarked(h, log, now)
    requires 0 <= now.source < |h| && TableAfter(h, now.source + 1).Some? && ToMap(CurrentFiles(st).value) == LiveAfter(h, now.source + 1)
    ensures ShowsSource(h, log, st)
  {
  }

  lemma {:induction false} InstantMarks(h: seq<Commit>, log: Log, v: nat)
    requires 0 <= Start(log) <= v < |h|
    ensures Watermarked(h, log, SyncMetadata(InstantAt(h, Start(log), v), v))
  {
    assert DerivedFrom(h, Start(log), SyncMetadata(InstantAt(h, Start(log), v), v));
  }

  /** Everything a resumed sync relies on. */
  ghost predicate Ready(h: seq<Commit>, log: Log, live: seq<DataFile>, sync: SyncMetadata, changes: seq<TableChange>)
  {
    && LogOf(h, log) && AllSurvive(h) && SyncedAt(h, Ok(live), sync) && Watermarked(h, log, sync)
    && Missing(h, log, sync, changes) && Carries(h, Start(log), sync.source)
  }

  lemma {:induction false} ResumeKeeps(env: Env, h: seq<Commit>, log: Log, st: Disk, live: seq<DataFile>, sync: SyncMetadata, changes: seq<TableChange>, b: nat)
    requires Ready(h, log, live, sync, changes) && Shows(st, live, Some(sync))
    ensures Lands(h, log, st, ChangesTrace(env, st, live, changes, 0), b)
  {
    ChangesShow(env, st, live, live, Some(sync), changes, 0);
    WellLands(h, log, st, live, sync, changes, ChangesTrace(env, st, live, changes, 0), b);
  }

  lemma {:induction false} WellLands(h: seq<Commit>, log: Log, st: Disk, live: seq<DataFile>, sync: SyncMetadata, changes: seq<TableChange>,
                                     trace: (seq<Disk>, bool), b: nat)
    requires Ready(h, log, live, sync, changes) && Shows(st, live, Some(sync))
    requires ChangesWell(st, trace.0, trace.1, live, live, Some(sync), changes, 0)
    ensures Lands(h, log, st, trace, b)
  {
    var j := StoppedSeen(st, trace.0, trace.1, live, Some(sync), changes, b);
    SeenLands(h, log, Stopped(st, trace.0, b), live, sync, changes, j);
  }

  lemma {:induction false} SeenLands(h: seq<Commit>, log: Log, st: Disk, live: seq<DataFile>, sync: SyncMetadata, changes: seq<TableChange>, j: nat)
    requires Ready(h, log, live, sync, changes) && SeenAt(st, j, live, live, Some(sync), changes, 0)
    ensures ShowsSource(h, log, st) && TableMetadata(st).Some? && TableMetadata(st).value.source == sync.source + j
  {
    SeenIsAt(h, Start(log), sync.source, j, st, live, sync);
    AtFollows(h, log, sync.source, j, st, sync);
  }

  /** Stopped after b of these writes the table still follows the source; after all of them it is at the newest version. */
  ghost predicate Lands(h: seq<Commit>, log: Log, st: Disk, trace: (seq<Disk>, bool), b: nat)
  {
    var st' := Stopped(st, trace.0, b);
    && ShowsSource(h, log, st')
    && (trace.1 && b >= |trace.0| ==> TableMetadata(st').Some? && TableMetadata(st').value.source == |h| - 1)
  }

  /** With nothing missing the table is at the newest version already. */
  lemma {:induction false} NothingMissing(h: seq<Commit>, log: Log, st: Disk, sync: SyncMetadata, changes: seq<TableChange>, b: nat)
    requires ShowsSource(h, log, st) && TableMetadata(st) == Some(sync) && Missing(h, log, sync, changes)
    ensures changes == [] ==> Lands(h, log, st, ([], true), b)
  {
  }

  /** What a committing sync leaves, whichever way it went: the source's table at some version; at the newest when it ran to the end. */
  lemma {:induction false} SyncKeeps(env: Env, w: World, step: Step)
    requires Good(w) && step.Sync? && !step.dryRun && Enabled(w, step) && ResumesCleanly(w, step)
    ensures Lands(w.history, w.log, w.disk, Planned(env, w.log, w.disk, step.mode, step.probeFails, step.read), step.budget)
  {
    match Decide(TableMetadata(w.disk), step.mode, w.log, step.probeFails)
    case Resume(from) =>
      var sync := TableMetadata(w.disk).value;
      var changes := SyncRuns.ResumedChanges(w.history, w.log, sync);
      ResumeKeeps(env, w.history, w.log, w.disk, CurrentFiles(w.disk).value, sync, changes, step.budget);
      NothingMissing(w.history, w.log, w.disk, sync, changes, step.budget);
    case FullSync(_) =>
      if step.read.Ok? {
        FullKeeps(env, w.history, w.log, w.disk, step.read.value, step.budget);
      }
  }

  // ---------------------------------------------------------------------------------------
  // Safety
  // ---------------------------------------------------------------------------------------

  lemma {:induction false} CommitFollows(w: World, c: Commit)
    requires Good(w) && AddsSurvive(c)
    ensures var h, log := w.history + [c], w.log.(files := w.log.files + [CommitFile(|w.history|, c)]);
      LogOf(h, log) && AllSurvive(h) && ShowsSource(h, log, w.disk)
  {
    var log := w.log.(files := w.log.files + [CommitFile(|w.history|, c)]);
    SyncRuns.AppendedLog(w.history, c, w.log);
    var sync := TableMetadata(w.disk);
    if sync.Some? {
      SyncRuns.PrefixStable(w.history, c, sync.value.source + 1);
      SyncRuns.WatermarkStable(w.history, c, w.log, log, sync.value);
    }
  }

  lemma {:induction false} MaintainFollows(h: seq<Commit>, log: Log, later: Log, st: Disk)
    requires ShowsSource(h, log, st) && Start(log) <= Start(later)
    ensures ShowsSource(h, later, st)
  {
    var sync := TableMetadata(st);
    if sync.Some? {
      var s0 :| 0 <= s0 <= Start(log) && DerivedFrom(h, s0, sync.value);
      assert 0 <= s0 <= Start(later);
    }
  }

  lemma {:induction false} StepKeeps(env: Env, w: World, step: Step)
    requires Good(w) && Enabled(w, step) && ResumesCleanly(w, step)
    ensures Good(Stepped(env, w, step))
  {
    match step
    case SourceCommit(c) => CommitFollows(w, c);
    case Maintain(log) => MaintainFollows(w.history, w.log, log, w.disk);
    case Sync(_, dryRun, _, _, _) =>
      if !dryRun {
        SyncKeeps(env, w, step);
      }
  }

  ghost predicate IsRun(env: Env, ws: seq<World>, steps: seq<Step>)
  {
    && |ws| == |steps| + 1 && ws[0] == Start0
    && forall i :: 0 <= i < |steps| ==> RunsAt(env, ws, steps, i)
  }

  ghost predicate RunsAt(env: Env, ws: seq<World>, steps: seq<Step>, i: nat)
    requires i < |steps| && |ws| == |steps| + 1
  {
    Enabled(ws[i], steps[i]) && ws[i + 1] == Stepped(env, ws[i], steps[i])
  }

  /** In every run in which resumed syncs resume cleanly, a reader of the Paimon table finds at all times the
      source's live map at the version its watermark names. */
  lemma {:induction false} RunsStayInSync(env: Env, ws: seq<World>, steps: seq<Step>, n: nat)
    requires IsRun(env, ws, steps) && n <= |steps|
    requires forall i :: 0 <= i < n && Good(ws[i]) ==> ResumesCleanly(ws[i], steps[i])
    ensures Good(ws[n])
    decreases n
  {
    if n == 0 {
      StartGood();
    } else {
      RunsStayInSync(env, ws, steps, n - 1);
      assert RunsAt(env, ws, steps, n - 1);
      StepKeeps(env, ws[n - 1], steps[n - 1]);
    }
  }

  /** The table at the source's newest version. */
  ghost predicate Newest(h: seq<Commit>, st: Disk)
  {
    && TableMetadata(st).Some? && TableMetadata(st).value.source == |h| - 1
    && CurrentFiles(st).Some? && ToMap(CurrentFiles(st).value) == LiveAfter(h, |h|)
  }

  lemma {:induction false} LastIsNewest(h: seq<Commit>, log: Log, st: Disk)
    requires ShowsSource(h, log, st) && TableMetadata(st).Some? && TableMetadata(st).value.source == |h| - 1
    ensures Newest(h, st)
  {
  }

  /** A committing sync that ran to the end leaves the newest version; a full one does so whatever the source's
      commits re-added. */
  lemma {:induction false} SuccessIsCurrent(env: Env, w: World, step: Step)
    requires Good(w) && step.Sync? && !step.dryRun && Enabled(w, step) && ResumesCleanly(w, step)
    requires var p := Planned(env, w.log, w.disk, step.mode, step.probeFails, step.read); p.1 && step.budget >= |p.0|
    ensures Newest(w.history, Stepped(env, w, step).disk)
  {
    SyncKeeps(env, w, step);
    LastIsNewest(w.history, w.log, Stepped(env, w, step).disk);
  }
}
