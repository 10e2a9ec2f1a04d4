/** The controller's syncToTarget (pkg/conversion/controller.go) and the protocol it forms with a
    Delta source that keeps committing and cleaning its log and an Iceberg target whose storage may
    fail after any write. */
module SyncProtocol {
  import opened Common
  import opened Files
  import opened Model
  import opened Instants
  import opened DeltaLog
  import opened DeltaSource
  import opened DeltaResume
  import opened IcebergTable
  import opened IcebergCommit

  datatype Mode = FullMode | IncrementalMode

  datatype SyncResult =
    | Synced(instant: int, noOp: bool, fellBack: bool)
    | Failed(fellBack: bool)

  /** How a sync proceeds: resume from a watermark, or read a full snapshot (possibly as a fallback). */
  datatype Decision = Resume(from: int) | FullSync(fellBack: bool)

  function Decide(sync: Option<SyncMetadata>, mode: Mode, log: Log, probeFails: bool): Decision
  {
    if sync.Some? && sync.value.instant > 0 && mode != FullMode then
      if !probeFails && SafeFrom(log, sync.value.instant) then Resume(sync.value.instant) else FullSync(true)
    else FullSync(false)
  }

  function Readings(clock: nat -> int, n: nat): seq<int> { seq(n, i requires 0 <= i < n => clock(i)) }

  /** Everything a sync does to the target, given what reading the source snapshot would return. */
  function SyncOutcome(log: Log, st: Store, mode: Mode, dryRun: bool, probeFails: bool,
                       read: Result<Snapshot, LogError>, clock: nat -> int, budget: nat): (Store, SyncResult)
  {
    match Decide(TableMetadata(st), mode, log, probeFails)
    case Resume(from) => (
      match ChangesSince(log, from)
      case Err(_) => (st, Failed(false))
      case Ok(changes) =>
        if changes == [] then (st, Synced(from, true, false))
        else if dryRun then (st, Synced(Last(changes).instant, false, false))
        else
          var (st', _, ok) := Outcome(st, changes, Readings(clock, |changes|), budget);
          (st', if ok then Synced(Last(changes).instant, false, false) else Failed(false)))
    case FullSync(fellBack) => (
      match read
      case Err(_) => (st, Failed(fellBack))
      case Ok(snapshot) =>
        if dryRun then (st, Synced(snapshot.instant, false, fellBack))
        else
          match CommitWrites(st, snapshot, clock(0))
          case Err(_) => (st, Failed(fellBack))
          case Ok(writes) =>
            (Stopped(st, writes, budget), if budget >= 4 then Synced(snapshot.instant, false, fellBack) else Failed(fellBack)))
  }

  method IsIncrementalSyncSafeFrom(log: Log, instant: int) returns (safe: bool)
    ensures safe == SafeFrom(log, instant)
  {
    if log.files == [] {
      return false;
    }
    var first := RawTime(log.files[0].commit);
    if first <= 0 {
      return false;
    }
    return first <= instant;
  }

  // ---------------------------------------------------------------------------------------
  // Which way a sync goes
  // ---------------------------------------------------------------------------------------

  /** An incremental sync was asked for and there is a watermark to resume from. */
  ghost predicate Asked(sync: Option<SyncMetadata>, mode: Mode)
  {
    mode == IncrementalMode && sync.Some? && sync.value.instant > 0
  }

  /** Resuming is allowed: the probe answered, and the oldest retained commit is stamped, no later than the watermark. */
  ghost predicate Allowed(log: Log, sync: SyncMetadata, probeFails: bool)
  {
    !probeFails && log.files != [] && 0 < RawTime(log.files[0].commit) <= sync.instant
  }

  /** What the watermark, the mode, the probe and the log settle: an allowed resume finds nothing new and says so,
      or adds one metadata file for every change it is offered; anything else adds exactly one; and falling back
      is reported exactly when a resume was asked for and not allowed. */
  ghost predicate GoesTheWay(log: Log, st: Store, mode: Mode, dryRun: bool, probeFails: bool, clock: nat -> int, st': Store, r: SyncResult)
  {
    var sync := TableMetadata(st);
    && (r.fellBack <==> Asked(sync, mode) && !Allowed(log, sync.value, probeFails))
    && (dryRun || (r.Synced? && r.noOp) ==> st' == st)
    && (if Asked(sync, mode) && Allowed(log, sync.value, probeFails) then Offered(log, st, sync.value, dryRun, clock, st', r)
        else r.Synced? ==> !r.noOp && (!dryRun ==> AddsFiles(st, st', 1, r.instant, clock(0))))
  }

  ghost predicate Offered(log: Log, st: Store, sync: SyncMetadata, dryRun: bool, clock: nat -> int, st': Store, r: SyncResult)
  {
    match ChangesSince(log, sync.instant)
    case Err(_) => r.Failed? && st' == st
    case Ok(changes) =>
      if changes == [] then r == Synced(sync.instant, true, false)
      else r.Synced? ==> !r.noOp && r.instant == Last(changes).instant && (!dryRun ==> AddsFiles(st, st', |changes|, r.instant, clock(|changes| - 1)))
  }

  /** So many metadata files more, the last one written at this clock reading, and the watermark is the reported instant. */
  ghost predicate AddsFiles(st: Store, st': Store, n: nat, instant: int, now: int)
  {
    && |st'.metadata| == |st.metadata| + n && TableMetadata(st').Some? && TableMetadata(st').value.instant == instant
    && Last(st'.metadata).meta.lastUpdated == now
  }

  lemma {:induction false} CommitAdds(st: Store, snapshot: Snapshot, now: int)
    requires CommitWrites(st, snapshot, now).Ok?
    ensures |CommitWrites(st, snapshot, now).value| == 4
    ensures AddsFiles(st, CommitWrites(st, snapshot, now).value[3], 1, snapshot.instant, now)
  {
    var meta := WritesAre(st, snapshot, now);
  }

  /** A run of commits carried to its end adds one file each. */
  lemma {:induction false} ChangesAdd(st: Store, changes: seq<TableChange>, clock: seq<int>)
    requires |clock| == |changes| && ChangesWrites(st, changes, clock).1 && changes != []
    ensures ChangesWrites(st, changes, clock).0 != []
    ensures AddsFiles(st, Last(ChangesWrites(st, changes, clock).0), |changes|, Last(changes).instant, Last(clock))
    decreases |changes|
  {
    var one := FirstCommit(st, changes[0], clock[0]);
    ChangesStep(st, changes, clock, one);
    CommitAdds(st, ChangeSnapshot(changes[0], LiveFiles(st).value), clock[0]);
    if |changes| > 1 {
      ChangesAdd(one.value[3], changes[1..], clock[1..]);
    }
    AddsOn(st, one.value, ChangesWrites(one.value[3], changes[1..], clock[1..]).0, changes, clock);
  }

  lemma {:induction false} AddsOn(st: Store, one: seq<Store>, rest: seq<Store>, changes: seq<TableChange>, clock: seq<int>)
    requires |one| == 4 && changes != [] && |clock| == |changes| && AddsFiles(st, one[3], 1, changes[0].instant, clock[0])
    requires if |changes| == 1 then rest == [] else rest != [] && AddsFiles(one[3], Last(rest), |changes| - 1, Last(changes[1..]).instant, Last(clock[1..]))
    ensures AddsFiles(st, Last(one + rest), |changes|, Last(changes).instant, Last(clock))
  {
    assert rest == [] ==> one + rest == one;
    assert rest != [] ==> Last(one + rest) == Last(rest);
  }

  lemma {:induction false} TheWay(log: Log, st: Store, mode: Mode, dryRun: bool, probeFails: bool,
                                  read: Result<Snapshot, LogError>, clock: nat -> int, budget: nat)
    ensures var (st', r) := SyncOutcome(log, st, mode, dryRun, probeFails, read, clock, budget);
      GoesTheWay(log, st, mode, dryRun, probeFails, clock, st', r)
  {
    if Asked(TableMetadata(st), mode) && Allowed(log, TableMetadata(st).value, probeFails) {
      if ChangesSince(log, TableMetadata(st).value.instant).Ok? {
        ResumeWay(log, st, clock, budget);
      }
    } else if read.Ok? && CommitWrites(st, read.value, clock(0)).Ok? {
      FullWay(st, read.value, clock(0), budget);
    }
  }

  lemma {:induction false} FullWay(st: Store, snapshot: Snapshot, now: int, budget: nat)
    requires CommitWrites(st, snapshot, now).Ok?
    ensures budget >= 4 ==> AddsFiles(st, Stopped(st, CommitWrites(st, snapshot, now).value, budget), 1, snapshot.instant, now)
  {
    CommitAdds(st, snapshot, now);
  }

  lemma {:induction false} ResumeWay(log: Log, st: Store, clock: nat -> int, budget: nat)
    requires TableMetadata(st).Some? && ChangesSince(log, TableMetadata(st).value.instant).Ok?
    ensures var changes := ChangesSince(log, TableMetadata(st).value.instant).value;
      var o := Outcome(st, changes, Readings(clock, |changes|), budget);
      changes != [] && o.2 ==> AddsFiles(st, o.0, |changes|, Last(changes).instant, clock(|changes| - 1))
  {
    var changes := ChangesSince(log, TableMetadata(st).value.instant).value;
    if changes != [] && Outcome(st, changes, Readings(clock, |changes|), budget).2 {
      ResumeAdds(st, changes, Readings(clock, |changes|), budget);
    }
  }

  lemma {:induction false} ResumeAdds(st: Store, changes: seq<TableChange>, clock: seq<int>, budget: nat)
    requires |clock| == |changes| && changes != [] && Outcome(st, changes, clock, budget).2
    ensures AddsFiles(st, Outcome(st, changes, clock, budget).0, |changes|, Last(changes).instant, Last(clock))
  {
    ChangesAdd(st, changes, clock);
    var writes := ChangesWrites(st, changes, clock).0;
    assert Stopped(st, writes, budget) == Last(writes);
  }

  /** A dry run reports what the sync it stands for would, if that succeeds. */
  lemma {:induction false} DryRunForetells(log: Log, st: Store, mode: Mode, probeFails: bool,
                                           read: Result<Snapshot, LogError>, clock: nat -> int, budget: nat)
    ensures var full := SyncOutcome(log, st, mode, false, probeFails, read, clock, budget).1;
      full.Synced? ==> SyncOutcome(log, st, mode, true, probeFails, read, clock, budget).1 == full
  {
  }

  method SyncToTarget(log: Log, target: IcebergTarget, mode: Mode, dryRun: bool, probeFails: bool, clock: nat -> int)
    returns (result: SyncResult, ghost read: Result<Snapshot, LogError>)
    modifies target
    ensures Decide(TableMetadata(old(target.store)), mode, log, probeFails).FullSync? ==> IsCurrentSnapshot(log, read)
    ensures (target.store, result) ==
      SyncOutcome(log, old(target.store), mode, dryRun, probeFails, read, clock, old(target.budget))
    ensures GoesTheWay(log, old(target.store), mode, dryRun, probeFails, clock, target.store, result)
  {
    ghost var st, budget := target.store, target.budget;
    var meta := target.GetTableMetadata();
    var canSyncIncrementally, fellBack := false, false;
    var lastSynced := 0;
    if meta.Some? && meta.value.instant > 0 && mode != FullMode {
      lastSynced := meta.value.instant;
      var safe := IsIncrementalSyncSafeFrom(log, lastSynced);
      if probeFails || !safe {
        fellBack := true;
      } else {
        canSyncIncrementally := true;
      }
    }
    read := Err(EmptyLog);
    if canSyncIncrementally {
      var changes := GetChangesSince(log, lastSynced);
      if changes.Err? {
        result := Failed(false);
      } else if changes.value == [] {
        result := Synced(lastSynced, true, false);
      } else {
        var ok := true;
        if !dryRun {
          ok := target.CommitChanges(changes.value, Readings(clock, |changes.value|));
        }
        result := if ok then Synced(Last(changes.value).instant, false, false) else Failed(false);
      }
      TheWay(log, st, mode, dryRun, probeFails, read, clock, budget);
      return;
    }
    var snapshot := GetCurrentSnapshot(log);
    read := snapshot;
    if snapshot.Err? {
      result := Failed(fellBack);
      TheWay(log, st, mode, dryRun, probeFails, read, clock, budget);
      return;
    }
    var ok := true;
    if !dryRun {
      ok := target.CommitSnapshot(snapshot.value, clock(0));
    }
    result := if ok then Synced(snapshot.value.instant, false, fellBack) else Failed(fellBack);
    TheWay(log, st, mode, dryRun, probeFails, read, clock, budget);
  }

  /** A dry run, and a sync that finds nothing new, leave the target as it was. */
  lemma {:induction false} DryRunAndNoOpChangeNothing(log: Log, st: Store, mode: Mode, dryRun: bool, probeFails: bool,
                                   read: Result<Snapshot, LogError>, clock: nat -> int, budget: nat)
    ensures var (st', r) := SyncOutcome(log, st, mode, dryRun, probeFails, read, clock, budget);
      dryRun || (r.Synced? && r.noOp) ==> st' == st
  {
  }

  // ---------------------------------------------------------------------------------------
  // What a sync keeps
  // ---------------------------------------------------------------------------------------

  /** The target's live map is the source's at the version the target's watermark names. */
  ghost predicate InSync(h: seq<Commit>, st: Store)
  {
    && Valid(st)
    && (TableMetadata(st).Some? ==> SyncedAt(h, LiveFiles(st), TableMetadata(st).value))
  }

  ghost predicate SyncedAt(h: seq<Commit>, live: Result<seq<DataFile>, ReadError>, sync: SyncMetadata)
  {
    && 0 <= sync.source < |h| && TableAfter(h, sync.source + 1).Some?
    && live.Ok? && ToMap(live.value) == LiveAfter(h, sync.source + 1)
  }

  /** The watermark is an instant some chain, started no later than the current one, gave the version. */
  ghost predicate Watermarked(h: seq<Commit>, log: Log, sync: SyncMetadata)
  {
    exists s0 :: 0 <= s0 <= Start(log) && DerivedFrom(h, s0, sync)
  }

  ghost predicate DerivedFrom(h: seq<Commit>, s0: int, sync: SyncMetadata)
  {
    0 <= s0 <= sync.source + 1 <= |h| && sync.instant == Chain(Raws(h)[s0..sync.source + 1])
  }

  lemma {:induction false} AppliedCommit(live: seq<DataFile>, h: seq<Commit>, v: nat)
    requires v < |h| && AddsSurvive(h[v]) && ToMap(live) == LiveAfter(h, v)
    ensures ToMap(Applied(live, DiffOf(h[v]))) == LiveAfter(h, v + 1)
  {
    AppliedMap(live, DiffOf(h[v]));
    CommitDiffIff(LiveAfter(h, v), h[v]);
  }

  lemma {:induction false} AfterSnoc(live: seq<DataFile>, changes: seq<TableChange>, j: nat)
    requires j < |changes|
    ensures AfterChanges(live, changes, j + 1) == Applied(AfterChanges(live, changes, j), changes[j].diff)
    decreases j
  {
    if j > 0 {
      AfterSnoc(Applied(live, changes[0].diff), changes[1..], j - 1);
    } else {
      assert AfterChanges(live, changes, 1) == AfterChanges(Applied(live, changes[0].diff), changes[1..], 0);
    }
  }

  /** Applying the reported changes one by one walks the target through the source's own versions. */
  lemma {:induction false} ChangesWalk(h: seq<Commit>, s: nat, k: nat, live: seq<DataFile>, j: nat)
    requires AllSurvive(h) && s <= k + 1 <= |h| && Tabled(h, k + 1, |h|) && k + 1 + j <= |h|
    requires ToMap(live) == LiveAfter(h, k + 1)
    ensures |ChangesFrom(h, s, k + 1, |h|)| == |h| - k - 1
    ensures ToMap(AfterChanges(live, ChangesFrom(h, s, k + 1, |h|), j)) == LiveAfter(h, k + 1 + j)
  {
    DiffsAre(h, s, k + 1);
    Walk(h, live, ChangesFrom(h, s, k + 1, |h|), k + 1, j);
  }

  lemma {:induction false} DiffsAre(h: seq<Commit>, s: nat, v: nat)
    requires s <= v <= |h| && Tabled(h, v, |h|)
    ensures |ChangesFrom(h, s, v, |h|)| == |h| - v && DiffsFrom(h, ChangesFrom(h, s, v, |h|), v)
  {
    var changes := ChangesFrom(h, s, v, |h|);
    ChangesFromAt(h, s, v, |h|, 0);
    forall i | 0 <= i < |changes| ensures DiffAt(h, changes, v, i) {
      ChangesFromAt(h, s, v, |h|, i);
    }
  }

  ghost predicate DiffsFrom(h: seq<Commit>, changes: seq<TableChange>, v: nat) { forall i :: 0 <= i < |changes| ==> DiffAt(h, changes, v, i) }

  /** Change i carries the diff of version v + i. */
  ghost predicate DiffAt(h: seq<Commit>, changes: seq<TableChange>, v: nat, i: nat)
    requires i < |changes|
  {
    v + i < |h| && changes[i].diff == DiffOf(h[v + i])
  }

  lemma {:induction false} Walk(h: seq<Commit>, live: seq<DataFile>, changes: seq<TableChange>, v: nat, j: nat)
    requires AllSurvive(h) && j <= |changes| && v + |changes| <= |h| && ToMap(live) == LiveAfter(h, v)
    requires DiffsFrom(h, changes, v)
    ensures ToMap(AfterChanges(live, changes, j)) == LiveAfter(h, v + j)
    decreases j
  {
    if j > 0 {
      Walk(h, live, changes, v, j - 1);
      assert DiffAt(h, changes, v, j - 1);
      WalkOne(h, live, changes, j - 1, v + j - 1);
    }
  }

  lemma {:induction false} WalkOne(h: seq<Commit>, live: seq<DataFile>, changes: seq<TableChange>, j: nat, v: nat)
    requires AllSurvive(h) && v < |h| && j < |changes| && changes[j].diff == DiffOf(h[v])
    requires ToMap(AfterChanges(live, changes, j)) == LiveAfter(h, v)
    ensures ToMap(AfterChanges(live, changes, j + 1)) == LiveAfter(h, v + 1)
  {
    AfterSnoc(live, changes, j);
    AppliedCommit(AfterChanges(live, changes, j), h, v);
  }

  /** The watermark after j of the reported changes names version k + j, on the current chain. */
  lemma {:induction false} ChangesSync(h: seq<Commit>, log: Log, k: nat, j: nat)
    requires LogOf(h, log) && Start(log) <= k + 1 && 0 < j && k + 1 + j <= |h| && Tabled(h, k + 1, |h|)
    ensures |ChangesFrom(h, Start(log), k + 1, |h|)| == |h| - k - 1
    ensures var sync := SyncAfter(None, ChangesFrom(h, Start(log), k + 1, |h|), j).value;
      sync.source == k + j && DerivedFrom(h, Start(log), sync) && TableAfter(h, k + j + 1).Some?
  {
    ChangesFromAt(h, Start(log), k + 1, |h|, j - 1);
  }

  /** The resume condition left once the watermark comes from a chain started no later: the checkpoint
      has not passed the synced version and the next commit's instant is above the watermark. */
  ghost predicate ResumeSound(h: seq<Commit>, log: Log, sync: SyncMetadata)
    requires 0 <= Start(log) <= |h| && 0 <= sync.source < |h|
  {
    && Start(log) <= sync.source + 1
    && (sync.source + 1 < |h| ==> sync.instant < InstantAt(h, Start(log), sync.source + 1))
  }

  lemma {:induction false} SoundIsResumable(h: seq<Commit>, log: Log, sync: SyncMetadata)
    requires LogOf(h, log) && 0 <= sync.source < |h| && Watermarked(h, log, sync) && ResumeSound(h, log, sync)
    ensures Resumable(h, log, sync.source, sync.instant)
  {
    var s0 :| 0 <= s0 <= Start(log) && DerivedFrom(h, s0, sync);
    if Start(log) <= sync.source {
      OlderWatermarkCovers(h, s0, Start(log), sync.source);
    }
  }

  lemma {:induction false} ShowsInSync(h: seq<Commit>, st: Store, live: seq<DataFile>, sync: Option<SyncMetadata>)
    requires Shows(st, live, sync)
    ensures InSync(h, st) <==> (sync.Some? ==> SyncedAt(h, Ok(live), sync.value))
  {
  }

  /** A property of the old view carries to the first two states, one of the new view to the others. */
  lemma {:induction false} StoppedCommit(st: Store, w: seq<Store>, budget: nat, before: Store -> bool, after: Store -> bool)
    requires |w| == 4 && before(st) && before(w[0]) && before(w[1]) && after(w[2]) && after(w[3])
    ensures if budget < 3 then before(Stopped(st, w, budget)) else after(Stopped(st, w, budget))
  {
  }

  lemma {:induction false} SnapshotSynced(h: seq<Commit>, log: Log, snapshot: Snapshot)
    requires LogOf(h, log) && IsCurrentSnapshot(log, Ok(snapshot))
    ensures var sync := SyncMetadata(snapshot.instant, snapshot.version);
      && SyncedAt(h, Ok(snapshot.files), sync) && sync.source == |h| - 1 && DerivedFrom(h, Start(log), sync)
  {
    CheckpointRefinement(h, log, Ok(snapshot));
    assert Raws(h)[Start(log)..] == Raws(h)[Start(log)..|h|];
  }

  /** A full sync stopped after any write leaves the target in sync: at the old version or the new. */
  lemma {:induction false} FullSyncKeeps(h: seq<Commit>, log: Log, st: Store, snapshot: Snapshot, now: int, budget: nat,
                                         live: seq<DataFile>, sync: Option<SyncMetadata>)
    requires LogOf(h, log) && Shows(st, live, sync) && (sync.Some? ==> SyncedAt(h, Ok(live), sync.value))
    requires IsCurrentSnapshot(log, Ok(snapshot)) && CommitWrites(st, snapshot, now).Ok?
    ensures var st' := Stopped(st, CommitWrites(st, snapshot, now).value, budget);
      InSync(h, st') && TableMetadata(st') ==
        if budget < 3 then sync else Some(SyncMetadata(snapshot.instant, snapshot.version))
  {
    var w := CommitWrites(st, snapshot, now).value;
    assert CommitStates(w, live, sync, snapshot) by { CommitShows(st, snapshot, now, live, sync); }
    var sync' := Some(SyncMetadata(snapshot.instant, snapshot.version));
    StoppedCommit(st, w, budget, s => Shows(s, live, sync), s => Shows(s, snapshot.files, sync'));
    SnapshotSynced(h, log, snapshot);
    if budget < 3 {
      ShowsInSync(h, Stopped(st, w, budget), live, sync);
    } else {
      ShowsInSync(h, Stopped(st, w, budget), snapshot.files, sync');
    }
  }

  /** After j of the changes the target is where the source was at version k + j. */
  lemma {:induction false} ChangesSynced(h: seq<Commit>, log: Log, live: seq<DataFile>, sync: SyncMetadata, j: nat)
    requires LogOf(h, log) && AllSurvive(h) && SyncedAt(h, Ok(live), sync)
    requires Start(log) <= sync.source + 1 && sync.source + 1 + j <= |h| && Tabled(h, sync.source + 1, |h|)
    ensures var changes := ChangesFrom(h, Start(log), sync.source + 1, |h|);
      |changes| == |h| - sync.source - 1 && SyncedAfter(h, Start(log), live, sync, changes, j)
  {
    ChangesWalk(h, Start(log), sync.source, live, j);
    if j > 0 {
      ChangesSync(h, log, sync.source, j);
    }
    Arrived(h, Start(log), live, sync, ChangesFrom(h, Start(log), sync.source + 1, |h|), j);
  }

  /** In sync after j of the changes, j versions on. */
  ghost predicate SyncedAfter(h: seq<Commit>, s: int, live: seq<DataFile>, sync: SyncMetadata, changes: seq<TableChange>, j: nat)
    requires j <= |changes|
  {
    var sync' := SyncAfter(Some(sync), changes, j).value;
    && SyncedAt(h, Ok(AfterChanges(live, changes, j)), sync')
    && sync'.source == sync.source + j
    && (j > 0 ==> DerivedFrom(h, s, sync'))
  }

  lemma {:induction false} Arrived(h: seq<Commit>, s: int, live: seq<DataFile>, sync: SyncMetadata, changes: seq<TableChange>, j: nat)
    requires SyncedAt(h, Ok(live), sync) && sync.source + 1 + j <= |h| && j <= |changes|
    requires ToMap(AfterChanges(live, changes, j)) == LiveAfter(h, sync.source + 1 + j)
    requires j > 0 ==>
      var sync' := SyncAfter(None, changes, j).value;
      sync'.source == sync.source + j && DerivedFrom(h, s, sync') && TableAfter(h, sync.source + j + 1).Some?
    ensures SyncedAfter(h, s, live, sync, changes, j)
  {
    if j > 0 {
      WalkedTo(h, AfterChanges(live, changes, j), SyncAfter(None, changes, j).value);
    }
  }

  lemma {:induction false} WalkedTo(h: seq<Commit>, live: seq<DataFile>, sync: SyncMetadata)
    requires 0 <= sync.source < |h| && TableAfter(h, sync.source + 1).Some? && ToMap(live) == LiveAfter(h, sync.source + 1)
    ensures SyncedAt(h, Ok(live), sync)
  {
  }

  /** The changes after the synced version. */
  ghost predicate Missing(h: seq<Commit>, log: Log, sync: SyncMetadata, changes: seq<TableChange>)
  {
    && 0 <= Start(log) <= sync.source + 1 && 0 <= sync.source < |h| && Tabled(h, sync.source + 1, |h|)
    && changes == ChangesFrom(h, Start(log), sync.source + 1, |h|) && |changes| == |h| - sync.source - 1
  }

  /** A resumed sync stopped after b writes leaves the target at version k + Visible(b). */
  lemma {:induction false} ResumeKeeps(h: seq<Commit>, log: Log, st: Store, changes: seq<TableChange>, clock: seq<int>, b: nat, live: seq<DataFile>, sync: SyncMetadata)
    requires LogOf(h, log) && AllSurvive(h) && Shows(st, live, Some(sync)) && SyncedAt(h, Ok(live), sync) && Missing(h, log, sync, changes)
    requires |clock| == |changes| && b <= |ChangesWrites(st, changes, clock).0|
    ensures var st' := Stopped(st, ChangesWrites(st, changes, clock).0, b);
      && Visible(b) <= |changes|
      && Shows(st', AfterChanges(live, changes, Visible(b)), SyncAfter(Some(sync), changes, Visible(b)))
      && InSync(h, st')
  {
    StoppedVisible(st, changes, clock, live, Some(sync), b);
    ShownChanges(h, log, Stopped(st, ChangesWrites(st, changes, clock).0, b), changes, live, sync, Visible(b));
  }

  lemma {:induction false} StoppedVisible(st: Store, changes: seq<TableChange>, clock: seq<int>, live: seq<DataFile>, sync: Option<SyncMetadata>, b: nat)
    requires |clock| == |changes| && Shows(st, live, sync) && b <= |ChangesWrites(st, changes, clock).0|
    ensures Visible(b) <= |changes|
    ensures Shows(Stopped(st, ChangesWrites(st, changes, clock).0, b), AfterChanges(live, changes, Visible(b)), SyncAfter(sync, changes, Visible(b)))
  {
    StoppedShows(st, changes, clock, live, sync);
  }

  lemma {:induction false} ShownChanges(h: seq<Commit>, log: Log, st: Store, changes: seq<TableChange>, live: seq<DataFile>, sync: SyncMetadata, j: nat)
    requires LogOf(h, log) && AllSurvive(h) && SyncedAt(h, Ok(live), sync) && Missing(h, log, sync, changes) && j <= |changes|
    requires Shows(st, AfterChanges(live, changes, j), SyncAfter(Some(sync), changes, j))
    ensures InSync(h, st)
  {
    ChangesSynced(h, log, live, sync, j);
    ShowsInSync(h, st, AfterChanges(live, changes, j), SyncAfter(Some(sync), changes, j));
  }
}
