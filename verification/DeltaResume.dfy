/** Resuming from a watermark: which versions GetChangesSince reports, exactly when they are the
    versions the target lacks, and what the retention check adds. */
module DeltaResume {
  import opened Common
  import opened Model
  import opened Instants
  import opened DeltaLog
  import opened DeltaSource

  /** The derived instant of version v when the reader's chain starts at version s. */
  function InstantAt(h: seq<Commit>, s: nat, v: nat): int
    requires s <= v < |h|
  {
    Chain(Raws(h)[s..v + 1])
  }

  lemma {:induction false} InstantsIncrease(h: seq<Commit>, s: nat, u: nat, v: nat)
    requires s <= u < v < |h|
    ensures 0 < InstantAt(h, s, u) < InstantAt(h, s, v)
  {
    var r := Raws(h)[s..];
    assert Raws(h)[s..u + 1] == r[..u + 1 - s] && Raws(h)[s..v + 1] == r[..v + 1 - s];
    ChainIncreases(r, 0, u + 1 - s);
    ChainIncreases(r, u + 1 - s, v + 1 - s);
  }

  lemma {:induction false} TablesStay(h: seq<Commit>, m: nat, n: nat)
    requires m <= n <= |h| && TableAfter(h, m).Some?
    ensures TableAfter(h, n).Some?
    decreases n
  {
    if m < n {
      TablesStay(h, m, n - 1);
      LatestStays(TableAfter(h, n - 1), h[n - 1]);
    }
  }

  lemma {:induction false} LatestStays(t: Option<Table>, c: Commit)
    requires t.Some?
    ensures LatestTable(t, c).Some?
  {
    if c != [] {
      LatestStays(t, c[..|c| - 1]);
    }
  }

  /** The change version v stands for, as a reader whose chain starts at s reports it. */
  function ChangeAt(h: seq<Commit>, s: nat, v: nat): TableChange
    requires s <= v < |h| && TableAfter(h, v + 1).Some?
  {
    TableChange(DiffOf(h[v]), TableAfter(h, v + 1).value, v, InstantAt(h, s, v))
  }

  ghost predicate Tabled(h: seq<Commit>, j: nat, n: nat)
    requires j <= n <= |h|
  {
    j == n || TableAfter(h, j + 1).Some?
  }

  function ChangesFrom(h: seq<Commit>, s: nat, j: nat, n: nat): seq<TableChange>
    requires s <= j <= n <= |h| && Tabled(h, j, n)
  {
    if j == n then []
    else
      TablesStay(h, j + 1, n);
      ChangesFrom(h, s, j, n - 1) + [ChangeAt(h, s, n - 1)]
  }

  /** The first version in s..n whose derived instant is past `from`. */
  function FirstPast(h: seq<Commit>, s: nat, from: int, n: nat): (j: nat)
    requires s <= n <= |h|
    ensures s <= j <= n
    ensures forall v :: s <= v < n ==> (InstantAt(h, s, v) > from <==> v >= j)
  {
    if s == n then n
    else if InstantAt(h, s, n - 1) <= from then
      assert forall v :: s <= v < n - 1 ==> InstantAt(h, s, v) < InstantAt(h, s, n - 1) by {
        forall v | s <= v < n - 1 ensures InstantAt(h, s, v) < InstantAt(h, s, n - 1) {
          InstantsIncrease(h, s, v, n - 1);
        }
      }
      n
    else FirstPast(h, s, from, n - 1)
  }

  /** One more version: skipped while its instant is not past `from`, else reported with its table. */
  lemma {:induction false} BacklogStep(h: seq<Commit>, s: nat, from: int, n: nat)
    requires s < n <= |h|
    ensures Backlog(TableAfter(h, s), Versions(h, s, n), from) ==
      Reported(Backlog(TableAfter(h, s), Versions(h, s, n - 1), from), from, TableAfter(h, n), CommitFile(n - 1, h[n - 1]), InstantAt(h, s, n - 1))
  {
    VersionsRead(h, s, n);
    BacklogSnoc(TableAfter(h, s), Versions(h, s, n), Versions(h, s, n - 1), CommitFile(n - 1, h[n - 1]), from, TableAfter(h, n), InstantAt(h, s, n - 1));
  }

  function Reported(before: Result<seq<TableChange>, LogError>, from: int, table: Option<Table>, f: CommitFile, instant: int): Result<seq<TableChange>, LogError>
  {
    if before.Err? || instant <= from then before
    else if table.None? then Err(NoMetadata(f.version))
    else Ok(before.value + [TableChange(DiffOf(f.commit), table.value, f.version, instant)])
  }

  lemma {:induction false} VersionsRead(h: seq<Commit>, s: nat, n: nat)
    requires s < n <= |h|
    ensures TableOf(TableAfter(h, s), Commits(Versions(h, s, n))) == TableAfter(h, n)
    ensures Chain(Raws(Commits(Versions(h, s, n)))) == InstantAt(h, s, n - 1)
  {
    VersionsAre(h, s, n);
    TailReplay(h, s, n);
  }

  lemma {:induction false} BacklogSnoc(base: Option<Table>, tail: seq<CommitFile>, init: seq<CommitFile>, f: CommitFile, from: int, table: Option<Table>, instant: int)
    requires tail == init + [f] && TableOf(base, Commits(tail)) == table && Chain(Raws(Commits(tail))) == instant
    ensures Backlog(base, tail, from) == Reported(Backlog(base, init, from), from, table, f, instant)
  {
    assert tail[..|init|] == init;
  }

  ghost predicate ReportsFrom(h: seq<Commit>, s: nat, j: nat, n: nat, r: Result<seq<TableChange>, LogError>)
    requires s <= j <= n <= |h|
  {
    if Tabled(h, j, n) then r == Ok(ChangesFrom(h, s, j, n)) else r.Err?
  }

  lemma {:induction false} ReportsStep(h: seq<Commit>, s: nat, j: nat, n: nat, before: Result<seq<TableChange>, LogError>)
    requires s <= j < n <= |h| && ReportsFrom(h, s, j, n - 1, before)
    ensures ReportsFrom(h, s, j, n,
      if before.Err? then before
      else if TableAfter(h, n).None? then Err(NoMetadata(n - 1))
      else Ok(before.value + [ChangeAt(h, s, n - 1)]))
  {
    if TableAfter(h, j + 1).Some? {
      TablesStay(h, j + 1, n);
    }
  }

  lemma {:induction false} BacklogExact(h: seq<Commit>, s: nat, from: int, n: nat)
    requires s <= n <= |h|
    ensures ReportsFrom(h, s, FirstPast(h, s, from, n), n, Backlog(TableAfter(h, s), Versions(h, s, n), from))
    decreases n
  {
    if s < n {
      BacklogExact(h, s, from, n - 1);
      BacklogStep(h, s, from, n);
      NextReported(h, s, from, n, Backlog(TableAfter(h, s), Versions(h, s, n - 1), from));
    }
  }

  lemma {:induction false} NextReported(h: seq<Commit>, s: nat, from: int, n: nat, before: Result<seq<TableChange>, LogError>)
    requires s < n <= |h| && ReportsFrom(h, s, FirstPast(h, s, from, n - 1), n - 1, before)
    ensures ReportsFrom(h, s, FirstPast(h, s, from, n), n,
      Reported(before, from, TableAfter(h, n), CommitFile(n - 1, h[n - 1]), InstantAt(h, s, n - 1)))
  {
    var j := FirstPast(h, s, from, n);
    if j < n {
      assert FirstPast(h, s, from, n - 1) == j;
      ReportsStep(h, s, j, n, before);
    }
  }

  /** GetChangesSince over a genuine listing: the versions whose derived instant is past `from`,
      in order, each with its own diff, table and instant; an error exactly when there is no commit
      or a reported version precedes every metaData action. */
  lemma {:induction false} ChangesExact(h: seq<Commit>, log: Log, from: int)
    requires LogOf(h, log)
    ensures var s := Start(log); var j := FirstPast(h, s, from, |h|); var r := ChangesSince(log, from);
      if HasTable(h) && Tabled(h, j, |h|) then r == Ok(ChangesFrom(h, s, j, |h|)) else r.Err?
  {
    var s := Start(log);
    LoadsTail(h, log);
    VersionsAre(h, s, |h|);
    TailReplay(h, s, |h|);
    BacklogExact(h, s, from, |h|);
  }

  lemma {:induction false} ChangesFromAt(h: seq<Commit>, s: nat, j: nat, n: nat, i: nat)
    requires s <= j <= n <= |h| && Tabled(h, j, n)
    ensures |ChangesFrom(h, s, j, n)| == n - j
    ensures i < n - j ==> TableAfter(h, j + i + 1).Some? && ChangesFrom(h, s, j, n)[i] == ChangeAt(h, s, j + i)
    decreases n
  {
    if j < n {
      TablesStay(h, j + 1, n);
      ChangesFromAt(h, s, j, n - 1, i);
      var init := ChangesFrom(h, s, j, n - 1);
      assert ChangesFrom(h, s, j, n) == init + [ChangeAt(h, s, n - 1)];
    }
  }

  lemma {:induction false} ChangesFromVersions(h: seq<Commit>, s: nat, j: nat, n: nat)
    requires s <= j <= n <= |h| && Tabled(h, j, n)
    ensures |ChangesFrom(h, s, j, n)| == n - j
    ensures forall i :: 0 <= i < n - j ==> ChangesFrom(h, s, j, n)[i].version == j + i
  {
    ChangesFromAt(h, s, j, n, 0);
    forall i | 0 <= i < n - j ensures ChangesFrom(h, s, j, n)[i].version == j + i {
      ChangesFromAt(h, s, j, n, i);
    }
  }

  // ---------------------------------------------------------------------------------------
  // Resuming
  // ---------------------------------------------------------------------------------------

  /** The reported changes are the versions after k, each once and in order. */
  ghost predicate ReportsAfter(h: seq<Commit>, log: Log, k: nat, w: int)
  {
    var r := ChangesSince(log, w);
    r.Ok? && |r.value| == |h| - k - 1 && forall i :: 0 <= i < |r.value| ==> r.value[i].version == k + 1 + i
  }

  /** What a caller can check before resuming a target synced at version k with watermark w: the
      checkpoint has not passed k, and the current instants of k and k + 1 sit on the two sides of w. */
  ghost predicate Resumable(h: seq<Commit>, log: Log, k: nat, w: int)
    requires 0 <= Start(log) <= |h| && k < |h|
  {
    var s := Start(log);
    && s <= k + 1
    && (s <= k ==> InstantAt(h, s, k) <= w)
    && (k + 1 < |h| ==> w < InstantAt(h, s, k + 1))
  }

  /** No commit is lost or repeated if and only if the resume point is Resumable. */
  lemma {:induction false} ResumeIff(h: seq<Commit>, log: Log, k: nat, w: int)
    requires LogOf(h, log) && k < |h| && TableAfter(h, k + 1).Some?
    ensures ReportsAfter(h, log, k, w) <==> Resumable(h, log, k, w)
    ensures Tabled(h, k + 1, |h|)
    ensures Resumable(h, log, k, w) ==> ChangesSince(log, w) == Ok(ChangesFrom(h, Start(log), k + 1, |h|))
  {
    var s, n := Start(log), |h|;
    var j := FirstPast(h, s, w, n);
    TablesStay(h, k + 1, n);
    if k + 1 < n {
      TablesStay(h, k + 1, k + 2);
    }
    ChangesExact(h, log, w);
    var r := ChangesSince(log, w);
    if Resumable(h, log, k, w) {
      assert j == k + 1;
      ChangesFromVersions(h, s, j, n);
    } else if r.Ok? {
      ChangesFromVersions(h, s, j, n);
    }
  }

  /** A watermark from a chain that started no later than the current one never repeats a version. */
  lemma {:induction false} OlderWatermarkCovers(h: seq<Commit>, s0: nat, s: nat, k: nat)
    requires s0 <= s <= k < |h|
    ensures InstantAt(h, s, k) <= InstantAt(h, s0, k)
  {
    assert Raws(h)[s0..k + 1] == Raws(h)[s0..s] + Raws(h)[s..k + 1];
    LaterStartIsLower(Raws(h)[s0..s], Raws(h)[s..k + 1]);
  }

  /** While the chain start stays put, every watermark is a sound cursor, whatever the timestamps. */
  lemma {:induction false} SameStartResumes(h: seq<Commit>, log: Log, k: nat)
    requires LogOf(h, log) && Start(log) <= k < |h|
    ensures Resumable(h, log, k, InstantAt(h, Start(log), k))
  {
    if k + 1 < |h| {
      InstantsIncrease(h, Start(log), k, k + 1);
    }
  }

  lemma {:induction false} IncreasingInstant(h: seq<Commit>, s: nat, k: nat)
    requires Increasing(Raws(h)) && s <= k < |h|
    ensures InstantAt(h, s, k) == Raws(h)[k]
  {
    ChainOfIncreasing(Raws(h)[s..k + 1]);
  }

  /** With positive, strictly increasing timestamps a checkpoint may move freely up to the synced
      version: resuming is exact if and only if it has not passed it. */
  lemma {:induction false} IncreasingResumesIff(h: seq<Commit>, log: Log, k: nat)
    requires LogOf(h, log) && k < |h| && Increasing(Raws(h))
    ensures Resumable(h, log, k, Raws(h)[k]) <==> Start(log) <= k + 1
  {
    var s := Start(log);
    if s <= k {
      IncreasingInstant(h, s, k);
    }
    if s <= k + 1 < |h| {
      IncreasingInstant(h, s, k + 1);
    }
  }

  /** No JSON commit survives below the checkpoint. */
  predicate HeadCleaned(log: Log)
  {
    log.checkpoint.Some? && log.files != [] ==> log.files[0].version >= log.checkpoint.value.version
  }

  /** Retention soundness: on such a log the safety check implies an exact resume. */
  lemma {:induction false} RetentionSound(h: seq<Commit>, log: Log, k: nat)
    requires LogOf(h, log) && k < |h| && Increasing(Raws(h)) && HeadCleaned(log)
    requires SafeFrom(log, Raws(h)[k])
    ensures Resumable(h, log, k, Raws(h)[k])
  {
    var e := log.files[0].version;
    assert Raws(h)[e] <= Raws(h)[k];
    assert e <= k;
    IncreasingResumesIff(h, log, k);
  }

  /** ... and the cleanup is what it takes: with increasing timestamps the check is sound for every version if and
      only if no JSON commit survives below the checkpoint. */
  lemma {:induction false} OrderedRetentionIff(h: seq<Commit>, log: Log)
    requires LogOf(h, log) && Increasing(Raws(h))
    ensures (forall k: nat :: k < |h| && SafeFrom(log, Raws(h)[k]) ==> Resumable(h, log, k, Raws(h)[k])) <==> HeadCleaned(log)
  {
    if HeadCleaned(log) {
      forall k: nat | k < |h| && SafeFrom(log, Raws(h)[k]) ensures Resumable(h, log, k, Raws(h)[k]) {
        RetentionSound(h, log, k);
      }
    } else {
      var e := log.files[0].version;
      assert SafeFrom(log, Raws(h)[e]);
      IncreasingResumesIff(h, log, e);
    }
  }

  /** An instant is no earlier than any raw timestamp of its chain. */
  lemma {:induction false} InstantAboveRaw(h: seq<Commit>, s: nat, e: nat, k: nat)
    requires s <= e <= k < |h|
    ensures Raws(h)[e] <= InstantAt(h, s, k)
  {
    ChainStep(Raws(h)[s..], e - s);
    assert Raws(h)[s..][..e - s + 1] == Raws(h)[s..e + 1];
    if e < k {
      InstantsIncrease(h, s, e, k);
    }
  }

  /** Whatever the timestamps, for every version at or after the earliest retained commit the check says yes to the
      version's own instant if and only if that commit carries a positive timestamp: on such a log a no comes
      from a missing timestamp alone. */
  lemma {:induction false} SafeIffStamped(h: seq<Commit>, log: Log, s: nat, k: nat)
    requires LogOf(h, log) && log.files != [] && s <= log.files[0].version <= k < |h|
    ensures SafeFrom(log, InstantAt(h, s, k)) <==> Raws(h)[log.files[0].version] > 0
  {
    InstantAboveRaw(h, s, log.files[0].version, k);
  }

  /** A sound watermark of a chain started no later stays sound: from the next version on the chains agree. */
  lemma {:induction false} ResumableNext(h: seq<Commit>, log: Log, s0: nat, k: nat)
    requires LogOf(h, log) && s0 <= Start(log) && s0 <= k && k + 1 < |h| && Resumable(h, log, k, InstantAt(h, s0, k))
    ensures Resumable(h, log, k + 1, InstantAt(h, s0, k + 1))
  {
    OlderWatermarkCovers(h, s0, Start(log), k + 1);
    InstantAboveRaw(h, Start(log), k + 1, k + 1);
    InstantStep(h, s0, k);
    SameStartResumes(h, log, k + 1);
  }

  lemma {:induction false} InstantStep(h: seq<Commit>, s: nat, k: nat)
    requires s <= k && k + 1 < |h|
    ensures InstantAt(h, s, k + 1) == Advance(InstantAt(h, s, k), Raws(h)[k + 1])
  {
    var r := Raws(h)[s..];
    assert Raws(h)[s..k + 2] == r[..k + 2 - s] && Raws(h)[s..k + 1] == r[..k + 1 - s];
    ChainStep(r, k + 1 - s);
  }

  lemma {:induction false} ResumableLater(h: seq<Commit>, log: Log, s0: nat, k: nat, m: nat)
    requires LogOf(h, log) && s0 <= Start(log) && s0 <= k <= m < |h| && Resumable(h, log, k, InstantAt(h, s0, k))
    ensures Resumable(h, log, m, InstantAt(h, s0, m))
    decreases m
  {
    if k < m {
      ResumableLater(h, log, s0, k, m - 1);
      ResumableNext(h, log, s0, m - 1);
    }
  }

  /** The check is sound for the first version it accepts the watermark of, if there is one. */
  ghost predicate FirstYesSound(h: seq<Commit>, log: Log, s0: nat)
    requires 0 <= Start(log) <= |h| && s0 <= |h|
  {
    SomeYes(log) ==>
      var k := FirstPast(h, s0, RawTime(log.files[0].commit) - 1, |h|);
      k < |h| ==> Resumable(h, log, k, InstantAt(h, s0, k))
  }

  predicate SomeYes(log: Log) { log.files != [] && RawTime(log.files[0].commit) > 0 }

  /** Whatever the timestamps: for the watermarks of any chain started no later than the current one, the check is
      sound for every version if and only if it is for the first it accepts. */
  lemma {:induction false} RetentionIff(h: seq<Commit>, log: Log, s0: nat)
    requires LogOf(h, log) && s0 <= Start(log)
    ensures (forall k: nat :: s0 <= k < |h| && SafeFrom(log, InstantAt(h, s0, k)) ==> Resumable(h, log, k, InstantAt(h, s0, k)))
      <==> FirstYesSound(h, log, s0)
  {
    if SomeYes(log) && FirstYesSound(h, log, s0) {
      var first := FirstPast(h, s0, RawTime(log.files[0].commit) - 1, |h|);
      forall k: nat | s0 <= k < |h| && SafeFrom(log, InstantAt(h, s0, k)) ensures Resumable(h, log, k, InstantAt(h, s0, k)) {
        ResumableLater(h, log, s0, first, k);
      }
    }
  }

  /** Without that cleanup the check passes and commits are lost: it looks at the earliest JSON file,
      the replay starts after the checkpoint. */
  lemma {:induction false} RetentionGap(h: seq<Commit>, log: Log)
    requires LogOf(h, log) && |h| > 2 && Increasing(Raws(h))
    requires log.checkpoint.Some? && log.checkpoint.value.version == 1
    requires log.files != [] && log.files[0].version == 0
    requires TableAfter(h, 1).Some?
    ensures SafeFrom(log, Raws(h)[0])
    ensures !ReportsAfter(h, log, 0, Raws(h)[0])
  {
    ResumeIff(h, log, 0, Raws(h)[0]);
  }

  /** Stalled timestamps make a watermark unsound once the checkpoint moves, even with the head
      cleaned: the restarted chain falls behind it and the next commit is skipped. */
  lemma {:induction false} StalledClockGap(h: seq<Commit>, log: Log)
    requires LogOf(h, log) && Raws(h) == [5, 5, 5] && TableAfter(h, 2).Some?
    requires Start(log) == 2 && log.files != [] && log.files[0].version == 2
    ensures InstantAt(h, 0, 1) == 6 && HeadCleaned(log) && SafeFrom(log, 6)
    ensures !ReportsAfter(h, log, 1, 6)
  {
    assert Raws(h)[0..2] == [5, 5] && [5, 5][..1] == [5] && [5][..0] == [];
    assert Chain([5]) == 5;
    assert Raws(h)[2..3] == [5];
    assert RawTime(log.files[0].commit) == Raws(h)[2];
    ResumeIff(h, log, 1, 6);
  }
}
