/** The numbers of the metadata files the Iceberg target writes (pkg/formats/iceberg/target.go): no file is ever
    written again, and the hint names the newest. */
module IcebergVersions {
  import opened Common
  import opened Model
  import opened DeltaSource
  import opened IcebergTable
  import opened IcebergCommit
  import opened SyncProtocol
  import opened SyncRuns
  import opened WrittenRuns

  // ---------------------------------------------------------------------------------------
  // Numbering
  // ---------------------------------------------------------------------------------------

  /** Versions increase strictly, so that no two metadata files share a name. */
  ghost predicate Numbered(st: Store)
  {
    forall i, j :: 0 <= i < j < |st.metadata| ==> st.metadata[i].version < st.metadata[j].version
  }

  /** Every metadata file there was is still there, unchanged and in its place. */
  ghost predicate Keeps(st: Store, s: Store)
  {
    |st.metadata| <= |s.metadata| && s.metadata[..|st.metadata|] == st.metadata
  }

  /** A version is 1, or one more than that of the file before. */
  ghost predicate NumberedAt(s: Store, k: nat)
    requires k < |s.metadata|
  {
    s.metadata[k].version == if k == 0 then 1 else s.metadata[k - 1].version + 1
  }

  /** What b writes of some commits leave: files numbered on from the highest, one for every commit whose third
      write was made, and after a whole number of commits a hint that names the newest. */
  ghost predicate AfterWrites(st: Store, s: Store, b: nat)
  {
    && Keeps(st, s) && |s.metadata| == |st.metadata| + (b + 1) / 4
    && (forall k :: |st.metadata| <= k < |s.metadata| ==> NumberedAt(s, k))
    && (if b % 4 == 0 && b > 0 then s.metadata != [] && s.hint == Some(Last(s.metadata).version)
        else b < 4 ==> s.hint == st.hint)
  }

  lemma {:induction false} NumberedAfter(st: Store, s: Store, b: nat)
    requires Numbered(st) && AfterWrites(st, s, b)
    ensures Numbered(s)
  {
    forall i, j | 0 <= i < j < |s.metadata| ensures s.metadata[i].version < s.metadata[j].version {
      IncreasingTo(st, s, b, i, j);
    }
  }

  lemma {:induction false} IncreasingTo(st: Store, s: Store, b: nat, i: nat, j: nat)
    requires Numbered(st) && AfterWrites(st, s, b) && i < j < |s.metadata|
    ensures s.metadata[i].version < s.metadata[j].version
    decreases j
  {
    var n := |st.metadata|;
    if j < n {
      assert s.metadata[..n][i] == st.metadata[i] && s.metadata[..n][j] == st.metadata[j];
    } else {
      assert NumberedAt(s, j);
      if i < j - 1 {
        IncreasingTo(st, s, b, i, j - 1);
      }
    }
  }

  /** The four states of one commit. */
  lemma {:induction false} CommitNumbers(st: Store, snapshot: Snapshot, now: int, b: nat)
    requires CommitWrites(st, snapshot, now).Ok? && b <= 4
    ensures |CommitWrites(st, snapshot, now).value| == 4
    ensures AfterWrites(st, Stopped(st, CommitWrites(st, snapshot, now).value, b), b)
  {
    var file := CommitFiles(st, snapshot, now);
    FourNumber(st, CommitWrites(st, snapshot, now).value, file, b);
  }

  /** What the writes of one commit do to the metadata files and the hint. */
  ghost predicate AddsThird(st: Store, w: seq<Store>, file: MetadataFile)
  {
    && |w| == 4 && file.version == (if st.metadata == [] then 1 else Last(st.metadata).version + 1)
    && w[0].metadata == st.metadata && w[1].metadata == st.metadata && w[2].metadata == st.metadata + [file] && w[3].metadata == st.metadata + [file]
    && w[0].hint == st.hint && w[1].hint == st.hint && w[2].hint == st.hint && w[3].hint == Some(file.version)
  }

  lemma {:induction false} CommitFiles(st: Store, snapshot: Snapshot, now: int) returns (file: MetadataFile)
    requires CommitWrites(st, snapshot, now).Ok?
    ensures AddsThird(st, CommitWrites(st, snapshot, now).value, file)
  {
    var meta := WritesAre(st, snapshot, now);
    file := MetadataFile(NextVersion(st), meta);
  }

  lemma {:induction false} FourNumber(st: Store, w: seq<Store>, file: MetadataFile, b: nat)
    requires AddsThird(st, w, file) && b <= 4
    ensures AfterWrites(st, Stopped(st, w, b), b)
  {
    var s := Stopped(st, w, b);
    if b >= 3 {
      assert s == w[b - 1] && s.metadata[..|st.metadata|] == st.metadata;
      assert NumberedAt(s, |st.metadata|);
    }
  }

  lemma {:induction false} WritesCompose(st: Store, mid: Store, s: Store, b: nat)
    requires AfterWrites(st, mid, 4) && AfterWrites(mid, s, b)
    ensures AfterWrites(st, s, b + 4)
  {
    var n := |mid.metadata|;
    KeepsOn(st, mid, s);
    forall k | |st.metadata| <= k < |s.metadata| ensures NumberedAt(s, k) {
      if k < n {
        assert NumberedAt(mid, k);
        assert s.metadata[..n][k] == mid.metadata[k];
        assert k > 0 ==> s.metadata[..n][k - 1] == mid.metadata[k - 1];
      }
    }
    assert (b + 4) % 4 == b % 4 && (b + 4 + 1) / 4 == (b + 1) / 4 + 1;
    assert b == 0 ==> s.metadata[..n] == s.metadata;
  }

  /** The same over a run of commits stopped after any number of writes. */
  lemma {:induction false} ChangesNumber(st: Store, changes: seq<TableChange>, clock: seq<int>, b: nat)
    requires |clock| == |changes| && b <= |ChangesWrites(st, changes, clock).0|
    ensures AfterWrites(st, Stopped(st, ChangesWrites(st, changes, clock).0, b), b)
    decreases |changes|
  {
    if ChangesWrites(st, changes, clock).0 != [] {
      var one := FirstCommit(st, changes[0], clock[0]);
      ChangesStep(st, changes, clock, one);
      var snapshot := ChangeSnapshot(changes[0], LiveFiles(st).value);
      var rest := ChangesWrites(one.value[3], changes[1..], clock[1..]).0;
      CommitNumbers(st, snapshot, clock[0], Min(b, 4));
      if b >= 4 {
        ChangesNumber(one.value[3], changes[1..], clock[1..], b - 4);
      }
      NumbersOn(st, one.value, rest, b);
    }
  }

  lemma {:induction false} NumbersOn(st: Store, one: seq<Store>, rest: seq<Store>, b: nat)
    requires |one| == 4 && AfterWrites(st, Stopped(st, one, Min(b, 4)), Min(b, 4))
    requires b >= 4 ==> AfterWrites(one[3], Stopped(one[3], rest, b - 4), b - 4)
    ensures AfterWrites(st, Stopped(st, one + rest, b), b)
  {
    StoppedConcat(st, one, rest, b);
    if b >= 4 {
      WritesCompose(st, one[3], Stopped(one[3], rest, b - 4), b - 4);
    }
  }

  // ---------------------------------------------------------------------------------------
  // Runs
  // ---------------------------------------------------------------------------------------

  /** Numbered from 1 without a gap, the hint, if any, naming a file that is there. */
  ghost predicate FromOne(st: Store)
  {
    && (forall k :: 0 <= k < |st.metadata| ==> st.metadata[k].version == k + 1)
    && (st.hint.Some? ==> 1 <= st.hint.value <= |st.metadata|)
  }

  lemma {:induction false} OnFromOne(st: Store, s: Store, b: nat)
    requires FromOne(st) && AfterWrites(st, s, b) && b <= 4
    ensures FromOne(s)
  {
    forall k | 0 <= k < |s.metadata| ensures s.metadata[k].version == k + 1 {
      CountedUp(st, s, b, k);
    }
  }

  lemma {:induction false} CountedUp(st: Store, s: Store, b: nat, k: nat)
    requires FromOne(st) && AfterWrites(st, s, b) && k < |s.metadata|
    ensures s.metadata[k].version == k + 1
    decreases k
  {
    if k < |st.metadata| {
      assert s.metadata[..|st.metadata|][k] == st.metadata[k];
    } else {
      assert NumberedAt(s, k);
      if k > 0 {
        CountedUp(st, s, b, k - 1);
      }
    }
  }

  ghost predicate Grown(st: Store, s: Store) { Keeps(st, s) && FromOne(s) }

  lemma {:induction false} CommitGrows(st: Store, snapshot: Snapshot, now: int)
    requires FromOne(st) && CommitWrites(st, snapshot, now).Ok?
    ensures AllKept(s => Grown(st, s), CommitWrites(st, snapshot, now).value)
  {
    var w := CommitWrites(st, snapshot, now).value;
    forall s | s in w ensures Grown(st, s) {
      var i :| 0 <= i < |w| && w[i] == s;
      CommitNumbers(st, snapshot, now, i + 1);
      assert Stopped(st, w, i + 1) == s;
      OnFromOne(st, s, i + 1);
    }
  }

  lemma {:induction false} ChangesGrow(st: Store, changes: seq<TableChange>, clock: seq<int>)
    requires |clock| == |changes| && FromOne(st)
    ensures AllKept(s => Grown(st, s), ChangesWrites(st, changes, clock).0)
    decreases |changes|
  {
    var (writes, done) := ChangesWrites(st, changes, clock);
    if writes != [] {
      var snapshot := ChangeSnapshot(changes[0], LiveFiles(st).value);
      var one := CommitWrites(st, snapshot, clock[0]).value;
      var rest := ChangesWrites(one[3], changes[1..], clock[1..]).0;
      CommitGrows(st, snapshot, clock[0]);
      assert one[3] in one;
      ChangesGrow(one[3], changes[1..], clock[1..]);
      forall s | s in one + rest ensures Grown(st, s) {
        if s in rest {
          KeepsOn(st, one[3], s);
        }
      }
    }
  }

  lemma {:induction false} KeepsOn(a: Store, b: Store, c: Store)
    requires Keeps(a, b) && Keeps(b, c)
    ensures Keeps(a, c)
  {
    assert c.metadata[..|b.metadata|][..|a.metadata|] == c.metadata[..|a.metadata|];
  }

  lemma {:induction false} StepGrows(w: World, step: Step)
    requires FromOne(w.store)
    ensures Grown(w.store, Stepped(w, step).store)
  {
    if step.Sync? {
      var keep := s => Grown(w.store, s);
      if step.read.Ok? && CommitWrites(w.store, step.read.value, step.clock(0)).Ok? {
        CommitGrows(w.store, step.read.value, step.clock(0));
      }
      forall changes | Resuming(w.log, w.store, step.mode, step.probeFails, changes)
        ensures AllKept(keep, ChangesWrites(w.store, changes, Readings(step.clock, |changes|)).0) {
        ChangesGrow(w.store, changes, Readings(step.clock, |changes|));
      }
      OutcomeKeeps(w.log, w.store, step, keep);
    }
  }

  /** Over every run from empty storage, interrupted anywhere, sound or not: the metadata files are numbered 1, 2, 3
      and so on, none written at one time is gone or changed at a later one, and the hint names one of them. */
  lemma {:induction false} RunVersions(ws: seq<World>, steps: seq<Step>, m: nat, n: nat)
    requires IsRun(ws, steps) && m <= n <= |steps|
    ensures FromOne(ws[n].store) && Keeps(ws[m].store, ws[n].store)
    decreases n
  {
    if n > 0 {
      RunVersions(ws, steps, if m < n then m else n - 1, n - 1);
      StepGrows(ws[n - 1], steps[n - 1]);
      if m < n {
        KeepsOn(ws[m].store, ws[n - 1].store, ws[n].store);
      }
    }
  }
}
