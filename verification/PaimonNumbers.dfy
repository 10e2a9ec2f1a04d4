/** The numbers the Paimon target gives and what its snapshot files say (pkg/formats/paimon/target.go): snapshot and
    schema ids without gaps, hints, record counts, and nothing on storage ever written again. */
module PaimonNumbers {
  import opened Common
  import opened Files
  import opened Model
  import opened DeltaSource
  import opened PaimonReplay
  import opened PaimonTable
  import opened PaimonSync
  import opened PaimonRuns
  import SyncProtocol

  // ---------------------------------------------------------------------------------------
  // Numbering
  // ---------------------------------------------------------------------------------------

  /** The keys are consecutive from the first. */
  ghost predicate NumberedFrom<T>(m: map<nat, T>, first: nat) { forall k: nat :: k in m <==> first <= k < first + |m| }

  /** Snapshots are numbered 1, 2, 3 and so on, schemas 0, 1, 2; the hints name the first and some snapshot. */
  ghost predicate Contiguous(st: Disk)
  {
    && NumberedFrom(st.snapshots, 1) && NumberedFrom(st.schemas, 0)
    && (st.earliest.Some? ==> st.earliest.value == 1 && 1 in st.snapshots)
    && (st.latest.Some? ==> st.latest.value in st.snapshots)
  }

  ghost predicate Sturdy(st: Disk) { NamesOk(st) && Contiguous(st) }

  /** Every state only adds to the first, and is numbered as well. */
  ghost predicate Steady(st: Disk, w: seq<Disk>) { forall s :: s in w ==> Extends(st, s) && Sturdy(s) }

  lemma {:induction false} SteadyThen(st: Disk, a: seq<Disk>, b: seq<Disk>)
    requires Sturdy(st) && Steady(st, a) && Steady(EndOf(st, a), b)
    ensures Steady(st, a + b) && Sturdy(EndOf(st, a)) && Extends(st, EndOf(st, a))
  {
    assert a != [] ==> Last(a) in a;
    forall s | s in a + b ensures Extends(st, s) && Sturdy(s) {
      if s in b {
        assert Extends(EndOf(st, a), s);
      }
    }
  }

  lemma {:induction false} NextOf<T>(m: map<nat, T>, first: nat, x: T)
    requires NumberedFrom(m, first)
    ensures var id := if m.Keys == {} then first else MaxOf(m.Keys) + 1;
      id == first + |m| && id !in m && |m[id := x]| == |m| + 1 && NumberedFrom(m[id := x], first)
  {
    var id := if m.Keys == {} then first else MaxOf(m.Keys) + 1;
    if m.Keys != {} {
      SomeKeys(m);
      assert first + |m| - 1 in m;
    } else {
      assert m == map[];
    }
    assert m[id := x].Keys == m.Keys + {id};
  }

  lemma {:induction false} SomeKeys<T>(m: map<nat, T>)
    requires m.Keys != {}
    ensures |m| > 0
  {
  }

  lemma {:induction false} EnsureSteady(st: Disk, schema: string)
    requires Sturdy(st)
    ensures Steady(st, EnsureTrace(st, schema).0)
  {
    NextOf(st.schemas, 0, schema);
    var id := if st.schemas.Keys == {} then 0 else MaxOf(st.schemas.Keys) + 1;
    SchemaSteady(st, id, schema);
    assert EnsureTrace(st, schema).0 == [] || EnsureTrace(st, schema).0 == [st.(schemas := st.schemas[id := schema])];
  }

  lemma {:induction false} SchemaSteady(st: Disk, id: nat, schema: string)
    requires Sturdy(st) && id !in st.schemas && NumberedFrom(st.schemas[id := schema], 0)
    ensures var s := st.(schemas := st.schemas[id := schema]); Extends(st, s) && Sturdy(s)
  {
  }

  lemma {:induction false} ListSteady(st: Disk, entries: seq<Entry>)
    requires Sturdy(st)
    ensures Steady(st, ListTrace(st, entries))
  {
    ListTraceQuiet(st, entries);
    forall s | s in ListTrace(st, entries) ensures Extends(st, s) && Sturdy(s) {
      assert Quiet(st, s);
      ListKeeps(st, entries, s);
    }
  }

  lemma {:induction false} ListKeeps(st: Disk, entries: seq<Entry>, s: Disk)
    requires s in ListTrace(st, entries)
    ensures s.snapshots == st.snapshots && s.schemas == st.schemas && s.earliest == st.earliest && s.latest == st.latest
  {
  }

  lemma {:induction false} PublishSteady(st: Disk, snap: PaimonSnapshot)
    requires Sturdy(st)
    ensures Steady(st, PublishTrace(st, NextId(st.snapshots.Keys), snap))
  {
    NextOf(st.snapshots, 1, snap);
    var id := NextId(st.snapshots.Keys);
    var s1 := WithSnapshot(st, id, snap);
    assert Extends(st, s1) && Sturdy(s1);
    HintsSteady(st, s1, id);
  }

  lemma {:induction false} HintsSteady(st: Disk, s1: Disk, id: nat)
    requires Extends(st, s1) && Sturdy(s1) && id in s1.snapshots
    ensures Extends(st, s1.(latest := Some(id))) && Sturdy(s1.(latest := Some(id)))
    ensures id == 1 ==> Extends(st, s1.(earliest := Some(1))) && Sturdy(s1.(earliest := Some(1)))
    ensures id == 1 ==> Extends(st, s1.(earliest := Some(1), latest := Some(1))) && Sturdy(s1.(earliest := Some(1), latest := Some(1)))
  {
    HintSteady(st, s1, s1.(latest := Some(id)));
    if id == 1 {
      HintSteady(st, s1, s1.(earliest := Some(1)));
      HintSteady(st, s1, s1.(earliest := Some(1), latest := Some(1)));
    }
  }

  /** A write of hints alone. */
  lemma {:induction false} HintSteady(st: Disk, s1: Disk, s: Disk)
    requires Extends(st, s1) && Sturdy(s1) && s == s1.(earliest := s.earliest, latest := s.latest)
    requires s.earliest.Some? ==> s.earliest.value == 1 && 1 in s.snapshots
    requires s.latest.Some? ==> s.latest.value in s.snapshots
    ensures Extends(st, s) && Sturdy(s)
  {
  }

  lemma {:induction false} CommitSteady(st: Disk, schemaId: nat, base: seq<DataFile>, d: FilesDiff, sync: SyncMetadata)
    requires Sturdy(st)
    ensures Steady(st, CommitTrace(st, schemaId, base, d, sync))
  {
    var t1 := ListTrace(st, EntriesOf(KindAdd, base));
    var s1 := Last(t1);
    ListSteady(st, EntriesOf(KindAdd, base));
    assert s1 in t1;
    var t2 := ListTrace(s1, DeltaEntries(d));
    var s2 := Last(t2);
    ListSteady(s1, DeltaEntries(d));
    assert s2 in t2;
    PublishSteady(s2, SnapshotOf(st, s1, schemaId, base, d, sync));
    SteadyThen(s1, t2, PublishTrace(s2, NextId(s2.snapshots.Keys), SnapshotOf(st, s1, schemaId, base, d, sync)));
    SteadyThen(st, t1, DeltaTrace(st, s1, schemaId, base, d, sync));
  }

  lemma {:induction false} StepSteady(env: Env, st: Disk, base: seq<DataFile>, d: FilesDiff, table: Table, sync: SyncMetadata)
    requires Sturdy(st)
    ensures Steady(st, StepTrace(env, st, base, d, table, sync).0)
  {
    if env.convert(table).Some? {
      var (w, id) := EnsureTrace(st, env.convert(table).value);
      EnsureSteady(st, env.convert(table).value);
      SteadyThen(st, w, []);
      CommitSteady(EndOf(st, w), id, base, d, sync);
      SteadyThen(st, w, CommitTrace(EndOf(st, w), id, base, d, sync));
    }
  }

  lemma {:induction false} ChangesSteady(env: Env, st: Disk, base: seq<DataFile>, changes: seq<TableChange>, reached: int)
    requires Sturdy(st)
    ensures Steady(st, ChangesTrace(env, st, base, changes, reached).0)
    decreases |changes|
  {
    if changes != [] {
      var one := NextStep(env, st, base, changes[0], reached);
      StepSteady(env, st, base, changes[0].diff, changes[0].table, SyncMetadata(Max(reached, changes[0].instant), changes[0].version));
      if one.1 {
        SteadyThen(st, one.0, []);
        ChangesUnfold(env, st, base, changes, reached);
        ChangesSteady(env, EndOf(st, one.0), Folded(base, changes[0].diff), changes[1..], Max(reached, changes[0].instant));
        SteadyThen(st, one.0, Later(env, EndOf(st, one.0), base, changes, reached).0);
      }
    }
  }

  // ---------------------------------------------------------------------------------------
  // Runs
  // ---------------------------------------------------------------------------------------

  lemma {:induction false} PlannedSteady(env: Env, w: World, step: Step)
    requires step.Sync? && Sturdy(w.disk)
    ensures Steady(w.disk, Planned(env, w.log, w.disk, step.mode, step.probeFails, step.read).0)
  {
    match SyncProtocol.Decide(TableMetadata(w.disk), step.mode, w.log, step.probeFails)
    case Resume(from) =>
      if ChangesSince(w.log, from).Ok? && CurrentFiles(w.disk).Some? {
        ChangesSteady(env, w.disk, CurrentFiles(w.disk).value, ChangesSince(w.log, from).value, 0);
      }
    case FullSync(_) =>
      if step.read.Ok? {
        var snapshot := step.read.value;
        StepSteady(env, w.disk, [], FilesDiff(snapshot.files, []), snapshot.table, SyncMetadata(snapshot.instant, snapshot.version));
      }
  }

  lemma {:induction false} StepGrows(env: Env, w: World, step: Step)
    requires Sturdy(w.disk)
    ensures Sturdy(Stepped(env, w, step).disk) && Extends(w.disk, Stepped(env, w, step).disk)
  {
    if step.Sync? && !step.dryRun {
      PlannedSteady(env, w, step);
      var t := Planned(env, w.log, w.disk, step.mode, step.probeFails, step.read).0;
      StoppedSteady(w.disk, t, step.budget);
    }
  }

  lemma {:induction false} StoppedSteady(st: Disk, w: seq<Disk>, b: nat)
    requires Sturdy(st) && Steady(st, w)
    ensures Sturdy(Stopped(st, w, b)) && Extends(st, Stopped(st, w, b))
  {
    if b > 0 && w != [] {
      assert w[Min(b, |w|) - 1] in w;
    }
  }

  /** Over every run from empty storage, interrupted anywhere, sound or not: snapshots are numbered from 1 and schemas
      from 0 without a gap, the hints name snapshots that are there, and nothing once on storage is gone or changed. */
  lemma {:induction false} RunNumbers(env: Env, ws: seq<World>, steps: seq<Step>, m: nat, n: nat)
    requires IsRun(env, ws, steps) && m <= n <= |steps|
    ensures Sturdy(ws[n].disk) && Extends(ws[m].disk, ws[n].disk)
    decreases n
  {
    if n == 0 {
      StartSturdy();
    } else {
      RunNumbers(env, ws, steps, if m < n then m else n - 1, n - 1);
      assert RunsAt(env, ws, steps, n - 1);
      StepGrows(env, ws[n - 1], steps[n - 1]);
      if m < n {
        ExtendsOn(ws[m].disk, ws[n - 1].disk, ws[n].disk);
      }
    }
  }

  lemma {:induction false} StartSturdy()
    ensures Sturdy(Start0.disk)
  {
  }

  lemma {:induction false} ExtendsOn(a: Disk, b: Disk, c: Disk)
    requires Extends(a, b) && Extends(b, c)
    ensures Extends(a, c)
  {
  }

  // ---------------------------------------------------------------------------------------
  // What a commit records
  // ---------------------------------------------------------------------------------------

  /** A new snapshot under the next number, and what its file says. */
  ghost predicate Publishes(st: Disk, s: Disk, id: nat, base: seq<DataFile>, d: FilesDiff, schemaId: nat, sync: SyncMetadata)
  {
    && (forall k :: k in st.snapshots ==> k < id) && (if st.snapshots.Keys == {} then id == 1 else exists k :: k in st.snapshots && id == k + 1)
    && s.snapshots.Keys == st.snapshots.Keys + {id} && (forall k :: k in st.snapshots ==> s.snapshots[k] == st.snapshots[k])
    && s.latest == Some(id) && s.earliest == (if id == 1 then Some(1) else st.earliest)
    && s.snapshots[id].schemaId == schemaId && s.snapshots[id].sync == Some(sync)
    && s.snapshots[id].totalRecords == Records(base) + Records(d.added) - Records(d.removed)
    && s.snapshots[id].deltaRecords == Records(d.added) - Records(d.removed)
  }

  lemma {:induction false} CommitPublishes(st: Disk, schemaId: nat, base: seq<DataFile>, d: FilesDiff, sync: SyncMetadata)
    ensures exists id :: Publishes(st, Last(CommitTrace(st, schemaId, base, d, sync)), id, base, d, schemaId, sync)
    ensures Last(CommitTrace(st, schemaId, base, d, sync)).schemas == st.schemas
  {
    var t1 := ListTrace(st, EntriesOf(KindAdd, base));
    var s1 := Last(t1);
    ListKeeps(st, EntriesOf(KindAdd, base), s1);
    var t2 := ListTrace(s1, DeltaEntries(d));
    var s2 := Last(t2);
    ListKeeps(s1, DeltaEntries(d), s2);
    var snap := SnapshotOf(st, s1, schemaId, base, d, sync);
    var t3 := PublishTrace(s2, NextId(s2.snapshots.Keys), snap);
    LastOf(t2, t3);
    LastOf(t1, t2 + t3);
    assert CommitTrace(st, schemaId, base, d, sync) == t1 + (t2 + t3);
    assert Last(CommitTrace(st, schemaId, base, d, sync)) == Last(t3);
    Published(st, s2, snap, base, d, schemaId, sync);
  }

  lemma {:induction false} Published(st: Disk, s2: Disk, snap: PaimonSnapshot, base: seq<DataFile>, d: FilesDiff, schemaId: nat, sync: SyncMetadata)
    requires s2.snapshots == st.snapshots && s2.schemas == st.schemas && s2.earliest == st.earliest
    requires snap.schemaId == schemaId && snap.sync == Some(sync) && snap.totalRecords == TotalRecords(base, d) && snap.deltaRecords == TotalRecords([], d)
    ensures var id := NextId(st.snapshots.Keys);
      Publishes(st, Last(PublishTrace(s2, id, snap)), id, base, d, schemaId, sync) && Last(PublishTrace(s2, id, snap)).schemas == st.schemas
  {
    var id := NextId(st.snapshots.Keys);
    NextIdFresh(st.snapshots.Keys);
    assert s2.snapshots[id := snap].Keys == st.snapshots.Keys + {id};
    if st.snapshots.Keys != {} {
      assert MaxOf(st.snapshots.Keys) in st.snapshots;
    }
  }

  /** The schema a commit refers to: the latest one if it has this text, else a new one under the next number. */
  ghost predicate Refers(st: Disk, s: Disk, id: nat, schema: string)
  {
    && id in s.schemas && s.schemas[id] == schema && (forall k :: k in s.schemas ==> k <= id)
    && if id in st.schemas then s.schemas == st.schemas
       else s.schemas == st.schemas[id := schema] && if st.schemas.Keys == {} then id == 0 else exists k :: k in st.schemas && id == k + 1 && st.schemas[k] != schema
  }

  lemma {:induction false} EnsureRefers(st: Disk, schema: string)
    ensures var (w, id) := EnsureTrace(st, schema);
      Refers(st, EndOf(st, w), id, schema) && EndOf(st, w).snapshots == st.snapshots && EndOf(st, w).latest == st.latest && EndOf(st, w).earliest == st.earliest
  {
    if st.schemas.Keys != {} {
      var latest := MaxOf(st.schemas.Keys);
      assert latest in st.schemas;
    }
  }

  ghost predicate Outside(env: Env, files: seq<DataFile>) { exists f :: f in files && !env.inside(f.path) }

  /** One commit: refused, with no snapshot written and no hint moved, if and only if the table has no Paimon schema or
      a file of the base, the removals or the additions lies outside it; otherwise, once complete, a snapshot under the
      next number that says what was committed. */
  lemma {:induction false} StepRecords(env: Env, st: Disk, base: seq<DataFile>, d: FilesDiff, table: Table, sync: SyncMetadata)
    ensures var (w, done) := StepTrace(env, st, base, d, table, sync);
      && (done <==> env.convert(table).Some? && !Outside(env, base) && !Outside(env, d.removed) && !Outside(env, d.added))
      && (!done ==> forall s :: s in w ==> s.snapshots == st.snapshots && s.latest == st.latest && s.earliest == st.earliest)
      && (done ==> w != [] && exists id, schemaId ::
            Publishes(st, Last(w), id, base, d, schemaId, sync) && Refers(st, Last(w), schemaId, env.convert(table).value))
  {
    if env.convert(table).Some? {
      var schema := env.convert(table).value;
      var (w, schemaId) := EnsureTrace(st, schema);
      EnsureRefers(st, schema);
      var mid := EndOf(st, w);
      CommitPublishes(mid, schemaId, base, d, sync);
      LastOf(w, CommitTrace(mid, schemaId, base, d, sync));
      var end := Last(CommitTrace(mid, schemaId, base, d, sync));
      var id :| Publishes(mid, end, id, base, d, schemaId, sync);
      assert Publishes(st, end, id, base, d, schemaId, sync);
    }
  }

  /** The watermark a batch of commits leaves is the latest instant among them and what was reached before: it never
      goes back. */
  lemma {:induction false} MarkIsLatest(sync: Option<SyncMetadata>, changes: seq<TableChange>, reached: int, j: nat)
    requires 0 < j <= |changes|
    ensures MarkAfter(sync, changes, reached, j).Some?
    ensures var mark := MarkAfter(sync, changes, reached, j).value;
      && mark.source == changes[j - 1].version && mark.instant >= reached
      && (forall i :: 0 <= i < j ==> mark.instant >= changes[i].instant)
      && (mark.instant == reached || exists i :: 0 <= i < j && mark.instant == changes[i].instant)
    decreases j
  {
    var instant := Max(reached, changes[0].instant);
    var first := Some(SyncMetadata(instant, changes[0].version));
    if j > 1 {
      MarkIsLatest(first, changes[1..], instant, j - 1);
      var mark := MarkAfter(first, changes[1..], instant, j - 1).value;
      forall i | 0 <= i < j ensures mark.instant >= changes[i].instant {
        assert i > 0 ==> changes[i] == changes[1..][i - 1];
      }
      if mark.instant != instant {
        var i :| 0 <= i < j - 1 && mark.instant == changes[1..][i].instant;
        assert mark.instant == changes[i + 1].instant;
      }
    } else {
      assert MarkAfter(sync, changes, reached, 1) == MarkAfter(first, changes[1..], instant, 0) == first;
    }
  }
}
