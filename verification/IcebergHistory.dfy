/** The Iceberg source's history (pkg/formats/iceberg/source.go): the walk along parent links, the
    backlog of diffs between neighbouring snapshots, and what folding that backlog reaches. */
module IcebergHistory {
  import opened Common
  import opened Files
  import opened Diffing
  import opened Instants
  import opened IcebergTable
  import opened IcebergCommit

  function ById(snaps: seq<TableSnapshot>): map<int, TableSnapshot>
  {
    if snaps == [] then map[] else ById(snaps[..|snaps| - 1])[Last(snaps).id := Last(snaps)]
  }

  /** Ranks that fall along every parent link. */
  ghost predicate Ranked(byId: map<int, TableSnapshot>, rank: map<int, nat>)
  {
    byId.Keys <= rank.Keys && forall id :: id in byId ==> RankFalls(byId, rank, id)
  }

  ghost predicate RankFalls(byId: map<int, TableSnapshot>, rank: map<int, nat>, id: int)
    requires byId.Keys <= rank.Keys && id in byId
  {
    var parent := byId[id].parent;
    parent.Some? && parent.value in byId ==> rank[parent.value] < rank[id]
  }

  /** No chain of parent links comes back to where it started; otherwise the walk below would not end. */
  ghost predicate Acyclic(byId: map<int, TableSnapshot>) { exists rank :: Ranked(byId, rank) }

  ghost function RankOf(byId: map<int, TableSnapshot>): (rank: map<int, nat>)
    requires Acyclic(byId)
    ensures Ranked(byId, rank)
  {
    var rank :| Ranked(byId, rank);
    rank
  }

  /** Newest first, up to a genesis snapshot or one whose parent is no longer retained. */
  ghost function Walk(byId: map<int, TableSnapshot>, id: int): (w: seq<TableSnapshot>)
    requires Acyclic(byId) && id in byId
    ensures w != [] && w[0] == byId[id]
    decreases RankOf(byId)[id]
  {
    var cursor := byId[id];
    if cursor.parent.Some? && cursor.parent.value in byId then [cursor] + Walk(byId, cursor.parent.value) else [cursor]
  }

  method IndexById(snaps: seq<TableSnapshot>) returns (byId: map<int, TableSnapshot>)
    ensures byId == ById(snaps)
  {
    byId := map[];
    for i := 0 to |snaps|
      invariant byId == ById(snaps[..i])
    {
      assert snaps[..i + 1][..i] == snaps[..i];
      byId := byId[snaps[i].id := snaps[i]];
    }
    assert snaps[..|snaps|] == snaps;
  }

  method WalkBack(byId: map<int, TableSnapshot>, current: int) returns (newestFirst: seq<TableSnapshot>)
    requires Acyclic(byId) && current in byId
    ensures newestFirst == Walk(byId, current)
  {
    var cursor := current;
    newestFirst := [byId[cursor]];
    while byId[cursor].parent.Some? && byId[cursor].parent.value in byId
      invariant cursor in byId && newestFirst != [] && Last(newestFirst) == byId[cursor]
      invariant Walk(byId, current) == newestFirst[..|newestFirst| - 1] + Walk(byId, cursor)
      decreases RankOf(byId)[cursor]
    {
      var parent := byId[cursor].parent.value;
      assert Walk(byId, cursor) == [byId[cursor]] + Walk(byId, parent);
      assert newestFirst[..|newestFirst| - 1] + ([byId[cursor]] + Walk(byId, parent)) == newestFirst + Walk(byId, parent);
      newestFirst := newestFirst + [byId[parent]];
      cursor := parent;
    }
  }

  // ---------------------------------------------------------------------------------------
  // Histories the target writes
  // ---------------------------------------------------------------------------------------

  function Reversed<T>(s: seq<T>): seq<T>
  {
    if s == [] then [] else [Last(s)] + Reversed(s[..|s| - 1])
  }

  lemma {:induction false} ByIdOf(snaps: seq<TableSnapshot>, n: nat)
    requires Linked(snaps) && n <= |snaps|
    ensures forall id :: id in ById(snaps[..n]) <==> exists i :: 0 <= i < n && snaps[i].id == id
    ensures forall i :: 0 <= i < n ==> snaps[i].id in ById(snaps[..n]) && ById(snaps[..n])[snaps[i].id] == snaps[i]
    decreases n
  {
    if n > 0 {
      ByIdOf(snaps, n - 1);
      assert snaps[..n][..n - 1] == snaps[..n - 1];
      forall i | 0 <= i < n - 1 ensures snaps[i].id != snaps[n - 1].id {
        IdsIncrease(snaps, i, n - 1);
      }
    }
  }

  lemma {:induction false} LinkedAcyclic(snaps: seq<TableSnapshot>)
    requires Linked(snaps)
    ensures Acyclic(ById(snaps))
    ensures snaps != [] && snaps[0].parent.Some? ==> snaps[0].parent.value !in ById(snaps)
  {
    var byId := ById(snaps);
    ByIdOf(snaps, |snaps|);
    assert snaps[..|snaps|] == snaps;
    var rank: map<int, nat> := map id | id in byId :: Max(0, byId[id].sequence);
    forall id | id in byId ensures RankFalls(byId, rank, id) {
      var i :| 0 <= i < |snaps| && snaps[i].id == id;
      SequencesFrom(snaps, i);
      if i > 0 {
        assert NextAt(snaps, i);
      } else if snaps[0].parent.Some? {
        OldestParentGone(snaps, snaps[0].parent.value);
      }
    }
    assert Ranked(byId, rank);
    if snaps != [] && snaps[0].parent.Some? {
      OldestParentGone(snaps, snaps[0].parent.value);
    }
  }

  lemma {:induction false} OldestParentGone(snaps: seq<TableSnapshot>, p: int)
    requires Linked(snaps) && snaps != [] && p < snaps[0].id
    ensures p !in ById(snaps)
  {
    ByIdOf(snaps, |snaps|);
    assert snaps[..|snaps|] == snaps;
    forall i | 0 <= i < |snaps| ensures snaps[i].id != p {
      if i > 0 {
        IdsIncrease(snaps, 0, i);
      }
    }
  }

  ghost predicate ParentAt(snaps: seq<TableSnapshot>, k: nat)
    requires 0 < k < |snaps|
  {
    snaps[k].parent == Some(snaps[k - 1].id)
  }

  lemma {:induction false} WalkFrom(byId: map<int, TableSnapshot>, snaps: seq<TableSnapshot>, i: nat)
    requires Acyclic(byId) && i < |snaps|
    requires forall k :: 0 <= k < |snaps| ==> snaps[k].id in byId && byId[snaps[k].id] == snaps[k]
    requires forall k :: 0 < k < |snaps| ==> ParentAt(snaps, k)
    requires snaps[0].parent.Some? ==> snaps[0].parent.value !in byId
    ensures Walk(byId, snaps[i].id) == Reversed(snaps[..i + 1])
    decreases i
  {
    assert snaps[..i + 1][..i] == snaps[..i] && Last(snaps[..i + 1]) == snaps[i];
    if i == 0 {
      assert Reversed(snaps[..0]) == [];
    } else {
      assert ParentAt(snaps, i);
      WalkFrom(byId, snaps, i - 1);
    }
  }

  lemma {:induction false} LinkedLookups(snaps: seq<TableSnapshot>)
    requires Linked(snaps) && snaps != []
    ensures forall k :: 0 <= k < |snaps| ==> snaps[k].id in ById(snaps) && ById(snaps)[snaps[k].id] == snaps[k]
    ensures forall k :: 0 < k < |snaps| ==> ParentAt(snaps, k)
    ensures snaps[0].parent.Some? ==> snaps[0].parent.value !in ById(snaps)
  {
    ByIdOf(snaps, |snaps|);
    assert snaps[..|snaps|] == snaps;
    LinkedAcyclic(snaps);
    forall k | 0 < k < |snaps| ensures ParentAt(snaps, k) {
      assert NextAt(snaps, k);
    }
  }

  /** On every history the target writes, and on what is left of it after any prefix expired, the walk
      ends and visits exactly the retained snapshots, newest first. */
  lemma {:induction false} WalkVisitsRetained(meta: Metadata, k: nat)
    requires HistoryOk(meta) && k < |meta.snapshots|
    ensures var kept := meta.snapshots[k..];
      && Acyclic(ById(kept)) && Last(kept).id in ById(kept)
      && Walk(ById(kept), Last(kept).id) == Reversed(kept)
  {
    var kept := meta.snapshots[k..];
    LinkedSuffix(meta.snapshots, k);
    LinkedAcyclic(kept);
    LinkedLookups(kept);
    assert kept[..|kept|] == kept;
    WalkFrom(ById(kept), kept, |kept| - 1);
  }

  // ---------------------------------------------------------------------------------------
  // The backlog
  // ---------------------------------------------------------------------------------------

  datatype SnapshotChange = SnapshotChange(diff: FilesDiff, id: int, instant: int)

  datatype HistoryError = NoTable | CurrentMissing | ParentExpired(id: int) | Unreadable

  /** The walk, oldest first: the order changes are replayed in. */
  ghost function Lineage(byId: map<int, TableSnapshot>, id: int): (c: seq<TableSnapshot>)
    requires Acyclic(byId) && id in byId
    ensures c != [] && Last(c) == byId[id]
    decreases RankOf(byId)[id]
  {
    var cursor := byId[id];
    if cursor.parent.Some? && cursor.parent.value in byId then Lineage(byId, cursor.parent.value) + [cursor] else [cursor]
  }

  lemma {:induction false} LineageIsWalk(byId: map<int, TableSnapshot>, id: int)
    requires Acyclic(byId) && id in byId
    ensures |Walk(byId, id)| == |Lineage(byId, id)|
    ensures forall i :: 0 <= i < |Walk(byId, id)| ==> Lineage(byId, id)[i] == Walk(byId, id)[|Walk(byId, id)| - 1 - i]
    decreases RankOf(byId)[id]
  {
    var cursor := byId[id];
    if cursor.parent.Some? && cursor.parent.value in byId {
      LineageIsWalk(byId, cursor.parent.value);
    }
  }

  ghost predicate FollowsParent(byId: map<int, TableSnapshot>, c: seq<TableSnapshot>, i: nat)
    requires 0 < i < |c|
  {
    c[i].parent.Some? && c[i].parent.value in byId && byId[c[i].parent.value] == c[i - 1]
  }

  /** Every snapshot of a lineage but the oldest has its predecessor as parent; the oldest has none,
      or one that is no longer retained. */
  ghost predicate IsLineage(byId: map<int, TableSnapshot>, c: seq<TableSnapshot>)
  {
    && c != []
    && (c[0].parent.Some? ==> c[0].parent.value !in byId)
    && (forall i :: 0 < i < |c| ==> FollowsParent(byId, c, i))
  }

  lemma {:induction false} LineageLinks(byId: map<int, TableSnapshot>, id: int)
    requires Acyclic(byId) && id in byId
    ensures IsLineage(byId, Lineage(byId, id))
    decreases RankOf(byId)[id]
  {
    var cursor := byId[id];
    if cursor.parent.Some? && cursor.parent.value in byId {
      LineageLinks(byId, cursor.parent.value);
      LineageSnoc(byId, Lineage(byId, cursor.parent.value), cursor);
    }
  }

  lemma {:induction false} LineageSnoc(byId: map<int, TableSnapshot>, c: seq<TableSnapshot>, s: TableSnapshot)
    requires IsLineage(byId, c) && s.parent.Some? && s.parent.value in byId && byId[s.parent.value] == Last(c)
    ensures IsLineage(byId, c + [s])
  {
    var all := c + [s];
    forall i | 0 < i < |all| ensures FollowsParent(byId, all, i) {
      if i < |c| {
        assert FollowsParent(byId, c, i);
      }
    }
  }

  function Stamps(c: seq<TableSnapshot>): seq<int>
  {
    seq(|c|, i requires 0 <= i < |c| => c[i].timestamp)
  }

  function InstantOf(c: seq<TableSnapshot>, i: nat): int
    requires i < |c|
  {
    Chain(Stamps(c)[..i + 1])
  }

  function ParentFiles(st: Store, byId: map<int, TableSnapshot>, snap: TableSnapshot): Result<seq<DataFile>, HistoryError>
  {
    if snap.parent.None? then Ok([])
    else if snap.parent.value !in byId then Err(ParentExpired(snap.id))
    else
      match SnapshotFiles(st, byId[snap.parent.value])
      case Err(_) => Err(Unreadable)
      case Ok(files) => Ok(files)
  }

  ghost predicate IsChange(st: Store, byId: map<int, TableSnapshot>, snap: TableSnapshot, instant: int, change: SnapshotChange)
  {
    && change.id == snap.id && change.instant == instant
    && SnapshotFiles(st, snap).Ok? && ParentFiles(st, byId, snap).Ok?
    && IsDiff(ParentFiles(st, byId, snap).value, SnapshotFiles(st, snap).value, change.diff)
  }

  method ChangeForSnapshot(st: Store, byId: map<int, TableSnapshot>, snap: TableSnapshot, instant: int)
    returns (r: Result<SnapshotChange, HistoryError>)
    ensures r.Ok? <==> SnapshotFiles(st, snap).Ok? && ParentFiles(st, byId, snap).Ok?
    ensures r.Ok? ==> IsChange(st, byId, snap, instant, r.value)
  {
    var now := SnapshotFiles(st, snap);
    var was := ParentFiles(st, byId, snap);
    if now.Err? {
      return Err(Unreadable);
    }
    if was.Err? {
      return Err(was.error);
    }
    var diff := DiffFiles(was.value, now.value);
    r := Ok(SnapshotChange(diff, snap.id, instant));
  }

  /** The changes of the lineage from position j on, each against its parent. */
  ghost predicate ReportsFrom(st: Store, byId: map<int, TableSnapshot>, c: seq<TableSnapshot>, j: nat, n: nat, changes: seq<SnapshotChange>)
    requires j <= n <= |c|
  {
    |changes| == n - j && forall i :: 0 <= i < |changes| ==> ReportedAt(st, byId, c, j, changes, i)
  }

  ghost predicate ReportedAt(st: Store, byId: map<int, TableSnapshot>, c: seq<TableSnapshot>, j: nat, changes: seq<SnapshotChange>, i: nat)
    requires i < |changes| && j + i < |c|
  {
    IsChange(st, byId, c[j + i], InstantOf(c, j + i), changes[i])
  }

  /** The first position whose derived instant is past `from`. */
  function FirstLater(c: seq<TableSnapshot>, from: int, n: nat): (j: nat)
    requires n <= |c|
    ensures j <= n
    ensures forall i :: 0 <= i < n ==> (InstantOf(c, i) > from <==> i >= j)
  {
    if n == 0 then 0
    else if InstantOf(c, n - 1) <= from then
      assert forall i :: 0 <= i < n - 1 ==> InstantOf(c, i) < InstantOf(c, n - 1) by {
        forall i | 0 <= i < n - 1 ensures InstantOf(c, i) < InstantOf(c, n - 1) {
          ChainIncreases(Stamps(c), i + 1, n);
        }
      }
      n
    else FirstLater(c, from, n - 1)
  }

  /** The requested range starts before the retained history does. */
  predicate Uncovered(oldest: TableSnapshot, from: int)
  {
    oldest.parent.Some? && (oldest.timestamp > from || Advance(0, oldest.timestamp) > from)
  }

  ghost predicate IsBacklog(st: Store, from: int, r: Result<seq<SnapshotChange>, HistoryError>)
    requires st.metadata != [] ==> Acyclic(ById(Last(st.metadata).meta.snapshots))
  {
    if st.metadata == [] then r == Err(NoTable)
    else
      var meta := Last(st.metadata).meta;
      var byId := ById(meta.snapshots);
      if meta.currentSnapshot.None? then r == Ok([])
      else if meta.currentSnapshot.value !in byId then r == Err(CurrentMissing)
      else
        var c := Lineage(byId, meta.currentSnapshot.value);
        && (r.Ok? ==> ReportsFrom(st, byId, c, FirstLater(c, from, |c|), |c|, r.value))
        && (r.Ok? ==> !Uncovered(c[0], from))
        && (r.Err? ==> Uncovered(c[0], from) || exists i :: 0 <= i < |c| && SnapshotFiles(st, c[i]).Err?)
  }

  /** Position i cannot be reported: its own files or its parent's are unreadable or gone. */
  lemma {:induction false} FailureCause(st: Store, byId: map<int, TableSnapshot>, c: seq<TableSnapshot>, i: nat)
    requires IsLineage(byId, c) && i < |c|
    requires !(SnapshotFiles(st, c[i]).Ok? && ParentFiles(st, byId, c[i]).Ok?)
    ensures (i == 0 && c[0].parent.Some?) || exists k :: 0 <= k < |c| && SnapshotFiles(st, c[k]).Err?
  {
    if SnapshotFiles(st, c[i]).Ok? && i > 0 {
      assert FollowsParent(byId, c, i);
      assert SnapshotFiles(st, c[i - 1]).Err?;
    }
  }

  lemma {:induction false} FirstLaterStep(c: seq<TableSnapshot>, from: int, n: nat)
    requires n < |c|
    ensures InstantOf(c, n) <= from ==> FirstLater(c, from, n + 1) == n + 1 && FirstLater(c, from, n) == n
    ensures InstantOf(c, n) > from ==> FirstLater(c, from, n + 1) == FirstLater(c, from, n)
  {
    if InstantOf(c, n) <= from && n > 0 {
      ChainIncreases(Stamps(c), n, n + 1);
    }
  }

  lemma {:induction false} ReportsOneMore(st: Store, byId: map<int, TableSnapshot>, c: seq<TableSnapshot>, j: nat, n: nat,
                                          changes: seq<SnapshotChange>, change: SnapshotChange)
    requires j <= n < |c| && ReportsFrom(st, byId, c, j, n, changes)
    requires IsChange(st, byId, c[n], InstantOf(c, n), change)
    ensures ReportsFrom(st, byId, c, j, n + 1, changes + [change])
  {
    var all := changes + [change];
    forall i | 0 <= i < |all| ensures ReportedAt(st, byId, c, j, all, i) {
      if i < |changes| {
        assert ReportedAt(st, byId, c, j, changes, i);
      }
    }
  }

  method CollectChanges(st: Store, byId: map<int, TableSnapshot>, newestFirst: seq<TableSnapshot>, from: int, ghost c: seq<TableSnapshot>)
    returns (r: Result<seq<SnapshotChange>, HistoryError>)
    requires IsLineage(byId, c) && |newestFirst| == |c|
    requires forall i :: 0 <= i < |c| ==> c[i] == newestFirst[|c| - 1 - i]
    ensures r.Ok? ==> ReportsFrom(st, byId, c, FirstLater(c, from, |c|), |c|, r.value)
    ensures r.Ok? ==> !(c[0].parent.Some? && InstantOf(c, 0) > from)
    ensures r.Err? ==> (c[0].parent.Some? && InstantOf(c, 0) > from) || exists i :: 0 <= i < |c| && SnapshotFiles(st, c[i]).Err?
  {
    var changes: seq<SnapshotChange> := [];
    var lastInstant := 0;
    var done := 0;
    while done < |newestFirst|
      invariant 0 <= done <= |c|
      invariant lastInstant == Chain(Stamps(c)[..done])
      invariant ReportsFrom(st, byId, c, FirstLater(c, from, done), done, changes)
      invariant done > 0 ==> !(c[0].parent.Some? && InstantOf(c, 0) > from)
    {
      var snap := newestFirst[|newestFirst| - 1 - done];
      assert snap == c[done];
      NextInstant(c, done);
      FirstLaterStep(c, from, done);
      lastInstant := Advance(lastInstant, snap.timestamp);
      if lastInstant > from {
        var change := ChangeForSnapshot(st, byId, snap, lastInstant);
        if change.Err? {
          FailureCause(st, byId, c, done);
          return Err(change.error);
        }
        ReportsOneMore(st, byId, c, FirstLater(c, from, done), done, changes, change.value);
        changes := changes + [change.value];
      }
      done := done + 1;
    }
    r := Ok(changes);
  }

  lemma {:induction false} NextInstant(c: seq<TableSnapshot>, i: nat)
    requires i < |c|
    ensures Chain(Stamps(c)[..i + 1]) == Advance(Chain(Stamps(c)[..i]), c[i].timestamp) == InstantOf(c, i)
  {
    ChainStep(Stamps(c), i);
  }

  method GetChangesSince(st: Store, from: int) returns (r: Result<seq<SnapshotChange>, HistoryError>)
    requires st.metadata != [] ==> Acyclic(ById(Last(st.metadata).meta.snapshots))
    ensures IsBacklog(st, from, r)
  {
    if st.metadata == [] {
      return Err(NoTable);
    }
    var meta := Last(st.metadata).meta;
    if meta.currentSnapshot.None? {
      return Ok([]);
    }
    var byId := IndexById(meta.snapshots);
    if meta.currentSnapshot.value !in byId {
      return Err(CurrentMissing);
    }
    var newestFirst := WalkBack(byId, meta.currentSnapshot.value);
    ghost var c := Lineage(byId, meta.currentSnapshot.value);
    LineageIsWalk(byId, meta.currentSnapshot.value);
    LineageLinks(byId, meta.currentSnapshot.value);
    ChainStep(Stamps(c), 0);
    var oldest := Last(newestFirst);
    assert oldest == c[0];
    if oldest.parent.Some? && oldest.parent.value !in byId && oldest.timestamp > from {
      return Err(ParentExpired(oldest.id));
    }
    r := CollectChanges(st, byId, newestFirst, from, c);
  }

  // ---------------------------------------------------------------------------------------
  // Folding the backlog
  // ---------------------------------------------------------------------------------------

  function FoldApplied(live: seq<DataFile>, changes: seq<SnapshotChange>): seq<DataFile>
  {
    if changes == [] then live else Applied(FoldApplied(live, changes[..|changes| - 1]), Last(changes).diff)
  }

  /** The files the oldest reported change is a change against. */
  function BaseFiles(st: Store, c: seq<TableSnapshot>, j: nat): seq<DataFile>
    requires j <= |c|
  {
    if j == 0 then []
    else
      match SnapshotFiles(st, c[j - 1])
      case Ok(files) => files
      case Err(_) => []
  }

  /** Neighbouring file lists from position j up to n leave their diff no choice (see DiffApplyIff). */
  ghost predicate CleanFrom(st: Store, c: seq<TableSnapshot>, j: nat, n: nat)
    requires n <= |c|
  {
    forall i :: j <= i < n ==> CleanAt(st, c, i)
  }

  ghost predicate CleanAt(st: Store, c: seq<TableSnapshot>, i: nat)
    requires i < |c|
  {
    LastOrOld(BaseFiles(st, c, i), BaseFiles(st, c, i + 1))
  }

  /** The history telescopes: folding the reported diffs, from the set of the snapshot before the first
      of them, reaches the current file set — for every starting point the backlog can have. */
  lemma {:induction false} BacklogTelescopes(st: Store, byId: map<int, TableSnapshot>, c: seq<TableSnapshot>, j: nat, n: nat,
                                             changes: seq<SnapshotChange>, live: seq<DataFile>)
    requires IsLineage(byId, c) && j <= n <= |c| && CleanFrom(st, c, j, n)
    requires ReportsFrom(st, byId, c, j, n, changes) && ToMap(live) == ToMap(BaseFiles(st, c, j))
    ensures ToMap(FoldApplied(live, changes)) == ToMap(BaseFiles(st, c, n))
  {
    ChangesExact(st, byId, c, j, n, changes);
    TelescopeFrom(st, c, j, n, changes, live);
  }

  ghost predicate AllExact(sets: seq<seq<DataFile>>, changes: seq<SnapshotChange>)
  {
    |sets| == |changes| + 1 && forall i :: 0 <= i < |changes| ==> ExactAt(sets, changes, i)
  }

  lemma {:induction false} TelescopeFrom(st: Store, c: seq<TableSnapshot>, j: nat, n: nat, changes: seq<SnapshotChange>, live: seq<DataFile>)
    requires j <= n <= |c| && AllExact(FileSets(st, c, j, n), changes) && ToMap(live) == ToMap(BaseFiles(st, c, j))
    ensures ToMap(FoldApplied(live, changes)) == ToMap(BaseFiles(st, c, n))
  {
    SetEnds(st, c, j, n);
    Telescope(live, changes, FileSets(st, c, j, n));
  }

  lemma {:induction false} SetEnds(st: Store, c: seq<TableSnapshot>, j: nat, n: nat)
    requires j <= n <= |c|
    ensures FileSets(st, c, j, n)[0] == BaseFiles(st, c, j) && Last(FileSets(st, c, j, n)) == BaseFiles(st, c, n)
  {
    SetAt(st, c, j, n, 0);
    SetAt(st, c, j, n, n - j);
  }

  function FileSets(st: Store, c: seq<TableSnapshot>, j: nat, n: nat): (r: seq<seq<DataFile>>)
    requires j <= n <= |c|
    ensures |r| == n - j + 1
  {
    seq(n - j + 1, i requires 0 <= i <= n - j => BaseFiles(st, c, j + i))
  }

  lemma {:induction false} ChangesExact(st: Store, byId: map<int, TableSnapshot>, c: seq<TableSnapshot>, j: nat, n: nat, changes: seq<SnapshotChange>)
    requires IsLineage(byId, c) && j <= n <= |c| && CleanFrom(st, c, j, n) && ReportsFrom(st, byId, c, j, n, changes)
    ensures AllExact(FileSets(st, c, j, n), changes)
  {
    forall i | 0 <= i < |changes| ensures ExactAt(FileSets(st, c, j, n), changes, i) {
      ChangeExact(st, byId, c, j, n, changes, i);
      SetAt(st, c, j, n, i);
      SetAt(st, c, j, n, i + 1);
      SetsExact(FileSets(st, c, j, n), changes, i, BaseFiles(st, c, j + i), BaseFiles(st, c, j + i + 1));
    }
  }

  lemma {:induction false} SetAt(st: Store, c: seq<TableSnapshot>, j: nat, n: nat, i: nat)
    requires j <= n <= |c| && i <= n - j
    ensures FileSets(st, c, j, n)[i] == BaseFiles(st, c, j + i)
  {
  }

  lemma {:induction false} SetsExact(sets: seq<seq<DataFile>>, changes: seq<SnapshotChange>, i: nat, was: seq<DataFile>, now: seq<DataFile>)
    requires i < |changes| < |sets| && sets[i] == was && sets[i + 1] == now && Exact(was, now, changes[i].diff)
    ensures ExactAt(sets, changes, i)
  {
  }

  ghost predicate Exact(was: seq<DataFile>, now: seq<DataFile>, d: FilesDiff)
  {
    ToMap(Applied(was, d)) == ToMap(now)
  }

  ghost predicate ExactAt(sets: seq<seq<DataFile>>, changes: seq<SnapshotChange>, i: nat)
    requires i < |changes| < |sets|
  {
    Exact(sets[i], sets[i + 1], changes[i].diff)
  }

  /** Exact diffs fold from the first set to the last. */
  lemma {:induction false} Telescope(live: seq<DataFile>, changes: seq<SnapshotChange>, sets: seq<seq<DataFile>>)
    requires AllExact(sets, changes) && ToMap(live) == ToMap(sets[0])
    ensures ToMap(FoldApplied(live, changes)) == ToMap(Last(sets))
    decreases |changes|
  {
    if changes != [] {
      var k := |changes| - 1;
      var sets', changes' := sets[..k + 1], changes[..k];
      forall i | 0 <= i < |changes'| ensures ExactAt(sets', changes', i) {
        assert ExactAt(sets, changes, i);
      }
      Telescope(live, changes', sets');
      assert ExactAt(sets, changes, k);
      AppliedMap(sets[k], changes[k].diff);
      AppliedMap(FoldApplied(live, changes[..k]), changes[k].diff);
    }
  }

  /** Each reported change is the exact diff between two neighbouring file sets. */
  lemma {:induction false} ChangeExact(st: Store, byId: map<int, TableSnapshot>, c: seq<TableSnapshot>, j: nat, n: nat, changes: seq<SnapshotChange>, i: nat)
    requires IsLineage(byId, c) && j <= n <= |c| && CleanFrom(st, c, j, n) && ReportsFrom(st, byId, c, j, n, changes) && i < n - j
    ensures Exact(BaseFiles(st, c, j + i), BaseFiles(st, c, j + i + 1), changes[i].diff)
  {
    assert ReportedAt(st, byId, c, j, changes, i);
    assert CleanAt(st, c, j + i);
    ChangeIsDiff(st, byId, c, j + i, changes[i]);
    DiffApplyExact(BaseFiles(st, c, j + i), BaseFiles(st, c, j + i + 1), changes[i].diff);
  }

  /** A reported change is a diff between two neighbouring file sets, and any such diff may be reported. */
  lemma {:induction false} ChangeIsDiff(st: Store, byId: map<int, TableSnapshot>, c: seq<TableSnapshot>, k: nat, change: SnapshotChange)
    requires IsLineage(byId, c) && k < |c| && SnapshotFiles(st, c[k]).Ok? && ParentFiles(st, byId, c[k]).Ok?
    ensures IsChange(st, byId, c[k], change.instant, change) <==>
      change.id == c[k].id && IsDiff(BaseFiles(st, c, k), BaseFiles(st, c, k + 1), change.diff)
  {
    if k > 0 {
      assert FollowsParent(byId, c, k);
    }
  }

  lemma {:induction false} LineageUpTo(byId: map<int, TableSnapshot>, snaps: seq<TableSnapshot>, i: nat)
    requires Acyclic(byId) && i < |snaps|
    requires forall k :: 0 <= k < |snaps| ==> snaps[k].id in byId && byId[snaps[k].id] == snaps[k]
    requires forall k :: 0 < k < |snaps| ==> ParentAt(snaps, k)
    requires snaps[0].parent.Some? ==> snaps[0].parent.value !in byId
    ensures Lineage(byId, snaps[i].id) == snaps[..i + 1]
    decreases i
  {
    if i > 0 {
      assert ParentAt(snaps, i);
      LineageUpTo(byId, snaps, i - 1);
      assert snaps[..i + 1] == snaps[..i] + [snaps[i]];
    }
  }

  lemma {:induction false} LineageOfLinked(snaps: seq<TableSnapshot>)
    requires Linked(snaps) && snaps != [] && Acyclic(ById(snaps))
    ensures Last(snaps).id in ById(snaps) && Lineage(ById(snaps), Last(snaps).id) == snaps
  {
    LinkedLookups(snaps);
    LineageUpTo(ById(snaps), snaps, |snaps| - 1);
    assert snaps[..|snaps|] == snaps;
  }

  /** Reading back what the target wrote, at any age of the reader: whatever instant it resumes from, if
      the source answers at all, then the reported diffs folded over the files the reader had at its last
      reported snapshot give exactly the files of the current snapshot. */
  lemma {:induction false} WrittenHistoryTelescopes(st: Store, from: int, changes: seq<SnapshotChange>, live: seq<DataFile>)
    requires st.metadata != [] && HistoryOk(Last(st.metadata).meta) && Acyclic(ById(Last(st.metadata).meta.snapshots))
    requires IsBacklog(st, from, Ok(changes))
    requires var snaps := Last(st.metadata).meta.snapshots;
      var j := FirstLater(snaps, from, |snaps|);
      CleanFrom(st, snaps, j, |snaps|) && ToMap(live) == ToMap(BaseFiles(st, snaps, j)) && SnapshotFiles(st, Last(snaps)).Ok?
    ensures LiveFiles(st).Ok? && ToMap(FoldApplied(live, changes)) == ToMap(LiveFiles(st).value)
  {
    var snaps := Last(st.metadata).meta.snapshots;
    LineageOfLinked(snaps);
    LineageLinks(ById(snaps), Last(snaps).id);
    BacklogTelescopes(st, ById(snaps), snaps, FirstLater(snaps, from, |snaps|), |snaps|, changes, live);
    FindLast(snaps, 0);
    assert snaps[0..] == snaps;
  }

  // ---------------------------------------------------------------------------------------
  // Exactly when
  // ---------------------------------------------------------------------------------------

  /** From every start to every end, folding the changes in between gives the set at the end. */
  ghost predicate FoldsExactly(st: Store, c: seq<TableSnapshot>, j: nat, n: nat, changes: seq<SnapshotChange>)
    requires j <= n <= |c| && |changes| == n - j
  {
    forall s, e :: j <= s <= e <= n ==> FoldsBetween(st, c, j, n, changes, s, e)
  }

  ghost predicate FoldsBetween(st: Store, c: seq<TableSnapshot>, j: nat, n: nat, changes: seq<SnapshotChange>, s: nat, e: nat)
    requires j <= s <= e <= n <= |c| && |changes| == n - j
  {
    ToMap(FoldApplied(BaseFiles(st, c, s), changes[s - j..e - j])) == ToMap(BaseFiles(st, c, e))
  }

  /** Every snapshot from position j up to n can be reported. */
  ghost predicate Reportable(st: Store, byId: map<int, TableSnapshot>, c: seq<TableSnapshot>, j: nat, n: nat)
    requires n <= |c|
  {
    forall k :: j <= k < n ==> SnapshotFiles(st, c[k]).Ok? && ParentFiles(st, byId, c[k]).Ok?
  }

  lemma {:induction false} ReportsBetween(st: Store, byId: map<int, TableSnapshot>, c: seq<TableSnapshot>, j: nat, n: nat, changes: seq<SnapshotChange>, s: nat, e: nat)
    requires j <= s <= e <= n <= |c| && ReportsFrom(st, byId, c, j, n, changes)
    ensures ReportsFrom(st, byId, c, s, e, changes[s - j..e - j])
  {
    var part := changes[s - j..e - j];
    forall i | 0 <= i < |part| ensures ReportedAt(st, byId, c, s, part, i) {
      assert ReportedAt(st, byId, c, j, changes, s - j + i);
    }
  }

  /** Some diff DiffFiles may return. */
  function SomeDiff(was: seq<DataFile>, now: seq<DataFile>): FilesDiff
  {
    FilesDiff(Sort(Changed(ToMap(was), now), PathLe), Sort(Replaced(ToMap(was), now) + Gone(ToMap(now), was), PathLe))
  }

  lemma {:induction false} SomeDiffIs(was: seq<DataFile>, now: seq<DataFile>)
    ensures IsDiff(was, now, SomeDiff(was, now))
  {
    PathLeOrder();
    SortIsSort(Changed(ToMap(was), now), PathLe);
    SortIsSort(Replaced(ToMap(was), now) + Gone(ToMap(now), was), PathLe);
  }

  /** A report goes on with any diff between the next two file sets. */
  lemma {:induction false} NextReport(st: Store, byId: map<int, TableSnapshot>, c: seq<TableSnapshot>, j: nat, n: nat, changes: seq<SnapshotChange>, d: FilesDiff)
    requires IsLineage(byId, c) && j <= n < |c| && SnapshotFiles(st, c[n]).Ok? && ParentFiles(st, byId, c[n]).Ok?
    requires ReportsFrom(st, byId, c, j, n, changes) && IsDiff(BaseFiles(st, c, n), BaseFiles(st, c, n + 1), d)
    ensures ReportsFrom(st, byId, c, j, n + 1, changes + [SnapshotChange(d, c[n].id, InstantOf(c, n))])
  {
    var change := SnapshotChange(d, c[n].id, InstantOf(c, n));
    ChangeIsDiff(st, byId, c, n, change);
    ReportsOneMore(st, byId, c, j, n, changes, change);
  }

  /** Every report can be carried on. */
  lemma {:induction false} CarryOn(st: Store, byId: map<int, TableSnapshot>, c: seq<TableSnapshot>, j: nat, m: nat, n: nat, changes: seq<SnapshotChange>)
    returns (more: seq<SnapshotChange>)
    requires IsLineage(byId, c) && j <= m <= n <= |c| && Reportable(st, byId, c, j, n) && ReportsFrom(st, byId, c, j, m, changes)
    ensures ReportsFrom(st, byId, c, j, n, more) && changes <= more
    decreases n - m
  {
    if m == n {
      more := changes;
    } else {
      var d := SomeDiff(BaseFiles(st, c, m), BaseFiles(st, c, m + 1));
      SomeDiffIs(BaseFiles(st, c, m), BaseFiles(st, c, m + 1));
      NextReport(st, byId, c, j, m, changes, d);
      more := CarryOn(st, byId, c, j, m + 1, n, changes + [SnapshotChange(d, c[m].id, InstantOf(c, m))]);
    }
  }

  lemma {:induction false} FoldOne(live: seq<DataFile>, change: SnapshotChange)
    ensures FoldApplied(live, [change]) == Applied(live, change.diff)
  {
    assert [change][..0] == [];
    assert FoldApplied(live, []) == live;
  }

  lemma {:induction false} OneOff(st: Store, c: seq<TableSnapshot>, j: nat, n: nat, i: nat, changes: seq<SnapshotChange>)
    requires j <= i < n <= |c| && |changes| == n - j && !Exact(BaseFiles(st, c, i), BaseFiles(st, c, i + 1), changes[i - j].diff)
    ensures !FoldsExactly(st, c, j, n, changes)
  {
    assert changes[i - j..i + 1 - j] == [changes[i - j]];
    FoldOne(BaseFiles(st, c, i), changes[i - j]);
    assert !FoldsBetween(st, c, j, n, changes, i, i + 1);
  }

  /** Whatever diffs the source may report for these snapshots, folding them is exact between all of them if and
      only if every neighbouring pair of lists is LastOrOld. */
  lemma {:induction false} TelescopesIff(st: Store, byId: map<int, TableSnapshot>, c: seq<TableSnapshot>, j: nat, n: nat)
    requires IsLineage(byId, c) && j <= n <= |c| && Reportable(st, byId, c, j, n)
    ensures (forall changes :: ReportsFrom(st, byId, c, j, n, changes) ==> FoldsExactly(st, c, j, n, changes)) <==> CleanFrom(st, c, j, n)
  {
    if CleanFrom(st, c, j, n) {
      forall changes | ReportsFrom(st, byId, c, j, n, changes) ensures FoldsExactly(st, c, j, n, changes) {
        CleanFolds(st, byId, c, j, n, changes);
      }
    } else {
      var i :| j <= i < n && !CleanAt(st, c, i);
      var changes := LosingReport(st, byId, c, j, n, i);
    }
  }

  /** A report that loses a file where a pair of lists is not LastOrOld. */
  lemma {:induction false} LosingReport(st: Store, byId: map<int, TableSnapshot>, c: seq<TableSnapshot>, j: nat, n: nat, i: nat) returns (changes: seq<SnapshotChange>)
    requires IsLineage(byId, c) && j <= i < n <= |c| && Reportable(st, byId, c, j, n) && !CleanAt(st, c, i)
    ensures ReportsFrom(st, byId, c, j, n, changes) && !FoldsExactly(st, c, j, n, changes)
  {
    var d := DiffApplyFails(BaseFiles(st, c, i), BaseFiles(st, c, i + 1));
    var before := CarryOn(st, byId, c, j, j, i, []);
    NextReport(st, byId, c, j, i, before, d);
    var bad := SnapshotChange(d, c[i].id, InstantOf(c, i));
    changes := CarryOn(st, byId, c, j, i + 1, n, before + [bad]);
    assert changes[i - j] == bad;
    OneOff(st, c, j, n, i, changes);
  }

  lemma {:induction false} CleanFolds(st: Store, byId: map<int, TableSnapshot>, c: seq<TableSnapshot>, j: nat, n: nat, changes: seq<SnapshotChange>)
    requires IsLineage(byId, c) && j <= n <= |c| && CleanFrom(st, c, j, n) && ReportsFrom(st, byId, c, j, n, changes)
    ensures FoldsExactly(st, c, j, n, changes)
  {
    forall s, e | j <= s <= e <= n ensures FoldsBetween(st, c, j, n, changes, s, e) {
      ReportsBetween(st, byId, c, j, n, changes, s, e);
      BacklogTelescopes(st, byId, c, s, e, changes[s - j..e - j], BaseFiles(st, c, s));
    }
  }

  // ---------------------------------------------------------------------------------------
  // Expiry and the retention check
  // ---------------------------------------------------------------------------------------

  /** Expiring a prefix moves no instant when timestamps increase, so a watermark taken before the expiry
      selects the same snapshots after it. */
  lemma {:induction false} ExpiryKeepsInstants(c: seq<TableSnapshot>, k: nat, i: nat)
    requires Increasing(Stamps(c)) && k + i < |c|
    ensures InstantOf(c[k..], i) == InstantOf(c, k + i) == c[k + i].timestamp
  {
    var all, rest := Stamps(c), Stamps(c[k..]);
    assert rest == all[k..];
    ChainOfIncreasing(all[..k + i + 1]);
    ChainOfIncreasing(rest[..i + 1]);
  }

  ghost predicate AnyStampBy(snaps: seq<TableSnapshot>, from: int)
  {
    exists i :: 0 <= i < |snaps| && snaps[i].timestamp <= from
  }

  /** The retention check compares the oldest timestamp of all retained snapshots with the watermark. */
  method IsIncrementalSyncSafeFrom(st: Store, from: int) returns (safe: bool)
    ensures safe <==> st.metadata != [] && AnyStampBy(Last(st.metadata).meta.snapshots, from)
  {
    if st.metadata == [] || Last(st.metadata).meta.snapshots == [] {
      return false;
    }
    var snaps := Last(st.metadata).meta.snapshots;
    var oldest := snaps[0].timestamp;
    for i := 1 to |snaps|
      invariant forall k :: 0 <= k < i ==> oldest <= snaps[k].timestamp
      invariant exists k :: 0 <= k < i && snaps[k].timestamp == oldest
    {
      if snaps[i].timestamp < oldest {
        oldest := snaps[i].timestamp;
      }
    }
    safe := oldest <= from;
  }

  /** The oldest retained snapshot has a positive timestamp that no other one undercuts. */
  ghost predicate OldestFirst(snaps: seq<TableSnapshot>)
    requires snaps != []
  {
    snaps[0].timestamp > 0 && forall i :: 0 <= i < |snaps| ==> snaps[0].timestamp <= snaps[i].timestamp
  }

  /** A positive answer of the check rules the refusal out, for every watermark, if and only if nothing was
      expired or the oldest snapshot carries the oldest timestamp. */
  lemma {:induction false} SafeIsCoveredIff(snaps: seq<TableSnapshot>)
    requires snaps != []
    ensures (forall from :: AnyStampBy(snaps, from) ==> !Uncovered(snaps[0], from)) <==> snaps[0].parent.None? || OldestFirst(snaps)
  {
    if snaps[0].parent.None? || OldestFirst(snaps) {
      forall from | AnyStampBy(snaps, from) ensures !Uncovered(snaps[0], from) {
        var i :| 0 <= i < |snaps| && snaps[i].timestamp <= from;
      }
    } else if snaps[0].timestamp <= 0 {
      assert AnyStampBy(snaps, 0) && Uncovered(snaps[0], 0);
    } else {
      var i :| 0 <= i < |snaps| && snaps[0].timestamp > snaps[i].timestamp;
      assert AnyStampBy(snaps, snaps[i].timestamp) && Uncovered(snaps[0], snaps[i].timestamp);
    }
  }

  /** Its negative answer is the refusal too, for every watermark, if and only if moreover something was
      expired; on a table with its whole history the check refuses early watermarks the walk would serve. */
  lemma {:induction false} SafeIsExactlyCovered(snaps: seq<TableSnapshot>)
    requires snaps != []
    ensures (forall from :: AnyStampBy(snaps, from) <==> !Uncovered(snaps[0], from)) <==> snaps[0].parent.Some? && OldestFirst(snaps)
  {
    SafeIsCoveredIff(snaps);
    if snaps[0].parent.Some? && OldestFirst(snaps) {
      forall from ensures AnyStampBy(snaps, from) <==> !Uncovered(snaps[0], from) {
        assert snaps[0].timestamp <= from ==> AnyStampBy(snaps, from);
      }
    } else if snaps[0].parent.None? {
      var low := Earliest(snaps) - 1;
      assert !AnyStampBy(snaps, low) && !Uncovered(snaps[0], low);
    }
  }

  function Earliest(snaps: seq<TableSnapshot>): (t: int)
    requires snaps != []
    ensures forall i :: 0 <= i < |snaps| ==> t <= snaps[i].timestamp
  {
    if |snaps| == 1 then snaps[0].timestamp else Min(Earliest(snaps[..|snaps| - 1]), Last(snaps).timestamp)
  }

  /** A later snapshot stamped earlier makes the check say yes while the walk refuses. */
  lemma {:induction false} SafeButUncovered()
    ensures exists snaps: seq<TableSnapshot>, from: int ::
      snaps != [] && Linked(snaps) && AnyStampBy(snaps, from) && Uncovered(snaps[0], from)
  {
    var snaps := [TableSnapshot(7, Some(5), 3, 100, 0, 0), TableSnapshot(8, Some(7), 4, 50, 1, 0)];
    assert snaps[1].timestamp <= 60;
    assert AnyStampBy(snaps, 60) && Uncovered(snaps[0], 60) && Linked(snaps);
  }
}
