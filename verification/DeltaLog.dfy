/** The Delta source (pkg/formats/delta/source.go): a commit log with an optional checkpoint, read
    either as a full snapshot or as a backlog of changes after an instant. */
module DeltaLog {
  import opened Common
  import opened Files
  import Diffing
  import opened Model

  datatype Action =
    | AddFile(file: DataFile)
    | RemoveFile(path: string)
    | MetaData(table: Table)
    | CommitInfo(timestamp: int)
    | Protocol

  type Commit = seq<Action>

  // ---------------------------------------------------------------------------------------
  // One commit
  // ---------------------------------------------------------------------------------------

  /** commitInfo is optional; without one the raw timestamp is 0. */
  function RawTime(c: Commit): int
  {
    if c == [] then 0
    else if Last(c).CommitInfo? then Last(c).timestamp
    else RawTime(c[..|c| - 1])
  }

  function LatestTable(previous: Option<Table>, c: Commit): Option<Table>
  {
    if c == [] then previous
    else if Last(c).MetaData? then Some(Last(c).table)
    else LatestTable(previous, c[..|c| - 1])
  }

  /** Snapshot replay: the actions of the commit in order. */
  function Replay(live: map<string, DataFile>, c: Commit): map<string, DataFile>
  {
    if c == [] then live
    else
      var before := Replay(live, c[..|c| - 1]);
      match Last(c)
      case AddFile(f) => before[f.path := f]
      case RemoveFile(p) => before - {p}
      case _ => before
  }

  function Added(c: Commit): seq<DataFile>
  {
    if c == [] then []
    else if Last(c).AddFile? then Added(c[..|c| - 1]) + [Last(c).file]
    else Added(c[..|c| - 1])
  }

  /** A remove action carries a path and nothing else. */
  function Removed(c: Commit): seq<DataFile>
  {
    if c == [] then []
    else if Last(c).RemoveFile? then Removed(c[..|c| - 1]) + [DataFile(Last(c).path, 0, 0)]
    else Removed(c[..|c| - 1])
  }

  function DiffOf(c: Commit): FilesDiff { FilesDiff(Added(c), Removed(c)) }

  /** What a target makes of the commit's diff (see Files.AppliedMap). */
  function ApplyCommit(live: map<string, DataFile>, c: Commit): map<string, DataFile>
  {
    (live - Paths(Removed(c))) + ToMap(Added(c))
  }

  predicate Mentions(c: Commit, p: string)
  {
    c != [] && ((Last(c).AddFile? && Last(c).file.path == p)
             || (Last(c).RemoveFile? && Last(c).path == p)
             || Mentions(c[..|c| - 1], p))
  }

  /** The last action on the path is an add. */
  predicate EndsLive(c: Commit, p: string)
  {
    c != [] && (
      match Last(c)
      case AddFile(f) => f.path == p || EndsLive(c[..|c| - 1], p)
      case RemoveFile(q) => q != p && EndsLive(c[..|c| - 1], p)
      case _ => EndsLive(c[..|c| - 1], p))
  }

  /** No path the commit adds is left removed by a later action of the same commit. */
  ghost predicate AddsSurvive(c: Commit)
  {
    forall p :: p in Paths(Added(c)) ==> EndsLive(c, p)
  }

  lemma {:induction false} ReplayAt(live: map<string, DataFile>, c: Commit, p: string)
    ensures p in Replay(live, c) <==> if Mentions(c, p) then EndsLive(c, p) else p in live
    ensures EndsLive(c, p) ==> Mentions(c, p) && p in ToMap(Added(c)) && Replay(live, c)[p] == ToMap(Added(c))[p]
    ensures !Mentions(c, p) && p in live ==> Replay(live, c)[p] == live[p]
  {
    if c != [] {
      var init := c[..|c| - 1];
      ReplayAt(live, init, p);
      if Last(c).AddFile? {
        assert Added(c)[..|Added(c)| - 1] == Added(init);
      }
    }
  }

  lemma {:induction false} MentionsAt(c: Commit, p: string)
    ensures Mentions(c, p) <==> p in Paths(Added(c)) || p in Paths(Removed(c))
  {
    if c != [] {
      var init := c[..|c| - 1];
      MentionsAt(init, p);
      assert forall f :: f in Added(c) <==> f in Added(init) || (Last(c).AddFile? && f == Last(c).file);
      if Last(c).RemoveFile? {
        var gone := DataFile(Last(c).path, 0, 0);
        assert forall f :: f in Removed(c) <==> f in Removed(init) || f == gone;
        assert gone in Removed(c);
      }
    }
  }

  /** Snapshot replay and diff application agree on a commit, from any live map, if and only if
      every path the commit adds survives it. */
  lemma {:induction false} CommitDiffIff(live: map<string, DataFile>, c: Commit)
    ensures Replay(live, c) == ApplyCommit(live, c) <==> AddsSurvive(c)
  {
    var r, d := Replay(live, c), ApplyCommit(live, c);
    ToMapKeys(Added(c));
    if AddsSurvive(c) {
      forall p ensures (p in r <==> p in d) && (p in r ==> r[p] == d[p]) {
        ReplayAt(live, c, p);
        MentionsAt(c, p);
      }
    } else {
      var p :| p in Paths(Added(c)) && !EndsLive(c, p);
      ReplayAt(live, c, p);
      MentionsAt(c, p);
    }
  }

  /** The witness: add then remove of one path. Replay ends without the file, the diff with it. */
  lemma {:induction false} AddThenRemoveDiverges(live: map<string, DataFile>, f: DataFile)
    ensures var c := [AddFile(f), RemoveFile(f.path)];
      && Replay(live, c) != ApplyCommit(live, c)
      && f.path !in Replay(live, c) && f.path in ApplyCommit(live, c)
  {
    var c := [AddFile(f), RemoveFile(f.path)];
    AddThenRemove(f);
    ReplayAt(live, c, f.path);
    ToMapKeys(Added(c));
    assert f.path in ToMap(Added(c));
  }

  lemma {:induction false} AddThenRemove(f: DataFile)
    ensures var c := [AddFile(f), RemoveFile(f.path)];
      f.path in Paths(Added(c)) && Mentions(c, f.path) && !EndsLive(c, f.path)
  {
    var a, c := [AddFile(f)], [AddFile(f), RemoveFile(f.path)];
    assert a[..0] == [] && Added(a) == Added([]) + [f] == [f];
    assert c[..1] == a && Added(c) == [f];
    assert f in Added(c);
  }

  // ---------------------------------------------------------------------------------------
  // The whole history, which no reader sees in full once a checkpoint replaced its head
  // ---------------------------------------------------------------------------------------

  function LiveAfter(h: seq<Commit>, n: nat): map<string, DataFile>
    requires n <= |h|
  {
    if n == 0 then map[] else Replay(LiveAfter(h, n - 1), h[n - 1])
  }

  function TableAfter(h: seq<Commit>, n: nat): Option<Table>
    requires n <= |h|
  {
    if n == 0 then None else LatestTable(TableAfter(h, n - 1), h[n - 1])
  }

  function ReplayAll(base: map<string, DataFile>, cs: seq<Commit>): map<string, DataFile>
  {
    if cs == [] then base else Replay(ReplayAll(base, cs[..|cs| - 1]), Last(cs))
  }

  function TableOf(base: Option<Table>, cs: seq<Commit>): Option<Table>
  {
    if cs == [] then base else LatestTable(TableOf(base, cs[..|cs| - 1]), Last(cs))
  }

  function Raws(cs: seq<Commit>): seq<int>
  {
    seq(|cs|, i requires 0 <= i < |cs| => RawTime(cs[i]))
  }

  /** Starting from the state at version s - 1, the tail alone reaches every later state. */
  lemma {:induction false} TailReplay(h: seq<Commit>, s: nat, n: nat)
    requires s <= n <= |h|
    ensures ReplayAll(LiveAfter(h, s), h[s..n]) == LiveAfter(h, n)
    ensures TableOf(TableAfter(h, s), h[s..n]) == TableAfter(h, n)
    decreases n
  {
    if s == n {
      assert h[s..n] == [];
    } else {
      TailReplay(h, s, n - 1);
      ReplaySnoc(LiveAfter(h, s), TableAfter(h, s), h[s..n], h[s..n - 1], h[n - 1]);
    }
  }

  lemma {:induction false} ReplaySnoc(live: map<string, DataFile>, table: Option<Table>, cs: seq<Commit>, init: seq<Commit>, c: Commit)
    requires cs == init + [c]
    ensures ReplayAll(live, cs) == Replay(ReplayAll(live, init), c) && TableOf(table, cs) == LatestTable(TableOf(table, init), c)
  {
    assert cs[..|cs| - 1] == init && Last(cs) == c;
  }

  /** Diffs of versions j..n-1 folded onto a live map. */
  function FoldDiffs(live: map<string, DataFile>, h: seq<Commit>, j: nat, n: nat): map<string, DataFile>
    requires j <= n <= |h|
  {
    if j == n then live else ApplyCommit(FoldDiffs(live, h, j, n - 1), h[n - 1])
  }

  ghost predicate AllSurvive(h: seq<Commit>)
  {
    forall i :: 0 <= i < |h| ==> AddsSurvive(h[i])
  }

  /** Incremental refines full: the diffs after version k - 1, folded onto the live map there, give
      the live map of full replay. */
  lemma {:induction false} IncrementalRefinesFull(h: seq<Commit>, k: nat, n: nat)
    requires k <= n <= |h| && AllSurvive(h)
    ensures FoldDiffs(LiveAfter(h, k), h, k, n) == LiveAfter(h, n)
    decreases n
  {
    if k < n {
      IncrementalRefinesFull(h, k, n - 1);
      CommitDiffIff(LiveAfter(h, n - 1), h[n - 1]);
    }
  }

  ghost predicate SameAt(a: map<string, DataFile>, b: map<string, DataFile>, p: string)
  {
    (p in a <==> p in b) && (p in a ==> a[p] == b[p])
  }

  lemma {:induction false} SameEverywhere(a: map<string, DataFile>, b: map<string, DataFile>)
    requires forall p :: SameAt(a, b, p)
    ensures a == b
  {
    forall p ensures p in a <==> p in b {
      assert SameAt(a, b, p);
    }
    assert a.Keys == b.Keys;
    forall p | p in a ensures a[p] == b[p] {
      assert SameAt(a, b, p);
    }
  }

  ghost predicate Touched(h: seq<Commit>, j: nat, n: nat, p: string)
    requires j <= n <= |h|
  {
    exists i :: j <= i < n && Mentions(h[i], p)
  }

  lemma {:induction false} UntouchedKept(h: seq<Commit>, j: nat, n: nat, p: string)
    requires j <= n <= |h| && !Touched(h, j, n, p)
    ensures SameAt(LiveAfter(h, j), LiveAfter(h, n), p)
    decreases n
  {
    if j < n {
      assert !Touched(h, j, n - 1, p);
      UntouchedKept(h, j, n - 1, p);
      ReplayAt(LiveAfter(h, n - 1), h[n - 1], p);
    }
  }

  lemma {:induction false} FoldForgets(a: map<string, DataFile>, b: map<string, DataFile>, h: seq<Commit>, j: nat, n: nat, p: string)
    requires j <= n <= |h|
    requires SameAt(a, b, p) || Touched(h, j, n, p)
    ensures SameAt(FoldDiffs(a, h, j, n), FoldDiffs(b, h, j, n), p)
    decreases n
  {
    if j < n {
      MentionsAt(h[n - 1], p);
      ToMapKeys(Added(h[n - 1]));
      if !Mentions(h[n - 1], p) {
        assert Touched(h, j, n, p) ==> Touched(h, j, n - 1, p);
        FoldForgets(a, b, h, j, n - 1, p);
      }
    }
  }

  /** Replaying a suffix the target already holds, wholly or in part, changes nothing. */
  lemma {:induction false} ReplayedSuffix(h: seq<Commit>, j: nat, k: nat, n: nat)
    requires j <= k <= n <= |h| && AllSurvive(h)
    ensures FoldDiffs(LiveAfter(h, k), h, j, n) == LiveAfter(h, n)
  {
    IncrementalRefinesFull(h, j, n);
    var r, l := FoldDiffs(LiveAfter(h, k), h, j, n), LiveAfter(h, n);
    forall p ensures SameAt(r, l, p) {
      if !Touched(h, j, n, p) {
        assert !Touched(h, j, k, p);
        UntouchedKept(h, j, k, p);
      }
      FoldForgets(LiveAfter(h, k), LiveAfter(h, j), h, j, n, p);
    }
    SameEverywhere(r, l);
  }

  /** From version v on, no commit re-adds a live path with other content without removing it, or adds a
      path twice with different content. */
  ghost predicate CleanAdds(h: seq<Commit>, v: nat)
  {
    forall u :: v <= u < |h| ==> CleanAddsAt(h, u)
  }

  ghost predicate CleanAddsAt(h: seq<Commit>, u: nat)
    requires u < |h|
  {
    Diffing.Settled(LiveAfter(h, u), DiffOf(h[u]))
  }
}
