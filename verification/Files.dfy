/** Data files, the live-file map they describe, and diffs between file lists
    (pkg/model/diff.go and applyFilesDiff of pkg/formats/iceberg/target.go). */
module Files {
  import opened Common

  /** A data file cut down to what DiffFiles compares. A removed file may carry only its path. */
  datatype DataFile = DataFile(path: string, size: int, records: int)

  datatype FilesDiff = FilesDiff(added: seq<DataFile>, removed: seq<DataFile>)

  /** The live map a file list stands for: later entries win. */
  function ToMap(files: seq<DataFile>): map<string, DataFile>
  {
    if files == [] then map[]
    else ToMap(files[..|files| - 1])[Last(files).path := Last(files)]
  }

  function Paths(files: seq<DataFile>): set<string>
  {
    set f | f in files :: f.path
  }

  function Surviving(live: seq<DataFile>, gone: set<string>): seq<DataFile>
  {
    if live == [] then []
    else
      var rest := Surviving(live[..|live| - 1], gone);
      if Last(live).path in gone then rest else rest + [Last(live)]
  }

  /** Removals by path first, then the additions appended. */
  function Applied(live: seq<DataFile>, diff: FilesDiff): seq<DataFile>
  {
    Surviving(live, Paths(diff.removed)) + diff.added
  }

  method ApplyFilesDiff(live: seq<DataFile>, diff: Option<FilesDiff>) returns (result: seq<DataFile>)
    ensures result == if diff.None? then live else Applied(live, diff.value)
  {
    if diff.None? {
      return live;
    }
    var removed: set<string> := {};
    for i := 0 to |diff.value.removed|
      invariant removed == Paths(diff.value.removed[..i])
    {
      assert diff.value.removed[..i + 1] == diff.value.removed[..i] + [diff.value.removed[i]];
      removed := removed + {diff.value.removed[i].path};
    }
    assert diff.value.removed[..|diff.value.removed|] == diff.value.removed;
    result := [];
    for i := 0 to |live|
      invariant result == Surviving(live[..i], removed)
    {
      assert live[..i + 1][..i] == live[..i];
      if live[i].path !in removed {
        result := result + [live[i]];
      }
    }
    assert live[..|live|] == live;
    result := result + diff.value.added;
  }

  lemma {:induction false} ToMapConcat(a: seq<DataFile>, b: seq<DataFile>)
    ensures ToMap(a + b) == ToMap(a) + ToMap(b)
  {
    if b == [] {
      assert a + b == a;
    } else {
      ToMapConcat(a, b[..|b| - 1]);
      assert (a + b)[..|a + b| - 1] == a + b[..|b| - 1];
    }
  }

  lemma {:induction false} ToMapKeys(files: seq<DataFile>)
    ensures ToMap(files).Keys == Paths(files)
    ensures forall p :: p in ToMap(files) ==> ToMap(files)[p] in files && ToMap(files)[p].path == p
  {
    if files != [] {
      var init := files[..|files| - 1];
      ToMapKeys(init);
      assert files == init + [Last(files)];
    }
  }

  lemma {:induction false} ToMapSurviving(live: seq<DataFile>, gone: set<string>)
    ensures ToMap(Surviving(live, gone)) == ToMap(live) - gone
  {
    if live != [] {
      var init, last := live[..|live| - 1], Last(live);
      ToMapSurviving(init, gone);
      var kept := Surviving(init, gone);
      if last.path in gone {
        assert ToMap(live) - gone == ToMap(init) - gone;
      } else {
        assert (kept + [last])[..|kept|] == kept;
        assert ToMap(kept + [last]) == ToMap(kept)[last.path := last];
        assert ToMap(live) - gone == (ToMap(init) - gone)[last.path := last];
      }
    }
  }

  /** The list-level diff of the target is, on live maps, "drop the removed paths, then overwrite
      with the added files" — duplicates in the list do not matter. */
  lemma {:induction false} AppliedMap(live: seq<DataFile>, diff: FilesDiff)
    ensures ToMap(Applied(live, diff)) == (ToMap(live) - Paths(diff.removed)) + ToMap(diff.added)
  {
    ToMapConcat(Surviving(live, Paths(diff.removed)), diff.added);
    ToMapSurviving(live, Paths(diff.removed));
  }
}
