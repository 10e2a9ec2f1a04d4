/** What a reader finds in the metadata the Iceberg target writes (pkg/formats/iceberg/target.go) and in that of
    other writers: live files, the newest metadata file, the partition spec, the columns read back. */
module IcebergMeaning {
  import opened Common
  import Files
  import opened Model
  import opened DeltaSource
  import opened IcebergSchema
  import opened IcebergIds
  import opened IcebergParse
  import opened FieldIdHistory
  import opened IcebergTable
  import opened IcebergCommit

  // ---------------------------------------------------------------------------------------
  // Reading manifests
  // ---------------------------------------------------------------------------------------

  predicate Counts(e: ManifestEntry) { e.data && e.status != Deleted }

  lemma {:induction false} LiveCons(e: ManifestEntry, rest: seq<ManifestEntry>)
    ensures LiveEntries([e] + rest) == (if Counts(e) then [e.file] else []) + LiveEntries(rest)
  {
    assert ([e] + rest)[1..] == rest;
  }

  lemma {:induction false} LiveEntriesConcat(a: seq<ManifestEntry>, b: seq<ManifestEntry>)
    ensures LiveEntries(a + b) == LiveEntries(a) + LiveEntries(b)
  {
    if a == [] {
      assert a + b == b && [] + LiveEntries(b) == LiveEntries(b);
    } else {
      LiveEntriesConcat(a[1..], b);
      LiveCons(a[0], a[1..]);
      LiveCons(a[0], a[1..] + b);
      assert a == [a[0]] + a[1..] && a + b == [a[0]] + (a[1..] + b);
      InARow(if Counts(a[0]) then [a[0].file] else [], LiveEntries(a[1..]), LiveEntries(b));
    }
  }

  lemma {:induction false} InARow(x: seq<Files.DataFile>, y: seq<Files.DataFile>, z: seq<Files.DataFile>)
    ensures x + (y + z) == (x + y) + z
  {
  }

  /** A manifest's live files are those of its entries that are data and not deleted: each entry by itself. */
  lemma {:induction false} LiveEntriesMean(before: seq<ManifestEntry>, e: ManifestEntry, after: seq<ManifestEntry>)
    ensures LiveEntries(before + [e] + after) == LiveEntries(before) + (if Counts(e) then [e.file] else []) + LiveEntries(after)
  {
    LiveEntriesConcat(before + [e], after);
    LiveEntriesConcat(before, [e]);
    assert [e][1..] == [] && [e.file] + [] == [e.file];
  }

  /** A snapshot is readable if and only if its list and every data manifest of it are there, and then has exactly
      the live files of those; delete manifests do not matter. */
  lemma {:induction false} ReadListMeans(st: Store, entries: seq<ListEntry>)
    ensures ReadList(st, entries).Ok? <==> Readable(st, entries)
    ensures ReadList(st, entries).Ok? ==>
      forall f :: f in ReadList(st, entries).value <==> exists l :: l in entries && l.data && HoldsFile(st, l, f)
  {
    if entries != [] {
      var first, rest := entries[0], entries[1..];
      ReadListMeans(st, rest);
      assert entries == [first] + rest;
      assert forall l :: l in entries <==> l == first || l in rest;
      if first.data && first.manifest in st.manifests {
        forall f ensures f in LiveEntries(st.manifests[first.manifest]) <==> HoldsFile(st, first, f) {
        }
      }
    }
  }

  /** What is reported missing is missing: a data manifest of the list, or the list itself. */
  lemma {:induction false} MissingMeans(st: Store, entries: seq<ListEntry>, snap: TableSnapshot)
    ensures ReadList(st, entries).Err? ==> exists l :: l in entries && l.data && l.manifest !in st.manifests && ReadList(st, entries).error == MissingManifest(l.manifest)
    ensures SnapshotFiles(st, snap) == Err(MissingList(snap.manifestList)) <==> snap.manifestList !in st.lists
  {
    if entries != [] {
      MissingMeans(st, entries[1..], snap);
      assert entries == [entries[0]] + entries[1..];
    }
    if snap.manifestList in st.lists {
      NotAList(st, st.lists[snap.manifestList]);
    }
  }

  lemma {:induction false} NotAList(st: Store, entries: seq<ListEntry>)
    ensures ReadList(st, entries).Err? ==> ReadList(st, entries).error.MissingManifest?
  {
    if entries != [] {
      NotAList(st, entries[1..]);
    }
  }

  ghost predicate HoldsFile(st: Store, l: ListEntry, f: Files.DataFile)
  {
    l.manifest in st.manifests && f in LiveEntries(st.manifests[l.manifest])
  }

  ghost predicate FirstWithId(snapshots: seq<TableSnapshot>, id: int, i: nat)
  {
    i < |snapshots| && snapshots[i].id == id && forall j :: 0 <= j < i ==> snapshots[j].id != id
  }

  lemma {:induction false} FindMeans(snapshots: seq<TableSnapshot>, id: int)
    ensures forall i: nat :: FirstWithId(snapshots, id, i) ==> FindSnapshot(snapshots, id) == Some(snapshots[i])
    ensures FindSnapshot(snapshots, id).None? <==> forall i :: 0 <= i < |snapshots| ==> snapshots[i].id != id
  {
    if snapshots != [] {
      FindMeans(snapshots[1..], id);
      forall i: nat | FirstWithId(snapshots, id, i) ensures FindSnapshot(snapshots, id) == Some(snapshots[i]) {
        if i > 0 {
          assert FirstWithId(snapshots[1..], id, i - 1);
        }
      }
      assert forall i :: 0 < i < |snapshots| ==> snapshots[i] == snapshots[1..][i - 1];
    }
  }

  /** The live files of any table: those of the snapshot that is current in the newest metadata file, of the last
      one if that is not listed, and none without a current snapshot. */
  lemma {:induction false} LiveFilesMean(st: Store, meta: Metadata, i: nat)
    requires st.metadata != [] && meta == Last(st.metadata).meta
    ensures meta.currentSnapshot.None? || meta.snapshots == [] ==> LiveFiles(st) == Ok([])
    ensures meta.currentSnapshot.Some? && FirstWithId(meta.snapshots, meta.currentSnapshot.value, i) ==> LiveFiles(st) == SnapshotFiles(st, meta.snapshots[i])
    ensures meta.currentSnapshot.Some? && meta.snapshots != [] && (forall k :: 0 <= k < |meta.snapshots| ==> meta.snapshots[k].id != meta.currentSnapshot.value) ==>
      LiveFiles(st) == SnapshotFiles(st, Last(meta.snapshots))
  {
    if meta.currentSnapshot.Some? {
      FindMeans(meta.snapshots, meta.currentSnapshot.value);
    }
  }

  // ---------------------------------------------------------------------------------------
  // The newest metadata file
  // ---------------------------------------------------------------------------------------

  /** The manifest a commit writes: exactly the files, all of them added data. */
  lemma {:induction false} EntriesMean(files: seq<Files.DataFile>)
    ensures |Entries(files)| == |files|
    ensures forall i :: 0 <= i < |files| ==> Entries(files)[i].file == files[i] && Entries(files)[i].data && Entries(files)[i].status == New
  {
    if files != [] {
      EntriesMean(files[1..]);
    }
  }

  /** What a commit records besides the files: clock, schema number, watermark, the manifest, and how the name mapping
      resolves the columns. */
  ghost predicate Records(st: Store, s: Store, snapshot: Snapshot, now: int)
  {
    && s.metadata != [] && Last(s.metadata).meta.snapshots != []
    && var meta := Last(s.metadata).meta;
      var last := Last(meta.snapshots);
      && meta.lastUpdated == now && last.timestamp == now && meta.currentSnapshot == Some(last.id) && last.id >= now
      && meta.currentSchemaId == (if st.metadata == [] then 0 else Last(st.metadata).meta.currentSchemaId + 1)
      && last.schemaId == meta.currentSchemaId && last.sequence == meta.lastSequence
      && meta.lastSequence == (if st.metadata == [] then 1 else Last(st.metadata).meta.lastSequence + 1)
      && last.parent == (if st.metadata == [] then None else Last(st.metadata).meta.currentSnapshot)
      && meta.sync == Some(SyncMetadata(snapshot.instant, snapshot.version))
      && (NonEmptyNames(meta.schema.fields) ==> FlattenMapping(meta.nameMapping, "") == FieldPairs(meta.schema.fields, ""))
      && last.manifestList in s.lists && s.lists[last.manifestList] == [ListEntry(st.unused, true)]
      && st.unused in s.manifests && |s.manifests[st.unused]| == |snapshot.files|
      && forall i :: 0 <= i < |snapshot.files| ==> s.manifests[st.unused][i] == ManifestEntry(New, true, snapshot.files[i])
  }

  lemma {:induction false} CommitRecords(st: Store, snapshot: Snapshot, now: int)
    requires CommitWrites(st, snapshot, now).Ok?
    ensures |CommitWrites(st, snapshot, now).value| == 4
    ensures Records(st, CommitWrites(st, snapshot, now).value[2], snapshot, now) && Records(st, CommitWrites(st, snapshot, now).value[3], snapshot, now)
  {
    var meta := WritesAre(st, snapshot, now);
    EntriesMean(snapshot.files);
    MetadataRecords(PreviousMeta(st), snapshot, now, st.unused + 1, meta);
  }

  lemma {:induction false} MetadataRecords(prev: Option<Metadata>, snapshot: Snapshot, now: int, list: nat, meta: Metadata)
    requires NextMetadata(prev, snapshot, now, list) == Ok(meta)
    ensures meta.snapshots != [] && meta.lastUpdated == now && meta.currentSnapshot == Some(Last(meta.snapshots).id)
    ensures meta.currentSchemaId == if prev.None? then 0 else prev.value.currentSchemaId + 1
    ensures meta.lastSequence == if prev.None? then 1 else prev.value.lastSequence + 1
    ensures meta.sync == Some(SyncMetadata(snapshot.instant, snapshot.version))
    ensures var last := Last(meta.snapshots);
      && last.timestamp == now && last.id >= now && last.schemaId == meta.currentSchemaId && last.sequence == meta.lastSequence
      && last.manifestList == list && last.parent == (if prev.None? then None else prev.value.currentSnapshot)
    ensures NonEmptyNames(meta.schema.fields) ==> FlattenMapping(meta.nameMapping, "") == FieldPairs(meta.schema.fields, "")
  {
    BumpIdAbove(now, if prev.None? then [] else prev.value.snapshots);
    if NonEmptyNames(meta.schema.fields) {
      MappingFlat(meta.schema.fields, "");
    }
  }

  // ---------------------------------------------------------------------------------------
  // Partition columns
  // ---------------------------------------------------------------------------------------

  ghost predicate NamesColumn(fields: seq<NestedField>, name: string) { exists i :: 0 <= i < |fields| && fields[i].name == name }

  /** Spec field i: numbered from 1000, named as the partition column, bound to a column of that name. */
  ghost predicate Bound(w: Written, parts: seq<PartitionField>, idx: nat, i: nat)
    requires i < |parts| && |w.spec| == |parts|
  {
    && w.spec[i].fieldId == 1000 + idx + i && w.spec[i].name == parts[i].name
    && exists k :: ColumnIs(w.fields, k, w.spec[i])
  }

  ghost predicate ColumnIs(fields: seq<NestedField>, k: nat, s: SpecField)
  {
    k < |fields| && fields[k].name == s.name && fields[k].id == s.sourceId
  }

  lemma {:induction false} FoundColumn(fields: seq<NestedField>, name: string)
    ensures FindId(fields, name) != 0 ==> exists k :: ColumnIs(fields, k, SpecField(FindId(fields, name), 0, name))
  {
    if fields != [] {
      if fields[0].name == name {
        assert ColumnIs(fields, 0, SpecField(FindId(fields, name), 0, name));
      } else {
        FoundColumn(fields[1..], name);
        if k: nat :| ColumnIs(fields[1..], k, SpecField(FindId(fields, name), 0, name)) {
          assert ColumnIs(fields, k + 1, SpecField(FindId(fields, name), 0, name));
        }
      }
    }
  }

  /** The schema's columns stay, and every partition column is bound to a column of its name. */
  ghost predicate Binds(w: Written, fields: seq<NestedField>, parts: seq<PartitionField>, idx: nat)
  {
    && |fields| <= |w.fields| && w.fields[..|fields|] == fields && |w.spec| == |parts|
    && forall i :: 0 <= i < |parts| ==> Bound(w, parts, idx, i)
  }

  lemma {:induction false} PartitionsBind(fields: seq<NestedField>, parts: seq<PartitionField>, idx: nat, prev: map<string, int>, last: int)
    requires WithPartitions(fields, parts, idx, prev, last).Ok?
    ensures Binds(WithPartitions(fields, parts, idx, prev, last).value, fields, parts, idx)
    decreases parts
  {
    if parts != [] {
      var one := PlaceOne(fields, parts[0], idx, prev, last).value;
      var rest := WithPartitions(one.fields, parts[1..], idx + 1, prev, one.last).value;
      PartitionsBind(one.fields, parts[1..], idx + 1, prev, one.last);
      FoundColumn(fields, parts[0].name);
      OneBinds(fields, parts[0], idx, prev, last, one);
      BindsOn(fields, parts, idx, one, rest);
    }
  }

  lemma {:induction false} OneBinds(fields: seq<NestedField>, p: PartitionField, idx: nat, prev: map<string, int>, last: int, one: Written)
    requires PlaceOne(fields, p, idx, prev, last) == Ok(one)
    ensures |fields| <= |one.fields| && one.fields[..|fields|] == fields
    ensures |one.spec| == 1 && one.spec[0].fieldId == 1000 + idx && one.spec[0].name == p.name && exists k :: ColumnIs(one.fields, k, one.spec[0])
  {
    FoundColumn(fields, p.name);
    if FindId(fields, p.name) != 0 {
      var k: nat :| ColumnIs(fields, k, SpecField(FindId(fields, p.name), 0, p.name));
      assert ColumnIs(one.fields, k, one.spec[0]);
    } else {
      assert ColumnIs(one.fields, |fields|, one.spec[0]);
    }
  }

  lemma {:induction false} BindsOn(fields: seq<NestedField>, parts: seq<PartitionField>, idx: nat, one: Written, rest: Written)
    requires parts != [] && |fields| <= |one.fields| && one.fields[..|fields|] == fields
    requires |one.spec| == 1 && one.spec[0].fieldId == 1000 + idx && one.spec[0].name == parts[0].name && exists k :: ColumnIs(one.fields, k, one.spec[0])
    requires Binds(rest, one.fields, parts[1..], idx + 1)
    ensures Binds(rest.(spec := one.spec + rest.spec), fields, parts, idx)
  {
    var w := rest.(spec := one.spec + rest.spec);
    assert w.fields[..|one.fields|][..|fields|] == w.fields[..|fields|];
    forall i | 0 <= i < |parts| ensures Bound(w, parts, idx, i) {
      if i == 0 {
        var k: nat :| ColumnIs(one.fields, k, one.spec[0]);
        assert w.fields[..|one.fields|][k] == w.fields[k];
        assert ColumnIs(w.fields, k, w.spec[0]);
      } else {
        assert Bound(rest, parts[1..], idx + 1, i - 1);
        assert w.spec[i] == rest.spec[i - 1] && parts[i] == parts[1..][i - 1];
        var k: nat :| ColumnIs(rest.fields, k, rest.spec[i - 1]);
        assert ColumnIs(w.fields, k, w.spec[i]);
      }
    }
  }

  /** A column added for a partition column: its name, its scalar type as read back, optional. */
  ghost predicate AddedFor(f: NestedField, parts: seq<PartitionField>)
  {
    exists j :: 0 <= j < |parts| && AddedForOne(f, parts[j])
  }

  ghost predicate AddedForOne(f: NestedField, p: PartitionField)
  {
    f.name == p.name && !f.required && p.schema.Scalar? && ParseType(f.typ, true) == Some(Scalar(AtomBack(p.schema.atom), true))
  }

  /** Every column beyond the schema's stands for a partition column. */
  lemma {:induction false} SyntheticColumns(fields: seq<NestedField>, parts: seq<PartitionField>, idx: nat, prev: map<string, int>, last: int)
    requires WithPartitions(fields, parts, idx, prev, last).Ok?
    ensures var w := WithPartitions(fields, parts, idx, prev, last).value; |w.fields| >= |fields| && forall k :: |fields| <= k < |w.fields| ==> AddedFor(w.fields[k], parts)
    decreases parts
  {
    if parts != [] {
      var one := PlaceOne(fields, parts[0], idx, prev, last).value;
      var w := WithPartitions(one.fields, parts[1..], idx + 1, prev, one.last).value;
      SyntheticColumns(one.fields, parts[1..], idx + 1, prev, one.last);
      PartitionsBind(one.fields, parts[1..], idx + 1, prev, one.last);
      if parts[0].schema.Scalar? {
        NameBack(parts[0].schema.atom);
      }
      forall k | |fields| <= k < |w.fields| ensures AddedFor(w.fields[k], parts) {
        if k < |one.fields| {
          assert w.fields[..|one.fields|][k] == one.fields[k];
          assert AddedForOne(w.fields[k], parts[0]);
        } else {
          var j :| 0 <= j < |parts[1..]| && AddedForOne(w.fields[k], parts[1..][j]);
          assert AddedForOne(w.fields[k], parts[j + 1]);
        }
      }
    }
  }

  /** Partition column i is transformed; or nested, without being a column of the schema or named before. */
  ghost predicate RefusedAt(fields: seq<NestedField>, parts: seq<PartitionField>, i: nat)
    requires i < |parts|
  {
    !parts[i].identity ||
    (!parts[i].schema.Scalar? && !NamesColumn(fields, parts[i].name) && forall j :: 0 <= j < i ==> parts[j].name != parts[i].name)
  }

  ghost predicate SomeRefused(fields: seq<NestedField>, parts: seq<PartitionField>)
  {
    exists i :: 0 <= i < |parts| && RefusedAt(fields, parts, i)
  }

  /** A table is refused if and only if one of its partition columns is. */
  lemma {:induction false} PartitionsRefusedIff(fields: seq<NestedField>, parts: seq<PartitionField>, idx: int, prev: map<string, int>, last: int)
    requires NonZeroIds(fields) && last >= 0 && forall p :: p in prev ==> prev[p] >= 1
    ensures WithPartitions(fields, parts, idx, prev, last).Err? <==> SomeRefused(fields, parts)
    decreases parts
  {
    if parts != [] {
      var p := parts[0];
      FoundIff(fields, p.name);
      var r := PlaceOne(fields, p, idx, prev, last);
      assert r.Err? <==> RefusedAt(fields, parts, 0);
      if r.Ok? {
        PartitionsRefusedIff(r.value.fields, parts[1..], idx + 1, prev, r.value.last);
        RefusedLater(fields, parts, r.value.fields);
      }
    }
  }

  /** The refusal is the first such column's: a transform Iceberg is not given, or else a nested column. */
  ghost predicate RefusedFor(fields: seq<NestedField>, parts: seq<PartitionField>, i: nat, e: SchemaError)
  {
    && i < |parts| && RefusedAt(fields, parts, i) && (forall j :: 0 <= j < i ==> !RefusedAt(fields, parts, j))
    && e == if !parts[i].identity then UnsupportedTransform(parts[i].name) else NestedPartitionColumn(parts[i].name)
  }

  lemma {:induction false} RefusalMeans(fields: seq<NestedField>, parts: seq<PartitionField>, idx: int, prev: map<string, int>, last: int) returns (i: nat)
    requires NonZeroIds(fields) && last >= 0 && (forall p :: p in prev ==> prev[p] >= 1) && WithPartitions(fields, parts, idx, prev, last).Err?
    ensures RefusedFor(fields, parts, i, WithPartitions(fields, parts, idx, prev, last).error)
    decreases parts
  {
    FoundIff(fields, parts[0].name);
    var r := PlaceOne(fields, parts[0], idx, prev, last);
    assert r.Err? <==> RefusedAt(fields, parts, 0);
    i := 0;
    if r.Ok? {
      var k := RefusalMeans(r.value.fields, parts[1..], idx + 1, prev, r.value.last);
      RefusedLater(fields, parts, r.value.fields);
      i := k + 1;
      forall j | 0 <= j < i ensures !RefusedAt(fields, parts, j) {
        if j > 0 {
          assert !RefusedAt(r.value.fields, parts[1..], j - 1);
        }
      }
    }
  }

  lemma {:induction false} RefusedLater(fields: seq<NestedField>, parts: seq<PartitionField>, placed: seq<NestedField>)
    requires parts != [] && !RefusedAt(fields, parts, 0)
    requires (placed == fields && NamesColumn(fields, parts[0].name)) || exists f: NestedField :: f.name == parts[0].name && placed == fields + [f]
    ensures SomeRefused(fields, parts) <==> SomeRefused(placed, parts[1..])
    ensures forall i: nat :: i < |parts| - 1 ==> (RefusedAt(placed, parts[1..], i) <==> RefusedAt(fields, parts, i + 1))
  {
    forall n ensures NamesColumn(placed, n) <==> NamesColumn(fields, n) || n == parts[0].name {
      PlacedNames(fields, placed, parts[0].name, n);
    }
    var rest := parts[1..];
    forall i: nat | i < |rest| ensures RefusedAt(placed, rest, i) <==> RefusedAt(fields, parts, i + 1) {
      assert rest[i] == parts[i + 1];
      assert forall j :: 0 <= j < i ==> rest[j] == parts[j + 1];
      if !RefusedAt(placed, rest, i) && !rest[i].schema.Scalar? && !NamesColumn(placed, rest[i].name) {
        var j :| 0 <= j < i && rest[j].name == rest[i].name;
        assert parts[j + 1].name == parts[i + 1].name;
      }
    }
    if i :| 0 <= i < |parts| && RefusedAt(fields, parts, i) {
      assert RefusedAt(placed, rest, i - 1);
    }
  }

  lemma {:induction false} PlacedNames(fields: seq<NestedField>, placed: seq<NestedField>, name: string, n: string)
    requires (placed == fields && NamesColumn(fields, name)) || exists f: NestedField :: f.name == name && placed == fields + [f]
    ensures NamesColumn(placed, n) <==> NamesColumn(fields, n) || n == name
  {
    if NamesColumn(fields, n) {
      var i :| 0 <= i < |fields| && fields[i].name == n;
      assert placed[i].name == n;
    }
    if placed != fields {
      assert placed[|fields|].name == name;
    }
  }

  lemma {:induction false} FoundIff(fields: seq<NestedField>, name: string)
    requires NonZeroIds(fields)
    ensures FindId(fields, name) != 0 <==> NamesColumn(fields, name)
  {
    if fields != [] {
      assert NonZeroIds(fields[1..]);
      FoundIff(fields[1..], name);
      if i :| 0 <= i < |fields| && fields[i].name == name && i > 0 {
        assert fields[1..][i - 1].name == name;
      }
      if i :| 0 <= i < |fields[1..]| && fields[1..][i].name == name {
        assert fields[i + 1].name == name;
      }
    }
  }

  // ---------------------------------------------------------------------------------------
  // The columns read back
  // ---------------------------------------------------------------------------------------

  /** After any commit the schema's columns read back one by one, with the ids written; every partition column is bound
      to a column of its name, and any further column stands for a partition column. */
  lemma {:induction false} CommitReadsBack(prev: Option<Written>, t: Table)
    requires CommitSchema(prev, t).Ok?
    ensures var w := CommitSchema(prev, t).value; |t.fields| <= |w.fields| && ReadsBack(w, t, w.fields[..|t.fields|])
  {
    var columns, ids, last := ConvertedColumns(prev, t);
    PlacedReadsBack(t, columns, ids, last);
    FirstColumns(CommitSchema(prev, t).value, t, columns);
  }

  lemma {:induction false} ConvertedColumns(prev: Option<Written>, t: Table) returns (columns: seq<NestedField>, ids: map<string, int>, last: int)
    ensures CommitSchema(prev, t) == WithPartitions(columns, t.partitions, 0, ids, last)
    ensures ParseFields(columns, true).Some? && AllCameBack(t.fields, columns, ParseFields(columns, true).value)
  {
    var next := Max(1, LastOf(prev) + 1);
    ids := IdsOf(prev);
    var r := ConvertFields(t.fields, "", ids, next);
    columns, last := r.0, r.1 - 1;
    SchemaRoundTrip(t.fields, ids, next);
  }

  lemma {:induction false} PlacedReadsBack(t: Table, columns: seq<NestedField>, ids: map<string, int>, last: int)
    requires ParseFields(columns, true).Some? && AllCameBack(t.fields, columns, ParseFields(columns, true).value)
    requires WithPartitions(columns, t.partitions, 0, ids, last).Ok?
    ensures ReadsBack(WithPartitions(columns, t.partitions, 0, ids, last).value, t, columns)
  {
    PartitionsBind(columns, t.partitions, 0, ids, last);
    SyntheticColumns(columns, t.partitions, 0, ids, last);
  }

  ghost predicate ReadsBack(w: Written, t: Table, columns: seq<NestedField>)
  {
    && Binds(w, columns, t.partitions, 0)
    && ParseFields(columns, true).Some? && AllCameBack(t.fields, columns, ParseFields(columns, true).value)
    && forall k :: |columns| <= k < |w.fields| ==> AddedFor(w.fields[k], t.partitions)
  }

  lemma {:induction false} FirstColumns(w: Written, t: Table, columns: seq<NestedField>)
    requires ReadsBack(w, t, columns)
    ensures |t.fields| <= |w.fields| && ReadsBack(w, t, w.fields[..|t.fields|])
  {
    assert w.fields[..|t.fields|] == columns;
  }
}
