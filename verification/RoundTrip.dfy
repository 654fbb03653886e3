/** Exporting a set of files and importing the package on the far side recreates them. */
module RoundTrip {
  import opened Text
  import opened SafePaths
  import opened ExportPacking
  import opened Transfer
  import opened ImportPackage
  import StoreTables
  import Sums

  /** The files by their place under the data directory. */
  function Restored(files: seq<FileEntry>, disk: map<string, Bytes>): map<string, Bytes>
    requires AllOnDisk(files, disk)
  {
    map f | f in files :: TarPath(f) := disk[TarPath(f)]
  }

  function BytesOf(files: seq<FileEntry>, disk: map<string, Bytes>): nat
    requires AllOnDisk(files, disk)
  {
    if files == [] then 0 else BytesOf(files[..|files| - 1], disk) + |disk[TarPath(files[|files| - 1])]|
  }

  /** x with some files extracted on top. */
  function With(x: Extracted, files: seq<FileEntry>, disk: map<string, Bytes>): Extracted
    requires AllOnDisk(files, disk)
    ensures With(x, files, disk).ok
  {
    Extracted(x.data + Restored(files, disk), x.count + |files|, x.size + BytesOf(files, disk), true)
  }

  function Empty(): Extracted { Extracted(map[], 0, 0, true) }

  /** Every name written into an archive is one the importer accepts, as it stands. */
  ghost predicate CleanFiles(files: seq<FileEntry>) {
    forall f | f in files :: CleanRelativePath(TarPath(f)) == Success(TarPath(f))
  }

  /** A provider whose name is a single path name, and an accepted path under it, always make an accepted entry. */
  lemma ProviderPathsClean(f: FileEntry)
    requires Name(f.provider) && CleanRelativePath(f.relPath).Success?
    ensures CleanRelativePath(TarPath(f)) == Success(TarPath(f))
    ensures TarPath(f) == JoinSegments([f.provider] + RelSegments(f.relPath))
  {
    var joined := f.provider + "/" + f.relPath;
    ProviderAccepted(f.provider);
    PairAccepted(f.provider, f.relPath);
    CleanRelativePathMeaning(joined);
    hide Walk, Parts, Render, EscapesUpward;
    assert f.relPath != "";
    assert TarPath(f) == Clean(joined) == CleanRelativePath(joined).value;
    CleanRelativePathIdempotent(joined);
  }

  lemma ProviderAccepted(p: string)
    requires Name(p)
    ensures CleanRelativePath(p).Success? && RelSegments(p) == [p]
  {
    assert JoinSegments([p]) == p;
    JoinedNames([p]);
  }

  // ---------------------------------------------------------------- extraction undoes packing

  lemma RestoredPush(files: seq<FileEntry>, f: FileEntry, disk: map<string, Bytes>)
    requires AllOnDisk(files + [f], disk)
    ensures Restored(files + [f], disk) == Restored(files, disk)[TarPath(f) := disk[TarPath(f)]]
  {
    hide TarPath;
    forall x | x in files + [f] ensures x in files || x == f {}
    forall x | x in files || x == f ensures x in files + [f] {}
  }

  lemma RestoredConcat(a: seq<FileEntry>, b: seq<FileEntry>, disk: map<string, Bytes>)
    requires AllOnDisk(a + b, disk)
    ensures AllOnDisk(a, disk) && AllOnDisk(b, disk)
    ensures Restored(a + b, disk) == Restored(a, disk) + Restored(b, disk)
  {
    hide TarPath;
    forall x ensures x in a + b <==> x in a || x in b {}
  }

  lemma {:induction false} BytesOfConcat(a: seq<FileEntry>, b: seq<FileEntry>, disk: map<string, Bytes>)
    requires AllOnDisk(a + b, disk)
    ensures AllOnDisk(a, disk) && AllOnDisk(b, disk)
    ensures BytesOf(a + b, disk) == BytesOf(a, disk) + BytesOf(b, disk)
  {
    hide TarPath;
    forall x ensures x in a + b <==> x in a || x in b {}
    if b == [] {
      assert a + b == a;
    } else {
      assert (a + b)[..|a + b| - 1] == a + b[..|b| - 1];
      BytesOfConcat(a, b[..|b| - 1], disk);
    }
  }

  lemma WithConcat(x: Extracted, a: seq<FileEntry>, b: seq<FileEntry>, disk: map<string, Bytes>)
    requires AllOnDisk(a + b, disk)
    ensures AllOnDisk(a, disk) && AllOnDisk(b, disk)
    ensures With(x, a + b, disk) == With(With(x, a, disk), b, disk)
  {
    hide AllOnDisk, Restored, BytesOf;
    RestoredConcat(a, b, disk);
    BytesOfConcat(a, b, disk);
    assert x.data + (Restored(a, disk) + Restored(b, disk)) == (x.data + Restored(a, disk)) + Restored(b, disk);
  }

  lemma {:induction false} WithEmpty(files: seq<FileEntry>, disk: map<string, Bytes>)
    requires AllOnDisk(files, disk)
    ensures With(Empty(), files, disk) == Extracted(Restored(files, disk), |files|, BytesOf(files, disk), true)
  {
    hide AllOnDisk, Restored, BytesOf;
    assert map[] + Restored(files, disk) == Restored(files, disk);
  }

  lemma EntryRestored(y: Extracted, f: FileEntry, content: Bytes)
    requires y.ok && CleanRelativePath(TarPath(f)) == Success(TarPath(f))
    ensures ExtractEntry(y, Entry(TarPath(f), Regular, content))
         == Extracted(y.data[TarPath(f) := content], y.count + 1, y.size + |content|, true)
  {
    hide TarPath, CleanRelativePath;
  }

  lemma EntriesPush(init: seq<FileEntry>, f: FileEntry, disk: map<string, Bytes>)
    requires AllOnDisk(init + [f], disk)
    ensures AllOnDisk(init, disk) && TarPath(f) in disk
    ensures Entries(init + [f], disk) == Entries(init, disk) + [Entry(TarPath(f), Regular, disk[TarPath(f)])]
  {
    hide TarPath;
    assert (init + [f])[|init|] == f;
    forall x | x in init ensures x in init + [f] {}
  }

  lemma MapPush(d: map<string, Bytes>, e: map<string, Bytes>, key: string, value: Bytes)
    ensures d + e[key := value] == (d + e)[key := value]
  {}

  lemma {:induction false} ExtractPush(x: Extracted, entries: seq<Entry>, e: Entry)
    ensures ExtractEntries(x, entries + [e]) == ExtractEntry(ExtractEntries(x, entries), e)
  {
    hide ExtractEntry;
    assert (entries + [e])[..|entries|] == entries;
  }

  lemma {:induction false} BytesOfPush(init: seq<FileEntry>, f: FileEntry, disk: map<string, Bytes>)
    requires AllOnDisk(init + [f], disk)
    ensures AllOnDisk(init, disk) && TarPath(f) in disk
    ensures BytesOf(init + [f], disk) == BytesOf(init, disk) + |disk[TarPath(f)]|
  {
    hide TarPath;
    assert (init + [f])[|init|] == f && (init + [f])[..|init|] == init;
    forall x | x in init ensures x in init + [f] {}
  }

  /** Extracting one more file. */
  lemma {:induction false} OneMoreRestored(x: Extracted, init: seq<FileEntry>, f: FileEntry, disk: map<string, Bytes>)
    requires CleanRelativePath(TarPath(f)) == Success(TarPath(f))
    requires AllOnDisk(init + [f], disk)
    ensures AllOnDisk(init, disk)
    ensures ExtractEntries(x, Entries(init, disk)) == With(x, init, disk)
        ==> ExtractEntries(x, Entries(init + [f], disk)) == With(x, init + [f], disk)
  {
    hide TarPath, CleanRelativePath, ExtractEntry, ExtractEntries, Restored, BytesOf, Entries, AllOnDisk;
    EntriesPush(init, f, disk);
    RestoredPush(init, f, disk);
    BytesOfPush(init, f, disk);
    var y, content := ExtractEntries(x, Entries(init, disk)), disk[TarPath(f)];
    ExtractPush(x, Entries(init, disk), Entry(TarPath(f), Regular, content));
    MapPush(x.data, Restored(init, disk), TarPath(f), content);
    if y.ok {
      EntryRestored(y, f, content);
    }
  }

  lemma {:induction false} NoneRestored(x: Extracted, disk: map<string, Bytes>)
    requires x.ok
    ensures ExtractEntries(x, Entries([], disk)) == With(x, [], disk)
  {
    assert x.data + map[] == x.data;
  }

  /** Extracting the entries of some files adds exactly those files. */
  lemma {:induction false} EntriesRestored(x: Extracted, files: seq<FileEntry>, disk: map<string, Bytes>)
    requires x.ok && CleanFiles(files) && AllOnDisk(files, disk)
    ensures ExtractEntries(x, Entries(files, disk)) == With(x, files, disk)
  {
    if files == [] {
      NoneRestored(x, disk);
    } else {
      var n := |files| - 1;
      assert files == files[..n] + [files[n]] && files[n] in files;
      hide TarPath, CleanRelativePath, ExtractEntries, Entries, With;
      EntriesRestored(x, files[..n], disk);
      OneMoreRestored(x, files[..n], files[n], disk);
    }
  }

  /** The first k archives of an export restore the files of the first k archives. */
  lemma {:induction false} ArchivesRestored(codec: Codec, disk: map<string, Bytes>, files: seq<FileEntry>,
                                            splitSize: nat, archives: seq<Archive>, pkg: Package, k: nat)
    requires IsExport(codec, disk, files, splitSize, archives, pkg) && Invertible(codec) && CleanFiles(files)
    requires k <= |archives|
    ensures AllOnDisk(Concat(archives[..k]), disk)
    ensures (forall a | a in pkg.manifest.value.archives :: a.name in pkg.files)
         && |pkg.manifest.value.archives| == |archives|
    ensures ExtractAll(codec, Empty(), pkg.manifest.value.archives[..k], pkg.files, {})
         == With(Empty(), Concat(archives[..k]), disk)
  {
    ExportPresent(codec, disk, files, splitSize, archives, pkg);
    FilesOnDisk(codec, disk, files, splitSize, archives, pkg, k);
    SameLength(codec, disk, files, splitSize, archives, pkg);
    if k == 0 {
      NoneExtracted(codec, archives, pkg, disk);
    } else {
      hide *;
      PresentNames(pkg);
      ArchivesRestored(codec, disk, files, splitSize, archives, pkg, k - 1);
      ArchiveRestored(codec, disk, files, splitSize, archives, pkg, k - 1, With(Empty(), Concat(archives[..k - 1]), disk));
      ConcatUpTo(archives, k);
      WithConcat(Empty(), Concat(archives[..k - 1]), archives[k - 1].files, disk);
      ExtractUpTo(codec, Empty(), pkg.manifest.value.archives, pkg.files, k);
    }
  }

  lemma {:induction false} NoneExtracted(codec: Codec, archives: seq<Archive>, pkg: Package, disk: map<string, Bytes>)
    requires Present(pkg)
    ensures AllOnDisk(Concat(archives[..0]), disk)
    ensures ExtractAll(codec, Empty(), pkg.manifest.value.archives[..0], pkg.files, {})
         == With(Empty(), Concat(archives[..0]), disk)
  {
    var manifests := pkg.manifest.value.archives;
    hide *;
    PresentNames(pkg);
    NoFiles(archives[..0], disk);
    NothingLeft(codec, Empty(), manifests[..0], pkg.files);
  }

  lemma {:induction false} NoFiles(archives: seq<Archive>, disk: map<string, Bytes>)
    requires archives == []
    ensures AllOnDisk(Concat(archives), disk) && With(Empty(), Concat(archives), disk) == Empty()
  {
    hide TarPath, Restored, BytesOf, With;
    var files := Concat(archives);
    WithEmpty(files, disk);
    RestoredNothing(files, disk);
  }

  lemma {:induction false} RestoredNothing(files: seq<FileEntry>, disk: map<string, Bytes>)
    requires files == []
    ensures AllOnDisk(files, disk) && Restored(files, disk) == map[] && BytesOf(files, disk) == 0
  {
    hide TarPath;
  }

  lemma {:induction false} NothingLeft(codec: Codec, x: Extracted, archives: seq<ManifestArchive>,
                                       files: map<string, Bytes>)
    requires archives == []
    ensures ExtractAll(codec, x, archives, files, {}) == x
  {}

  lemma SameLength(codec: Codec, disk: map<string, Bytes>, files: seq<FileEntry>, splitSize: nat,
                   archives: seq<Archive>, pkg: Package)
    requires IsExport(codec, disk, files, splitSize, archives, pkg)
    ensures |pkg.manifest.value.archives| == |archives|
  {
    hide IsPacking, WrittenAt;
  }

  lemma PresentNames(pkg: Package)
    requires Present(pkg)
    ensures pkg.manifest.Some? && forall a | a in pkg.manifest.value.archives :: a.name in pkg.files
  {}

  lemma ConcatUpTo(archives: seq<Archive>, k: nat)
    requires 0 < k <= |archives|
    ensures Concat(archives[..k]) == Concat(archives[..k - 1]) + archives[k - 1].files
  {
    assert archives[..k] == archives[..k - 1] + [archives[k - 1]];
    ConcatPush(archives[..k - 1], archives[k - 1]);
  }

  lemma {:induction false} ExtractUpTo(codec: Codec, x: Extracted, archives: seq<ManifestArchive>,
                                       files: map<string, Bytes>, k: nat)
    requires 0 < k <= |archives| && forall a | a in archives :: a.name in files
    ensures ExtractAll(codec, x, archives[..k - 1], files, {}).ok ==>
              ExtractAll(codec, x, archives[..k], files, {})
              == ExtractArchive(codec, ExtractAll(codec, x, archives[..k - 1], files, {}), files[archives[k - 1].name])
  {
    hide ExtractArchive;
    assert archives[..k][..k - 1] == archives[..k - 1];
  }

  lemma FilesOnDisk(codec: Codec, disk: map<string, Bytes>, files: seq<FileEntry>, splitSize: nat,
                    archives: seq<Archive>, pkg: Package, k: nat)
    requires IsExport(codec, disk, files, splitSize, archives, pkg) && k <= |archives|
    ensures AllOnDisk(Concat(archives[..k]), disk)
  {
    hide TarPath, ArchiveName;
    forall f | f in Concat(archives[..k]) ensures TarPath(f) in disk {
      var j := InSomeArchive(archives[..k], f);
      ConcatMember(archives, j, f);
      assert WrittenAt(codec, disk, archives[j], pkg.manifest.value.archives[j], pkg.files);
    }
  }

  lemma {:induction false} InSomeArchive(archives: seq<Archive>, f: FileEntry) returns (j: nat)
    requires f in Concat(archives)
    ensures j < |archives| && f in archives[j].files
  {
    var n := |archives| - 1;
    if f in archives[n].files {
      j := n;
    } else {
      j := InSomeArchive(archives[..n], f);
    }
  }

  lemma ArchiveRestored(codec: Codec, disk: map<string, Bytes>, files: seq<FileEntry>, splitSize: nat,
                        archives: seq<Archive>, pkg: Package, k: nat, x: Extracted)
    requires IsExport(codec, disk, files, splitSize, archives, pkg) && Invertible(codec) && CleanFiles(files)
    requires k < |archives| && k < |pkg.manifest.value.archives| && x.ok
    ensures AllOnDisk(archives[k].files, disk)
         && pkg.manifest.value.archives[k].name in pkg.files
    ensures ExtractArchive(codec, x, pkg.files[pkg.manifest.value.archives[k].name])
         == With(x, archives[k].files, disk)
  {
    hide TarPath, ArchiveName, CleanRelativePath;
    var a, m := archives[k], pkg.manifest.value.archives[k];
    assert WrittenAt(codec, disk, a, m, pkg.files);
    InPacking(files, splitSize, archives, k);
    assert codec.decode(pkg.files[m.name]) == (Entries(a.files, disk), Ended);
    EntriesRestored(x, a.files, disk);
  }

  /** An export passes its own validation. */
  lemma ExportPresent(codec: Codec, disk: map<string, Bytes>, files: seq<FileEntry>, splitSize: nat,
                      archives: seq<Archive>, pkg: Package)
    requires IsExport(codec, disk, files, splitSize, archives, pkg)
    ensures Present(pkg) && forall a | a in pkg.manifest.value.archives :: Matches(codec, pkg, a)
  {
    hide TarPath, ArchiveName, IsPacking;
    forall a | a in pkg.manifest.value.archives ensures a.name in pkg.files && Matches(codec, pkg, a) {
      var k :| 0 <= k < |pkg.manifest.value.archives| && pkg.manifest.value.archives[k] == a;
      assert WrittenAt(codec, disk, archives[k], a, pkg.files);
    }
  }

  /** A whole export restores exactly the exported files, and the counts agree. */
  lemma {:induction false} ExportRestored(codec: Codec, disk: map<string, Bytes>, files: seq<FileEntry>, splitSize: nat,
                                          archives: seq<Archive>, pkg: Package)
    requires IsExport(codec, disk, files, splitSize, archives, pkg) && Invertible(codec) && CleanFiles(files)
    ensures Present(pkg) && AllOnDisk(files, disk)
    ensures ExtractAll(codec, Empty(), pkg.manifest.value.archives, pkg.files, {})
         == Extracted(Restored(files, disk), |files|, BytesOf(files, disk), true)
  {
    hide *;
    ExportParts(codec, disk, files, splitSize, archives, pkg);
    ExportPresent(codec, disk, files, splitSize, archives, pkg);
    ArchivesRestored(codec, disk, files, splitSize, archives, pkg, |archives|);
    assert archives[..|archives|] == archives;
    WithEmpty(files, disk);
    assert pkg.manifest.value.archives[..|pkg.manifest.value.archives|] == pkg.manifest.value.archives;
  }

  // ---------------------------------------------------------------- the records

  ghost predicate DistinctKeys(files: seq<FileEntry>) {
    forall i, j | 0 <= i < j < |files| ::
      (files[i].provider, files[i].relPath) != (files[j].provider, files[j].relPath)
  }

  function Key(f: FileEntry): (string, string) { (f.provider, f.relPath) }

  function RecordFor(f: FileEntry): StoreTables.FileRecord { StoreTables.FileRecord(f.size, f.sha256) }

  /** The records after some files have been recorded on top of others. */
  ghost predicate Recorded(before: Records, files: seq<FileEntry>, after: Records) {
    && (forall f | f in files :: Key(f) in after && after[Key(f)] == RecordFor(f))
    && (forall key :: key in after <==> key in before || HasKey(files, key))
    && (forall key | key in before && !HasKey(files, key) :: key in after && after[key] == before[key])
  }

  ghost predicate HasKey(files: seq<FileEntry>, key: (string, string)) { exists f :: f in files && key == Key(f) }

  lemma {:induction false} UpsertOne(records: Records, data: map<string, Bytes>, files: seq<FileEntry>, f: FileEntry)
    requires CleanRelativePath(TarPath(f)) == Success(TarPath(f)) && TarPath(f) in data
    ensures UpsertInventory(records, data, files + [f])
         == UpsertInventory(records, data, files)[Key(f) := RecordFor(f)]
  {
    assert (files + [f])[..|files|] == files;
    hide TarPath, CleanRelativePath;
  }

  lemma HasKeyPush(files: seq<FileEntry>, f: FileEntry, key: (string, string))
    ensures HasKey(files + [f], key) <==> HasKey(files, key) || key == Key(f)
  {
    assert f in files + [f] && forall g | g in files :: g in files + [f];
  }

  lemma RecordedPush(before: Records, files: seq<FileEntry>, middle: Records, f: FileEntry)
    requires Recorded(before, files, middle) && !HasKey(files, Key(f))
    ensures Recorded(before, files + [f], middle[Key(f) := RecordFor(f)])
  {
    hide Key, RecordFor;
    forall key ensures HasKey(files + [f], key) <==> HasKey(files, key) || key == Key(f) { HasKeyPush(files, f, key); }
    forall g | g in files ensures Key(g) != Key(f) { assert HasKey(files, Key(g)); }
    hide HasKey;
  }

  /** When every inventory file is on disk, upserting the inventory records each of them and touches nothing else. */
  lemma {:induction false} InventoryRecorded(records: Records, data: map<string, Bytes>, files: seq<FileEntry>)
    requires DistinctKeys(files) && CleanFiles(files) && AllOnDisk(files, data)
    ensures Recorded(records, files, UpsertInventory(records, data, files))
  {
    hide *;
    if files == [] {
      NothingRecorded(records, data, files);
    } else {
      var init, f := files[..|files| - 1], files[|files| - 1];
      LastIsNew(files, data);
      InventoryRecorded(records, data, init);
      UpsertOne(records, data, init, f);
      RecordedPush(records, init, UpsertInventory(records, data, init), f);
      assert files == init + [f];
    }
  }

  lemma {:induction false} NothingRecorded(records: Records, data: map<string, Bytes>, files: seq<FileEntry>)
    requires files == []
    ensures Recorded(records, files, UpsertInventory(records, data, files))
  {}

  lemma LastIsNew(files: seq<FileEntry>, data: map<string, Bytes>)
    requires files != [] && DistinctKeys(files) && CleanFiles(files) && AllOnDisk(files, data)
    ensures var n := |files| - 1;
            && !HasKey(files[..n], Key(files[n]))
            && CleanRelativePath(TarPath(files[n])) == Success(TarPath(files[n])) && TarPath(files[n]) in data
            && DistinctKeys(files[..n]) && CleanFiles(files[..n]) && AllOnDisk(files[..n], data)
  {
    hide TarPath, CleanRelativePath;
    var n := |files| - 1;
    assert files[n] in files && forall f | f in files[..n] :: f in files;
    forall f | f in files[..n] ensures Key(f) != Key(files[n]) {
      var i :| 0 <= i < n && files[i] == f;
    }
  }

  // ---------------------------------------------------------------- the round trip

  /** The records are those of some files and no others. */
  ghost predicate RecordsAre(files: seq<FileEntry>, records: Records) { Recorded(map[], files, records) }

  /** What a faithful import of some files leaves. */
  ghost predicate Recreated(files: seq<FileEntry>, disk: map<string, Bytes>, after: World, r: Outcome)
    requires AllOnDisk(files, disk)
  {
    && r.Imported?
    && after.data == Restored(files, disk)
    && r.report.extracted == |files| && r.report.totalSize == BytesOf(files, disk)
    && RecordsAre(files, after.records)
  }

  /**
   * A plain import of an export into an empty data directory: it completes, the directory holds exactly the exported
   * files with their bytes, every file is counted once, and the records are those of the manifest inventory.
   */
  lemma ExportImported(codec: Codec, disk: map<string, Bytes>, files: seq<FileEntry>, splitSize: nat,
                       archives: seq<Archive>, pkg: Package, w: World)
    requires IsExport(codec, disk, files, splitSize, archives, pkg)
    requires Invertible(codec) && CleanFiles(files) && DistinctKeys(files)
    requires w.data == map[] && w.records == map[] && Linked(w.transfers, w.rows)
    ensures AllOnDisk(files, disk)
    ensures var (after, r) := ImportRun(codec, w, Run(pkg, Options(false, false, false), Never()));
            Recreated(files, disk, after, r)
  {
    var run := Run(pkg, Options(false, false, false), Never());
    ExportRestored(codec, disk, files, splitSize, archives, pkg);
    ExportPresent(codec, disk, files, splitSize, archives, pkg);
    ExportParts(codec, disk, files, splitSize, archives, pkg);
    MatchingAccepted(codec, w.transfers, w.rows, pkg);
    RestoredKeys(files, disk);
    InventoryRecorded(map[], Restored(files, disk), files);
    NothingSkipped(codec, w, run);
    hide ImportRun, IsExport, CleanFiles, DistinctKeys, AllOnDisk, Linked, Matches, AllAccepted, ExtractAll, Restored;
    hide BytesOf, UpsertInventory, Recorded, Checked, Never, Whole;
    assert pkg.manifest.value.archives[..|pkg.manifest.value.archives|] == pkg.manifest.value.archives;
    RunCompletes(codec, w, run);
    CompletedEither(codec, w, run);
    WholeWhenOk(codec, Extracted(w.data, 0, 0, true), pkg.manifest.value.archives, pkg.files, Checked(codec, w, run).skips);
  }

  lemma NothingSkipped(codec: Codec, w: World, run: Run)
    requires Present(run.pkg) && Linked(w.transfers, w.rows) && !run.opts.skipValidated
    ensures Checked(codec, w, run).skips == {}
  {
    hide Checked;
    forall name ensures name !in Checked(codec, w, run).skips { RunSkips(codec, w, run, name); }
  }

  method ImportExport(codec: Codec, disk: map<string, Bytes>, ghost files: seq<FileEntry>, ghost splitSize: nat,
                      ghost archives: seq<Archive>, pkg: Package, importer: Importer) returns (r: Outcome)
    requires IsExport(codec, disk, files, splitSize, archives, pkg)
    requires Invertible(codec) && CleanFiles(files) && DistinctKeys(files) && importer.codec == codec
    requires importer.data == map[] && importer.records == map[] && Linked(importer.transfers, importer.rows)
    modifies importer
    ensures AllOnDisk(files, disk) && Recreated(files, disk, importer.State(), r)
  {
    ExportImported(codec, disk, files, splitSize, archives, pkg, importer.State());
    hide ImportRun, Recreated, IsExport, CleanFiles, DistinctKeys, AllOnDisk;
    r := importer.Import(pkg, Options(false, false, false), Never());
  }

  /**
   * The totals of a manifest: the provider counts add up to the inventory, the provider sizes and the inventory's sizes
   * to the total size, and the archives list exactly the inventory.
   */
  ghost predicate TotalsAgree(m: Manifest) {
    && Sums.Total(m.providers, FileCount) == |m.inventory| as real
    && Sums.Total(m.providers, TotalSize) == m.totalSize as real
    && Total(m.inventory) == m.totalSize
    && ListedFiles(m.archives) == TarPaths(m.inventory)
  }

  /** Files with distinct keys come from providers that are not collected twice. */
  lemma {:induction false} DistinctKeysOnce(listing: map<string, seq<FileEntry>>, disk: map<string, Bytes>,
                                            providers: seq<string>)
    requires DistinctKeys(Collected(listing, disk, providers))
    ensures NothingTwice(listing, disk, providers)
  {
    if providers != [] {
      var n := |providers| - 1;
      var before := Collected(listing, disk, providers[..n]);
      CollectedPush(listing, disk, providers);
      TwicePush(listing, disk, providers);
      if LastRepeats(listing, providers) && OnDisk(listing[providers[n]], disk) != [] {
        var f := OnDisk(listing[providers[n]], disk)[0];
        AlreadyCollected(listing, disk, providers[..n], providers[n], f);
        KeyTwice(before, OnDisk(listing[providers[n]], disk), f);
      }
      KeysPrefix(before, if providers[n] in listing then OnDisk(listing[providers[n]], disk) else []);
      hide OnDisk, NothingTwice, DistinctKeys, Collected;
      DistinctKeysOnce(listing, disk, providers[..n]);
    }
  }

  lemma {:induction false} CollectedPush(listing: map<string, seq<FileEntry>>, disk: map<string, Bytes>,
                                         providers: seq<string>)
    requires providers != []
    ensures Collected(listing, disk, providers)
         == Collected(listing, disk, providers[..|providers| - 1])
            + if providers[|providers| - 1] in listing then OnDisk(listing[providers[|providers| - 1]], disk) else []
  {
    hide OnDisk;
  }

  lemma KeysPrefix(a: seq<FileEntry>, b: seq<FileEntry>)
    requires DistinctKeys(a + b)
    ensures DistinctKeys(a)
  {
    forall i | 0 <= i < |a| ensures (a + b)[i] == a[i] {}
  }

  lemma KeyTwice(a: seq<FileEntry>, b: seq<FileEntry>, f: FileEntry)
    requires f in a && f in b
    ensures !DistinctKeys(a + b)
  {
    var i :| 0 <= i < |a| && a[i] == f;
    var j :| 0 <= j < |b| && b[j] == f;
    assert (a + b)[i] == (a + b)[|a| + j] && i < |a| + j;
  }

  lemma {:induction false} AlreadyCollected(listing: map<string, seq<FileEntry>>, disk: map<string, Bytes>,
                                            providers: seq<string>, p: string, f: FileEntry)
    requires p in providers && p in listing && f in OnDisk(listing[p], disk)
    ensures f in Collected(listing, disk, providers)
  {
    hide OnDisk;
    var n := |providers| - 1;
    if providers[n] != p { AlreadyCollected(listing, disk, providers[..n], p, f); }
  }

  lemma {:induction false} ExportedTotals(codec: Codec, listing: map<string, seq<FileEntry>>, disk: map<string, Bytes>,
                                          providers: seq<string>, splitSize: nat, archives: seq<Archive>, pkg: Package)
    requires IsExport(codec, disk, Collected(listing, disk, providers), splitSize, archives, pkg)
    requires pkg.manifest.value.providers == Summary(listing, disk, providers)
    requires DistinctKeys(Collected(listing, disk, providers))
    ensures TotalsAgree(pkg.manifest.value)
  {
    var files := Collected(listing, disk, providers);
    DistinctKeysOnce(listing, disk, providers);
    SummaryAddsUp(listing, disk, providers);
    OnceHasNoBytesTwice(listing, disk, providers);
    ArchivesListInventory(codec, disk, files, splitSize, archives, pkg);
    hide IsPacking, WrittenAt, Summary, Collected, DistinctKeys, NothingTwice, NoBytesTwice, TarPaths, ListedFiles;
  }

  lemma OnceHasNoBytesTwice(listing: map<string, seq<FileEntry>>, disk: map<string, Bytes>, providers: seq<string>)
    requires NothingTwice(listing, disk, providers)
    ensures NoBytesTwice(listing, disk, providers)
  {
    hide OnDisk;
  }

  /** Every file has the size the store recorded for it. */
  ghost predicate SizesRight(files: seq<FileEntry>, disk: map<string, Bytes>)
    requires AllOnDisk(files, disk)
  {
    forall f | f in files :: |disk[TarPath(f)]| == f.size
  }

  lemma {:induction false} RightBytes(files: seq<FileEntry>, disk: map<string, Bytes>)
    requires AllOnDisk(files, disk) && SizesRight(files, disk)
    ensures BytesOf(files, disk) == Total(files)
  {
    hide TarPath;
    if files != [] {
      var n := |files| - 1;
      assert files[n] in files && forall f | f in files[..n] :: f in files;
      RightBytes(files[..n], disk);
    }
  }

  lemma RightTotal(files: seq<FileEntry>, disk: map<string, Bytes>, after: World, r: Outcome, m: Manifest)
    requires AllOnDisk(files, disk) && Recreated(files, disk, after, r) && SizesRight(files, disk)
    requires TotalsAgree(m) && m.inventory == files
    ensures r.report.totalSize == m.totalSize
  {
    RightBytes(files, disk);
  }

  /** Export followed by import, for provider names that are single names and accepted paths under them. */
  method ExportThenImport(codec: Codec, listing: map<string, seq<FileEntry>>, disk: map<string, Bytes>,
                          providers: seq<string>, dir: string, splitSize: int, importer: Importer)
    returns (r: Outcome, exported: Package, ghost archives: seq<Archive>)
    requires Invertible(codec) && importer.codec == codec
    requires importer.data == map[] && importer.records == map[] && Linked(importer.transfers, importer.rows)
    requires splitSize > 0 && Collected(listing, disk, providers) != []
    requires CleanFiles(Collected(listing, disk, providers)) && DistinctKeys(Collected(listing, disk, providers))
    modifies importer
    ensures AllOnDisk(Collected(listing, disk, providers), disk)
    ensures IsExport(codec, disk, Collected(listing, disk, providers), splitSize, archives, exported)
    ensures Recreated(Collected(listing, disk, providers), disk, importer.State(), r)
    ensures exported.manifest.Some? && TotalsAgree(exported.manifest.value)
    ensures exported.manifest.value.providers == Summary(listing, disk, providers)
    ensures SizesRight(Collected(listing, disk, providers), disk) ==>
              r.report.totalSize == exported.manifest.value.totalSize
  {
    hide *;
    var result, made := Export(codec, listing, disk, providers, dir, splitSize, false);
    exported, archives := result.value, made;
    ExportParts(codec, disk, Collected(listing, disk, providers), splitSize, archives, exported);
    ExportedTotals(codec, listing, disk, providers, splitSize, archives, exported);
    r := ImportExport(codec, disk, Collected(listing, disk, providers), splitSize, archives, exported, importer);
    if SizesRight(Collected(listing, disk, providers), disk) {
      RightTotal(Collected(listing, disk, providers), disk, importer.State(), r, exported.manifest.value);
    }
  }

  lemma RestoredKeys(files: seq<FileEntry>, disk: map<string, Bytes>)
    requires AllOnDisk(files, disk)
    ensures AllOnDisk(files, Restored(files, disk))
  {
    hide TarPath;
  }

  lemma {:induction false} ExportParts(codec: Codec, disk: map<string, Bytes>, files: seq<FileEntry>, splitSize: nat,
                                       archives: seq<Archive>, pkg: Package)
    requires IsExport(codec, disk, files, splitSize, archives, pkg)
    ensures IsPacking(files, splitSize, archives) && Concat(archives) == files
    ensures pkg.manifest.Some? && pkg.manifest.value.inventory == files
    ensures |pkg.manifest.value.archives| == |archives|
  {
    hide TarPath, ArchiveName, Sound, Rolled, WrittenAt;
  }

  lemma MatchingAccepted(codec: Codec, transfers: seq<TransferRow>, rows: seq<ValidationRow>, pkg: Package)
    requires Present(pkg) && forall a | a in pkg.manifest.value.archives :: Matches(codec, pkg, a)
    ensures AllAccepted(codec, transfers, rows, pkg, Options(false, false, false))
  {}
}
