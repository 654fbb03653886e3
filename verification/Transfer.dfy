/** What crosses the air gap: archives of tar entries, and the manifest that describes them. */
module Transfer {
  import opened Text
  import opened SafePaths
  import opened ExportPacking
  import Sums

  datatype EntryKind = Directory | Regular | Other

  datatype Entry = Entry(name: string, kind: EntryKind, content: Bytes)

  /** How reading an archive ends: at its end, or with an error, perhaps within an entry of which some bytes came. */
  datatype Ending = Ended | Damaged(torn: Option<Entry>)

  /** The archive format: decoding gives the entries that could be read whole, and how it ended. */
  datatype Codec = Codec(encode: seq<Entry> -> Bytes, decode: Bytes -> (seq<Entry>, Ending), hash: Bytes -> string)

  ghost predicate Invertible(codec: Codec) {
    forall entries :: codec.decode(codec.encode(entries)) == (entries, Ended)
  }

  datatype ManifestArchive = ManifestArchive(name: string, size: nat, sha256: string, files: seq<string>)

  datatype ProviderTotals = ProviderTotals(fileCount: nat, totalSize: nat)

  datatype Manifest = Manifest(
    providers: map<string, ProviderTotals>,
    archives: seq<ManifestArchive>,
    totalArchives: nat,
    totalSize: nat,
    inventory: seq<FileEntry>)

  /** The output directory of an export, the source directory of an import; no manifest means it cannot be read. */
  datatype Package = Package(dir: string, manifest: Option<Manifest>, files: map<string, Bytes>)

  // ---------------------------------------------------------------- archive names

  function Digit(n: nat): char
    requires n < 10
  {
    ('0' as int + n) as char
  }

  function Decimal(n: nat): string {
    if n < 10 then [Digit(n)] else Decimal(n / 10) + [Digit(n % 10)]
  }

  function Value(s: string): int {
    if s == [] then 0 else 10 * Value(s[..|s| - 1]) + (s[|s| - 1] as int - '0' as int)
  }

  /** fmt.Sprintf("%03d", n) */
  function Padded(n: nat): string {
    var d := Decimal(n);
    if |d| >= 3 then d else if |d| == 2 then "0" + d else "00" + d
  }

  function ArchiveName(n: nat): string { "airgap-transfer-" + Padded(n) + ".tar.zst" }

  lemma {:induction false} ValueOfDecimal(n: nat)
    ensures Decimal(n) != [] && Value(Decimal(n)) == n
  {
    if n >= 10 {
      ValueOfDecimal(n / 10);
      assert Decimal(n)[..|Decimal(n)| - 1] == Decimal(n / 10);
    } else {
      assert Decimal(n)[..0] == [];
    }
  }

  lemma {:induction false} ValueIgnoresLeadingZero(s: string)
    ensures Value("0" + s) == Value(s)
  {
    if s != [] {
      ValueIgnoresLeadingZero(s[..|s| - 1]);
      assert ("0" + s)[..|s|] == "0" + s[..|s| - 1];
    } else {
      assert "0"[..0] == [];
    }
  }

  lemma {:induction false} DigitsOfDecimal(n: nat)
    ensures forall c | c in Decimal(n) :: '0' <= c <= '9'
    ensures |Decimal(n)| > 1 ==> Decimal(n)[0] != '0'
  {
    if n >= 10 {
      DigitsOfDecimal(n / 10);
      assert |Decimal(n / 10)| == 1 ==> n / 10 < 10;
    }
  }

  /** The number of an archive name: at least three decimal digits, zeros only to get there, and of that value. */
  lemma PaddedMeaning(n: nat)
    ensures Value(Padded(n)) == n && (forall c | c in Padded(n) :: '0' <= c <= '9')
    ensures |Padded(n)| >= 3 && (|Padded(n)| > 3 ==> Padded(n)[0] != '0')
  {
    DigitsOfDecimal(n);
    ValueOfDecimal(n);
    ValueIgnoresLeadingZero(Decimal(n));
    ValueIgnoresLeadingZero("0" + Decimal(n));
    assert "00" + Decimal(n) == "0" + ("0" + Decimal(n));
  }

  lemma ArchiveNamesDiffer(m: nat, n: nat)
    requires ArchiveName(m) == ArchiveName(n)
    ensures m == n
  {
    PaddedMeaning(m);
    PaddedMeaning(n);
    var s, t := Padded(m), Padded(n);
    var prefix := "airgap-transfer-";
    assert ArchiveName(m)[|prefix|..|ArchiveName(m)| - 8] == s;
    assert ArchiveName(n)[|prefix|..|ArchiveName(n)| - 8] == t;
  }

  // ---------------------------------------------------------------- collecting files

  /** The name of a file inside an archive, and its place under the data directory. */
  function TarPath(f: FileEntry): string { Join2(f.provider, f.relPath) }

  /** The records of one provider whose files are on disk. */
  function OnDisk(records: seq<FileEntry>, disk: map<string, Bytes>): seq<FileEntry> {
    if records == [] then []
    else
      var n := |records| - 1;
      OnDisk(records[..n], disk) + if TarPath(records[n]) in disk then [records[n]] else []
  }

  /** The files to export, provider by provider; a provider whose records cannot be listed is passed over. */
  function Collected(listing: map<string, seq<FileEntry>>, disk: map<string, Bytes>, providers: seq<string>)
    : seq<FileEntry>
  {
    if providers == [] then []
    else
      var n := |providers| - 1;
      Collected(listing, disk, providers[..n])
      + if providers[n] in listing then OnDisk(listing[providers[n]], disk) else []
  }

  /** The inner loop: one provider's files on disk and their totals. */
  method CollectProvider(records: seq<FileEntry>, disk: map<string, Bytes>)
    returns (files: seq<FileEntry>, totals: ProviderTotals)
    ensures files == OnDisk(records, disk) && totals == ProviderTotals(|files|, Total(files))
  {
    files := [];
    var count, size := 0, 0;
    for i := 0 to |records|
      invariant files == OnDisk(records[..i], disk) && count == |files| && size == Total(files)
    {
      assert records[..i + 1][..i] == records[..i];
      if TarPath(records[i]) in disk {
        TotalPush(files, records[i]);
        files := files + [records[i]];
        count, size := count + 1, size + records[i].size;
      }
    }
    assert records[..|records|] == records;
    totals := ProviderTotals(count, size);
  }

  /** The collection loop of Export; a provider named twice is collected twice and summarised once. */
  method CollectFiles(listing: map<string, seq<FileEntry>>, disk: map<string, Bytes>, providers: seq<string>)
    returns (all: seq<FileEntry>, summary: map<string, ProviderTotals>)
    ensures all == Collected(listing, disk, providers)
    ensures forall p :: p in summary <==> p in providers && p in listing
    ensures forall p | p in summary :: Summarises(summary[p], OnDisk(listing[p], disk))
  {
    hide TarPath;
    all, summary := [], map[];
    for i := 0 to |providers|
      invariant all == Collected(listing, disk, providers[..i])
      invariant forall p :: p in summary <==> p in providers[..i] && p in listing
      invariant forall p | p in summary :: Summarises(summary[p], OnDisk(listing[p], disk))
    {
      assert providers[..i + 1] == providers[..i] + [providers[i]];
      assert providers[..i + 1][..i] == providers[..i];
      if providers[i] in listing {
        var files, totals := CollectProvider(listing[providers[i]], disk);
        all := all + files;
        summary := summary[providers[i] := totals];
      }
    }
    assert providers[..|providers|] == providers;
  }

  ghost predicate Summarises(totals: ProviderTotals, files: seq<FileEntry>) {
    totals.fileCount == |files| && totals.totalSize == Total(files)
  }

  // ---------------------------------------------------------------- when the per-provider totals are right

  function Occurrences(providers: seq<string>, p: string): nat {
    if providers == [] then 0
    else Occurrences(providers[..|providers| - 1], p) + if providers[|providers| - 1] == p then 1 else 0
  }

  /** The files of one provider, in order. */
  function Of(files: seq<FileEntry>, p: string): seq<FileEntry> {
    if files == [] then []
    else
      var n := |files| - 1;
      Of(files[..n], p) + if files[n].provider == p then [files[n]] else []
  }

  lemma {:induction false} OfConcat(a: seq<FileEntry>, b: seq<FileEntry>, p: string)
    ensures Of(a + b, p) == Of(a, p) + Of(b, p)
  {
    if b == [] {
      assert a + b == a;
    } else {
      assert (a + b)[..|a + b| - 1] == a + b[..|b| - 1];
      OfConcat(a, b[..|b| - 1], p);
    }
  }

  lemma {:induction false} OfOwner(files: seq<FileEntry>, owner: string, p: string)
    requires forall f | f in files :: f.provider == owner
    ensures Of(files, p) == if owner == p then files else []
  {
    if files != [] {
      var n := |files| - 1;
      assert files == files[..n] + [files[n]] && files[n] in files;
      OfOwner(files[..n], owner, p);
    }
  }

  ghost predicate OwnRecords(listing: map<string, seq<FileEntry>>) {
    forall p, r | p in listing && r in listing[p] :: r.provider == p
  }

  /** A list repeated. */
  function Times(o: nat, files: seq<FileEntry>): seq<FileEntry> {
    if o == 0 then [] else Times(o - 1, files) + files
  }

  lemma {:induction false} TimesSize(o: nat, files: seq<FileEntry>)
    ensures |Times(o, files)| == o * |files| && Total(Times(o, files)) == o * Total(files)
  {
    if o > 0 {
      TimesSize(o - 1, files);
      TotalConcat(Times(o - 1, files), files);
      OneMoreTime(o, |files|);
      OneMoreTime(o, Total(files));
    }
  }

  lemma OneMoreTime(o: nat, x: nat)
    requires o > 0
    ensures o * x == (o - 1) * x + x
  {}

  /** Exporting collects a provider's files once for every time it is named. */
  lemma {:induction false} CollectedOf(listing: map<string, seq<FileEntry>>, disk: map<string, Bytes>,
                                       providers: seq<string>, p: string)
    requires OwnRecords(listing) && p in listing
    ensures Of(Collected(listing, disk, providers), p) == Times(Occurrences(providers, p), OnDisk(listing[p], disk))
  {
    if providers != [] {
      CollectedOf(listing, disk, providers[..|providers| - 1], p);
      CollectedOfPush(listing, disk, providers, p);
      hide Of, Collected, OnDisk, OwnRecords;
    }
  }

  lemma {:induction false} CollectedOfPush(listing: map<string, seq<FileEntry>>, disk: map<string, Bytes>,
                                           providers: seq<string>, p: string)
    requires OwnRecords(listing) && p in listing && providers != []
    ensures Of(Collected(listing, disk, providers), p)
         == Of(Collected(listing, disk, providers[..|providers| - 1]), p)
            + if providers[|providers| - 1] == p then OnDisk(listing[p], disk) else []
  {
    var q := providers[|providers| - 1];
    var before := Collected(listing, disk, providers[..|providers| - 1]);
    assert before + [] == before && Of(before, p) + [] == Of(before, p);
    if q in listing {
      OnDiskMembers(listing[q], disk);
      hide OnDisk, Of;
      OfOwner(OnDisk(listing[q], disk), q, p);
      OfConcat(before, OnDisk(listing[q], disk), p);
    }
  }

  /** A provider's summary counts and sizes its exported files exactly when it was named once or has none to add. */
  lemma {:induction false} SummaryCountsFiles(listing: map<string, seq<FileEntry>>, disk: map<string, Bytes>,
                                              providers: seq<string>, p: string)
    requires OwnRecords(listing) && p in listing && p in providers
    ensures var mine, once := Of(Collected(listing, disk, providers), p), OnDisk(listing[p], disk);
            && (|mine| == |once| <==> Occurrences(providers, p) == 1 || |once| == 0)
            && (Total(mine) == Total(once) <==> Occurrences(providers, p) == 1 || Total(once) == 0)
  {
    hide *;
    var once := OnDisk(listing[p], disk);
    CollectedOf(listing, disk, providers, p);
    TimesSize(Occurrences(providers, p), once);
    NamedAtLeastOnce(providers, p);
    TimesItself(Occurrences(providers, p), |once|);
    TimesItself(Occurrences(providers, p), Total(once));
  }

  /** A provider named twice is exported twice: its summary is short of every file it has. */
  lemma {:induction false} NamedTwice(listing: map<string, seq<FileEntry>>, disk: map<string, Bytes>, p: string)
    requires OwnRecords(listing) && p in listing
    ensures var once := OnDisk(listing[p], disk);
            && Of(Collected(listing, disk, [p, p]), p) == once + once
            && |Of(Collected(listing, disk, [p, p]), p)| - |once| == |once|
  {
    CollectedOf(listing, disk, [p, p], p);
    NamedTwiceOccurs(p);
    hide OnDisk, Collected, Occurrences, OwnRecords;
    TimesTwo(OnDisk(listing[p], disk));
  }

  lemma {:induction false} NamedTwiceOccurs(p: string)
    ensures Occurrences([p, p], p) == 2
  {
    assert [p, p][..1] == [p] && [p][..0] == [];
    assert Occurrences([p], p) == 1;
  }

  lemma {:induction false} TimesTwo(files: seq<FileEntry>)
    ensures Times(2, files) == files + files
  {
    assert Times(0, files) == [];
    assert Times(1, files) == [] + files == files;
  }

  lemma TimesItself(o: nat, count: nat)
    requires o >= 1
    ensures o * count == count <==> o == 1 || count == 0
  {
    if o >= 2 && count > 0 {
      assert o * count == count + (o - 1) * count;
      assert (o - 1) * count >= 1 * count;
    }
  }

  lemma {:induction false} NamedAtLeastOnce(providers: seq<string>, p: string)
    requires p in providers
    ensures Occurrences(providers, p) >= 1
  {
    var n := |providers| - 1;
    if providers[n] != p {
      NamedAtLeastOnce(providers[..n], p);
    }
  }

  // ---------------------------------------------------------------- when the provider totals add up

  /** The summary of an export. */
  ghost function Summary(listing: map<string, seq<FileEntry>>, disk: map<string, Bytes>, providers: seq<string>)
    : map<string, ProviderTotals>
  {
    map p | p in providers && p in listing :: ProviderTotals(|OnDisk(listing[p], disk)|, Total(OnDisk(listing[p], disk)))
  }

  ghost function FileCount(t: ProviderTotals): real { t.fileCount as real }

  ghost function TotalSize(t: ProviderTotals): real { t.totalSize as real }

  lemma {:induction false} SummaryIs(listing: map<string, seq<FileEntry>>, disk: map<string, Bytes>,
                                     providers: seq<string>, summary: map<string, ProviderTotals>)
    requires forall p :: p in summary <==> p in providers && p in listing
    requires forall p | p in summary :: Summarises(summary[p], OnDisk(listing[p], disk))
    ensures summary == Summary(listing, disk, providers)
  {
    hide OnDisk, Total;
    assert summary.Keys == Summary(listing, disk, providers).Keys;
  }

  /** The files collected for a provider that had been named before, and so are in no summary. */
  function Surplus(listing: map<string, seq<FileEntry>>, disk: map<string, Bytes>, providers: seq<string>)
    : seq<FileEntry>
  {
    if providers == [] then []
    else
      var n := |providers| - 1;
      Surplus(listing, disk, providers[..n])
      + if providers[n] in listing && providers[n] in providers[..n] then OnDisk(listing[providers[n]], disk) else []
  }

  /** What the summaries count and size, with the surplus, is the whole export. */
  lemma {:induction false} SummaryAndSurplus(listing: map<string, seq<FileEntry>>, disk: map<string, Bytes>,
                                             providers: seq<string>)
    ensures var all, summary := Collected(listing, disk, providers), Summary(listing, disk, providers);
            var surplus := Surplus(listing, disk, providers);
            && Sums.Total(summary, FileCount) + |surplus| as real == |all| as real
            && Sums.Total(summary, TotalSize) + Total(surplus) as real == Total(all) as real
  {
    if providers != [] {
      var n := |providers| - 1;
      var p := providers[n];
      SummaryAndSurplus(listing, disk, providers[..n]);
      SummaryPush(listing, disk, providers);
      if p in listing {
        var files := OnDisk(listing[p], disk);
        TotalConcat(Collected(listing, disk, providers[..n]), files);
        TotalConcat(Surplus(listing, disk, providers[..n]), files);
        if p !in providers[..n] {
          Sums.TotalPut(Summary(listing, disk, providers[..n]), FileCount, p, ProviderTotals(|files|, Total(files)));
          Sums.TotalPut(Summary(listing, disk, providers[..n]), TotalSize, p, ProviderTotals(|files|, Total(files)));
        }
      }
      hide OnDisk, Summary, Total;
      assert Collected(listing, disk, providers[..n]) + [] == Collected(listing, disk, providers[..n]);
      assert Surplus(listing, disk, providers[..n]) + [] == Surplus(listing, disk, providers[..n]);
    }
  }

  lemma {:induction false} SummaryPush(listing: map<string, seq<FileEntry>>, disk: map<string, Bytes>,
                                       providers: seq<string>)
    requires providers != []
    ensures var n := |providers| - 1;
            var p, before := providers[n], Summary(listing, disk, providers[..n]);
            && (p in before <==> p in listing && p in providers[..n])
            && Summary(listing, disk, providers)
               == if p in listing && p !in providers[..n]
                  then before[p := ProviderTotals(|OnDisk(listing[p], disk)|, Total(OnDisk(listing[p], disk)))]
                  else before
  {
    hide OnDisk, Total;
    var n := |providers| - 1;
    assert providers == providers[..n] + [providers[n]];
  }

  /** No provider with files is named twice. */
  ghost predicate NothingTwice(listing: map<string, seq<FileEntry>>, disk: map<string, Bytes>, providers: seq<string>) {
    forall i, j | 0 <= i < j < |providers| && providers[i] == providers[j] && providers[j] in listing ::
      OnDisk(listing[providers[j]], disk) == []
  }

  /** No provider with bytes is named twice. */
  ghost predicate NoBytesTwice(listing: map<string, seq<FileEntry>>, disk: map<string, Bytes>, providers: seq<string>) {
    forall i, j | 0 <= i < j < |providers| && providers[i] == providers[j] && providers[j] in listing ::
      Total(OnDisk(listing[providers[j]], disk)) == 0
  }

  lemma {:induction false} SurplusEmpty(listing: map<string, seq<FileEntry>>, disk: map<string, Bytes>,
                                        providers: seq<string>)
    ensures Surplus(listing, disk, providers) == [] <==> NothingTwice(listing, disk, providers)
    ensures Total(Surplus(listing, disk, providers)) == 0 <==> NoBytesTwice(listing, disk, providers)
  {
    if providers != [] {
      var n := |providers| - 1;
      SurplusEmpty(listing, disk, providers[..n]);
      TwicePush(listing, disk, providers);
      if providers[n] in listing {
        TotalConcat(Surplus(listing, disk, providers[..n]), OnDisk(listing[providers[n]], disk));
      }
      assert Surplus(listing, disk, providers[..n]) + [] == Surplus(listing, disk, providers[..n]);
      hide OnDisk, NothingTwice, NoBytesTwice, Total;
    }
  }

  /** The provider named last, when it has files and was named before. */
  ghost predicate LastRepeats(listing: map<string, seq<FileEntry>>, providers: seq<string>)
    requires providers != []
  {
    providers[|providers| - 1] in listing && providers[|providers| - 1] in providers[..|providers| - 1]
  }

  lemma {:induction false} TwicePush(listing: map<string, seq<FileEntry>>, disk: map<string, Bytes>,
                                     providers: seq<string>)
    requires providers != []
    ensures NothingTwice(listing, disk, providers)
       <==> && NothingTwice(listing, disk, providers[..|providers| - 1])
            && (LastRepeats(listing, providers) ==> OnDisk(listing[providers[|providers| - 1]], disk) == [])
    ensures NoBytesTwice(listing, disk, providers)
       <==> && NoBytesTwice(listing, disk, providers[..|providers| - 1])
            && (LastRepeats(listing, providers) ==> Total(OnDisk(listing[providers[|providers| - 1]], disk)) == 0)
  {
    hide OnDisk, Total;
    var n := |providers| - 1;
    if LastRepeats(listing, providers) {
      var i :| 0 <= i < n && providers[i] == providers[n];
    }
    forall i, j | 0 <= i < j < n && providers[i] == providers[j] && providers[j] in listing
      ensures NothingTwice(listing, disk, providers) ==> OnDisk(listing[providers[j]], disk) == []
      ensures NoBytesTwice(listing, disk, providers) ==> Total(OnDisk(listing[providers[j]], disk)) == 0
    {}
  }

  /**
   * The provider counts add up to the number of exported files exactly when no provider with files is named twice, and
   * the provider sizes to the exported size exactly when no provider with bytes is.
   */
  lemma {:induction false} SummaryAddsUp(listing: map<string, seq<FileEntry>>, disk: map<string, Bytes>,
                                         providers: seq<string>)
    ensures var all, summary := Collected(listing, disk, providers), Summary(listing, disk, providers);
            && (Sums.Total(summary, FileCount) == |all| as real <==> NothingTwice(listing, disk, providers))
            && (Sums.Total(summary, TotalSize) == Total(all) as real <==> NoBytesTwice(listing, disk, providers))
  {
    SummaryAndSurplus(listing, disk, providers);
    SurplusEmpty(listing, disk, providers);
    hide Summary, NothingTwice, NoBytesTwice, Collected, Surplus, Total;
    assert Surplus(listing, disk, providers) == [] <==> |Surplus(listing, disk, providers)| == 0;
  }

  /** The file lists of a manifest's archives, one after the other. */
  function ListedFiles(archives: seq<ManifestArchive>): seq<string> {
    if archives == [] then [] else ListedFiles(archives[..|archives| - 1]) + archives[|archives| - 1].files
  }

  // ---------------------------------------------------------------- the export

  predicate AllOnDisk(files: seq<FileEntry>, disk: map<string, Bytes>) {
    forall f | f in files :: TarPath(f) in disk
  }

  function Entries(files: seq<FileEntry>, disk: map<string, Bytes>): (entries: seq<Entry>)
    requires AllOnDisk(files, disk)
    ensures |entries| == |files|
    ensures forall k | 0 <= k < |files| :: entries[k] == Entry(TarPath(files[k]), Regular, disk[TarPath(files[k])])
  {
    seq(|files|, k requires 0 <= k < |files| =>
      assert files[k] in files; Entry(TarPath(files[k]), Regular, disk[TarPath(files[k])]))
  }

  function TarPaths(files: seq<FileEntry>): seq<string> {
    seq(|files|, k requires 0 <= k < |files| => TarPath(files[k]))
  }

  /** The bytes of one archive, and its line in the manifest. */
  ghost predicate Describes(codec: Codec, disk: map<string, Bytes>, a: Archive, m: ManifestArchive, bytes: Bytes) {
    && AllOnDisk(a.files, disk)
    && bytes == codec.encode(Entries(a.files, disk))
    && m == ManifestArchive(ArchiveName(a.number), |bytes|, codec.hash(bytes), TarPaths(a.files))
  }

  ghost predicate WrittenAt(codec: Codec, disk: map<string, Bytes>, a: Archive, m: ManifestArchive,
                            files: map<string, Bytes>) {
    ArchiveName(a.number) in files && Describes(codec, disk, a, m, files[ArchiveName(a.number)])
  }

  /** An export: some next-fit packing of the collected files, written out and described archive by archive. */
  ghost predicate IsExport(codec: Codec, disk: map<string, Bytes>, files: seq<FileEntry>, splitSize: nat,
                           archives: seq<Archive>, pkg: Package) {
    && IsPacking(files, splitSize, archives)
    && pkg.manifest.Some?
    && var m := pkg.manifest.value;
       && |m.archives| == |archives| == m.totalArchives
       && m.inventory == files && m.totalSize == Total(files)
       && (forall k | 0 <= k < |archives| :: WrittenAt(codec, disk, archives[k], m.archives[k], pkg.files))
  }

  /** The archives list exactly the files of the inventory, in order. */
  lemma ArchivesListInventory(codec: Codec, disk: map<string, Bytes>, files: seq<FileEntry>, splitSize: nat,
                              archives: seq<Archive>, pkg: Package)
    requires IsExport(codec, disk, files, splitSize, archives, pkg)
    ensures ListedFiles(pkg.manifest.value.archives) == TarPaths(pkg.manifest.value.inventory)
    ensures |ListedFiles(pkg.manifest.value.archives)| == |pkg.manifest.value.inventory|
    ensures forall k | 0 <= k < |pkg.manifest.value.inventory| ::
              ListedFiles(pkg.manifest.value.archives)[k] == TarPath(pkg.manifest.value.inventory[k])
  {
    hide ArchiveName, TarPath, Entries;
    var lines := pkg.manifest.value.archives;
    forall k | 0 <= k < |archives| ensures lines[k].files == TarPaths(archives[k].files) {
      assert WrittenAt(codec, disk, archives[k], lines[k], pkg.files);
    }
    ListsConcat(archives, lines);
  }

  /** A line of the manifest has the size, the hash and the names of what is in its archive. */
  lemma LinesDescribe(codec: Codec, disk: map<string, Bytes>, files: seq<FileEntry>, splitSize: nat,
                      archives: seq<Archive>, pkg: Package, k: nat)
    requires IsExport(codec, disk, files, splitSize, archives, pkg) && Invertible(codec)
    requires k < |pkg.manifest.value.archives|
    ensures var line := pkg.manifest.value.archives[k];
            && line.name in pkg.files
            && var bytes := pkg.files[line.name];
               && line.size == |bytes| && line.sha256 == codec.hash(bytes)
               && var (entries, ending) := codec.decode(bytes);
                  && ending.Ended? && |entries| == |line.files|
                  && forall j | 0 <= j < |entries| :: entries[j].kind.Regular? && entries[j].name == line.files[j]
  {
    hide ArchiveName, TarPath;
    assert WrittenAt(codec, disk, archives[k], pkg.manifest.value.archives[k], pkg.files);
  }

  lemma {:induction false} ListsConcat(archives: seq<Archive>, lines: seq<ManifestArchive>)
    requires |lines| == |archives| && forall k | 0 <= k < |archives| :: lines[k].files == TarPaths(archives[k].files)
    ensures ListedFiles(lines) == TarPaths(Concat(archives))
  {
    hide TarPath;
    if archives != [] {
      var n := |archives| - 1;
      ListsConcat(archives[..n], lines[..n]);
    }
  }

  /** Export, given the packing of the splitter: write every archive and the manifest. */
  method WritePackage(codec: Codec, disk: map<string, Bytes>, dir: string, ghost files: seq<FileEntry>,
                      ghost splitSize: nat, archives: seq<Archive>, all: seq<FileEntry>,
                      summary: map<string, ProviderTotals>) returns (pkg: Package)
    requires IsPacking(files, splitSize, archives) && all == files
    requires AllOnDisk(files, disk)
    ensures IsExport(codec, disk, files, splitSize, archives, pkg)
    ensures pkg.dir == dir && pkg.manifest.value.providers == summary
  {
    hide Describes, ArchiveName, TarPath;
    var lines: seq<ManifestArchive>, written: map<string, Bytes> := [], map[];
    for k := 0 to |archives|
      invariant |lines| == k
      invariant forall j | 0 <= j < k :: archives[j].number == j + 1
      invariant forall j | 0 <= j < k :: WrittenAt(codec, disk, archives[j], lines[j], written)
      invariant forall j: nat | j > k :: ArchiveName(j) !in written
    {
      var a := archives[k];
      InPacking(files, splitSize, archives, k);
      var bytes := codec.encode(Entries(a.files, disk));
      var line := ManifestArchive(ArchiveName(a.number), |bytes|, codec.hash(bytes), TarPaths(a.files));
      DescribesLine(codec, disk, a, line, bytes);
      forall j: nat | j > k + 1 ensures ArchiveName(j) != ArchiveName(k + 1) {
        if ArchiveName(j) == ArchiveName(k + 1) { ArchiveNamesDiffer(j, k + 1); }
      }
      ghost var lines0, written0 := lines, written;
      lines := lines + [line];
      written := written[ArchiveName(a.number) := bytes];
      forall j | 0 <= j < k + 1 ensures WrittenAt(codec, disk, archives[j], lines[j], written) {
        if j < k {
          assert WrittenAt(codec, disk, archives[j], lines0[j], written0);
        }
      }
    }
    var total := SizeOf(all);
    pkg := Package(dir, Some(Manifest(summary, lines, |archives|, total, all)), written);
  }

  lemma DescribesLine(codec: Codec, disk: map<string, Bytes>, a: Archive, m: ManifestArchive, bytes: Bytes)
    requires AllOnDisk(a.files, disk)
    requires bytes == codec.encode(Entries(a.files, disk))
    requires m == ManifestArchive(ArchiveName(a.number), |bytes|, codec.hash(bytes), TarPaths(a.files))
    ensures Describes(codec, disk, a, m, bytes)
  {}

  method SizeOf(files: seq<FileEntry>) returns (total: nat)
    ensures total == Total(files)
  {
    total := 0;
    for i := 0 to |files|
      invariant total == Total(files[..i])
    {
      assert files[..i + 1] == files[..i] + [files[i]];
      TotalPush(files[..i], files[i]);
      total := total + files[i].size;
    }
    assert files[..|files|] == files;
  }

  lemma {:induction false} ConcatMember(archives: seq<Archive>, k: nat, f: FileEntry)
    requires k < |archives| && f in archives[k].files
    ensures f in Concat(archives)
  {
    var n := |archives| - 1;
    if k < n {
      ConcatMember(archives[..n], k, f);
    }
  }

  lemma InPacking(files: seq<FileEntry>, splitSize: nat, archives: seq<Archive>, k: nat)
    requires IsPacking(files, splitSize, archives) && k < |archives|
    ensures archives[k].number == k + 1 && forall f | f in archives[k].files :: f in files
  {
    assert Sound(archives[k], k + 1, splitSize);
    forall f | f in archives[k].files ensures f in files {
      ConcatMember(archives, k, f);
    }
  }

  lemma {:induction false} CollectedOnDisk(listing: map<string, seq<FileEntry>>, disk: map<string, Bytes>,
                                           providers: seq<string>)
    ensures AllOnDisk(Collected(listing, disk, providers), disk)
  {
    hide TarPath;
    if providers != [] {
      var n := |providers| - 1;
      CollectedOnDisk(listing, disk, providers[..n]);
      if providers[n] in listing {
        OnDiskMembers(listing[providers[n]], disk);
      }
    }
  }

  /** Every record whose file is on disk is kept as often as it is listed, and no other. */
  lemma {:induction false} OnDiskExactly(records: seq<FileEntry>, disk: map<string, Bytes>, f: FileEntry)
    ensures multiset(OnDisk(records, disk))[f] == if TarPath(f) in disk then multiset(records)[f] else 0
  {
    hide TarPath;
    if records != [] {
      var n := |records| - 1;
      OnDiskExactly(records[..n], disk, f);
      assert records == records[..n] + [records[n]];
    }
  }

  /** The kept records stand in the order of the listing. */
  lemma {:induction false} OnDiskInOrder(a: seq<FileEntry>, b: seq<FileEntry>, disk: map<string, Bytes>)
    ensures OnDisk(a + b, disk) == OnDisk(a, disk) + OnDisk(b, disk)
  {
    hide TarPath;
    if b == [] {
      assert a + b == a;
    } else {
      var n := |b| - 1;
      assert (a + b)[..|a| + n] == a + b[..n];
      OnDiskInOrder(a, b[..n], disk);
    }
  }

  /** The files are collected provider by provider, in the order of the list. */
  lemma {:induction false} CollectedInOrder(listing: map<string, seq<FileEntry>>, disk: map<string, Bytes>,
                                            first: seq<string>, rest: seq<string>)
    ensures Collected(listing, disk, first + rest) == Collected(listing, disk, first) + Collected(listing, disk, rest)
  {
    hide OnDisk;
    if rest == [] {
      assert first + rest == first;
    } else {
      var n := |rest| - 1;
      assert (first + rest)[..|first| + n] == first + rest[..n];
      CollectedInOrder(listing, disk, first, rest[..n]);
    }
  }

  /** Exactly the records of listed providers whose files are on disk are collected. */
  lemma {:induction false} CollectedExactly(listing: map<string, seq<FileEntry>>, disk: map<string, Bytes>,
                                            providers: seq<string>, f: FileEntry)
    ensures f in Collected(listing, disk, providers) <==>
              TarPath(f) in disk && exists p :: p in providers && p in listing && f in listing[p]
  {
    hide TarPath, OnDisk;
    if providers != [] {
      var n := |providers| - 1;
      CollectedExactly(listing, disk, providers[..n], f);
      assert providers == providers[..n] + [providers[n]];
      if providers[n] in listing {
        OnDiskExactly(listing[providers[n]], disk, f);
        assert f in OnDisk(listing[providers[n]], disk) <==> multiset(OnDisk(listing[providers[n]], disk))[f] > 0;
        assert f in listing[providers[n]] <==> multiset(listing[providers[n]])[f] > 0;
      }
    }
  }

  lemma {:induction false} OnDiskMembers(records: seq<FileEntry>, disk: map<string, Bytes>)
    ensures forall f | f in OnDisk(records, disk) :: TarPath(f) in disk && f in records
  {
    hide TarPath;
    if records != [] {
      OnDiskMembers(records[..|records| - 1], disk);
    }
  }

  lemma ExportInventory(codec: Codec, disk: map<string, Bytes>, files: seq<FileEntry>, splitSize: nat,
                        archives: seq<Archive>, pkg: Package)
    requires IsExport(codec, disk, files, splitSize, archives, pkg)
    ensures pkg.manifest.Some? && pkg.manifest.value.inventory == files
  {
    hide IsPacking, WrittenAt;
  }

  /** Export: fails for a split size that is not positive, for nothing to export, or when cancelled between files. */
  method Export(codec: Codec, listing: map<string, seq<FileEntry>>, disk: map<string, Bytes>, providers: seq<string>,
                dir: string, splitSize: int, cancelled: bool)
    returns (r: Result<Package>, ghost archives: seq<Archive>)
    ensures r.Success? <==> splitSize > 0 && Collected(listing, disk, providers) != [] && !cancelled
    ensures r.Success? ==>
              && IsExport(codec, disk, Collected(listing, disk, providers), splitSize, archives, r.value)
              && r.value.dir == dir
              && r.value.manifest.value.providers == Summary(listing, disk, providers)
              && (forall f :: f in r.value.manifest.value.inventory <==>
                    TarPath(f) in disk && exists p :: p in providers && p in listing && f in listing[p])
  {
    archives := [];
    if splitSize <= 0 {
      return Failure("split size must be positive"), [];
    }
    var all, summary := CollectFiles(listing, disk, providers);
    if all == [] {
      return Failure("no files to export"), [];
    }
    if cancelled {
      return Failure("context cancelled"), [];
    }
    CollectedOnDisk(listing, disk, providers);
    SummaryIs(listing, disk, providers, summary);
    forall f ensures f in all <==> TarPath(f) in disk && exists p :: p in providers && p in listing && f in listing[p] {
      CollectedExactly(listing, disk, providers, f);
    }
    hide *;
    var splitter := new Splitter(splitSize);
    splitter.Split(all);
    archives := splitter.archives;
    var pkg := WritePackage(codec, disk, dir, all, splitSize, splitter.archives, all, summary);
    ExportInventory(codec, disk, all, splitSize, archives, pkg);
    r := Success(pkg);
  }
}
