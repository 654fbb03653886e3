/** Import: verify every archive of a package against its manifest, then extract, then record. */
module ImportPackage {
  import opened Text
  import opened SafePaths
  import opened ExportPacking
  import opened Transfer
  import StoreTables

  // ---------------------------------------------------------------- extraction

  /** What extracting leaves: the data directory by cleaned relative path, the counts, and whether it went through. */
  datatype Extracted = Extracted(data: map<string, Bytes>, count: nat, size: nat, ok: bool)

  /** One tar entry: directories are skipped, other special entries and unsafe names are refused. */
  function ExtractEntry(x: Extracted, e: Entry): Extracted {
    if !x.ok || e.kind.Directory? then x
    else if e.kind.Other? then x.(ok := false)
    else match CleanRelativePath(e.name)
      case Failure(_) => x.(ok := false)
      case Success(path) => Extracted(x.data[path := e.content], x.count + 1, x.size + |e.content|, true)
  }

  function ExtractEntries(x: Extracted, entries: seq<Entry>): Extracted {
    if entries == [] then x
    else ExtractEntry(ExtractEntries(x, entries[..|entries| - 1]), entries[|entries| - 1])
  }

  /** The entry an archive breaks off in: its file is created and holds what could be read, but is not counted. */
  function Tear(x: Extracted, torn: Option<Entry>): Extracted {
    if torn.Some? && torn.value.kind.Regular? && CleanRelativePath(torn.value.name).Success?
    then x.(data := x.data[CleanRelativePath(torn.value.name).value := torn.value.content], ok := false)
    else x.(ok := false)
  }

  /** extractArchive: a damaged archive fails after what comes before the damage has been written. */
  function ExtractArchive(codec: Codec, x: Extracted, bytes: Bytes): Extracted {
    var (entries, ending) := codec.decode(bytes);
    var y := ExtractEntries(x, entries);
    if y.ok && ending.Damaged? then Tear(y, ending.torn) else y
  }

  /** The extraction loop over the archives whose names are not skipped; it stops at the first failure. */
  function ExtractAll(codec: Codec, x: Extracted, archives: seq<ManifestArchive>, files: map<string, Bytes>,
                      skipped: set<string>): Extracted
    requires forall a | a in archives :: a.name in files
  {
    if archives == [] then x
    else
      var n := |archives| - 1;
      var y := ExtractAll(codec, x, archives[..n], files, skipped);
      if !y.ok || archives[n].name in skipped then y else ExtractArchive(codec, y, files[archives[n].name])
  }

  // ---------------------------------------------------------------- records and rows

  type Records = StoreTables.Records

  /** The upsert loop over the manifest inventory: unsafe names and files not on disk are passed over. */
  function UpsertInventory(records: Records, data: map<string, Bytes>, inventory: seq<FileEntry>): Records {
    if inventory == [] then records
    else
      var n := |inventory| - 1;
      var init := UpsertInventory(records, data, inventory[..n]);
      var f := inventory[n];
      var path := CleanRelativePath(TarPath(f));
      if path.Success? && path.value in data
      then init[(f.provider, f.relPath) := StoreTables.FileRecord(f.size, f.sha256)]
      else init
  }

  datatype Status = Running | Completed | Failed

  datatype TransferRow = TransferRow(path: string, status: Status)

  /** A transfer_archives row: which transfer validated which archive under which hash. */
  datatype ValidationRow = ValidationRow(transfer: nat, archive: string, sha256: string)

  datatype Options = Options(verifyOnly: bool, force: bool, skipValidated: bool)

  datatype Report = Report(validated: nat, failed: nat, skipped: nat, extracted: nat, totalSize: nat)

  datatype Outcome =
    | Rejected                     // unreadable manifest or a missing archive: nothing was recorded
    | Interrupted                  // the context was cancelled
    | Invalid(report: Report)      // some archive failed validation
    | Broken(report: Report)       // extraction failed
    | Imported(report: Report)

  datatype Verdict = Validated | Skipped | Mismatch

  ghost predicate Present(pkg: Package) {
    pkg.manifest.Some? && forall a | a in pkg.manifest.value.archives :: a.name in pkg.files
  }

  /** The archive's bytes have the hash the manifest gives. */
  ghost predicate Matches(codec: Codec, pkg: Package, a: ManifestArchive) {
    a.name in pkg.files && codec.hash(pkg.files[a.name]) == a.sha256
  }

  /** IsArchiveValidated */
  predicate IsArchiveValidated(transfers: seq<TransferRow>, rows: seq<ValidationRow>, dir: string, a: ManifestArchive) {
    exists row | row in rows ::
      row.transfer < |transfers| && transfers[row.transfer].path == dir && row.archive == a.name && row.sha256 == a.sha256
  }

  /** What makes a run accept an archive, in terms of what was recorded before. */
  ghost predicate Accepted(codec: Codec, transfers: seq<TransferRow>, rows: seq<ValidationRow>, pkg: Package,
                           opts: Options, a: ManifestArchive) {
    opts.force || Matches(codec, pkg, a) || (opts.skipValidated && IsArchiveValidated(transfers, rows, pkg.dir, a))
  }

  ghost predicate AllAccepted(codec: Codec, transfers: seq<TransferRow>, rows: seq<ValidationRow>, pkg: Package,
                              opts: Options)
    requires Present(pkg)
  {
    forall a | a in pkg.manifest.value.archives :: Accepted(codec, transfers, rows, pkg, opts, a)
  }

  /** How many archives a run does not accept. */
  ghost function Refusals(codec: Codec, transfers: seq<TransferRow>, rows: seq<ValidationRow>, pkg: Package,
                          opts: Options, archives: seq<ManifestArchive>): nat {
    if archives == [] then 0
    else
      Refusals(codec, transfers, rows, pkg, opts, archives[..|archives| - 1])
      + if Accepted(codec, transfers, rows, pkg, opts, archives[|archives| - 1]) then 0 else 1
  }

  /** A transfer row is opened running and moves once, to completed or failed; a cancelled run leaves it running. */
  function StatusOf(r: Outcome): Status {
    if r.Imported? then Completed else if r.Invalid? || r.Broken? then Failed else Running
  }

  ghost predicate Linked(transfers: seq<TransferRow>, rows: seq<ValidationRow>) {
    forall row | row in rows :: row.transfer < |transfers|
  }

  // ---------------------------------------------------------------- specification of a run

  /** What a run decides about one archive, given the rows recorded so far. */
  function VerdictOn(codec: Codec, transfers: seq<TransferRow>, rows: seq<ValidationRow>, pkg: Package, opts: Options,
                     a: ManifestArchive): Verdict
    requires a.name in pkg.files
  {
    if !opts.force && opts.skipValidated && IsArchiveValidated(transfers, rows, pkg.dir, a) then Skipped
    else if !opts.force && codec.hash(pkg.files[a.name]) != a.sha256 then Mismatch
    else Validated
  }

  function Counted(report: Report, v: Verdict): Report {
    match v
    case Validated => report.(validated := report.validated + 1)
    case Skipped => report.(validated := report.validated + 1, skipped := report.skipped + 1)
    case Mismatch => report.(failed := report.failed + 1)
  }

  /** The validation rows, the counts and the names to skip after some archives. */
  datatype Tally = Tally(rows: seq<ValidationRow>, report: Report, skips: set<string>)

  /** The row that records an archive for the transfer opened last. */
  function RowFor(transfers: seq<TransferRow>, a: ManifestArchive): ValidationRow
    requires transfers != []
  {
    ValidationRow(|transfers| - 1, a.name, a.sha256)
  }

  function TallyStep(codec: Codec, transfers: seq<TransferRow>, pkg: Package, opts: Options, t: Tally,
                     a: ManifestArchive)
    : Tally
    requires transfers != [] && a.name in pkg.files
  {
    var v := VerdictOn(codec, transfers, t.rows, pkg, opts, a);
    Tally(t.rows + if v.Validated? then [RowFor(transfers, a)] else [], Counted(t.report, v),
          if v.Skipped? then t.skips + {a.name} else t.skips)
  }

  ghost predicate NamesPresent(pkg: Package, archives: seq<ManifestArchive>) {
    forall a | a in archives :: a.name in pkg.files
  }

  /** The validation loop, from the rows there were before. */
  ghost function Validation(codec: Codec, transfers: seq<TransferRow>, pkg: Package, opts: Options,
                            before: seq<ValidationRow>, archives: seq<ManifestArchive>): Tally
    requires transfers != [] && NamesPresent(pkg, archives)
  {
    if archives == [] then Tally(before, Report(0, 0, 0, 0, 0), {})
    else
      var n := |archives| - 1;
      TallyStep(codec, transfers, pkg, opts, Validation(codec, transfers, pkg, opts, before, archives[..n]), archives[n])
  }

  /** When a run finds its context cancelled: before validating, and before extracting, the archive of an index. */
  datatype Context = Context(validating: nat -> bool, extracting: nat -> bool)

  /** The first of n polls at which the context is found cancelled; n when there is none. */
  function FirstStop(poll: nat -> bool, n: nat): (stop: nat)
    ensures stop <= n && forall i: nat | i < stop :: !poll(i)
    ensures stop < n ==> poll(stop)
  {
    if n == 0 then 0
    else
      var earlier := FirstStop(poll, n - 1);
      if earlier < n - 1 then earlier else if poll(n - 1) then n - 1 else n
  }

  /** A context that is never cancelled. */
  function Never(): Context { Context(i => false, i => false) }

  /** One call of Import. */
  datatype Run = Run(pkg: Package, opts: Options, ctx: Context)

  /** The data directory, the file records and the transfer tables. */
  datatype World = World(data: map<string, Bytes>, records: Records, transfers: seq<TransferRow>,
                         rows: seq<ValidationRow>)

  /** How many of the archives were extracted whole before the first that failed. */
  ghost function Whole(codec: Codec, x: Extracted, archives: seq<ManifestArchive>, files: map<string, Bytes>,
                       skips: set<string>): (k: nat)
    requires forall a | a in archives :: a.name in files
    ensures k <= |archives|
  {
    if archives == [] then 0
    else
      var n := |archives| - 1;
      var k := Whole(codec, x, archives[..n], files, skips);
      if k == n && ExtractAll(codec, x, archives, files, skips).ok then n + 1 else k
  }

  function Closed(transfers: seq<TransferRow>, status: Status): seq<TransferRow>
    requires transfers != []
  {
    transfers[|transfers| - 1 := transfers[|transfers| - 1].(status := status)]
  }

  /** Extraction and recording, after a successful validation. */
  ghost function Extraction(codec: Codec, w: World, run: Run, t: Tally): (World, Outcome)
    requires Present(run.pkg) && w.transfers != []
  {
    var archives := run.pkg.manifest.value.archives;
    var stop := FirstStop(run.ctx.extracting, |archives|);
    var start := Extracted(w.data, 0, 0, true);
    var x := ExtractAll(codec, start, archives[..stop], run.pkg.files, t.skips);
    var whole := Whole(codec, start, archives[..stop], run.pkg.files, t.skips);
    var good := ExtractAll(codec, start, archives[..whole], run.pkg.files, t.skips);
    var report := t.report.(extracted := good.count, totalSize := good.size);
    if !x.ok then (w.(data := x.data, transfers := Closed(w.transfers, Failed)), Broken(report))
    else if stop < |archives| then (w.(data := x.data), Interrupted)
    else
      (w.(data := x.data, records := UpsertInventory(w.records, x.data, run.pkg.manifest.value.inventory),
          transfers := Closed(w.transfers, Completed)),
       Imported(report))
  }

  /** The world once a run has opened its transfer. */
  function Begun(w: World, dir: string): World { w.(transfers := w.transfers + [TransferRow(dir, Running)]) }

  /** A whole run: what it leaves and what it returns. */
  ghost function ImportRun(codec: Codec, w: World, run: Run): (World, Outcome) {
    if !Present(run.pkg) then (w, Rejected)
    else
      var archives := run.pkg.manifest.value.archives;
      var begun := Begun(w, run.pkg.dir);
      var stop := FirstStop(run.ctx.validating, |archives|);
      var t := Validation(codec, begun.transfers, run.pkg, run.opts, w.rows, archives[..stop]);
      var validated := begun.(rows := t.rows);
      if stop < |archives| then (validated, Interrupted)
      else if t.report.failed > 0
      then (validated.(transfers := Closed(begun.transfers, Failed)), Invalid(t.report))
      else if run.opts.verifyOnly
      then (validated.(transfers := Closed(begun.transfers, Completed)), Imported(t.report))
      else Extraction(codec, validated, run, t)
  }

  // ---------------------------------------------------------------- the importer

  /** The far side of the air gap: its data directory, its file records and its transfer tables. */
  class Importer {
    const codec: Codec
    var data: map<string, Bytes>
    var records: Records
    var transfers: seq<TransferRow>
    var rows: seq<ValidationRow>

    constructor (codec: Codec)
      ensures this.codec == codec && State() == World(map[], map[], [], [])
    {
      this.codec := codec;
      data, records, transfers, rows := map[], map[], [], [];
    }

    function State(): World
      reads this
    {
      World(data, records, transfers, rows)
    }

    /** The body of the validation loop for one archive. */
    method ValidateArchive(pkg: Package, opts: Options, a: ManifestArchive) returns (v: Verdict)
      requires transfers != [] && a.name in pkg.files
      modifies `rows
      ensures v == VerdictOn(codec, transfers, old(rows), pkg, opts, a)
      ensures rows == old(rows) + if v.Validated? then [RowFor(transfers, a)] else []
    {
      if !opts.force {
        if opts.skipValidated && IsArchiveValidated(transfers, rows, pkg.dir, a) {
          return Skipped;
        }
        var actual := codec.hash(pkg.files[a.name]);
        if actual != a.sha256 {
          return Mismatch;
        }
      }
      rows := rows + [ValidationRow(|transfers| - 1, a.name, a.sha256)];
      return Validated;
    }

    /** The validation loop, up to the first poll that finds the context cancelled. */
    method ValidateArchives(pkg: Package, opts: Options, ctx: Context)
      returns (interrupted: bool, report: Report, skipped: set<string>)
      requires Present(pkg) && transfers != []
      modifies `rows
      ensures var archives := pkg.manifest.value.archives;
              var stop := FirstStop(ctx.validating, |archives|);
              && interrupted == (stop < |archives|)
              && Tally(rows, report, skipped) == Validation(codec, transfers, pkg, opts, old(rows), archives[..stop])
    {
      hide VerdictOn, Counted;
      var archives := pkg.manifest.value.archives;
      interrupted, report, skipped := false, Report(0, 0, 0, 0, 0), {};
      for i := 0 to |archives|
        invariant forall j: nat | j < i :: !ctx.validating(j)
        invariant Tally(rows, report, skipped) == Validation(codec, transfers, pkg, opts, old(rows), archives[..i])
      {
        if ctx.validating(i) {
          assert FirstStop(ctx.validating, |archives|) == i;
          interrupted := true;
          return;
        }
        var a := archives[i];
        assert a in archives && archives[..i + 1][..i] == archives[..i];
        var v := ValidateArchive(pkg, opts, a);
        report := Counted(report, v);
        if v.Skipped? {
          skipped := skipped + {a.name};
        }
      }
      assert FirstStop(ctx.validating, |archives|) == |archives|;
    }

    /** Import */
    method Import(pkg: Package, opts: Options, ctx: Context) returns (r: Outcome)
      modifies this
      ensures (State(), r) == ImportRun(codec, old(State()), Run(pkg, opts, ctx))
    {
      hide Validation, FirstStop, ExtractAll, Whole, UpsertInventory;
      if pkg.manifest.None? || exists a | a in pkg.manifest.value.archives :: a.name !in pkg.files {
        return Rejected;
      }
      var archives := pkg.manifest.value.archives;
      transfers := transfers + [TransferRow(pkg.dir, Running)];
      var interrupted, report, skipped := ValidateArchives(pkg, opts, ctx);
      if interrupted {
        return Interrupted;
      }
      assert archives[..|archives|] == archives;
      if report.failed > 0 {
        ghost var running := transfers;
        SetStatus(Failed);
        OnlyStatus(running, transfers, Failed);
        return Invalid(report);
      }
      if opts.verifyOnly {
        ghost var running := transfers;
        SetStatus(Completed);
        OnlyStatus(running, transfers, Completed);
        return Imported(report);
      }
      r := ExtractAndRecord(pkg, opts, ctx, report, skipped);
    }

    /** The part of Import after a successful validation: extract, record the inventory, close the transfer. */
    method ExtractAndRecord(pkg: Package, ghost opts: Options, ctx: Context, validation: Report, skipped: set<string>)
      returns (r: Outcome)
      requires Present(pkg) && transfers != []
      modifies `data, `records, `transfers
      ensures (State(), r)
           == Extraction(codec, old(State()), Run(pkg, opts, ctx), Tally(old(rows), validation, skipped))
    {
      hide ExtractAll, Whole, UpsertInventory, FirstStop;
      var stopped, broken, count, size := ExtractArchives(pkg, skipped, ctx);
      var report := validation.(extracted := count, totalSize := size);
      if broken {
        ghost var running := transfers;
        SetStatus(Failed);
        OnlyStatus(running, transfers, Failed);
        return Broken(report);
      }
      if stopped {
        return Interrupted;
      }
      RecordInventory(pkg.manifest.value.inventory);
      ghost var running := transfers;
      SetStatus(Completed);
      OnlyStatus(running, transfers, Completed);
      r := Imported(report);
    }

    /** UpdateTransfer on the row of the running transfer: no other row changes, and of this one only the status. */
    method SetStatus(status: Status)
      requires transfers != []
      modifies `transfers
      ensures |transfers| == |old(transfers)|
      ensures forall i | 0 <= i < |transfers| - 1 :: transfers[i] == old(transfers)[i]
      ensures transfers[|transfers| - 1] == TransferRow(old(transfers)[|transfers| - 1].path, status)
    {
      var n := |transfers| - 1;
      transfers := transfers[n := transfers[n].(status := status)];
    }

    method RecordInventory(inventory: seq<FileEntry>)
      modifies `records
      ensures records == UpsertInventory(old(records), data, inventory)
    {
      for i := 0 to |inventory|
        invariant records == UpsertInventory(old(records), data, inventory[..i])
      {
        assert inventory[..i + 1][..i] == inventory[..i];
        var f := inventory[i];
        var path := CleanRelativePath(TarPath(f));
        if path.Success? && path.value in data {
          records := records[(f.provider, f.relPath) := StoreTables.FileRecord(f.size, f.sha256)];
        }
      }
      assert inventory[..|inventory|] == inventory;
    }

    /** The extraction loop, up to the first failure or the first poll that finds the context cancelled. */
    method ExtractArchives(pkg: Package, skipped: set<string>, ctx: Context)
      returns (interrupted: bool, broken: bool, count: nat, size: nat)
      requires Present(pkg)
      modifies `data
      ensures var archives := pkg.manifest.value.archives;
              var start := Extracted(old(data), 0, 0, true);
              var stop := FirstStop(ctx.extracting, |archives|);
              var x := ExtractAll(codec, start, archives[..stop], pkg.files, skipped);
              var whole := Whole(codec, start, archives[..stop], pkg.files, skipped);
              var good := ExtractAll(codec, start, archives[..whole], pkg.files, skipped);
              && data == x.data && broken == !x.ok && interrupted == (x.ok && stop < |archives|)
              && count == good.count && size == good.size && (x.ok ==> whole == stop)
    {
      var archives := pkg.manifest.value.archives;
      ghost var start := Extracted(data, 0, 0, true);
      interrupted, broken, count, size := false, false, 0, 0;
      NothingYet(codec, start, archives, pkg.files, skipped);
      hide ExtractArchive, ExtractAll, Whole;
      for i := 0 to |archives|
        invariant forall j: nat | j < i :: !ctx.extracting(j)
        invariant ExtractAll(codec, start, archives[..i], pkg.files, skipped) == Extracted(data, count, size, true)
        invariant Whole(codec, start, archives[..i], pkg.files, skipped) == i
      {
        if ctx.extracting(i) {
          assert FirstStop(ctx.extracting, |archives|) == i;
          interrupted := true;
          return;
        }
        var a := archives[i];
        assert a in archives;
        OneMore(codec, start, archives, pkg.files, skipped, i);
        if a.name in skipped {
          continue;
        }
        ghost var before := Extracted(data, count, size, true);
        var more, bytes, ok := ExtractInto(pkg.files[a.name], before);
        if !ok {
          broken := true;
          ghost var stop := FirstStop(ctx.extracting, |archives|);
          BrokenInPrefix(codec, start, archives, pkg.files, skipped, i, stop);
          return;
        }
        count, size := count + more, size + bytes;
      }
      assert FirstStop(ctx.extracting, |archives|) == |archives|;
      assert archives[..|archives|] == archives;
    }

    /** extractArchive, adding to what has been extracted so far. */
    method ExtractInto(archive: Bytes, ghost x: Extracted) returns (count: nat, size: nat, ok: bool)
      requires x.ok && x.data == data
      modifies `data
      ensures var y := ExtractArchive(codec, x, archive);
              data == y.data && ok == y.ok && (ok ==> x.count + count == y.count && x.size + size == y.size)
    {
      var (entries, ending) := codec.decode(archive);
      count, size, ok := 0, 0, true;
      for i := 0 to |entries|
        invariant ok
        invariant ExtractEntries(x, entries[..i]) == Extracted(data, x.count + count, x.size + size, true)
      {
        assert entries[..i + 1][..i] == entries[..i];
        var e := entries[i];
        if e.kind.Directory? {
          continue;
        }
        var path := if e.kind.Other? then Failure("unsupported tar entry type") else CleanRelativePath(e.name);
        if path.Failure? {
          FailedStaysFailed(x, entries, i + 1);
          ok := false;
          return;
        }
        data := data[path.value := e.content];
        count, size := count + 1, size + |e.content|;
      }
      assert entries[..|entries|] == entries;
      if ending.Damaged? {
        ok := false;
        if ending.torn.Some? && ending.torn.value.kind.Regular? {
          var path := CleanRelativePath(ending.torn.value.name);
          if path.Success? {
            data := data[path.value := ending.torn.value.content];
          }
        }
      }
    }
  }

  lemma OnlyStatus(before: seq<TransferRow>, after: seq<TransferRow>, status: Status)
    requires before != [] && |after| == |before|
    requires forall i | 0 <= i < |after| - 1 :: after[i] == before[i]
    requires after[|after| - 1] == TransferRow(before[|after| - 1].path, status)
    ensures after == Closed(before, status)
  {}

  lemma {:induction false} FailedStaysFailed(x: Extracted, entries: seq<Entry>, i: nat)
    requires i <= |entries| && !ExtractEntries(x, entries[..i]).ok
    ensures ExtractEntries(x, entries) == ExtractEntries(x, entries[..i])
  {
    if i == |entries| {
      assert entries[..i] == entries;
    } else {
      assert entries[..|entries| - 1][..i] == entries[..i];
      FailedStaysFailed(x, entries[..|entries| - 1], i);
    }
  }

  lemma {:induction false} NothingExtracted(codec: Codec, x: Extracted, archives: seq<ManifestArchive>,
                                            files: map<string, Bytes>, skipped: set<string>)
    requires forall a | a in archives :: a.name in files && a.name in skipped
    ensures ExtractAll(codec, x, archives, files, skipped) == x
  {
    if archives != [] {
      NothingExtracted(codec, x, archives[..|archives| - 1], files, skipped);
    }
  }

  lemma {:induction false} NothingYet(codec: Codec, x: Extracted, archives: seq<ManifestArchive>,
                                      files: map<string, Bytes>, skipped: set<string>)
    requires forall a | a in archives :: a.name in files
    ensures ExtractAll(codec, x, archives[..0], files, skipped) == x
    ensures Whole(codec, x, archives[..0], files, skipped) == 0
  {}

  lemma {:induction false} OneMore(codec: Codec, x: Extracted, archives: seq<ManifestArchive>,
                                   files: map<string, Bytes>, skipped: set<string>, i: nat)
    requires i < |archives| && forall a | a in archives :: a.name in files
    requires Whole(codec, x, archives[..i], files, skipped) == i
    requires ExtractAll(codec, x, archives[..i], files, skipped).ok
    ensures var y := ExtractAll(codec, x, archives[..i], files, skipped);
            var z := ExtractAll(codec, x, archives[..i + 1], files, skipped);
            && z == (if archives[i].name in skipped then y else ExtractArchive(codec, y, files[archives[i].name]))
            && (z.ok ==> Whole(codec, x, archives[..i + 1], files, skipped) == i + 1)
  {
    hide ExtractArchive;
    assert archives[..i + 1][..i] == archives[..i];
  }

  /** A failure within a list of archives decides what is left and what was extracted whole. */
  lemma {:induction false} BrokenInPrefix(codec: Codec, x: Extracted, archives: seq<ManifestArchive>,
                                          files: map<string, Bytes>, skipped: set<string>, i: nat, stop: nat)
    requires i < stop <= |archives| && forall a | a in archives :: a.name in files
    requires !ExtractAll(codec, x, archives[..i + 1], files, skipped).ok
    requires Whole(codec, x, archives[..i], files, skipped) == i
    ensures ExtractAll(codec, x, archives[..stop], files, skipped) == ExtractAll(codec, x, archives[..i + 1], files, skipped)
    ensures Whole(codec, x, archives[..stop], files, skipped) == i
  {
    hide ExtractArchive;
    assert archives[..i + 1][..i] == archives[..i];
    if stop > i + 1 {
      assert archives[..stop][..stop - 1] == archives[..stop - 1];
      BrokenInPrefix(codec, x, archives, files, skipped, i, stop - 1);
    }
  }

  // ---------------------------------------------------------------- what extraction makes of entries

  /** A directory, or a regular file under an accepted name. */
  predicate Extractable(e: Entry) { e.kind.Directory? || (e.kind.Regular? && CleanRelativePath(e.name).Success?) }

  /** The entry is a regular file that goes to this path. */
  predicate Writes(e: Entry, path: string) { e.kind.Regular? && CleanRelativePath(e.name) == Success(path) }

  /** How many regular files there are among some entries, and how many bytes they have. */
  ghost function RegularFiles(entries: seq<Entry>): nat {
    if entries == [] then 0
    else RegularFiles(entries[..|entries| - 1]) + if entries[|entries| - 1].kind.Regular? then 1 else 0
  }

  ghost function RegularBytes(entries: seq<Entry>): nat {
    if entries == [] then 0
    else RegularBytes(entries[..|entries| - 1])
         + if entries[|entries| - 1].kind.Regular? then |entries[|entries| - 1].content| else 0
  }

  /**
   * Extraction goes through exactly when every entry is a directory or a regular file under an accepted name, and then
   * it counts the regular files and their bytes.
   */
  lemma {:induction false} EntriesCounted(x: Extracted, entries: seq<Entry>)
    requires x.ok
    ensures ExtractEntries(x, entries).ok <==> forall e | e in entries :: Extractable(e)
    ensures ExtractEntries(x, entries).ok ==>
              && ExtractEntries(x, entries).count == x.count + RegularFiles(entries)
              && ExtractEntries(x, entries).size == x.size + RegularBytes(entries)
  {
    hide CleanRelativePath;
    if entries != [] {
      var n := |entries| - 1;
      EntriesCounted(x, entries[..n]);
      assert entries == entries[..n] + [entries[n]] && entries[n] in entries;
      assert forall e :: e in entries <==> e in entries[..n] || e == entries[n];
    }
  }

  /**
   * What extraction leaves at a path: the content of the last regular file that goes there, counted from one, or what
   * was there if there is none.
   */
  lemma {:induction false} EntryAt(x: Extracted, entries: seq<Entry>, path: string, last: nat)
    requires x.ok && last <= |entries| && forall e | e in entries :: Extractable(e)
    requires forall j | last <= j < |entries| :: !Writes(entries[j], path)
    requires last > 0 ==> Writes(entries[last - 1], path)
    ensures var y := ExtractEntries(x, entries);
            if last == 0 then (path in y.data <==> path in x.data) && (path in x.data ==> y.data[path] == x.data[path])
            else path in y.data && y.data[path] == entries[last - 1].content
  {
    hide CleanRelativePath;
    if entries != [] {
      var n := |entries| - 1;
      assert entries == entries[..n] + [entries[n]] && entries[n] in entries;
      EntriesCounted(x, entries[..n]);
      if last < |entries| { EntryAt(x, entries[..n], path, last); }
    }
  }

  /** The first entry that cannot be extracted ends extraction with what the entries before it have left. */
  lemma {:induction false} FirstBadEntry(x: Extracted, entries: seq<Entry>, i: nat)
    requires x.ok && i < |entries| && !Extractable(entries[i])
    requires forall e | e in entries[..i] :: Extractable(e)
    ensures ExtractEntries(x, entries) == ExtractEntries(x, entries[..i]).(ok := false)
  {
    hide CleanRelativePath;
    EntriesCounted(x, entries[..i]);
    assert entries[..i + 1][..i] == entries[..i];
    FailedStaysFailed(x, entries, i + 1);
  }

  /**
   * An archive is extracted exactly when its entries can be and it does not break off. If it breaks off after them, the
   * entry it breaks off in leaves what could be read of it, when it is a regular file under an accepted name.
   */
  lemma {:induction false} ArchiveExtracted(codec: Codec, x: Extracted, bytes: Bytes)
    requires x.ok
    ensures var (entries, ending) := codec.decode(bytes);
            var y, read := ExtractArchive(codec, x, bytes), ExtractEntries(x, entries);
            && (y.ok <==> (forall e | e in entries :: Extractable(e)) && ending.Ended?)
            && y.count == read.count && y.size == read.size
            && y.data == if read.ok && ending.Damaged? && ending.torn.Some? && ending.torn.value.kind.Regular?
                            && CleanRelativePath(ending.torn.value.name).Success?
                         then read.data[CleanRelativePath(ending.torn.value.name).value := ending.torn.value.content]
                         else read.data
  {
    EntriesCounted(x, codec.decode(bytes).0);
    hide CleanRelativePath, ExtractEntries, Extractable;
  }

  /** Every file of the data directory lies strictly below it: its path is an accepted one, as it stands. */
  ghost predicate Confined(data: map<string, Bytes>) {
    forall path | path in data :: CleanRelativePath(path) == Success(path)
  }

  lemma {:induction false} EntriesConfined(x: Extracted, entries: seq<Entry>)
    requires Confined(x.data)
    ensures Confined(ExtractEntries(x, entries).data)
  {
    if entries != [] {
      var n := |entries| - 1;
      EntriesConfined(x, entries[..n]);
      if CleanRelativePath(entries[n].name).Success? { CleanRelativePathIdempotent(entries[n].name); }
      hide CleanRelativePath;
    }
  }

  lemma ArchiveConfined(codec: Codec, x: Extracted, bytes: Bytes)
    requires Confined(x.data)
    ensures Confined(ExtractArchive(codec, x, bytes).data)
  {
    var (entries, ending) := codec.decode(bytes);
    EntriesConfined(x, entries);
    if ending.Damaged? && ending.torn.Some? && CleanRelativePath(ending.torn.value.name).Success? {
      CleanRelativePathIdempotent(ending.torn.value.name);
    }
    hide CleanRelativePath, ExtractEntries;
  }

  lemma {:induction false} ArchivesConfined(codec: Codec, x: Extracted, archives: seq<ManifestArchive>,
                                            files: map<string, Bytes>, skips: set<string>)
    requires Confined(x.data) && forall a | a in archives :: a.name in files
    ensures Confined(ExtractAll(codec, x, archives, files, skips).data)
  {
    hide ExtractArchive, Confined;
    if archives != [] {
      var n := |archives| - 1;
      ArchivesConfined(codec, x, archives[..n], files, skips);
      ArchiveConfined(codec, ExtractAll(codec, x, archives[..n], files, skips), files[archives[n].name]);
    }
  }

  // ---------------------------------------------------------------- what validation decides

  ghost predicate SameArchive(a: ManifestArchive, b: ManifestArchive) { a.name == b.name && a.sha256 == b.sha256 }

  /** Some archive of the list has this name and hash. */
  ghost predicate Listed(archives: seq<ManifestArchive>, b: ManifestArchive) {
    exists a :: a in archives && SameArchive(a, b)
  }

  lemma RowRecords(transfers: seq<TransferRow>, rows: seq<ValidationRow>, dir: string, a: ManifestArchive,
                   b: ManifestArchive)
    requires transfers != [] && transfers[|transfers| - 1].path == dir
    ensures IsArchiveValidated(transfers, rows + [RowFor(transfers, a)], dir, b)
       <==> IsArchiveValidated(transfers, rows, dir, b) || SameArchive(a, b)
  {
    var more := rows + [RowFor(transfers, a)];
    assert RowFor(transfers, a) in more && forall row | row in rows :: row in more;
  }

  lemma ListedPush(archives: seq<ManifestArchive>, b: ManifestArchive)
    requires archives != []
    ensures Listed(archives, b)
       <==> Listed(archives[..|archives| - 1], b) || SameArchive(archives[|archives| - 1], b)
  {
    var n := |archives| - 1;
    assert archives == archives[..n] + [archives[n]];
  }

  /** A transfer's directory is the package's. */
  ghost predicate OpenFor(transfers: seq<TransferRow>, pkg: Package) {
    transfers != [] && transfers[|transfers| - 1].path == pkg.dir
  }

  /** After validating some archives, those validated are those validated before and the ones that passed just now. */
  lemma {:induction false} ValidatedAfter(codec: Codec, transfers: seq<TransferRow>, pkg: Package, opts: Options,
                                          before: seq<ValidationRow>, archives: seq<ManifestArchive>,
                                          b: ManifestArchive)
    requires OpenFor(transfers, pkg) && NamesPresent(pkg, archives)
    ensures IsArchiveValidated(transfers, Validation(codec, transfers, pkg, opts, before, archives).rows, pkg.dir, b)
       <==> || IsArchiveValidated(transfers, before, pkg.dir, b)
            || (Listed(archives, b) && (opts.force || Matches(codec, pkg, b)))
  {
    if archives != [] {
      var n := |archives| - 1;
      var a := archives[n];
      var t := Validation(codec, transfers, pkg, opts, before, archives[..n]);
      ValidatedAfter(codec, transfers, pkg, opts, before, archives[..n], b);
      ListedPush(archives, b);
      RowRecords(transfers, t.rows, pkg.dir, a, b);
      VerdictMeaning(codec, transfers, t.rows, pkg, opts, a, b);
      hide IsArchiveValidated, Listed, VerdictOn, Matches, SameArchive;
    }
  }

  /** What a verdict on one archive says about every archive of the same name and hash. */
  lemma VerdictMeaning(codec: Codec, transfers: seq<TransferRow>, rows: seq<ValidationRow>, pkg: Package, opts: Options,
                       a: ManifestArchive, b: ManifestArchive)
    requires a.name in pkg.files
    ensures var v := VerdictOn(codec, transfers, rows, pkg, opts, a);
            SameArchive(a, b) ==>
              && (Matches(codec, pkg, b) <==> Matches(codec, pkg, a))
              && (v.Validated? ==> opts.force || Matches(codec, pkg, b))
              && (v.Skipped? ==> !opts.force && opts.skipValidated && IsArchiveValidated(transfers, rows, pkg.dir, b))
              && (v.Mismatch? ==> !opts.force && !Matches(codec, pkg, b))
  {}

  /** How many archives a run that skips validated archives skips. */
  ghost function SkipCount(codec: Codec, transfers: seq<TransferRow>, pkg: Package, before: seq<ValidationRow>,
                           archives: seq<ManifestArchive>): nat {
    if archives == [] then 0
    else
      SkipCount(codec, transfers, pkg, before, archives[..|archives| - 1])
      + if SkippedAt(codec, transfers, pkg, before, archives, |archives| - 1) then 1 else 0
  }

  /**
   * The counts: every archive once, failed exactly the archives the run does not accept, and skipped exactly those that
   * were validated before or pass twice.
   */
  lemma {:induction false} ValidationCounts(codec: Codec, transfers: seq<TransferRow>, pkg: Package, opts: Options,
                                            before: seq<ValidationRow>, archives: seq<ManifestArchive>)
    requires OpenFor(transfers, pkg) && NamesPresent(pkg, archives)
    ensures var report := Validation(codec, transfers, pkg, opts, before, archives).report;
            && report.validated + report.failed == |archives|
            && report.failed == Refusals(codec, transfers, before, pkg, opts, archives)
            && report.skipped == (if !opts.force && opts.skipValidated
                                  then SkipCount(codec, transfers, pkg, before, archives) else 0)
            && report.extracted == report.totalSize == 0
  {
    if archives != [] {
      var n := |archives| - 1;
      var a := archives[n];
      var t := Validation(codec, transfers, pkg, opts, before, archives[..n]);
      ValidationCounts(codec, transfers, pkg, opts, before, archives[..n]);
      ValidatedAfter(codec, transfers, pkg, opts, before, archives[..n], a);
      RefusedNow(codec, transfers, pkg, opts, before, t.rows, archives[..n], a);
      LastSkipped(codec, transfers, pkg, opts, before, t.rows, archives);
      hide IsArchiveValidated, Listed, VerdictOn, Matches, SameArchive, Accepted, SkippedAt;
    }
  }

  lemma RefusedNow(codec: Codec, transfers: seq<TransferRow>, pkg: Package, opts: Options, before: seq<ValidationRow>,
                   rows: seq<ValidationRow>, done: seq<ManifestArchive>, a: ManifestArchive)
    requires a.name in pkg.files
    requires IsArchiveValidated(transfers, rows, pkg.dir, a)
        <==> || IsArchiveValidated(transfers, before, pkg.dir, a)
             || (Listed(done, a) && (opts.force || Matches(codec, pkg, a)))
    ensures VerdictOn(codec, transfers, rows, pkg, opts, a).Mismatch? <==> !Accepted(codec, transfers, before, pkg, opts, a)
  {
    hide IsArchiveValidated, Listed;
  }

  lemma {:induction false} NoRefusals(codec: Codec, transfers: seq<TransferRow>, rows: seq<ValidationRow>, pkg: Package,
                                      opts: Options, archives: seq<ManifestArchive>)
    ensures Refusals(codec, transfers, rows, pkg, opts, archives) == 0
       <==> forall a | a in archives :: Accepted(codec, transfers, rows, pkg, opts, a)
  {
    hide Accepted;
    if archives != [] {
      var n := |archives| - 1;
      assert archives == archives[..n] + [archives[n]];
      NoRefusals(codec, transfers, rows, pkg, opts, archives[..n]);
    }
  }

  /** An archive is skipped when it was validated before the run, or passed earlier in the run under name and hash. */
  ghost predicate SkippedAt(codec: Codec, transfers: seq<TransferRow>, pkg: Package, before: seq<ValidationRow>,
                            archives: seq<ManifestArchive>, j: nat)
    requires j < |archives|
  {
    || IsArchiveValidated(transfers, before, pkg.dir, archives[j])
    || (Listed(archives[..j], archives[j]) && Matches(codec, pkg, archives[j]))
  }

  /** Skipping goes by name: exactly the names of the skipped archives, and only when validated ones are skipped. */
  lemma {:induction false} SkipsExactly(codec: Codec, transfers: seq<TransferRow>, pkg: Package, opts: Options,
                                        before: seq<ValidationRow>, archives: seq<ManifestArchive>, name: string)
    requires OpenFor(transfers, pkg) && NamesPresent(pkg, archives)
    ensures name in Validation(codec, transfers, pkg, opts, before, archives).skips
       <==> && !opts.force && opts.skipValidated
            && exists j: nat | j < |archives| ::
                 archives[j].name == name && SkippedAt(codec, transfers, pkg, before, archives, j)
  {
    if archives != [] {
      var n := |archives| - 1;
      var a := archives[n];
      var t := Validation(codec, transfers, pkg, opts, before, archives[..n]);
      SkipsExactly(codec, transfers, pkg, opts, before, archives[..n], name);
      ValidatedAfter(codec, transfers, pkg, opts, before, archives[..n], a);
      forall j: nat | j < n
        ensures SkippedAt(codec, transfers, pkg, before, archives[..n], j)
           <==> SkippedAt(codec, transfers, pkg, before, archives, j)
      {
        assert archives[..n][..j] == archives[..j];
      }
      LastSkipped(codec, transfers, pkg, opts, before, t.rows, archives);
      hide SkippedAt, IsArchiveValidated, Listed, Matches, VerdictOn;
      assert name in TallyStep(codec, transfers, pkg, opts, t, a).skips
        <==> name in t.skips || (VerdictOn(codec, transfers, t.rows, pkg, opts, a).Skipped? && a.name == name);
      assert forall j: nat | j < n :: archives[..n][j] == archives[j];
    }
  }

  lemma LastSkipped(codec: Codec, transfers: seq<TransferRow>, pkg: Package, opts: Options, before: seq<ValidationRow>,
                    rows: seq<ValidationRow>, archives: seq<ManifestArchive>)
    requires archives != [] && archives[|archives| - 1].name in pkg.files
    requires IsArchiveValidated(transfers, rows, pkg.dir, archives[|archives| - 1])
        <==> || IsArchiveValidated(transfers, before, pkg.dir, archives[|archives| - 1])
             || (Listed(archives[..|archives| - 1], archives[|archives| - 1])
                 && (opts.force || Matches(codec, pkg, archives[|archives| - 1])))
    ensures VerdictOn(codec, transfers, rows, pkg, opts, archives[|archives| - 1]).Skipped?
       <==> !opts.force && opts.skipValidated && SkippedAt(codec, transfers, pkg, before, archives, |archives| - 1)
  {
    hide IsArchiveValidated, Listed, Matches;
  }

  /** A row this transfer adds for one of the archives; without Force the archive's bytes have the hash it records. */
  ghost predicate NewRow(codec: Codec, transfers: seq<TransferRow>, pkg: Package, opts: Options,
                         archives: seq<ManifestArchive>, row: ValidationRow) {
    && row.transfer == |transfers| - 1 && row.archive in pkg.files
    && (exists a :: a in archives && row.archive == a.name && row.sha256 == a.sha256)
    && (!opts.force ==> codec.hash(pkg.files[row.archive]) == row.sha256)
  }

  ghost predicate AddsRows(codec: Codec, transfers: seq<TransferRow>, pkg: Package, opts: Options,
                           archives: seq<ManifestArchive>, before: seq<ValidationRow>, after: seq<ValidationRow>) {
    before <= after && forall k | |before| <= k < |after| :: NewRow(codec, transfers, pkg, opts, archives, after[k])
  }

  /** Validation only adds rows, and each new one is about an archive of the list that passed. */
  lemma {:induction false} ValidationRows(codec: Codec, transfers: seq<TransferRow>, pkg: Package, opts: Options,
                                          before: seq<ValidationRow>, archives: seq<ManifestArchive>)
    requires transfers != [] && NamesPresent(pkg, archives)
    ensures AddsRows(codec, transfers, pkg, opts, archives, before,
                     Validation(codec, transfers, pkg, opts, before, archives).rows)
  {
    if archives != [] {
      var n := |archives| - 1;
      var a := archives[n];
      assert archives == archives[..n] + [a];
      var t := Validation(codec, transfers, pkg, opts, before, archives[..n]);
      ValidationRows(codec, transfers, pkg, opts, before, archives[..n]);
      hide IsArchiveValidated;
      var after := TallyStep(codec, transfers, pkg, opts, t, a).rows;
      forall k | |before| <= k < |after| ensures NewRow(codec, transfers, pkg, opts, archives, after[k]) {
        if k < |t.rows| { assert NewRow(codec, transfers, pkg, opts, archives[..n], t.rows[k]); }
      }
    }
  }

  // ---------------------------------------------------------------- what a run does

  /** The validation of every archive of a package. */
  ghost function Checked(codec: Codec, w: World, run: Run): Tally
    requires Present(run.pkg)
  {
    Validation(codec, Begun(w, run.pkg.dir).transfers, run.pkg, run.opts, w.rows, run.pkg.manifest.value.archives)
  }

  /** One transfer row is written, and it goes from running to completed or failed once, or stays running. */
  lemma RunTransfers(codec: Codec, w: World, run: Run)
    ensures var (after, r) := ImportRun(codec, w, run);
            && (r.Rejected? <==> !Present(run.pkg))
            && (r.Rejected? ==> after == w)
            && (!r.Rejected? ==> after.transfers == w.transfers + [TransferRow(run.pkg.dir, StatusOf(r))])
  {
    hide Validation, FirstStop, ExtractAll, Whole, UpsertInventory, Present;
    assert forall status ::
        Closed(Begun(w, run.pkg.dir).transfers, status) == w.transfers + [TransferRow(run.pkg.dir, status)];
  }

  /** Rows are only added, each for this run's transfer and one of its archives, with the hash found without Force. */
  lemma RunRows(codec: Codec, w: World, run: Run)
    requires Present(run.pkg)
    ensures var after := ImportRun(codec, w, run).0;
            AddsRows(codec, Begun(w, run.pkg.dir).transfers, run.pkg, run.opts, run.pkg.manifest.value.archives,
                     w.rows, after.rows)
  {
    var archives := run.pkg.manifest.value.archives;
    var transfers := Begun(w, run.pkg.dir).transfers;
    var stop := FirstStop(run.ctx.validating, |archives|);
    ValidationRows(codec, transfers, run.pkg, run.opts, w.rows, archives[..stop]);
    MoreArchives(codec, transfers, run.pkg, run.opts, archives, stop, w.rows,
                 Validation(codec, transfers, run.pkg, run.opts, w.rows, archives[..stop]).rows);
    hide Validation, FirstStop, ExtractAll, Whole, UpsertInventory, AddsRows;
  }

  lemma MoreArchives(codec: Codec, transfers: seq<TransferRow>, pkg: Package, opts: Options,
                     archives: seq<ManifestArchive>, stop: nat, before: seq<ValidationRow>, after: seq<ValidationRow>)
    requires stop <= |archives| && AddsRows(codec, transfers, pkg, opts, archives[..stop], before, after)
    ensures AddsRows(codec, transfers, pkg, opts, archives, before, after)
  {
    forall k | |before| <= k < |after| ensures NewRow(codec, transfers, pkg, opts, archives, after[k]) {
      assert NewRow(codec, transfers, pkg, opts, archives[..stop], after[k]);
    }
  }

  lemma {:induction false} CheckedCounts(codec: Codec, w: World, run: Run)
    requires Present(run.pkg) && Linked(w.transfers, w.rows)
    ensures var report := Checked(codec, w, run).report;
            && report.validated + report.failed == |run.pkg.manifest.value.archives|
            && report.failed
               == Refusals(codec, w.transfers, w.rows, run.pkg, run.opts, run.pkg.manifest.value.archives)
            && (report.failed == 0 <==> AllAccepted(codec, w.transfers, w.rows, run.pkg, run.opts))
  {
    var archives := run.pkg.manifest.value.archives;
    var row := TransferRow(run.pkg.dir, Running);
    ValidationCounts(codec, Begun(w, run.pkg.dir).transfers, run.pkg, run.opts, w.rows, archives);
    SameRefusals(codec, w.transfers, w.rows, run.pkg, run.opts, row, archives);
    NoRefusals(codec, w.transfers, w.rows, run.pkg, run.opts, archives);
    hide Validation, Refusals, Accepted;
  }

  /**
   * Gating: the data directory changes only in a run that was not verify-only and accepted every archive; a refused
   * run reports exactly the archives it does not accept.
   */
  lemma {:induction false} RunGated(codec: Codec, w: World, run: Run)
    requires Linked(w.transfers, w.rows)
    ensures var (after, r) := ImportRun(codec, w, run);
            && (after.data != w.data ==>
                  Present(run.pkg) && !run.opts.verifyOnly && AllAccepted(codec, w.transfers, w.rows, run.pkg, run.opts))
            && (after.records != w.records ==> r.Imported? && !run.opts.verifyOnly)
            && (r.Invalid? ==>
                  && Present(run.pkg) && !AllAccepted(codec, w.transfers, w.rows, run.pkg, run.opts)
                  && r.report.failed
                     == Refusals(codec, w.transfers, w.rows, run.pkg, run.opts, run.pkg.manifest.value.archives))
            && (r.Broken? ==> !run.opts.verifyOnly)
            && (r.Imported? || r.Broken? ==>
                  Present(run.pkg) && AllAccepted(codec, w.transfers, w.rows, run.pkg, run.opts))
  {
    if Present(run.pkg) {
      CheckedCounts(codec, w, run);
      var archives := run.pkg.manifest.value.archives;
      assert archives[..|archives|] == archives;
      hide Validation, FirstStop, ExtractAll, Whole, UpsertInventory, Refusals, AllAccepted;
    }
  }

  ghost predicate NameSkipped(codec: Codec, w: World, pkg: Package, name: string)
    requires Present(pkg)
  {
    var archives := pkg.manifest.value.archives;
    exists j: nat | j < |archives| :: archives[j].name == name && SkippedAt(codec, w.transfers, pkg, w.rows, archives, j)
  }

  /** The names a run skips, in terms of what was recorded before it. */
  lemma RunSkips(codec: Codec, w: World, run: Run, name: string)
    requires Present(run.pkg) && Linked(w.transfers, w.rows)
    ensures name in Checked(codec, w, run).skips
       <==> !run.opts.force && run.opts.skipValidated && NameSkipped(codec, w, run.pkg, name)
  {
    var archives := run.pkg.manifest.value.archives;
    var row := TransferRow(run.pkg.dir, Running);
    SkipsExactly(codec, Begun(w, run.pkg.dir).transfers, run.pkg, run.opts, w.rows, archives, name);
    forall j: nat | j < |archives|
      ensures SkippedAt(codec, w.transfers + [row], run.pkg, w.rows, archives, j)
           == SkippedAt(codec, w.transfers, run.pkg, w.rows, archives, j)
    {
      NewTransferSameRows(w.transfers, w.rows, run.pkg.dir, row, archives[j]);
      hide IsArchiveValidated, Listed, Matches;
    }
    hide Validation, SkippedAt;
  }

  lemma NewTransferSameRows(transfers: seq<TransferRow>, rows: seq<ValidationRow>, dir: string, row: TransferRow,
                            a: ManifestArchive)
    requires Linked(transfers, rows)
    ensures IsArchiveValidated(transfers + [row], rows, dir, a) == IsArchiveValidated(transfers, rows, dir, a)
  {
    forall r | r in rows ensures (transfers + [row])[r.transfer] == transfers[r.transfer] {}
  }

  lemma {:induction false} SameRefusals(codec: Codec, transfers: seq<TransferRow>, rows: seq<ValidationRow>,
                                        pkg: Package, opts: Options, row: TransferRow, archives: seq<ManifestArchive>)
    requires Linked(transfers, rows)
    ensures Refusals(codec, transfers + [row], rows, pkg, opts, archives)
         == Refusals(codec, transfers, rows, pkg, opts, archives)
  {
    if archives != [] {
      var n := |archives| - 1;
      SameRefusals(codec, transfers, rows, pkg, opts, row, archives[..n]);
      NewTransferSameRows(transfers, rows, pkg.dir, row, archives[n]);
      hide IsArchiveValidated, Linked;
    }
  }

  // ---------------------------------------------------------------- interruption

  /** Extraction of the first i archives goes through. */
  ghost predicate ExtractsFirst(codec: Codec, w: World, run: Run, i: nat)
    requires Present(run.pkg) && i <= |run.pkg.manifest.value.archives|
  {
    ExtractAll(codec, Extracted(w.data, 0, 0, true), run.pkg.manifest.value.archives[..i], run.pkg.files,
               Checked(codec, w, run).skips).ok
  }

  ghost predicate StopsValidating(run: Run)
    requires Present(run.pkg)
  {
    exists i: nat | i < |run.pkg.manifest.value.archives| :: run.ctx.validating(i)
  }

  ghost predicate StopsExtracting(codec: Codec, w: World, run: Run)
    requires Present(run.pkg)
  {
    exists i: nat | i < |run.pkg.manifest.value.archives| ::
      run.ctx.extracting(i) && ExtractsFirst(codec, w, run, i)
  }

  /** Going through for a longer list includes going through for a shorter one. */
  lemma {:induction false} ExtractsEarlier(codec: Codec, x: Extracted, archives: seq<ManifestArchive>,
                                           files: map<string, Bytes>, skips: set<string>, i: nat, j: nat)
    requires i <= j <= |archives| && forall a | a in archives :: a.name in files
    requires ExtractAll(codec, x, archives[..j], files, skips).ok
    ensures ExtractAll(codec, x, archives[..i], files, skips).ok
  {
    if i < j {
      assert archives[..j][..j - 1] == archives[..j - 1];
      hide ExtractArchive;
      ExtractsEarlier(codec, x, archives, files, skips, i, j - 1);
    }
  }

  /**
   * A run is interrupted, and leaves its transfer row running for good, exactly when the context is found cancelled
   * before some archive is validated, or else every archive is accepted, the run extracts, and the context is found
   * cancelled before some archive up to which extraction goes through.
   */
  lemma RunInterrupted(codec: Codec, w: World, run: Run)
    requires Present(run.pkg) && Linked(w.transfers, w.rows)
    ensures ImportRun(codec, w, run).1.Interrupted?
       <==> || StopsValidating(run)
            || (AllAccepted(codec, w.transfers, w.rows, run.pkg, run.opts) && !run.opts.verifyOnly
                && StopsExtracting(codec, w, run))
  {
    var archives := run.pkg.manifest.value.archives;
    var stop := FirstStop(run.ctx.extracting, |archives|);
    CheckedCounts(codec, w, run);
    assert archives[..|archives|] == archives;
    assert StopsValidating(run) <==> FirstStop(run.ctx.validating, |archives|) < |archives|;
    FirstExtractingStop(codec, w, run, stop);
    hide Validation, ExtractAll, Whole, UpsertInventory, AllAccepted, StopsValidating, StopsExtracting, FirstStop;
  }

  lemma FirstExtractingStop(codec: Codec, w: World, run: Run, stop: nat)
    requires Present(run.pkg) && stop == FirstStop(run.ctx.extracting, |run.pkg.manifest.value.archives|)
    ensures StopsExtracting(codec, w, run)
       <==> stop < |run.pkg.manifest.value.archives| && ExtractsFirst(codec, w, run, stop)
  {
    var archives := run.pkg.manifest.value.archives;
    hide ExtractAll, FirstStop;
    if i: nat :| i < |archives| && run.ctx.extracting(i) && ExtractsFirst(codec, w, run, i) {
      assert stop <= i;
      ExtractsEarlier(codec, Extracted(w.data, 0, 0, true), archives, run.pkg.files, Checked(codec, w, run).skips,
                      stop, i);
    }
  }

  /** What an interrupted run leaves: the records as they were, and the archives before the first stop extracted. */
  lemma {:induction false} InterruptedLeaves(codec: Codec, w: World, run: Run)
    requires Present(run.pkg) && ImportRun(codec, w, run).1.Interrupted?
    ensures var after := ImportRun(codec, w, run).0;
            var archives := run.pkg.manifest.value.archives;
            && after.records == w.records
            && after.data == if StopsValidating(run) then w.data
                             else ExtractAll(codec, Extracted(w.data, 0, 0, true),
                                             archives[..FirstStop(run.ctx.extracting, |archives|)], run.pkg.files,
                                             Checked(codec, w, run).skips).data
  {
    var archives := run.pkg.manifest.value.archives;
    assert archives[..|archives|] == archives;
    assert StopsValidating(run) <==> FirstStop(run.ctx.validating, |archives|) < |archives|;
    hide Validation, ExtractAll, Whole, UpsertInventory, StopsValidating, FirstStop;
  }

  /**
   * What a run that breaks off leaves: some archive that it does not skip is the first that cannot be extracted, its
   * data is that of the archives up to and with this one, and it counts the files of those before.
   */
  lemma BrokenLeaves(codec: Codec, w: World, run: Run) returns (i: nat)
    requires Present(run.pkg) && ImportRun(codec, w, run).1.Broken?
    ensures var (after, r) := ImportRun(codec, w, run);
            var archives, start, skips := run.pkg.manifest.value.archives, Extracted(w.data, 0, 0, true),
                                          Checked(codec, w, run).skips;
            && i < |archives| && archives[i].name !in skips && (forall j: nat | j <= i :: !run.ctx.extracting(j))
            && var good := ExtractAll(codec, start, archives[..i], run.pkg.files, skips);
               var x := ExtractArchive(codec, good, run.pkg.files[archives[i].name]);
               && good.ok && !x.ok && after.data == x.data && after.records == w.records
               && r.report.extracted == good.count && r.report.totalSize == good.size
  {
    var archives, start, skips := run.pkg.manifest.value.archives, Extracted(w.data, 0, 0, true),
                                  Checked(codec, w, run).skips;
    var stop := FirstStop(run.ctx.extracting, |archives|);
    assert archives[..|archives|] == archives;
    i := FirstBroken(codec, start, archives, run.pkg.files, skips, stop);
    hide Validation, FirstStop, ExtractAll, ExtractArchive, Whole, UpsertInventory;
  }

  lemma {:induction false} FirstBroken(codec: Codec, x: Extracted, archives: seq<ManifestArchive>,
                                       files: map<string, Bytes>, skips: set<string>, stop: nat) returns (i: nat)
    requires x.ok && stop <= |archives| && forall a | a in archives :: a.name in files
    ensures if ExtractAll(codec, x, archives[..stop], files, skips).ok then i == stop
            else
              && i < stop && archives[i].name !in skips
              && ExtractAll(codec, x, archives[..i], files, skips).ok
              && ExtractAll(codec, x, archives[..stop], files, skips)
                 == ExtractArchive(codec, ExtractAll(codec, x, archives[..i], files, skips), files[archives[i].name])
    ensures Whole(codec, x, archives[..stop], files, skips) == i
  {
    hide ExtractArchive;
    i := 0;
    NothingYet(codec, x, archives, files, skips);
    while i < stop && ExtractAll(codec, x, archives[..i + 1], files, skips).ok
      invariant i <= stop && Whole(codec, x, archives[..i], files, skips) == i
      invariant ExtractAll(codec, x, archives[..i], files, skips).ok
    {
      OneMore(codec, x, archives, files, skips, i);
      i := i + 1;
    }
    if i < stop {
      OneMore(codec, x, archives, files, skips, i);
      BrokenInPrefix(codec, x, archives, files, skips, i, stop);
    }
  }

  // ---------------------------------------------------------------- what a completed run has extracted

  /** The archives whose names are not skipped. */
  function Kept(archives: seq<ManifestArchive>, skips: set<string>): seq<ManifestArchive> {
    if archives == [] then []
    else
      var n := |archives| - 1;
      Kept(archives[..n], skips) + if archives[n].name in skips then [] else [archives[n]]
  }

  lemma {:induction false} KeptAll(archives: seq<ManifestArchive>, skips: set<string>)
    ensures |Kept(archives, skips)| <= |archives| && forall a | a in Kept(archives, skips) :: a in archives
    ensures Kept(archives, skips) == archives <==> forall a | a in archives :: a.name !in skips
  {
    if archives != [] {
      var n := |archives| - 1;
      assert archives == archives[..n] + [archives[n]];
      KeptAll(archives[..n], skips);
      if archives[n].name !in skips {
        assert Kept(archives, skips) == archives ==> Kept(archives, skips)[..|Kept(archives, skips)| - 1] == archives[..n];
      }
    }
  }

  /** Skipping archives extracts exactly the ones that are kept. */
  lemma {:induction false} KeptExtracted(codec: Codec, x: Extracted, archives: seq<ManifestArchive>,
                                         files: map<string, Bytes>, skips: set<string>)
    requires x.ok && forall a | a in archives :: a.name in files
    ensures forall a | a in Kept(archives, skips) :: a.name in files
    ensures ExtractAll(codec, x, archives, files, skips) == ExtractAll(codec, x, Kept(archives, skips), files, {})
  {
    KeptAll(archives, skips);
    if archives != [] {
      var n := |archives| - 1;
      KeptAll(archives[..n], skips);
      KeptExtracted(codec, x, archives[..n], files, skips);
      var kept := Kept(archives[..n], skips);
      assert kept + [] == kept;
      assert (kept + [archives[n]])[..|kept|] == kept;
      hide ExtractArchive;
    }
  }

  /** The archives a completed run has extracted. */
  ghost function ExtractedBy(codec: Codec, w: World, run: Run): seq<ManifestArchive>
    requires Present(run.pkg)
  {
    if run.opts.verifyOnly then [] else Kept(run.pkg.manifest.value.archives, Checked(codec, w, run).skips)
  }

  /** Some archive was validated before, or comes twice under one name and hash. */
  ghost predicate SomethingKnown(w: World, pkg: Package)
    requires Present(pkg)
  {
    var archives := pkg.manifest.value.archives;
    || (exists a :: a in archives && IsArchiveValidated(w.transfers, w.rows, pkg.dir, a))
    || (exists j: nat | j < |archives| :: Listed(archives[..j], archives[j]))
  }

  lemma SkipsSomething(codec: Codec, w: World, run: Run)
    requires Present(run.pkg) && AllAccepted(codec, w.transfers, w.rows, run.pkg, run.opts) && !run.opts.force
    ensures (exists name :: NameSkipped(codec, w, run.pkg, name)) <==> SomethingKnown(w, run.pkg)
  {
    var archives := run.pkg.manifest.value.archives;
    hide IsArchiveValidated, Listed, Matches;
    if SomethingKnown(w, run.pkg) {
      var j: nat :| j < |archives| && SkippedAt(codec, w.transfers, run.pkg, w.rows, archives, j) by {
        if a :| a in archives && IsArchiveValidated(w.transfers, w.rows, run.pkg.dir, a) {
          var j: nat :| j < |archives| && archives[j] == a;
          assert SkippedAt(codec, w.transfers, run.pkg, w.rows, archives, j);
        } else {
          var j: nat :| j < |archives| && Listed(archives[..j], archives[j]);
          assert archives[j] in archives;
          assert SkippedAt(codec, w.transfers, run.pkg, w.rows, archives, j);
        }
      }
      assert NameSkipped(codec, w, run.pkg, archives[j].name);
    } else {
      forall j: nat | j < |archives| ensures !SkippedAt(codec, w.transfers, run.pkg, w.rows, archives, j) {
        assert archives[j] in archives;
      }
    }
  }

  /**
   * What a completed run has extracted, and that it is every archive exactly when there is none, or the run was not
   * verify-only and had Force, or did not skip validated archives, or found none validated before and none twice.
   */
  lemma {:induction false} CompletedExtracts(codec: Codec, w: World, run: Run)
    requires Present(run.pkg) && Linked(w.transfers, w.rows) && ImportRun(codec, w, run).1.Imported?
    ensures forall a | a in ExtractedBy(codec, w, run) :: a.name in run.pkg.files
    ensures var (after, r) := ImportRun(codec, w, run);
            var x := ExtractAll(codec, Extracted(w.data, 0, 0, true), ExtractedBy(codec, w, run), run.pkg.files, {});
            x.ok && after.data == x.data && r.report.extracted == x.count && r.report.totalSize == x.size
    ensures var archives := run.pkg.manifest.value.archives;
            (ExtractedBy(codec, w, run) == archives
             <==> || archives == []
                  || (!run.opts.verifyOnly
                      && (run.opts.force || !run.opts.skipValidated || !SomethingKnown(w, run.pkg))))
  {
    var archives := run.pkg.manifest.value.archives;
    RunGated(codec, w, run);
    CompletedData(codec, w, run);
    CompletedAll(codec, w, run);
  }

  lemma {:induction false} CompletedData(codec: Codec, w: World, run: Run)
    requires Present(run.pkg) && Linked(w.transfers, w.rows) && ImportRun(codec, w, run).1.Imported?
    ensures forall a | a in ExtractedBy(codec, w, run) :: a.name in run.pkg.files
    ensures var (after, r) := ImportRun(codec, w, run);
            var x := ExtractAll(codec, Extracted(w.data, 0, 0, true), ExtractedBy(codec, w, run), run.pkg.files, {});
            x.ok && after.data == x.data && r.report.extracted == x.count && r.report.totalSize == x.size
  {
    var archives := run.pkg.manifest.value.archives;
    var start, skips := Extracted(w.data, 0, 0, true), Checked(codec, w, run).skips;
    ValidationCounts(codec, Begun(w, run.pkg.dir).transfers, run.pkg, run.opts, w.rows, archives);
    CompletedEither(codec, w, run);
    KeptExtracted(codec, start, archives, run.pkg.files, skips);
    WholeWhenOk(codec, start, archives, run.pkg.files, skips);
    assert archives[..|archives|] == archives;
    hide ImportRun, Validation, Whole, Kept, ExtractArchive, Checked;
  }

  /** A completed run either only verified, or extracted every archive whose name it does not skip. */
  lemma {:induction false} CompletedEither(codec: Codec, w: World, run: Run)
    requires Present(run.pkg) && ImportRun(codec, w, run).1.Imported?
    ensures var (after, r) := ImportRun(codec, w, run);
            var archives := run.pkg.manifest.value.archives;
            var start, t := Extracted(w.data, 0, 0, true), Checked(codec, w, run);
            if run.opts.verifyOnly then after.data == w.data && after.records == w.records && r.report == t.report
            else
              var x := ExtractAll(codec, start, archives, run.pkg.files, t.skips);
              var whole := Whole(codec, start, archives, run.pkg.files, t.skips);
              var good := ExtractAll(codec, start, archives[..whole], run.pkg.files, t.skips);
              && x.ok && after.data == x.data && r.report.extracted == good.count && r.report.totalSize == good.size
              && after.records == UpsertInventory(w.records, x.data, run.pkg.manifest.value.inventory)
  {
    var archives := run.pkg.manifest.value.archives;
    assert archives[..|archives|] == archives;
    hide Validation, FirstStop, ExtractAll, Whole, UpsertInventory;
  }

  lemma {:induction false} WholeWhenOk(codec: Codec, x: Extracted, archives: seq<ManifestArchive>,
                                       files: map<string, Bytes>, skips: set<string>)
    requires forall a | a in archives :: a.name in files
    ensures ExtractAll(codec, x, archives, files, skips).ok ==> Whole(codec, x, archives, files, skips) == |archives|
  {
    if archives != [] && ExtractAll(codec, x, archives, files, skips).ok {
      hide ExtractArchive;
      WholeWhenOk(codec, x, archives[..|archives| - 1], files, skips);
    }
  }

  lemma CompletedAll(codec: Codec, w: World, run: Run)
    requires Present(run.pkg) && Linked(w.transfers, w.rows)
    requires AllAccepted(codec, w.transfers, w.rows, run.pkg, run.opts)
    ensures var archives := run.pkg.manifest.value.archives;
            (ExtractedBy(codec, w, run) == archives
             <==> || archives == []
                  || (!run.opts.verifyOnly
                      && (run.opts.force || !run.opts.skipValidated || !SomethingKnown(w, run.pkg))))
  {
    var archives := run.pkg.manifest.value.archives;
    var skips := Checked(codec, w, run).skips;
    KeptAll(archives, skips);
    forall name
      ensures name in skips
         <==> !run.opts.force && run.opts.skipValidated && NameSkipped(codec, w, run.pkg, name)
    {
      RunSkips(codec, w, run, name);
    }
    if !run.opts.force { SkipsSomething(codec, w, run); }
    NamedArchives(codec, w, run.pkg);
    hide Validation, Refusals, AllAccepted, Kept, NameSkipped, SomethingKnown, Checked;
  }

  /** Only names of archives are skipped. */
  lemma NamedArchives(codec: Codec, w: World, pkg: Package)
    requires Present(pkg)
    ensures forall name | NameSkipped(codec, w, pkg, name) :: exists a :: a in pkg.manifest.value.archives && a.name == name
  {
    hide SkippedAt;
    forall name | NameSkipped(codec, w, pkg, name)
      ensures exists a :: a in pkg.manifest.value.archives && a.name == name
    {
      var archives := pkg.manifest.value.archives;
      var j: nat :| j < |archives| && archives[j].name == name
                    && SkippedAt(codec, w.transfers, pkg, w.rows, archives, j);
      assert archives[j] in archives;
    }
  }

  /** What is validated after a run that accepted everything: what was before, and what passed in it. */
  lemma RunRecords(codec: Codec, w: World, run: Run, b: ManifestArchive)
    requires Present(run.pkg) && Linked(w.transfers, w.rows)
    requires ImportRun(codec, w, run).1.Imported? || ImportRun(codec, w, run).1.Broken?
    ensures IsArchiveValidated(ImportRun(codec, w, run).0.transfers, ImportRun(codec, w, run).0.rows, run.pkg.dir, b)
       <==> || IsArchiveValidated(w.transfers, w.rows, run.pkg.dir, b)
            || (Listed(run.pkg.manifest.value.archives, b) && (run.opts.force || Matches(codec, run.pkg, b)))
  {
    var archives := run.pkg.manifest.value.archives;
    var row := TransferRow(run.pkg.dir, Running);
    var begun := Begun(w, run.pkg.dir).transfers;
    ValidatedAfter(codec, begun, run.pkg, run.opts, w.rows, archives, b);
    NewTransferSameRows(w.transfers, w.rows, run.pkg.dir, row, b);
    RunTransfers(codec, w, run);
    var after := ImportRun(codec, w, run).0;
    assert archives[..|archives|] == archives;
    SamePathsSameValidated(begun, after.transfers, after.rows, run.pkg.dir, b);
    hide Validation, FirstStop, ExtractAll, Whole, UpsertInventory, IsArchiveValidated, Listed, Matches;
  }

  ghost predicate SamePaths(s: seq<TransferRow>, t: seq<TransferRow>) {
    |s| == |t| && forall k | 0 <= k < |s| :: s[k].path == t[k].path
  }

  lemma SamePathsSameValidated(s: seq<TransferRow>, t: seq<TransferRow>, rows: seq<ValidationRow>, dir: string,
                               b: ManifestArchive)
    requires SamePaths(s, t)
    ensures IsArchiveValidated(s, rows, dir, b) == IsArchiveValidated(t, rows, dir, b)
  {}

  // ---------------------------------------------------------------- any sequence of runs

  ghost function AfterRuns(codec: Codec, w: World, runs: seq<Run>): World {
    if runs == [] then w else ImportRun(codec, AfterRuns(codec, w, runs[..|runs| - 1]), runs[|runs| - 1]).0
  }

  lemma RunConfined(codec: Codec, w: World, run: Run)
    requires Confined(w.data)
    ensures Confined(ImportRun(codec, w, run).0.data)
  {
    if Present(run.pkg) {
      var archives := run.pkg.manifest.value.archives;
      var stop := FirstStop(run.ctx.extracting, |archives|);
      assert archives[..|archives|] == archives;
      ArchivesConfined(codec, Extracted(w.data, 0, 0, true), archives[..stop], run.pkg.files, Checked(codec, w, run).skips);
      hide Validation, FirstStop, ExtractAll, Whole, UpsertInventory, Confined;
    }
  }

  /**
   * Whatever packages are imported, in whatever mode and however damaged or cut short, no file is ever written outside
   * the data directory: each one's path joins the directory to a place strictly below it.
   */
  lemma {:induction false} RunsConfined(codec: Codec, runs: seq<Run>, cwd: string, dataDir: string, path: string)
    requires IsAbs(cwd) && path in AfterRuns(codec, NoWorld(), runs).data
    ensures CleanRelativePath(path) == Success(path)
    ensures SafeJoinUnder(cwd, dataDir, path)
         == Success(Render(true, AbsSegments(cwd, dataDir) + RelSegments(path))) && RelSegments(path) != []
  {
    AllConfined(codec, runs);
    SafeJoinMeaning(cwd, dataDir, path);
    CleanRelativePathMeaning(path);
  }

  lemma {:induction false} AllConfined(codec: Codec, runs: seq<Run>)
    ensures Confined(AfterRuns(codec, NoWorld(), runs).data)
  {
    if runs != [] {
      var n := |runs| - 1;
      AllConfined(codec, runs[..n]);
      RunConfined(codec, AfterRuns(codec, NoWorld(), runs[..n]), runs[n]);
      hide ImportRun, Confined;
    }
  }

  function NoWorld(): World { World(map[], map[], [], []) }

  /** How many transfers some runs open. */
  ghost function Opens(runs: seq<Run>): nat {
    if runs == [] then 0
    else Opens(runs[..|runs| - 1]) + if Present(runs[|runs| - 1].pkg) then 1 else 0
  }

  /** The row was written by this run: for the transfer it opened, with a hash that was then found in its package. */
  ghost predicate Vouches(codec: Codec, runs: seq<Run>, i: nat, row: ValidationRow)
    requires i < |runs|
  {
    var pkg := runs[i].pkg;
    && Present(pkg) && row.transfer == Opens(runs[..i])
    && row.archive in pkg.files && codec.hash(pkg.files[row.archive]) == row.sha256
    && exists a :: a in pkg.manifest.value.archives && row.archive == a.name && row.sha256 == a.sha256
  }

  ghost predicate Vouched(codec: Codec, runs: seq<Run>, row: ValidationRow) {
    exists i: nat :: i < |runs| && Vouches(codec, runs, i, row)
  }

  /** The transfer a run opened is the row it wrote, whatever ran later. */
  lemma {:induction false} RunsTransfers(codec: Codec, runs: seq<Run>, i: nat)
    requires i < |runs| && Present(runs[i].pkg)
    ensures var transfers := AfterRuns(codec, NoWorld(), runs).transfers;
            && Opens(runs[..i]) < |transfers| == Opens(runs)
            && transfers[Opens(runs[..i])]
               == TransferRow(runs[i].pkg.dir, StatusOf(ImportRun(codec, AfterRuns(codec, NoWorld(), runs[..i]), runs[i]).1))
  {
    var n := |runs| - 1;
    RunTransfers(codec, AfterRuns(codec, NoWorld(), runs[..n]), runs[n]);
    OpensCount(codec, runs[..n]);
    hide ImportRun, Present, StatusOf;
    if i < n {
      assert runs[..n][..i] == runs[..i];
      RunsTransfers(codec, runs[..n], i);
    }
  }

  lemma {:induction false} OpensCount(codec: Codec, runs: seq<Run>)
    ensures |AfterRuns(codec, NoWorld(), runs).transfers| == Opens(runs)
  {
    if runs != [] {
      var n := |runs| - 1;
      RunTransfers(codec, AfterRuns(codec, NoWorld(), runs[..n]), runs[n]);
      OpensCount(codec, runs[..n]);
      hide ImportRun, Present;
    }
  }

  /**
   * Over any runs without Force from an empty store, every validation row was written by one of the runs, for the
   * transfer that run opened, and carries a hash that its package's archive then had.
   */
  lemma {:induction false} RunsVouched(codec: Codec, runs: seq<Run>)
    requires forall r | r in runs :: !r.opts.force
    ensures var w := AfterRuns(codec, NoWorld(), runs);
            Linked(w.transfers, w.rows) && forall row | row in w.rows :: Vouched(codec, runs, row)
  {
    if runs != [] {
      var n := |runs| - 1;
      assert runs[n] in runs && forall r | r in runs[..n] :: r in runs;
      RunsVouched(codec, runs[..n]);
      OpensCount(codec, runs[..n]);
      OpensCount(codec, runs);
      var before := AfterRuns(codec, NoWorld(), runs[..n]);
      RunTransfers(codec, before, runs[n]);
      if Present(runs[n].pkg) { RunRows(codec, before, runs[n]); }
      hide ImportRun;
      LaterVouched(codec, runs, before, AfterRuns(codec, NoWorld(), runs));
    }
  }

  lemma {:induction false} LaterVouched(codec: Codec, runs: seq<Run>, before: World, after: World)
    requires runs != [] && !runs[|runs| - 1].opts.force && |before.transfers| == Opens(runs[..|runs| - 1])
    requires |after.transfers| == Opens(runs) && Linked(before.transfers, before.rows)
    requires forall row | row in before.rows :: Vouched(codec, runs[..|runs| - 1], row)
    requires var run := runs[|runs| - 1];
             if Present(run.pkg)
             then AddsRows(codec, Begun(before, run.pkg.dir).transfers, run.pkg, run.opts,
                           run.pkg.manifest.value.archives, before.rows, after.rows)
             else after.rows == before.rows
    ensures Linked(after.transfers, after.rows) && forall row | row in after.rows :: Vouched(codec, runs, row)
  {
    var n := |runs| - 1;
    forall row | row in before.rows ensures row.transfer < |after.transfers| && Vouched(codec, runs, row) {
      var i: nat :| i < n && Vouches(codec, runs[..n], i, row);
      assert runs[..n][..i] == runs[..i];
      assert Vouches(codec, runs, i, row);
    }
    if Present(runs[n].pkg) {
      forall k | |before.rows| <= k < |after.rows|
        ensures after.rows[k].transfer < |after.transfers| && Vouched(codec, runs, after.rows[k])
      {
        assert NewRow(codec, Begun(before, runs[n].pkg.dir).transfers, runs[n].pkg, runs[n].opts,
                      runs[n].pkg.manifest.value.archives, after.rows[k]);
        assert Vouches(codec, runs, n, after.rows[k]);
      }
      hide Vouched, NewRow;
      forall k | 0 <= k < |after.rows|
        ensures after.rows[k].transfer < |after.transfers| && Vouched(codec, runs, after.rows[k])
      {
        if k < |before.rows| { assert after.rows[k] == before.rows[k] && before.rows[k] in before.rows; }
      }
    }
  }

  /** Some run before the i-th found this archive of this directory with this very hash. */
  ghost predicate FoundBefore(codec: Codec, runs: seq<Run>, i: nat, dir: string, a: ManifestArchive)
    requires i <= |runs|
  {
    exists k: nat :: k < i && runs[k].pkg.dir == dir && Present(runs[k].pkg) && Matches(codec, runs[k].pkg, a)
  }

  /**
   * Gating over any runs without Force from an empty store: a run that changes the data directory was not verify-only,
   * and each archive of its manifest matched its hash in this run or in an earlier run from the same directory.
   */
  lemma {:induction false} RunsGated(codec: Codec, runs: seq<Run>, i: nat)
    requires i < |runs| && forall r | r in runs :: !r.opts.force
    requires AfterRuns(codec, NoWorld(), runs[..i + 1]).data != AfterRuns(codec, NoWorld(), runs[..i]).data
    ensures Present(runs[i].pkg) && !runs[i].opts.verifyOnly
    ensures forall a | a in runs[i].pkg.manifest.value.archives ::
              Matches(codec, runs[i].pkg, a) || FoundBefore(codec, runs, i, runs[i].pkg.dir, a)
  {
    var done, run := runs[..i], runs[i];
    assert runs[..i + 1][..i] == done && runs[i] in runs && forall r | r in done :: r in runs;
    var w := AfterRuns(codec, NoWorld(), done);
    RunsVouched(codec, done);
    RunGated(codec, w, run);
    hide ImportRun, Vouches, Present, Matches;
    forall a | a in run.pkg.manifest.value.archives
      ensures Matches(codec, run.pkg, a) || FoundBefore(codec, runs, i, run.pkg.dir, a)
    {
      if !Matches(codec, run.pkg, a) {
        var row :| row in w.rows && row.transfer < |w.transfers| && w.transfers[row.transfer].path == run.pkg.dir
                   && row.archive == a.name && row.sha256 == a.sha256;
        var k: nat :| k < |done| && Vouches(codec, done, k, row);
        VouchedMatches(codec, done, k, row, a);
      }
    }
  }

  lemma {:induction false} VouchedMatches(codec: Codec, runs: seq<Run>, k: nat, row: ValidationRow, a: ManifestArchive)
    requires k < |runs| && Vouches(codec, runs, k, row) && row.archive == a.name && row.sha256 == a.sha256
    ensures Present(runs[k].pkg) && Matches(codec, runs[k].pkg, a)
    ensures var transfers := AfterRuns(codec, NoWorld(), runs).transfers;
            row.transfer < |transfers| && transfers[row.transfer].path == runs[k].pkg.dir
  {
    RunsTransfers(codec, runs, k);
    hide ImportRun;
  }

  /** Rows keep pointing at transfers. */
  lemma RunLinked(codec: Codec, w: World, run: Run)
    requires Linked(w.transfers, w.rows)
    ensures Linked(ImportRun(codec, w, run).0.transfers, ImportRun(codec, w, run).0.rows)
  {
    RunTransfers(codec, w, run);
    if Present(run.pkg) { RunRows(codec, w, run); }
    hide ImportRun, Present;
    var after := ImportRun(codec, w, run).0;
    forall row | row in after.rows ensures row.transfer < |after.transfers| {
      if row !in w.rows {
        var k :| |w.rows| <= k < |after.rows| && after.rows[k] == row;
        assert NewRow(codec, Begun(w, run.pkg.dir).transfers, run.pkg, run.opts, run.pkg.manifest.value.archives, row);
      }
    }
  }

  /** A run that accepts everything, is never cancelled and can extract everything completes. */
  lemma RunCompletes(codec: Codec, w: World, run: Run)
    requires Present(run.pkg) && Linked(w.transfers, w.rows) && run.ctx == Never()
    requires AllAccepted(codec, w.transfers, w.rows, run.pkg, run.opts)
    requires run.opts.verifyOnly || ExtractsFirst(codec, w, run, |run.pkg.manifest.value.archives|)
    ensures ImportRun(codec, w, run).1.Imported?
  {
    var archives := run.pkg.manifest.value.archives;
    CheckedCounts(codec, w, run);
    assert archives[..|archives|] == archives;
    assert FirstStop(run.ctx.validating, |archives|) == |archives| == FirstStop(run.ctx.extracting, |archives|);
    hide Validation, FirstStop, ExtractAll, Whole, UpsertInventory, Refusals, AllAccepted;
  }

  lemma VerifiedThenSkipped(codec: Codec, w: World, pkg: Package)
    requires Linked(w.transfers, w.rows) && Present(pkg)
    requires forall a | a in pkg.manifest.value.archives :: Matches(codec, pkg, a)
    ensures var (w1, r1) := ImportRun(codec, w, Run(pkg, Options(true, false, false), Never()));
            var (w2, r2) := ImportRun(codec, w1, Run(pkg, Options(false, false, true), Never()));
            r1.Imported? && r2.Imported? && w2.data == w.data && r2.report.extracted == 0
  {
    var archives := pkg.manifest.value.archives;
    var verify, skip := Run(pkg, Options(true, false, false), Never()), Run(pkg, Options(false, false, true), Never());
    hide ImportRun, Validation, IsArchiveValidated, Matches, Listed, Never;
    RunCompletes(codec, w, verify);
    RunGated(codec, w, verify);
    RunLinked(codec, w, verify);
    var w1 := ImportRun(codec, w, verify).0;
    var skips := Checked(codec, w1, skip).skips;
    forall a | a in archives ensures a.name in skips {
      var j: nat :| j < |archives| && archives[j] == a;
      RunRecords(codec, w, verify, a);
      ListedItself(archives, a);
      assert SkippedAt(codec, w1.transfers, pkg, w1.rows, archives, j);
      assert NameSkipped(codec, w1, pkg, a.name);
      RunSkips(codec, w1, skip, a.name);
    }
    assert archives[..|archives|] == archives;
    NothingExtracted(codec, Extracted(w1.data, 0, 0, true), archives, pkg.files, skips);
    RunCompletes(codec, w1, skip);
    SkippedCompletes(codec, w1, skip);
  }

  lemma ListedItself(archives: seq<ManifestArchive>, a: ManifestArchive)
    requires a in archives
    ensures Listed(archives, a)
  {
    assert SameArchive(a, a);
  }

  /** When every name is skipped a completed run leaves the data directory as it was. */
  lemma SkippedCompletes(codec: Codec, w: World, run: Run)
    requires Present(run.pkg) && Linked(w.transfers, w.rows) && ImportRun(codec, w, run).1.Imported?
    requires forall a | a in run.pkg.manifest.value.archives :: a.name in Checked(codec, w, run).skips
    ensures ImportRun(codec, w, run).0.data == w.data && ImportRun(codec, w, run).1.report.extracted == 0
  {
    CompletedExtracts(codec, w, run);
    KeptNone(run.pkg.manifest.value.archives, Checked(codec, w, run).skips);
    hide ImportRun, Kept, Checked;
    assert ExtractedBy(codec, w, run) == [];
  }

  lemma {:induction false} KeptNone(archives: seq<ManifestArchive>, skips: set<string>)
    requires forall a | a in archives :: a.name in skips
    ensures Kept(archives, skips) == []
  {
    if archives != [] { KeptNone(archives[..|archives| - 1], skips); }
  }

  /**
   * Skipping goes by name, so an archive listed twice is not extracted even on its first import: its second listing is
   * skipped because the first was just validated, and that skips the name.
   */
  lemma ListedTwice(codec: Codec, w: World, pkg: Package, a: ManifestArchive)
    requires Linked(w.transfers, w.rows) && Present(pkg) && pkg.manifest.value.archives == [a, a] && Matches(codec, pkg, a)
    ensures var (after, r) := ImportRun(codec, w, Run(pkg, Options(false, false, true), Never()));
            r.Imported? && after.data == w.data && r.report.extracted == 0
  {
    var archives, run := pkg.manifest.value.archives, Run(pkg, Options(false, false, true), Never());
    var skips := Checked(codec, w, run).skips;
    hide ImportRun, Validation, IsArchiveValidated, Matches, Never;
    assert archives[..1] == [a] && archives[1] == a && SameArchive(a, a);
    assert SkippedAt(codec, w.transfers, pkg, w.rows, archives, 1);
    assert NameSkipped(codec, w, pkg, a.name);
    RunSkips(codec, w, run, a.name);
    assert archives[..|archives|] == archives;
    NothingExtracted(codec, Extracted(w.data, 0, 0, true), archives, pkg.files, skips);
    RunCompletes(codec, w, run);
    SkippedCompletes(codec, w, run);
  }

  /** An inventory file that is in the data directory under an accepted path. */
  predicate Extant(data: map<string, Bytes>, f: FileEntry) {
    CleanRelativePath(TarPath(f)).Success? && CleanRelativePath(TarPath(f)).value in data
  }

  /**
   * What recording an inventory does to one record: it is there afterwards exactly when it was before or some inventory
   * file of that key is in the data directory, and the last such file decides it.
   */
  lemma {:induction false} InventoryMeaning(records: Records, data: map<string, Bytes>, inventory: seq<FileEntry>,
                                            key: (string, string), i: nat)
    requires i <= |inventory|
    requires forall j | i <= j < |inventory| && (inventory[j].provider, inventory[j].relPath) == key ::
               !Extant(data, inventory[j])
    requires i > 0 ==> (inventory[i - 1].provider, inventory[i - 1].relPath) == key && Extant(data, inventory[i - 1])
    ensures var after := UpsertInventory(records, data, inventory);
            if i == 0 then (key in after <==> key in records) && (key in after ==> after[key] == records[key])
            else key in after && after[key] == StoreTables.FileRecord(inventory[i - 1].size, inventory[i - 1].sha256)
  {
    hide TarPath, CleanRelativePath;
    if i < |inventory| {
      InventoryMeaning(records, data, inventory[..|inventory| - 1], key, i);
    }
  }

  /** Where the last inventory file of a key that is in the data directory stands, counted from one. */
  lemma {:induction false} LastExtant(data: map<string, Bytes>, inventory: seq<FileEntry>, key: (string, string))
    returns (i: nat)
    ensures i <= |inventory|
    ensures forall j | i <= j < |inventory| && (inventory[j].provider, inventory[j].relPath) == key ::
              !Extant(data, inventory[j])
    ensures i > 0 ==> (inventory[i - 1].provider, inventory[i - 1].relPath) == key && Extant(data, inventory[i - 1])
  {
    hide Extant;
    if inventory == [] {
      i := 0;
    } else {
      var n := |inventory| - 1;
      if (inventory[n].provider, inventory[n].relPath) == key && Extant(data, inventory[n]) {
        i := n + 1;
      } else {
        i := LastExtant(data, inventory[..n], key);
      }
    }
  }

  /** Exactly the records there were, and those of inventory files in the data directory, are there afterwards. */
  lemma {:induction false} RecordedKeys(records: Records, data: map<string, Bytes>, inventory: seq<FileEntry>,
                                        key: (string, string))
    ensures key in UpsertInventory(records, data, inventory) <==>
              || key in records
              || exists f :: f in inventory && (f.provider, f.relPath) == key && Extant(data, f)
  {
    var i := LastExtant(data, inventory, key);
    InventoryMeaning(records, data, inventory, key, i);
    hide UpsertInventory, Extant;
    if i > 0 {
      assert inventory[i - 1] in inventory;
    }
  }

  /** From an empty data directory nothing is recorded. */
  lemma {:induction false} NothingExtant(records: Records, inventory: seq<FileEntry>)
    ensures UpsertInventory(records, map[], inventory) == records
  {
    if inventory != [] { NothingExtant(records, inventory[..|inventory| - 1]); }
  }

  /** What the second of these runs does to the records. */
  lemma SkippedRecords(codec: Codec, w: World, pkg: Package)
    requires Linked(w.transfers, w.rows) && Present(pkg)
    requires forall a | a in pkg.manifest.value.archives :: Matches(codec, pkg, a)
    ensures var w1 := ImportRun(codec, w, Run(pkg, Options(true, false, false), Never())).0;
            var w2 := ImportRun(codec, w1, Run(pkg, Options(false, false, true), Never())).0;
            w2.records == UpsertInventory(w.records, w.data, pkg.manifest.value.inventory)
  {
    hide ImportRun, Never, Linked, Matches, UpsertInventory, ExtractAll, Whole, Checked, Present;
    var verify := Run(pkg, Options(true, false, false), Never());
    var w1 := ImportRun(codec, w, verify).0;
    var skip := Run(pkg, Options(false, false, true), Never());
    VerifiedThenSkipped(codec, w, pkg);
    CompletedEither(codec, w, verify);
    CompletedEither(codec, w1, skip);
  }

  /**
   * Completed does not mean extracted: after a verify-only run, an import that skips validated archives completes and
   * leaves the data directory as it was, for every package whose archives are intact.
   */
  method VerifyThenSkip(importer: Importer, pkg: Package) returns (first: Outcome, second: Outcome)
    requires Linked(importer.transfers, importer.rows) && Present(pkg)
    requires forall a | a in pkg.manifest.value.archives :: Matches(importer.codec, pkg, a)
    modifies importer
    ensures first.Imported? && second.Imported?
    ensures importer.data == old(importer.data) && second.report.extracted == 0
    ensures forall key :: key in importer.records <==>
              || key in old(importer.records)
              || exists f :: f in pkg.manifest.value.inventory && (f.provider, f.relPath) == key
                             && Extant(old(importer.data), f)
    ensures old(importer.data) == map[] ==> importer.records == old(importer.records)
  {
    hide ImportRun, Linked, Matches, UpsertInventory, Extant;
    ghost var w := importer.State();
    first := importer.Import(pkg, Options(true, false, false), Never());
    second := importer.Import(pkg, Options(false, false, true), Never());
    VerifiedThenSkipped(importer.codec, w, pkg);
    SkippedRecords(importer.codec, w, pkg);
    NothingExtant(w.records, pkg.manifest.value.inventory);
    forall key ensures key in importer.records <==>
        || key in w.records
        || exists f :: f in pkg.manifest.value.inventory && (f.provider, f.relPath) == key && Extant(w.data, f)
    {
      RecordedKeys(w.records, w.data, pkg.manifest.value.inventory, key);
    }
  }

  /** Cancelled before the first archive: the transfer's row says running for good. */
  lemma CancelledAtOnce(codec: Codec, w: World, pkg: Package, opts: Options, ctx: Context)
    requires Present(pkg) && pkg.manifest.value.archives != [] && ctx.validating(0)
    ensures var (after, r) := ImportRun(codec, w, Run(pkg, opts, ctx));
            r == Interrupted && after == w.(transfers := w.transfers + [TransferRow(pkg.dir, Running)])
  {
    assert FirstStop(ctx.validating, |pkg.manifest.value.archives|) == 0;
  }
}
