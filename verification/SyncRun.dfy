/**
 * What one sync does to the files on disk: the downloads of its jobs one after another, the pool's workers doing the
 * same jobs in any interleaving, and a plan, a sync, a second plan and a validation in a row.
 */
module SyncRun {
  import opened Text
  import opened SafePaths
  import opened StoreTables
  import opened ImagePaths
  import opened ImageFixpoint
  import opened SyncEngine
  import opened DownloadClient
  import Pool = DownloadPool

  /** What the download of one job meets: the replies it gets, and when it finds its context cancelled. */
  datatype Weather = Weather(net: Network, ctx: Context)

  /** What became of a job: downloaded, refused by a worker that saw the cancellation, or never taken by one. */
  datatype Fate = Ran | SawCancel | NeverTaken

  /** The world the jobs of one sync run in, by job index. */
  datatype World = World(hash: Bytes -> string, weather: nat -> Weather, fate: nat -> Fate)

  function At(disk: Disk, path: string): Option<Bytes> { if path in disk then Some(disk[path]) else None }

  function Put(disk: Disk, path: string, file: Option<Bytes>): Disk {
    match file case None => disk - {path} case Some(b) => disk[path := b]
  }

  /** Download called for a job: the file it leaves and its result. */
  function Fetch(world: World, job: Pool.Job, i: nat, file: Option<Bytes>): (Option<Bytes>, DownloadResult<string>) {
    Loop(OptionsFor(job.expectedChecksum, job.expectedSize), world.hash, world.weather(i).net, world.weather(i).ctx, 1,
         file, false)
  }

  function ErrorText(e: DownloadError): string {
    match e
    case CancelledError => "context canceled"
    case StatusError(_) => "unexpected status"
    case RetryableError => "download failed"
    case RetriesExhausted => "failed after retries"
  }

  function OutcomeOf(r: DownloadResult<string>): Pool.Outcome {
    match r
    case Finished(size, sum, _, _) => Pool.Downloaded(size, sum)
    case GaveUp(e) => Pool.Failed(ErrorText(e))
  }

  /**
   * A job whose server does not answer is tried three times: a third attempt can still succeed, a fourth is not made.
   */
  lemma ThreeAttempts(world: World, job: Pool.Job, i: nat, opts: Options<string>)
    requires opts == OptionsFor(job.expectedChecksum, job.expectedSize) && NeverCancelled(world.weather(i).ctx)
    requires world.weather(i).net(1, 0) == world.weather(i).net(2, 0) == NoResponse(false)
    ensures var last := world.weather(i).net(3, 0);
            && (last == NoResponse(false) ==> Fetch(world, job, i, None) == (Some([]), GaveUp(RetriesExhausted)))
            && (last.Content? && !last.broken && !last.partial && Accepts(opts, world.hash, last.bytes) ==>
                  Fetch(world, job, i, None)
                  == (Some(last.bytes), Finished(|last.bytes|, world.hash(last.bytes), false, 3)))
  {
    var net, ctx, hash := world.weather(i).net, world.weather(i).ctx, world.hash;
    assert forall k :: !ctx.before(k) && !ctx.during(k);
    var waiting := 0 < opts.expectedSize;
    BrokenTransfer(opts, hash, net, ctx, 1, None, false, [], []);
    BrokenTransfer(opts, hash, net, ctx, 2, Some([]), false, [], []);
    if net(3, 0) == NoResponse(false) {
      BrokenTransfer(opts, hash, net, ctx, 3, Some([]), waiting, [], []);
    } else if net(3, 0).Content? && !net(3, 0).broken && !net(3, 0).partial {
      WholeTransfer(opts, hash, net, ctx, 3, Some([]), waiting, [], net(3, 0).bytes);
    }
    hide Loop, Accepts;
  }

  // ---------------------------------------------------------------- one job after another

  /** The disk after the jobs, each working on its destination's file. */
  function DiskAfter(world: World, jobs: seq<Pool.Job>, before: Disk): Disk {
    if jobs == [] then before
    else
      var n := |jobs| - 1;
      var disk := DiskAfter(world, jobs[..n], before);
      if world.fate(n).Ran? then Put(disk, jobs[n].destPath, Fetch(world, jobs[n], n, At(disk, jobs[n].destPath)).0)
      else disk
  }

  /** The result of the last job, if the pool reports one. */
  function LastReport(world: World, jobs: seq<Pool.Job>, before: Disk): seq<Pool.Report>
    requires jobs != []
  {
    var n := |jobs| - 1;
    match world.fate(n)
    case NeverTaken => []
    case SawCancel => [Pool.Report(jobs[n], n, Pool.Cancelled)]
    case Ran =>
      var file := At(DiskAfter(world, jobs[..n], before), jobs[n].destPath);
      [Pool.Report(jobs[n], n, OutcomeOf(Fetch(world, jobs[n], n, file).1))]
  }

  /** What the pool returns. */
  function ReportsAfter(world: World, jobs: seq<Pool.Job>, before: Disk): seq<Pool.Report> {
    if jobs == [] then []
    else ReportsAfter(world, jobs[..|jobs| - 1], before) + LastReport(world, jobs, before)
  }

  lemma DistinctInit(jobs: seq<Pool.Job>)
    requires jobs != [] && DistinctDestinations(jobs)
    ensures DistinctDestinations(jobs[..|jobs| - 1])
    ensures forall i | 0 <= i < |jobs| - 1 :: jobs[i].destPath != jobs[|jobs| - 1].destPath
  {}

  /** A file no job writes to stays as it is. */
  lemma {:induction false} Untouched(world: World, jobs: seq<Pool.Job>, before: Disk, path: string)
    requires forall i | 0 <= i < |jobs| :: jobs[i].destPath != path
    ensures At(DiskAfter(world, jobs, before), path) == At(before, path)
  {
    hide Fetch;
    if jobs != [] {
      Untouched(world, jobs[..|jobs| - 1], before, path);
    }
  }

  /** With distinct destinations every job works on the file as it was before the sync. */
  lemma {:induction false} OwnFile(world: World, jobs: seq<Pool.Job>, before: Disk, i: nat)
    requires DistinctDestinations(jobs) && i < |jobs|
    ensures At(DiskAfter(world, jobs, before), jobs[i].destPath)
         == if world.fate(i).Ran? then Fetch(world, jobs[i], i, At(before, jobs[i].destPath)).0
            else At(before, jobs[i].destPath)
  {
    hide Fetch;
    var n := |jobs| - 1;
    DistinctInit(jobs);
    if i < n {
      OwnFile(world, jobs[..n], before, i);
    } else {
      Untouched(world, jobs[..n], before, jobs[n].destPath);
    }
  }

  /** The report job i gets, when it is reported. */
  function ReportAt(world: World, jobs: seq<Pool.Job>, before: Disk, i: nat): Pool.Report
    requires i < |jobs|
  {
    Pool.Report(jobs[i], i, if world.fate(i).Ran? then OutcomeOf(Fetch(world, jobs[i], i, At(before, jobs[i].destPath)).1)
                            else Pool.Cancelled)
  }

  lemma LastReportAt(world: World, jobs: seq<Pool.Job>, before: Disk)
    requires DistinctDestinations(jobs) && jobs != []
    ensures LastReport(world, jobs, before)
         == if world.fate(|jobs| - 1).NeverTaken? then [] else [ReportAt(world, jobs, before, |jobs| - 1)]
  {
    var n := |jobs| - 1;
    DistinctInit(jobs);
    Untouched(world, jobs[..n], before, jobs[n].destPath);
    hide Fetch, DiskAfter, At;
  }

  /** Exactly the jobs some worker took are reported, in order, each with what its own download did. */
  lemma {:induction false} ReportsMeaning(world: World, jobs: seq<Pool.Job>, before: Disk)
    requires DistinctDestinations(jobs)
    ensures forall r | r in ReportsAfter(world, jobs, before) ::
              r.index < |jobs| && !world.fate(r.index).NeverTaken? && r == ReportAt(world, jobs, before, r.index)
    ensures forall i: nat | i < |jobs| && !world.fate(i).NeverTaken? ::
              ReportAt(world, jobs, before, i) in ReportsAfter(world, jobs, before)
  {
    hide Fetch, LastReport;
    if jobs != [] {
      var n := |jobs| - 1;
      DistinctInit(jobs);
      ReportsMeaning(world, jobs[..n], before);
      LastReportAt(world, jobs, before);
      forall i: nat | i < n ensures ReportAt(world, jobs[..n], before, i) == ReportAt(world, jobs, before, i) {}
      hide ReportAt;
    }
  }

  lemma {:induction false} OwnDelivered(site: Site, world: World, jobs: seq<Pool.Job>, before: Disk, i: nat)
    requires world.hash == site.hash && DistinctDestinations(jobs) && i < |jobs|
    requires ReportAt(world, jobs, before, i).outcome.Downloaded?
    ensures ReportDelivered(site, DiskAfter(world, jobs, before), ReportAt(world, jobs, before, i))
  {
    var job := jobs[i];
    OwnFile(world, jobs, before, i);
    SuccessDescribesFile(OptionsFor(job.expectedChecksum, job.expectedSize), world.hash, world.weather(i).net,
                         world.weather(i).ctx, 1, At(before, job.destPath), false);
    hide Loop, DiskAfter, Accepts, DistinctDestinations;
  }

  /** Every success of a job list with distinct destinations describes the file at its destination. */
  lemma {:induction false} AllDelivered(site: Site, world: World, jobs: seq<Pool.Job>, before: Disk)
    requires world.hash == site.hash && DistinctDestinations(jobs)
    ensures Delivered(site, DiskAfter(world, jobs, before), ReportsAfter(world, jobs, before))
    ensures ReportsOn(jobs, ReportsAfter(world, jobs, before))
  {
    ReportsMeaning(world, jobs, before);
    var after, reports := DiskAfter(world, jobs, before), ReportsAfter(world, jobs, before);
    hide DiskAfter, ReportsAfter, DistinctDestinations, ReportDelivered;
    forall r | r in reports ensures r.job == jobs[r.index] {
      assert r == ReportAt(world, jobs, before, r.index);
    }
    hide ReportAt;
    forall r | r in reports && r.outcome.Downloaded? ensures ReportDelivered(site, after, r) {
      OwnDelivered(site, world, jobs, before, r.index);
    }
  }

  /** Files nobody downloads to stay as they are. */
  lemma {:induction false} OthersUntouched(world: World, jobs: seq<Pool.Job>, before: Disk)
    ensures OthersKept(before, DiskAfter(world, jobs, before), jobs)
  {
    hide DiskAfter;
    forall path | NoJobGoes(jobs, path)
      ensures At(DiskAfter(world, jobs, before), path) == At(before, path)
    {
      Untouched(world, jobs, before, path);
    }
  }

  /** The downloads of a plan's jobs are a sync of it, whatever became of each of them. */
  lemma {:induction false} JobsDeliver(site: Site, t: Target, world: World, before: Disk, actions: seq<SyncAction>)
    requires t.cwd == site.cwd && t.root == site.root && world.hash == site.hash
    requires DistinctDestinations(JobsOf(t, actions))
    ensures Synced(site, t, before, DiskAfter(world, JobsOf(t, actions), before), actions,
                   ReportsAfter(world, JobsOf(t, actions), before))
  {
    AllDelivered(site, world, JobsOf(t, actions), before);
    OthersUntouched(world, JobsOf(t, actions), before);
    hide JobsOf, DiskAfter, ReportsAfter, DistinctDestinations, Delivered, OthersKept, ReportsOn;
  }

  // ---------------------------------------------------------------- plan, sync, plan, validate

  predicate NoDeletes(actions: seq<SyncAction>) { forall a | a in actions :: !Deletes(a) }

  lemma MergedNoDeletes(site: Site, disk: Disk, all: seq<Planned>, actions: seq<SyncAction>)
    requires IsMerged(site, disk, all, actions)
    ensures NoDeletes(actions)
  {
    hide BuildAction, FirstFor;
    forall a | a in actions ensures !Deletes(a) {
      SkipMeansInPlace(site, disk, FirstFor(all, a.path).value);
    }
  }

  lemma {:induction false} NothingRemoved(t: Target, actions: seq<SyncAction>)
    requires NoDeletes(actions)
    ensures RemovedBy(t, actions) == []
  {
    if actions != [] {
      assert actions[|actions| - 1] in actions;
      NothingRemoved(t, actions[..|actions| - 1]);
    }
  }

  /** A plan's sync never fails as a whole, removes nothing and runs jobs with distinct destinations. */
  lemma {:induction false} PlanRuns(site: Site, t: Target, disk: Disk, outputDir: string, all: seq<Planned>,
                                    actions: seq<SyncAction>)
    requires IsAbs(site.cwd) && t.cwd == site.cwd && t.root == site.root && CleanRelativePath(outputDir).Success?
    requires AllPlaced(outputDir, all) && IsMerged(site, disk, all, actions)
    ensures CleanPaths(actions) && AllResolve(t, actions) && DistinctDestinations(JobsOf(t, actions))
    ensures RemovedBy(t, actions) == []
  {
    PlanIsClean(site, disk, outputDir, all, actions);
    assert DistinctPaths(actions);
    MergedNoDeletes(site, disk, all, actions);
    hide *;
    AllClean(t, actions);
    PlanDestinations(t, actions);
    NothingRemoved(t, actions);
  }

  lemma MergedDistinct(site: Site, disk: Disk, all: seq<Planned>, actions: seq<SyncAction>)
    requires IsMerged(site, disk, all, actions)
    ensures DistinctPaths(actions)
  {}

  lemma NoneFailed(failed: seq<FailedFile>, relPath: string)
    requires failed == []
    ensures !ReportedFailed(failed, relPath)
  {}

  lemma {:induction false} PoolGives(world: World, jobs: seq<Pool.Job>, disk: Disk,
                                     pool: seq<Pool.Job> -> seq<Pool.Report>)
    requires pool(jobs) == ReportsAfter(world, jobs, disk)
    ensures Executed(pool, jobs) == ReportsAfter(world, jobs, disk)
  {}

  /** The record of a path describes the file at the path's destination. */
  ghost predicate RecordDescribes(site: Site, t: Target, after: Disk, records: Records, a: SyncAction) {
    && DestPath(t, a).Success? && DestPath(t, a).value in after && (t.provider, a.path) in records
    && var file := after[DestPath(t, a).value];
       records[(t.provider, a.path)] == FileRecord(|file|, site.hash(file))
  }

  /** After a sync the record of every downloaded path describes the file that is there. */
  lemma {:induction false} RecordsDescribe(site: Site, t: Target, before: Disk, after: Disk, actions: seq<SyncAction>,
                                           reports: seq<Pool.Report>, records: Records, i: nat)
    requires IsAbs(site.cwd) && CleanPaths(actions) && DistinctPaths(actions)
    requires Synced(site, t, before, after, actions, reports)
    requires i < |actions| && Fetches(actions[i])
    requires !ReportedFailed(FailuresOf(t, reports, actions), actions[i].path)
    ensures RecordDescribes(site, t, after, RecordsAfter(t, reports, records, actions), actions[i])
  {
    AllClean(t, actions);
    PlanDestinations(t, actions);
    if !VerdictOn(t, reports, actions[i]).Fetched? { FailureListed(t, reports, actions, i); }
    OwnReport(t, actions, reports, i);
    FetchedReport(site, t, before, after, actions, reports, i);
    hide DestPath, VerdictOn, RecordsAfter, Synced, CleanPaths, ReportedFailed, FailuresOf, ReportFor;
    forall j | i + 1 <= j < |actions|
      ensures !Decides(t, reports, actions[j], (t.provider, actions[i].path))
    {
      assert actions[i].path != actions[j].path;
    }
    LastSay(t, reports, records, actions, (t.provider, actions[i].path), i + 1);
  }

  /** Every download that reported an error has its dead letter, and no other file's waiting row has changed. */
  ghost predicate LettersWritten(t: Target, reports: seq<Pool.Report>, actions: seq<SyncAction>, before: FailedTable,
                                 after: FailedTable) {
    && (forall a | a in actions && Letters(t, reports, a) ::
          && DestPath(t, a).Success?
          && LetterFor(t, a, DestPath(t, a).value, VerdictOn(t, reports, a).error,
                       Waiting(before.rows, (t.provider, a.path)), Waiting(after.rows, (t.provider, a.path))))
    && (forall key | NoLetter(t, reports, actions, key) :: Waiting(after.rows, key) == Waiting(before.rows, key))
  }

  ghost predicate NoLetter(t: Target, reports: seq<Pool.Report>, actions: seq<SyncAction>, key: (string, string)) {
    forall a | a in actions && Letters(t, reports, a) :: (t.provider, a.path) != key
  }

  lemma ValidLetters(store: Store)
    requires store.Valid()
    ensures FailedValid(store.failed)
  {}

  lemma {:induction false} PlanLetters(t: Target, reports: seq<Pool.Report>, actions: seq<SyncAction>,
                                       before: FailedTable)
    requires DistinctPaths(actions) && FailedValid(before)
    ensures LettersWritten(t, reports, actions, before, LettersAfter(t, reports, before, actions))
  {
    hide VerdictOn, DestPath, Waiting, FailedValid, LettersAfter, LetterFor;
    forall a | a in actions && Letters(t, reports, a)
      ensures DestPath(t, a).Success?
      ensures LetterFor(t, a, DestPath(t, a).value, VerdictOn(t, reports, a).error,
                        Waiting(before.rows, (t.provider, a.path)),
                        Waiting(LettersAfter(t, reports, before, actions).rows, (t.provider, a.path)))
    {
      var i :| 0 <= i < |actions| && actions[i] == a;
      LettersMeaning(t, reports, before, actions, (t.provider, a.path), i + 1);
    }
    forall key | NoLetter(t, reports, actions, key)
      ensures Waiting(LettersAfter(t, reports, before, actions).rows, key) == Waiting(before.rows, key)
    {
      forall j | 0 <= j < |actions| && Letters(t, reports, actions[j]) ensures (t.provider, actions[j].path) != key {
        assert actions[j] in actions;
      }
      LettersMeaning(t, reports, before, actions, key, 0);
    }
  }

  lemma FetchedReport(site: Site, t: Target, before: Disk, after: Disk, actions: seq<SyncAction>,
                      reports: seq<Pool.Report>, i: nat)
    requires Synced(site, t, before, after, actions, reports) && i < |actions|
    requires DestPath(t, actions[i]).Success? && VerdictOn(t, reports, actions[i]).Fetched?
    ensures var v, dest := VerdictOn(t, reports, actions[i]), DestPath(t, actions[i]).value;
            dest in after && v.size == |after[dest]| && v.sha256 == site.hash(after[dest])
  {
    ReportForMeaning(reports, DestPath(t, actions[i]).value);
    hide DestPath, ReportFor, JobsOf, OthersKept, ReportsOn;
    var r := ReportFor(reports, DestPath(t, actions[i]).value).value;
    assert ReportDelivered(site, after, r);
  }

  /**
   * A provider's images are planned, synced, planned again and validated. The sync goes through; the second plan has
   * the same paths and work only for those the report lists as failed; the record of every other downloaded path
   * describes its file; and every invalid file is a reported failure or one the plan does not know. weather and fate
   * say how each download went.
   */
  method PlanSyncPlan(manager: SyncManager, name: string, outputDir: string, images: seq<Option<PlannedImage>>,
                      site: Site, world: World, disk: Disk)
    returns (first: seq<SyncAction>, report: SyncReport, after: Disk, second: seq<SyncAction>,
             validation: Result<ValidationReport>)
    requires manager.store.Valid() && site.cwd == manager.cwd && world.hash == site.hash
    requires IsAbs(site.cwd) && IsAbs(site.root)
    requires SafeJoinUnder(manager.cwd, manager.dataDir, name) == Success(site.root)
    requires CleanRelativePath(outputDir).Success? && AllReadOwn(outputDir, AllPlanned(images))
    modifies manager`runs, manager`removed, manager.store
    ensures manager.store.Valid() && manager.removed == old(manager.removed)
    ensures var t := Target(site.cwd, site.root, name);
            && after == DiskAfter(world, JobsOf(t, first), disk)
            && report == ReportOn(t, ReportsAfter(world, JobsOf(t, first), disk), first)
            && manager.store.Records()
               == RecordsAfter(t, ReportsAfter(world, JobsOf(t, first), disk), old(manager.store.Records()), first)
    ensures forall a | a in first && Fetches(a) && !ReportedFailed(report.failed, a.path) ::
              RecordDescribes(site, Target(site.cwd, site.root, name), after, manager.store.Records(), a)
    ensures var t := Target(site.cwd, site.root, name);
            LettersWritten(t, ReportsAfter(world, JobsOf(t, first), disk), first, old(manager.store.failed),
                           manager.store.failed)
    ensures IsMerged(site, disk, AllPlanned(images), first) && IsMerged(site, after, AllPlanned(images), second)
    ensures forall b | b in second :: b.kind.Skip? || ReportedFailed(report.failed, b.path)
    ensures report.failed == [] ==> forall b | b in second :: b.kind.Skip?
    ensures forall relPath :: HasPath(first, relPath) <==> HasPath(second, relPath)
    ensures validation.Success? <==> SafeJoinUnder(site.cwd, site.root, outputDir).Success?
    ensures validation.Success? ==>
              forall path, relPath | path in validation.value.invalid && IsPlanned(site, AllPlanned(images), path, relPath) ::
                ReportedFailed(report.failed, relPath)
  {
    hide *;
    var t := Target(site.cwd, site.root, name);
    ghost var all, letters := AllPlanned(images), manager.store.failed;
    ValidLetters(manager.store);
    first := Plan(site, disk, images);
    OwnIsPlaced(outputDir, all);
    PlanRuns(site, t, disk, outputDir, all, first);
    var pool := js => ReportsAfter(world, js, disk);
    PoolGives(world, JobsOf(t, first), disk, pool);
    StatusMeaning(map[name := Success(first)], manager.cwd, manager.dataDir, name, false, pool);
    var r := manager.SyncProvider(map[name := Success(first)], name, false, pool);
    report := r.value;
    after := DiskAfter(world, JobsOf(t, first), disk);
    ghost var reports := ReportsAfter(world, JobsOf(t, first), disk);
    ReportParts(t, reports, first);
    JobsDeliver(site, t, world, disk, first);
    forall a | a in first && Fetches(a) && !ReportedFailed(report.failed, a.path)
      ensures RecordDescribes(site, t, after, manager.store.Records(), a)
    {
      var i :| 0 <= i < |first| && first[i] == a;
      MergedDistinct(site, disk, all, first);
      RecordsDescribe(site, t, disk, after, first, reports, old(manager.store.Records()), i);
    }
    MergedDistinct(site, disk, all, first);
    PlanLetters(t, reports, first, letters);
    second := Plan(site, after, images);
    SyncReachesFixpoint(site, t, disk, after, all, first, reports, second);
    forall b | b in second && report.failed == [] ensures b.kind.Skip? { NoneFailed(report.failed, b.path); }
    validation := Validate(site, outputDir, after);
    if validation.Success? {
      forall path, relPath | path in validation.value.invalid && IsPlanned(site, all, path, relPath)
        ensures ReportedFailed(report.failed, relPath)
      {
        SyncedIsValid(site, t, disk, after, outputDir, all, first, reports, path, relPath);
      }
    }
  }
}
