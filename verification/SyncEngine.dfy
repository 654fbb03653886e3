/** SyncProvider: from a plan to downloads, records, removals and a report. */
module SyncEngine {
  import opened Text
  import opened SafePaths
  import opened StoreTables
  import Pool = DownloadPool
  import Progress = ProgressTracker
  import Sums

  datatype ActionKind = Download | Update | Delete | Skip

  datatype SyncAction = SyncAction(kind: ActionKind, path: string, localPath: string, url: string, size: int,
                                   checksum: string)

  datatype FailedFile = FailedFile(path: string, url: string, error: string, attempts: nat)

  datatype SyncReport = SyncReport(downloaded: nat, deleted: nat, skipped: nat, failed: seq<FailedFile>,
                                   bytesTransferred: int)

  datatype RunStatus = Running | PlanFailed | Completed | AllSucceeded | Partial

  /** A row of sync_runs; its id is its position. */
  datatype SyncRun = SyncRun(provider: string, status: RunStatus, downloaded: nat, deleted: nat, skipped: nat,
                             failed: nat, bytesTransferred: int)

  /** Where a provider's files live. */
  datatype Target = Target(cwd: string, root: string, provider: string)

  // ---------------------------------------------------------------- what becomes of an action

  predicate Fetches(a: SyncAction) { a.kind.Download? || a.kind.Update? }

  /** resolveActionDestPath, and the same choice for a delete. */
  function DestPath(t: Target, a: SyncAction): Result<string> {
    if a.localPath == "" then SafeJoinUnder(t.cwd, t.root, a.path) else EnsureUnderRoot(t.cwd, t.root, a.localPath)
  }

  function JobFor(dest: string, a: SyncAction): Pool.Job { Pool.Job(a.url, dest, a.checksum, a.size) }

  /** The newest report about a destination path. */
  function ReportFor(reports: seq<Pool.Report>, dest: string): Option<Pool.Report> {
    if reports == [] then None
    else if reports[|reports| - 1].job.destPath == dest then Some(reports[|reports| - 1])
    else ReportFor(reports[..|reports| - 1], dest)
  }

  datatype Verdict = Fetched(size: nat, sha256: string) | Broken(error: string) | Missing | Unsafe(error: string)

  function VerdictOn(t: Target, reports: seq<Pool.Report>, a: SyncAction): Verdict {
    match DestPath(t, a)
    case Failure(e) => Unsafe(e)
    case Success(dest) =>
      match ReportFor(reports, dest)
      case None => Missing
      case Some(r) =>
        match r.outcome
        case Downloaded(size, sha256) => Fetched(size, sha256)
        case Failed(message) => Broken(message)
        case Cancelled => Broken("context canceled")
  }

  function Succeeds(t: Target, reports: seq<Pool.Report>): SyncAction -> bool {
    a => Fetches(a) && VerdictOn(t, reports, a).Fetched?
  }

  function Fails(t: Target, reports: seq<Pool.Report>): SyncAction -> bool {
    a => Fetches(a) && !VerdictOn(t, reports, a).Fetched?
  }

  predicate Deletes(a: SyncAction) { a.kind.Delete? }

  predicate Skips(a: SyncAction) { a.kind.Skip? }

  function FailureOf(t: Target, reports: seq<Pool.Report>, a: SyncAction): FailedFile
    requires !VerdictOn(t, reports, a).Fetched?
  {
    match VerdictOn(t, reports, a)
    case Unsafe(e) => FailedFile(a.path, a.url, "unsafe resolved destination path: " + e, 0)
    case Broken(e) => FailedFile(a.path, a.url, e, 1)
    case Missing => FailedFile(a.path, a.url, "missing download result", 1)
  }

  function FailuresOf(t: Target, reports: seq<Pool.Report>, actions: seq<SyncAction>): (r: seq<FailedFile>)
    ensures |r| == |Where(actions, Fails(t, reports))|
  {
    if actions == [] then []
    else
      var n := |actions| - 1;
      var init := FailuresOf(t, reports, actions[..n]);
      if Fails(t, reports)(actions[n]) then init + [FailureOf(t, reports, actions[n])] else init
  }

  function BytesOf(t: Target, reports: seq<Pool.Report>, actions: seq<SyncAction>): int {
    if actions == [] then 0
    else
      var n := |actions| - 1;
      var v := VerdictOn(t, reports, actions[n]);
      BytesOf(t, reports, actions[..n]) + if Fetches(actions[n]) && v.Fetched? then v.size else 0
  }

  /** What one action does to the provider's records: a success is recorded, a safe delete forgotten. */
  ghost function RecordsStep(t: Target, reports: seq<Pool.Report>, records: Records, a: SyncAction): Records {
    var v := VerdictOn(t, reports, a);
    if Fetches(a) && v.Fetched? then records[(t.provider, a.path) := FileRecord(v.size, v.sha256)]
    else if Deletes(a) && DestPath(t, a).Success? then records - {(t.provider, a.path)}
    else records
  }

  ghost function RecordsAfter(t: Target, reports: seq<Pool.Report>, records: Records, actions: seq<SyncAction>)
    : Records {
    if actions == [] then records
    else RecordsStep(t, reports, RecordsAfter(t, reports, records, actions[..|actions| - 1]), actions[|actions| - 1])
  }

  function FailedRowOf(t: Target, dest: string, error: string, a: SyncAction): FailedRow {
    FailedRow(0, t.provider, a.path, a.url, dest, a.checksum, a.size, error, 1, false)
  }

  /** What one action does to the dead letters: a download that reported an error is added. */
  ghost function LettersStep(t: Target, reports: seq<Pool.Report>, failed: FailedTable, a: SyncAction): FailedTable {
    var v := VerdictOn(t, reports, a);
    if Fetches(a) && v.Broken? && DestPath(t, a).Success?
    then ApplyFailed(failed, AddFailed(FailedRowOf(t, DestPath(t, a).value, v.error, a)))
    else failed
  }

  ghost function LettersAfter(t: Target, reports: seq<Pool.Report>, failed: FailedTable, actions: seq<SyncAction>)
    : FailedTable
  {
    if actions == [] then failed
    else LettersStep(t, reports, LettersAfter(t, reports, failed, actions[..|actions| - 1]), actions[|actions| - 1])
  }

  /** The paths the deletes remove. */
  function RemovedBy(t: Target, actions: seq<SyncAction>): seq<string> {
    if actions == [] then []
    else RemovedBy(t, actions[..|actions| - 1]) + RemovedStep(t, actions[|actions| - 1])
  }

  function RemovedStep(t: Target, a: SyncAction): seq<string> {
    if Deletes(a) && DestPath(t, a).Success? then [DestPath(t, a).value] else []
  }

  predicate AllResolve(t: Target, actions: seq<SyncAction>) {
    forall a | a in actions && Fetches(a) :: DestPath(t, a).Success?
  }

  function JobsOf(t: Target, actions: seq<SyncAction>): seq<Pool.Job> {
    if actions == [] then []
    else
      var n := |actions| - 1;
      var dest := DestPath(t, actions[n]);
      JobsOf(t, actions[..n])
      + if Fetches(actions[n]) && dest.Success? then [JobFor(dest.value, actions[n])] else []
  }

  // ---------------------------------------------------------------- accounting

  lemma WherePush<T(!new)>(list: seq<T>, i: nat, keep: T -> bool)
    requires i < |list|
    ensures Where(list[..i + 1], keep) == Where(list[..i], keep) + if keep(list[i]) then [list[i]] else []
  {
    assert list[..i + 1][..i] == list[..i];
  }

  /** Every action is counted once: downloaded, failed, deleted or skipped. */
  lemma {:induction false} EveryActionCounted(t: Target, reports: seq<Pool.Report>, actions: seq<SyncAction>)
    ensures |Where(actions, Succeeds(t, reports))| + |FailuresOf(t, reports, actions)|
            + |Where(actions, Skips)| + |Where(actions, Deletes)| == |actions|
    ensures |Where(actions, Fetches)| == |Where(actions, Succeeds(t, reports))| + |FailuresOf(t, reports, actions)|
  {
    hide VerdictOn;
    if actions != [] {
      EveryActionCounted(t, reports, actions[..|actions| - 1]);
    }
  }

  // ---------------------------------------------------------------- the report

  ghost predicate Indexed(byPath: map<string, Pool.Report>, reports: seq<Pool.Report>) {
    && (forall dest :: dest in byPath <==> ReportFor(reports, dest).Some?)
    && (forall dest | dest in byPath :: ReportFor(reports, dest) == Some(byPath[dest]))
  }

  function ReportOn(t: Target, reports: seq<Pool.Report>, actions: seq<SyncAction>): SyncReport {
    SyncReport(|Where(actions, Succeeds(t, reports))|, |Where(actions, Deletes)|, |Where(actions, Skips)|,
               FailuresOf(t, reports, actions), BytesOf(t, reports, actions))
  }

  ghost predicate Counted(t: Target, reports: seq<Pool.Report>, actions: seq<SyncAction>, downloaded: nat, skipped: nat,
                          bytes: int, failed: seq<FailedFile>) {
    && downloaded == |Where(actions, Succeeds(t, reports))| && skipped == |Where(actions, Skips)|
    && bytes == BytesOf(t, reports, actions) && failed == FailuresOf(t, reports, actions)
  }

  lemma {:induction false} NoActions(t: Target, reports: seq<Pool.Report>, records: Records, letters: FailedTable,
                                     actions: seq<SyncAction>)
    ensures Counted(t, reports, actions[..0], 0, 0, 0, [])
    ensures RecordsAfter(t, reports, records, actions[..0]) == records
    ensures LettersAfter(t, reports, letters, actions[..0]) == letters
    ensures RemovedBy(t, actions[..0]) == [] && Where(actions[..0], Deletes) == []
  {}

  lemma {:induction false} OneMoreAction(t: Target, reports: seq<Pool.Report>, records: Records, letters: FailedTable,
                                         actions: seq<SyncAction>, i: nat)
    requires i < |actions|
    ensures RecordsAfter(t, reports, records, actions[..i + 1])
         == RecordsStep(t, reports, RecordsAfter(t, reports, records, actions[..i]), actions[i])
    ensures LettersAfter(t, reports, letters, actions[..i + 1])
         == LettersStep(t, reports, LettersAfter(t, reports, letters, actions[..i]), actions[i])
    ensures RemovedBy(t, actions[..i + 1]) == RemovedBy(t, actions[..i]) + RemovedStep(t, actions[i])
  {
    hide RecordsStep, LettersStep, RemovedStep;
    assert actions[..i + 1][..i] == actions[..i];
  }

  lemma CountOneMore(t: Target, reports: seq<Pool.Report>, actions: seq<SyncAction>, i: nat, downloaded: nat,
                     skipped: nat, bytes: int, failed: seq<FailedFile>)
    requires i < |actions| && Counted(t, reports, actions[..i], downloaded, skipped, bytes, failed)
    ensures var a := actions[i];
            var v := VerdictOn(t, reports, a);
            Counted(t, reports, actions[..i + 1],
                    if Fetches(a) && v.Fetched? then downloaded + 1 else downloaded,
                    if Skips(a) then skipped + 1 else skipped,
                    if Fetches(a) && v.Fetched? then bytes + v.size else bytes,
                    if Fetches(a) && !v.Fetched? then failed + [FailureOf(t, reports, a)] else failed)
  {
    hide VerdictOn, FailureOf;
    WherePush(actions, i, Succeeds(t, reports));
    WherePush(actions, i, Skips);
    assert actions[..i + 1][..i] == actions[..i];
  }

  /** Which of the four branches touches what. */
  lemma KindEffect(t: Target, reports: seq<Pool.Report>, records: Records, letters: FailedTable, a: SyncAction)
    ensures Fetches(a) <==> a.kind.Download? || a.kind.Update?
    ensures (Skips(a) <==> a.kind.Skip?) && (Deletes(a) <==> a.kind.Delete?)
    ensures Fetches(a) || Skips(a) ==> RemovedStep(t, a) == []
    ensures !Fetches(a) ==> LettersStep(t, reports, letters, a) == letters
    ensures Skips(a) ==> RecordsStep(t, reports, records, a) == records
    ensures a.kind.Delete? && DestPath(t, a).Failure? ==>
              RecordsStep(t, reports, records, a) == records && RemovedStep(t, a) == []
    ensures a.kind.Delete? && DestPath(t, a).Success? ==>
              && RecordsStep(t, reports, records, a) == records - {(t.provider, a.path)}
              && RemovedStep(t, a) == [DestPath(t, a).value]
  {
    hide VerdictOn, DestPath;
  }

  lemma {:induction false} CountedAll(t: Target, reports: seq<Pool.Report>, actions: seq<SyncAction>, downloaded: nat,
                                      skipped: nat, bytes: int, failed: seq<FailedFile>)
    requires Counted(t, reports, actions, downloaded, skipped, bytes, failed)
    ensures SyncReport(downloaded, |Where(actions, Deletes)|, skipped, failed, bytes) == ReportOn(t, reports, actions)
  {}

  function Executed(pool: seq<Pool.Job> -> seq<Pool.Report>, jobs: seq<Pool.Job>): seq<Pool.Report> {
    if jobs == [] then [] else pool(jobs)
  }

  function DryReport(actions: seq<SyncAction>): SyncReport {
    SyncReport(|Where(actions, Fetches)|, |Where(actions, Deletes)|, |Where(actions, Skips)|, [], 0)
  }

  lemma NoneCounted(actions: seq<SyncAction>)
    ensures |Where(actions[..0], Fetches)| == |Where(actions[..0], Deletes)| == |Where(actions[..0], Skips)| == 0
  {}

  lemma KindCounted(actions: seq<SyncAction>, i: nat)
    requires i < |actions|
    ensures var a := actions[i];
            && |Where(actions[..i + 1], Fetches)|
               == |Where(actions[..i], Fetches)| + (if a.kind.Download? || a.kind.Update? then 1 else 0)
            && |Where(actions[..i + 1], Deletes)| == |Where(actions[..i], Deletes)| + (if a.kind.Delete? then 1 else 0)
            && |Where(actions[..i + 1], Skips)| == |Where(actions[..i], Skips)| + (if a.kind.Skip? then 1 else 0)
  {
    hide Where;
    WherePush(actions, i, Fetches);
    WherePush(actions, i, Deletes);
    WherePush(actions, i, Skips);
  }

  lemma {:induction false} DryCounts(actions: seq<SyncAction>)
    ensures DryReport(actions)
         == SyncReport(|Where(actions, Fetches)|, |Where(actions, Deletes)|, |Where(actions, Skips)|, [], 0)
  {}

  function RunRow(name: string, status: RunStatus, report: SyncReport): (run: SyncRun)
    ensures run.provider == name && run.status == status && Totals(run, report)
  {
    SyncRun(name, status, report.downloaded, report.deleted, report.skipped, |report.failed|, report.bytesTransferred)
  }

  /** A run's row has the report's totals. */
  predicate Totals(run: SyncRun, report: SyncReport) {
    && run.downloaded == report.downloaded && run.deleted == report.deleted && run.skipped == report.skipped
    && run.failed == |report.failed| && run.bytesTransferred == report.bytesTransferred
  }

  /** The status a run's row is left with. */
  function StatusFor(plan: Result<seq<SyncAction>>, cwd: string, dataDir: string, name: string, dryRun: bool,
                     pool: seq<Pool.Job> -> seq<Pool.Report>): RunStatus {
    match plan
    case Failure(_) => PlanFailed
    case Success(actions) =>
      if dryRun then Completed
      else match SafeJoinUnder(cwd, dataDir, name)
        case Failure(_) => Running
        case Success(root) =>
          var t := Target(cwd, root, name);
          if !AllResolve(t, actions) then Running
          else if FailuresOf(t, Executed(pool, JobsOf(t, actions)), actions) == [] then AllSucceeded
          else Partial
  }

  lemma StatusMeaning(registry: map<string, Result<seq<SyncAction>>>, cwd: string, dataDir: string, name: string,
                      dryRun: bool, pool: seq<Pool.Job> -> seq<Pool.Report>)
    ensures name in registry ==>
              var status := StatusFor(registry[name], cwd, dataDir, name, dryRun, pool);
              && (status.PlanFailed? <==> registry[name].Failure?)
              && (registry[name].Success? ==> (status.Completed? <==> dryRun))
              && (registry[name].Success? && !dryRun ==>
                    && (SafeJoinUnder(cwd, dataDir, name).Failure? ==> status.Running?)
                    && (SafeJoinUnder(cwd, dataDir, name).Success? ==>
                          var t := Target(cwd, SafeJoinUnder(cwd, dataDir, name).value, name);
                          var actions := registry[name].value;
                          && (status.Running? <==> !AllResolve(t, actions))
                          && (AllResolve(t, actions) ==>
                                status == if FailuresOf(t, Executed(pool, JobsOf(t, actions)), actions) == []
                                          then AllSucceeded else Partial)))
  {
    hide SafeJoinUnder, AllResolve, FailuresOf, JobsOf, Executed;
  }

  lemma ExecutedMeaning(pool: seq<Pool.Job> -> seq<Pool.Report>, jobs: seq<Pool.Job>)
    ensures Executed(pool, jobs) == if |jobs| > 0 then pool(jobs) else []
  {}

  lemma {:induction false} ReportParts(t: Target, reports: seq<Pool.Report>, actions: seq<SyncAction>)
    ensures var report := ReportOn(t, reports, actions);
            && report.failed == FailuresOf(t, reports, actions)
            && report.downloaded + |report.failed| + report.skipped + report.deleted == |actions|
  {
    EveryActionCounted(t, reports, actions);
    hide FailuresOf, Succeeds, BytesOf;
  }

  // ---------------------------------------------------------------- the imperative engine

  class SyncManager {
    const cwd: string
    const dataDir: string
    const store: Store
    var runs: seq<SyncRun>

    /** The paths given to os.Remove. */
    var removed: seq<string>

    constructor (cwd: string, dataDir: string, store: Store)
      ensures this.cwd == cwd && this.dataDir == dataDir && this.store == store && runs == [] && removed == []
    {
      this.cwd, this.dataDir, this.store := cwd, dataDir, store;
      runs, removed := [], [];
    }

    method BuildJobs(t: Target, actions: seq<SyncAction>) returns (r: Result<seq<Pool.Job>>)
      ensures r.Success? <==> AllResolve(t, actions)
      ensures r.Success? ==> r.value == JobsOf(t, actions)
    {
      hide DestPath;
      var jobs: seq<Pool.Job> := [];
      for i := 0 to |actions|
        invariant jobs == JobsOf(t, actions[..i])
        invariant AllResolve(t, actions[..i])
      {
        assert actions[..i + 1] == actions[..i] + [actions[i]];
        if Fetches(actions[i]) {
          var dest := DestPath(t, actions[i]);
          if dest.Failure? {
            assert actions[i] in actions;
            return Failure("unsafe download path");
          }
          jobs := jobs + [JobFor(dest.value, actions[i])];
        }
      }
      assert actions[..|actions|] == actions;
      r := Success(jobs);
    }

    /** The results by destination; of several about one destination the last stays. */
    method IndexResults(reports: seq<Pool.Report>) returns (byPath: map<string, Pool.Report>)
      ensures Indexed(byPath, reports)
    {
      byPath := map[];
      for i := 0 to |reports|
        invariant Indexed(byPath, reports[..i])
      {
        assert reports[..i + 1][..i] == reports[..i];
        byPath := byPath[reports[i].job.destPath := reports[i]];
      }
      assert reports[..|reports|] == reports;
    }

    /** The download branch of the result loop. */
    method FetchResult(t: Target, a: SyncAction, byPath: map<string, Pool.Report>, ghost reports: seq<Pool.Report>,
                       downloaded: nat, bytes: int, failed: seq<FailedFile>)
      returns (downloaded': nat, bytes': int, failed': seq<FailedFile>)
      requires store.Valid() && Fetches(a) && Indexed(byPath, reports)
      modifies store
      ensures store.Valid()
      ensures var v := VerdictOn(t, reports, a);
              (downloaded', bytes', failed')
              == if v.Fetched? then (downloaded + 1, bytes + v.size, failed)
                 else (downloaded, bytes, failed + [FailureOf(t, reports, a)])
      ensures store.Records() == RecordsStep(t, reports, old(store.Records()), a)
      ensures store.failed == LettersStep(t, reports, old(store.failed), a)
    {
      hide DestPath, ReportFor, RecordsOf, FileValid, FailedValid, Grows, ApplyFailed;
      downloaded', bytes', failed' := downloaded, bytes, failed;
      var dest := DestPath(t, a);
      if dest.Failure? {
        failed' := failed + [FailedFile(a.path, a.url, "unsafe resolved destination path: " + dest.error, 0)];
      } else if dest.value in byPath {
        var result := byPath[dest.value];
        if result.outcome.Downloaded? {
          downloaded', bytes' := downloaded + 1, bytes + result.outcome.size;
          var _ := store.UpsertFileRecord(FileRow(0, t.provider, a.path, result.outcome.size, result.outcome.sha256));
        } else {
          var error := if result.outcome.Failed? then result.outcome.message else "context canceled";
          failed' := failed + [FailedFile(a.path, a.url, error, 1)];
          store.AddFailedFile(FailedRowOf(t, dest.value, error, a));
        }
      } else {
        failed' := failed + [FailedFile(a.path, a.url, "missing download result", 1)];
      }
    }

    /** The result loop over the plan. */
    method ProcessResults(t: Target, actions: seq<SyncAction>, reports: seq<Pool.Report>) returns (report: SyncReport)
      requires store.Valid()
      modifies store, `removed
      ensures store.Valid()
      ensures report == ReportOn(t, reports, actions)
      ensures store.Records() == RecordsAfter(t, reports, old(store.Records()), actions)
      ensures store.failed == LettersAfter(t, reports, old(store.failed), actions)
      ensures removed == old(removed) + RemovedBy(t, actions)
    {
      hide *;
      var byPath := IndexResults(reports);
      var downloaded, skipped, bytes := 0, 0, 0;
      var failed: seq<FailedFile> := [];
      NoActions(t, reports, old(store.Records()), old(store.failed), actions);
      for i := 0 to |actions|
        invariant store.Valid()
        invariant Counted(t, reports, actions[..i], downloaded, skipped, bytes, failed)
        invariant store.Records() == RecordsAfter(t, reports, old(store.Records()), actions[..i])
        invariant store.failed == LettersAfter(t, reports, old(store.failed), actions[..i])
        invariant removed == old(removed) + RemovedBy(t, actions[..i])
      {
        var a := actions[i];
        OneMoreAction(t, reports, old(store.Records()), old(store.failed), actions, i);
        CountOneMore(t, reports, actions, i, downloaded, skipped, bytes, failed);
        KindEffect(t, reports, store.Records(), store.failed, a);
        match a.kind
        case Download =>
          downloaded, bytes, failed := FetchResult(t, a, byPath, reports, downloaded, bytes, failed);
        case Update =>
          downloaded, bytes, failed := FetchResult(t, a, byPath, reports, downloaded, bytes, failed);
        case Delete =>
          var path := DestPath(t, a);
          if path.Success? {
            removed := removed + [path.value];
            var _ := store.DeleteFileRecord(t.provider, a.path);
          }
        case Skip =>
          skipped := skipped + 1;
      }
      var deleted := 0;
      for i := 0 to |actions|
        invariant deleted == |Where(actions[..i], Deletes)|
        modifies {}
      {
        WherePush(actions, i, Deletes);
        KindEffect(t, reports, store.Records(), store.failed, actions[i]);
        if actions[i].kind.Delete? {
          deleted := deleted + 1;
        }
      }
      report := SyncReport(downloaded, deleted, skipped, failed, bytes);
      assert actions[..|actions|] == actions;
      CountedAll(t, reports, actions, downloaded, skipped, bytes, failed);
    }

    /**
     * SyncProvider. registry holds what each provider's Plan returns; pool is what the download pool returns for a list
     * of jobs. A run that meets an unsafe provider root or download path returns an error and leaves its row running.
     */
    method SyncProvider(registry: map<string, Result<seq<SyncAction>>>, name: string, dryRun: bool,
                        pool: seq<Pool.Job> -> seq<Pool.Report>) returns (r: Result<SyncReport>)
      requires store.Valid()
      modifies this`runs, this`removed, store
      ensures store.Valid()
      ensures name !in registry ==> r.Failure? && runs == old(runs)
      ensures name in registry ==> |runs| == |old(runs)| + 1 && runs[..|old(runs)|] == old(runs)
      ensures name in registry ==> runs[|old(runs)|].status == StatusFor(registry[name], cwd, dataDir, name, dryRun, pool)
      ensures r.Success? <==> name in registry && !StatusFor(registry[name], cwd, dataDir, name, dryRun, pool).PlanFailed?
                              && !StatusFor(registry[name], cwd, dataDir, name, dryRun, pool).Running?
      ensures r.Failure? && name in registry ==>
                runs[|old(runs)|] == SyncRun(name, if registry[name].Failure? then PlanFailed else Running, 0, 0, 0, 0, 0)
      ensures r.Failure? || dryRun ==>
                store.Records() == old(store.Records()) && store.failed == old(store.failed) && removed == old(removed)
      ensures r.Success? && dryRun ==> r.value == DryReport(registry[name].value)
      ensures r.Success? && !dryRun ==>
                var actions := registry[name].value;
                var t := Target(cwd, SafeJoinUnder(cwd, dataDir, name).value, name);
                var reports := Executed(pool, JobsOf(t, actions));
                && r.value == ReportOn(t, reports, actions)
                && store.Records() == RecordsAfter(t, reports, old(store.Records()), actions)
                && store.failed == LettersAfter(t, reports, old(store.failed), actions)
                && removed == old(removed) + RemovedBy(t, actions)
      ensures r.Success? ==>
                && runs[|old(runs)|].provider == name && Totals(runs[|old(runs)|], r.value)
                && runs[|old(runs)|].status
                   == (if dryRun then Completed else if r.value.failed == [] then AllSucceeded else Partial)
                && r.value.downloaded + |r.value.failed| + r.value.skipped + r.value.deleted == |registry[name].value|
    {
      hide *;
      StatusMeaning(registry, cwd, dataDir, name, dryRun, pool);
      if name !in registry {
        return Failure("provider not found");
      }
      var plan := registry[name];
      var started := runs;
      runs := started + [SyncRun(name, Running, 0, 0, 0, 0, 0)];
      if plan.Failure? {
        runs := started + [SyncRun(name, PlanFailed, 0, 0, 0, 0, 0)];
        return Failure("failed to plan sync");
      }
      var actions := plan.value;
      if dryRun {
        var report := CountDry(actions);
        runs := started + [RunRow(name, Completed, report)];
        return Success(report);
      }
      var root := SafeJoinUnder(cwd, dataDir, name);
      if root.Failure? {
        return Failure("invalid provider root");
      }
      var t := Target(cwd, root.value, name);
      var jobs := BuildJobs(t, actions);
      if jobs.Failure? {
        return Failure("unsafe download path");
      }
      var reports: seq<Pool.Report> := [];
      if |jobs.value| > 0 {
        reports := pool(jobs.value);
      }
      ExecutedMeaning(pool, jobs.value);
      var report := ProcessResults(t, actions, reports);
      ReportParts(t, reports, actions);
      runs := started + [RunRow(name, if |report.failed| > 0 then Partial else AllSucceeded, report)];
      return Success(report);
    }

    /** What a dry run counts. */
    method CountDry(actions: seq<SyncAction>) returns (report: SyncReport)
      ensures report == DryReport(actions)
      ensures report.downloaded + |report.failed| + report.skipped + report.deleted == |actions|
    {
      var downloaded, deleted, skipped := 0, 0, 0;
      NoneCounted(actions);
      hide *;
      for i := 0 to |actions|
        invariant downloaded == |Where(actions[..i], Fetches)| && deleted == |Where(actions[..i], Deletes)|
        invariant skipped == |Where(actions[..i], Skips)| && downloaded + deleted + skipped == i
      {
        KindCounted(actions, i);
        match actions[i].kind
        case Download => downloaded := downloaded + 1;
        case Update => downloaded := downloaded + 1;
        case Delete => deleted := deleted + 1;
        case Skip => skipped := skipped + 1;
      }
      DryCounts(actions);
      assert actions[..|actions|] == actions;
      report := SyncReport(downloaded, deleted, skipped, [], 0);
    }
  }

  // ---------------------------------------------------------------- what removals and records mean

  /** A place at or below the target's root. */
  ghost predicate Below(t: Target, p: string) {
    exists names: seq<string> :: Names(names) && p == Render(true, AbsSegments(t.cwd, t.root) + names)
  }

  lemma DestBelow(t: Target, a: SyncAction)
    requires IsAbs(t.cwd) && DestPath(t, a).Success?
    ensures Below(t, DestPath(t, a).value)
  {
    hide Walk, Parts, Render;
    if a.localPath == "" {
      SafeJoinMeaning(t.cwd, t.root, a.path);
      CleanRelativePathMeaning(a.path);
    } else {
      EnsureUnderRootMeaning(t.cwd, t.root, a.localPath);
      AbsMeaning(t.cwd, a.localPath);
      var base, whole := AbsSegments(t.cwd, t.root), AbsSegments(t.cwd, a.localPath);
      assert whole == base + whole[|base|..];
    }
  }

  /** Nothing outside the provider's directory is ever removed. */
  lemma {:induction false} RemovalsBelow(t: Target, actions: seq<SyncAction>)
    requires IsAbs(t.cwd)
    ensures forall p | p in RemovedBy(t, actions) :: Below(t, p)
  {
    hide DestPath, Below;
    if actions != [] {
      RemovalsBelow(t, actions[..|actions| - 1]);
      if RemovedStep(t, actions[|actions| - 1]) != [] {
        DestBelow(t, actions[|actions| - 1]);
      }
    }
  }

  /** Exactly the destinations of the deletes that have one are removed. */
  lemma {:induction false} RemovedExactly(t: Target, actions: seq<SyncAction>, p: string)
    ensures p in RemovedBy(t, actions) <==> exists a :: a in actions && Deletes(a) && DestPath(t, a) == Success(p)
  {
    hide DestPath;
    if actions != [] {
      var n := |actions| - 1;
      assert actions == actions[..n] + [actions[n]];
      RemovedExactly(t, actions[..n], p);
    }
  }

  /** What the report says of a download that did not succeed: where it was, what was tried, and how often. */
  ghost predicate Reports(f: FailedFile, a: SyncAction, v: Verdict) {
    && f.path == a.path && f.url == a.url
    && match v
       case Fetched(_, _) => false
       case Broken(error) => f.error == error && f.attempts == 1
       case Missing => f.error == "missing download result" && f.attempts == 1
       case Unsafe(error) => f.error == "unsafe resolved destination path: " + error && f.attempts == 0
  }

  /** The failures of a report are those of the plan's downloads that did not succeed, in the order of the plan. */
  lemma {:induction false} FailuresMeaning(t: Target, reports: seq<Pool.Report>, actions: seq<SyncAction>)
    ensures |FailuresOf(t, reports, actions)| == |Where(actions, Fails(t, reports))|
    ensures forall i | 0 <= i < |FailuresOf(t, reports, actions)| ::
              var a := Where(actions, Fails(t, reports))[i];
              Reports(FailuresOf(t, reports, actions)[i], a, VerdictOn(t, reports, a))
  {
    hide VerdictOn;
    if actions != [] {
      FailuresMeaning(t, reports, actions[..|actions| - 1]);
    }
  }

  /** Whether an action has a say on a record. */
  predicate Decides(t: Target, reports: seq<Pool.Report>, a: SyncAction, key: (string, string)) {
    key == (t.provider, a.path)
    && ((Fetches(a) && VerdictOn(t, reports, a).Fetched?) || (Deletes(a) && DestPath(t, a).Success?))
  }

  /** The last action with a say on a record decides it; a record no action has a say on stays as it was. */
  lemma {:induction false} LastSay(t: Target, reports: seq<Pool.Report>, records: Records, actions: seq<SyncAction>,
                                   key: (string, string), i: nat)
    requires i <= |actions| && forall j | i <= j < |actions| :: !Decides(t, reports, actions[j], key)
    requires i == 0 || Decides(t, reports, actions[i - 1], key)
    ensures var after := RecordsAfter(t, reports, records, actions);
            if i == 0 then (key in after <==> key in records) && (key in after ==> after[key] == records[key])
            else if Fetches(actions[i - 1]) then
              var v := VerdictOn(t, reports, actions[i - 1]);
              v.Fetched? && key in after && after[key] == FileRecord(v.size, v.sha256)
            else key !in after
  {
    hide VerdictOn, DestPath;
    if i < |actions| {
      var n := |actions| - 1;
      assert !Decides(t, reports, actions[n], key);
      LastSay(t, reports, records, actions[..n], key, i);
    }
  }

  /** What a first sync has recorded for the provider, with the report's counts. */
  ghost predicate Accounts(t: Target, reports: seq<Pool.Report>, actions: seq<SyncAction>, records: Records) {
    && |OfProvider(records, t.provider)| == |Where(actions, Succeeds(t, reports))|
    && Sums.Total(OfProvider(records, t.provider), SizeOf) == BytesOf(t, reports, actions) as real
    && forall k | k in records && k.0 == t.provider :: exists a :: a in actions && a.path == k.1
  }

  /**
   * After a first sync of a plan with distinct paths, the store's count and total size of the provider are the report's
   * number of downloads and bytes transferred.
   */
  lemma {:induction false} FirstSyncAccounts(t: Target, reports: seq<Pool.Report>, records: Records,
                                             actions: seq<SyncAction>)
    requires forall k | k in records :: k.0 != t.provider
    requires forall i, j | 0 <= i < j < |actions| :: actions[i].path != actions[j].path
    ensures Accounts(t, reports, actions, RecordsAfter(t, reports, records, actions))
  {
    hide Accounts, RecordsStep;
    if actions == [] {
      NothingRecorded(t, reports, records);
    } else {
      var n := |actions| - 1;
      FirstSyncAccounts(t, reports, records, actions[..n]);
      assert actions == actions[..n] + [actions[n]];
      AccountsNext(t, reports, actions, RecordsAfter(t, reports, records, actions[..n]));
    }
  }

  lemma {:induction false} NothingRecorded(t: Target, reports: seq<Pool.Report>, records: Records)
    requires forall k | k in records :: k.0 != t.provider
    ensures Accounts(t, reports, [], records)
  {
    assert OfProvider(records, t.provider) == map[];
  }

  lemma {:induction false} AccountsNext(t: Target, reports: seq<Pool.Report>, actions: seq<SyncAction>,
                                        records: Records)
    requires actions != [] && Accounts(t, reports, actions[..|actions| - 1], records)
    requires forall a | a in actions[..|actions| - 1] :: a.path != actions[|actions| - 1].path
    ensures Accounts(t, reports, actions, RecordsStep(t, reports, records, actions[|actions| - 1]))
  {
    hide VerdictOn, DestPath, OfProvider, Sums.Total;
    var n := |actions| - 1;
    var a := actions[n];
    var key := (t.provider, a.path);
    assert actions == actions[..n] + [a];
    assert key !in records;
    if Fetches(a) && VerdictOn(t, reports, a).Fetched? {
      OneMoreRecord(records, key, FileRecord(VerdictOn(t, reports, a).size, VerdictOn(t, reports, a).sha256));
    } else {
      assert records - {key} == records;
    }
  }

  lemma OneMoreRecord(records: Records, key: (string, string), rec: FileRecord)
    requires key !in records
    ensures |OfProvider(records[key := rec], key.0)| == |OfProvider(records, key.0)| + 1
    ensures Sums.Total(OfProvider(records[key := rec], key.0), SizeOf)
         == Sums.Total(OfProvider(records, key.0), SizeOf) + rec.size as real
  {
    var mine := OfProvider(records, key.0);
    OfProviderPut(records, key, rec);
    Sums.TotalPut(mine, SizeOf, key, rec);
    hide Sums.Total, OfProvider;
    assert mine[key := rec].Keys == mine.Keys + {key};
  }

  lemma OfProviderPut(records: Records, key: (string, string), rec: FileRecord)
    ensures OfProvider(records[key := rec], key.0) == OfProvider(records, key.0)[key := rec]
    ensures key !in records ==> key !in OfProvider(records, key.0)
  {}

  // ---------------------------------------------------------------- the dead letters of a run

  /** A download that reported an error: the one verdict that writes a dead letter. */
  predicate Letters(t: Target, reports: seq<Pool.Report>, a: SyncAction) {
    Fetches(a) && VerdictOn(t, reports, a).Broken?
  }

  /**
   * The row that waits for a file after its download has failed: what the action gave, where it gave something, else
   * what an earlier failure had left; the destination, the error, and one more retry.
   */
  ghost predicate LetterFor(t: Target, a: SyncAction, dest: string, error: string, before: Option<FailedRow>,
                            after: Option<FailedRow>) {
    after.Some?
    && var r := after.value;
       && r.provider == t.provider && r.path == a.path && r.error == error && !r.resolved
       && (dest != "" ==> r.destPath == dest)
       && (a.url != "" ==> r.url == a.url) && (a.checksum != "" ==> r.checksum == a.checksum)
       && (a.size > 0 ==> r.size == a.size)
       && match before
          case None => r.retryCount == 1 && r.url == a.url && r.checksum == a.checksum && r.size == a.size
                       && r.destPath == dest
          case Some(earlier) =>
            && r.id == earlier.id && r.retryCount == earlier.retryCount + 1
            && (a.url == "" ==> r.url == earlier.url) && (a.checksum == "" ==> r.checksum == earlier.checksum)
            && (a.size <= 0 ==> r.size == earlier.size) && (dest == "" ==> r.destPath == earlier.destPath)
  }

  /** One action's dead letter, and nobody else's. */
  lemma {:induction false} LetterStep(t: Target, reports: seq<Pool.Report>, failed: FailedTable, a: SyncAction,
                                      key: (string, string))
    requires FailedValid(failed)
    ensures FailedValid(LettersStep(t, reports, failed, a))
    ensures !Letters(t, reports, a) || key != (t.provider, a.path) ==>
              Waiting(LettersStep(t, reports, failed, a).rows, key) == Waiting(failed.rows, key)
    ensures Letters(t, reports, a) ==>
              && DestPath(t, a).Success?
              && LetterFor(t, a, DestPath(t, a).value, VerdictOn(t, reports, a).error,
                           Waiting(failed.rows, (t.provider, a.path)),
                           Waiting(LettersStep(t, reports, failed, a).rows, (t.provider, a.path)))
  {
    BrokenHasDest(t, reports, a);
    hide VerdictOn, DestPath, Waiting, FailedValid, ApplyFailed;
    if Letters(t, reports, a) {
      var rec := FailedRowOf(t, DestPath(t, a).value, VerdictOn(t, reports, a).error, a);
      FailedStep(failed, AddFailed(rec));
      AddFailedMeaning(failed, rec, key);
      AddFailedMeaning(failed, rec, FailedKey(rec));
      WaitingIsHit(failed.rows, FailedKey(rec));
    }
  }

  lemma BrokenHasDest(t: Target, reports: seq<Pool.Report>, a: SyncAction)
    ensures VerdictOn(t, reports, a).Broken? ==> DestPath(t, a).Success?
  {
    hide DestPath, ReportFor;
  }

  /**
   * Over a whole plan with distinct paths: each failed download has its letter, and no other file's waiting row
   * changes.
   */
  lemma {:induction false} LettersMeaning(t: Target, reports: seq<Pool.Report>, failed: FailedTable,
                                          actions: seq<SyncAction>, key: (string, string), i: nat)
    requires FailedValid(failed) && i <= |actions|
    requires forall j | 0 <= j < |actions| && Letters(t, reports, actions[j]) && (t.provider, actions[j].path) == key ::
               j + 1 == i
    requires i > 0 ==> Letters(t, reports, actions[i - 1]) && (t.provider, actions[i - 1].path) == key
    ensures FailedValid(LettersAfter(t, reports, failed, actions))
    ensures var before, after := Waiting(failed.rows, key), Waiting(LettersAfter(t, reports, failed, actions).rows, key);
            if i == 0 then after == before
            else
              var a := actions[i - 1];
              DestPath(t, a).Success?
              && LetterFor(t, a, DestPath(t, a).value, VerdictOn(t, reports, a).error, before, after)
  {
    hide VerdictOn, DestPath, Waiting, FailedValid, LettersStep, LetterFor, Letters;
    if actions != [] {
      var n := |actions| - 1;
      LettersMeaning(t, reports, failed, actions[..n], key, if i == n + 1 then 0 else i);
      LetterStep(t, reports, LettersAfter(t, reports, failed, actions[..n]), actions[n], key);
    }
  }

  /** The directory a provider's name stands for, as names from the file-system root. */
  function ProviderDir(cwd: string, dataDir: string, name: string): seq<string> {
    AbsSegments(cwd, dataDir) + RelSegments(name)
  }

  /** An action whose destination is refused: an unclean relative path, or a local path outside the directory. */
  predicate Refused(cwd: string, dir: seq<string>, a: SyncAction) {
    if a.localPath == "" then CleanRelativePath(a.path).Failure? else !(dir <= AbsSegments(cwd, a.localPath))
  }

  lemma RefusedMeaning(cwd: string, dataDir: string, name: string, root: string, a: SyncAction)
    requires IsAbs(cwd) && SafeJoinUnder(cwd, dataDir, name) == Success(root)
    ensures DestPath(Target(cwd, root, name), a).Failure? <==> Refused(cwd, ProviderDir(cwd, dataDir, name), a)
  {
    hide Walk, Parts, Render, SafeJoinUnder, EnsureUnderRoot, CleanRelativePath;
    SafeJoinMeaning(cwd, dataDir, name);
    CleanRelativePathMeaning(name);
    AbsMeaning(cwd, dataDir);
    AbsOfRendered(cwd, ProviderDir(cwd, dataDir, name));
    if a.localPath == "" {
      SafeJoinMeaning(cwd, root, a.path);
    } else {
      EnsureUnderRootMeaning(cwd, root, a.localPath);
    }
  }

  /** A run's row is left running for good exactly when it was not dry and some path of the plan is refused. */
  lemma LeftRunning(plan: Result<seq<SyncAction>>, cwd: string, dataDir: string, name: string, dryRun: bool,
                    pool: seq<Pool.Job> -> seq<Pool.Report>)
    requires IsAbs(cwd)
    ensures StatusFor(plan, cwd, dataDir, name, dryRun, pool).Running?
       <==> && plan.Success? && !dryRun
            && (CleanRelativePath(name).Failure?
                || exists a :: a in plan.value && Fetches(a) && Refused(cwd, ProviderDir(cwd, dataDir, name), a))
  {
    hide SafeJoinUnder, CleanRelativePath, DestPath, Refused, ProviderDir, FailuresOf, JobsOf;
    SafeJoinMeaning(cwd, dataDir, name);
    if plan.Success? && SafeJoinUnder(cwd, dataDir, name).Success? {
      var root := SafeJoinUnder(cwd, dataDir, name).value;
      forall a | a in plan.value
        ensures DestPath(Target(cwd, root, name), a).Failure? <==> Refused(cwd, ProviderDir(cwd, dataDir, name), a)
      {
        RefusedMeaning(cwd, dataDir, name, root, a);
      }
    }
  }

  /**
   * The tracker is told the number of actions and of skips, and each download once it ends. With nothing under way it
   * shows 100 percent exactly when the plan has actions, none of them is a delete, and every download has ended.
   */
  lemma {:induction false} ShownPercent(t: Target, reports: seq<Pool.Report>, actions: seq<SyncAction>, ended: nat,
                                        files: map<string, Progress.FileProgress>)
    requires forall path | path in files :: !Progress.UnderWay(files[path])
    requires ended <= |Where(actions, Fetches)|
    ensures Progress.Percent(|actions|, |Where(actions, Skips)|, ended, files) == 100.0
       <==> actions != [] && Where(actions, Deletes) == [] && ended == |Where(actions, Fetches)|
  {
    EveryActionCounted(t, reports, actions);
    hide Where;
    var fetches, deletes := |Where(actions, Fetches)|, |Where(actions, Deletes)|;
    assert |actions| - |Where(actions, Skips)| == fetches + deletes;
    Sums.TotalZero(files, Progress.ActiveShare);
    if fetches + deletes > 0 {
      PartOfWhole(ended as real, (fetches + deletes) as real);
    }
  }

  lemma PartOfWhole(part: real, whole: real)
    requires 0.0 <= part <= whole && whole > 0.0
    ensures part / whole * 100.0 == 100.0 <==> part == whole
    ensures part / whole * 100.0 <= 100.0
  {
    var q := part / whole;
    assert q * whole == part;
    Scaled(q, part, whole);
  }

  lemma Scaled(q: real, part: real, whole: real)
    requires whole > 0.0 && q * whole == part
    ensures part < whole <==> q < 1.0
    ensures part > whole <==> q > 1.0
  {
    var gap := 1.0 - q;
    assert gap * whole == whole - part;
    if q < 1.0 {
      assert gap * whole > 0.0;
    } else if q > 1.0 {
      assert (-gap) * whole > 0.0;
    }
  }

  // ---------------------------------------------------------------- whose result an action is given

  function JobNumber(actions: seq<SyncAction>, i: nat): nat
    requires i < |actions|
  {
    |Where(actions[..i], Fetches)|
  }

  predicate DistinctDestinations(jobs: seq<Pool.Job>) {
    forall i, j | 0 <= i < j < |jobs| :: jobs[i].destPath != jobs[j].destPath
  }

  predicate ReportsOn(jobs: seq<Pool.Job>, reports: seq<Pool.Report>) {
    forall r | r in reports :: r.index < |jobs| && r.job == jobs[r.index]
  }

  /** Action i has a job, at its number. */
  ghost predicate JobPlaced(t: Target, actions: seq<SyncAction>, i: nat)
    requires i < |actions|
  {
    && JobNumber(actions, i) < |JobsOf(t, actions)| && DestPath(t, actions[i]).Success?
    && JobsOf(t, actions)[JobNumber(actions, i)] == JobFor(DestPath(t, actions[i]).value, actions[i])
  }

  lemma {:induction false} JobAt(t: Target, actions: seq<SyncAction>, i: nat)
    requires AllResolve(t, actions) && i < |actions| && Fetches(actions[i])
    ensures JobPlaced(t, actions, i)
  {
    hide *;
    var n := |actions| - 1;
    ResolveInit(t, actions);
    JobCount(t, actions[..n]);
    if i < n {
      JobAt(t, actions[..n], i);
      PlacedLater(t, actions, i);
    } else {
      PlacedLast(t, actions);
    }
  }

  lemma PlacedLater(t: Target, actions: seq<SyncAction>, i: nat)
    requires i < |actions| - 1 && JobPlaced(t, actions[..|actions| - 1], i)
    ensures JobPlaced(t, actions, i)
  {
    hide DestPath, JobFor, Where;
    assert actions[..|actions| - 1][..i] == actions[..i];
    assert JobsOf(t, actions[..|actions| - 1]) <= JobsOf(t, actions);
  }

  lemma PlacedLast(t: Target, actions: seq<SyncAction>)
    requires actions != [] && Fetches(actions[|actions| - 1]) && DestPath(t, actions[|actions| - 1]).Success?
    requires |JobsOf(t, actions[..|actions| - 1])| == |Where(actions[..|actions| - 1], Fetches)|
    ensures JobPlaced(t, actions, |actions| - 1)
  {
    hide DestPath, JobFor, Where;
  }

  lemma ResolveInit(t: Target, actions: seq<SyncAction>)
    requires AllResolve(t, actions) && actions != []
    ensures AllResolve(t, actions[..|actions| - 1])
    ensures Fetches(actions[|actions| - 1]) ==> DestPath(t, actions[|actions| - 1]).Success?
  {
    hide DestPath;
    assert actions[|actions| - 1] in actions;
    assert forall a | a in actions[..|actions| - 1] :: a in actions;
  }

  lemma {:induction false} JobCount(t: Target, actions: seq<SyncAction>)
    requires AllResolve(t, actions)
    ensures |JobsOf(t, actions)| == |Where(actions, Fetches)|
  {
    hide DestPath, JobFor, AllResolve;
    if actions != [] {
      ResolveInit(t, actions);
      JobCount(t, actions[..|actions| - 1]);
    }
  }

  /** What the verdict on an action says about the reports, and the error it carries. */
  lemma VerdictMeaning(t: Target, reports: seq<Pool.Report>, a: SyncAction)
    ensures match VerdictOn(t, reports, a)
            case Unsafe(error) => DestPath(t, a) == Failure(error)
            case Missing => DestPath(t, a).Success? && forall r | r in reports :: r.job.destPath != DestPath(t, a).value
            case Fetched(size, sha256) =>
              DestPath(t, a).Success? && exists i, r ::
                NewestAt(reports, DestPath(t, a).value, i, r) && r.outcome == Pool.Downloaded(size, sha256)
            case Broken(error) =>
              DestPath(t, a).Success? && exists i, r ::
                NewestAt(reports, DestPath(t, a).value, i, r)
                && if r.outcome.Cancelled? then error == "context canceled" else r.outcome == Pool.Failed(error)
  {
    hide DestPath, ReportFor, NewestAt;
    if DestPath(t, a).Success? {
      ReportForMeaning(reports, DestPath(t, a).value);
    }
  }

  /** The report on a destination is the newest about it. */
  lemma {:induction false} ReportForMeaning(reports: seq<Pool.Report>, dest: string)
    ensures match ReportFor(reports, dest)
            case None => forall r | r in reports :: r.job.destPath != dest
            case Some(r) => r in reports && r.job.destPath == dest && exists i :: NewestAt(reports, dest, i, r)
  {
    if reports != [] {
      var n := |reports| - 1;
      assert reports == reports[..n] + [reports[n]];
      if reports[n].job.destPath == dest {
        assert NewestAt(reports, dest, n, reports[n]);
      } else {
        ReportForMeaning(reports[..n], dest);
        if i :| ReportFor(reports[..n], dest).Some? && NewestAt(reports[..n], dest, i, ReportFor(reports[..n], dest).value) {
          assert NewestAt(reports, dest, i, ReportFor(reports, dest).value);
        }
      }
    }
  }

  /** The report at a position is about this destination, and no later one is. */
  predicate NewestAt(reports: seq<Pool.Report>, dest: string, i: nat, r: Pool.Report) {
    i < |reports| && reports[i] == r && r.job.destPath == dest
    && forall j | i < j < |reports| :: reports[j].job.destPath != dest
  }

  /** With distinct destinations an action is judged by the report on its own job, and is missing when there is none. */
  lemma {:induction false} OwnReport(t: Target, actions: seq<SyncAction>, reports: seq<Pool.Report>, i: nat)
    requires AllResolve(t, actions) && i < |actions| && Fetches(actions[i])
    requires ReportsOn(JobsOf(t, actions), reports) && DistinctDestinations(JobsOf(t, actions))
    ensures DestPath(t, actions[i]).Success?
    ensures match ReportFor(reports, DestPath(t, actions[i]).value)
            case None => forall r | r in reports :: r.index != JobNumber(actions, i)
            case Some(r) => r in reports && r.index == JobNumber(actions, i)
  {
    JobAt(t, actions, i);
    hide DestPath, ReportFor, JobNumber, JobsOf;
    var dest := DestPath(t, actions[i]).value;
    ReportForMeaning(reports, dest);
  }

  ghost predicate Answered(reports: seq<Pool.Report>, k: nat) { exists r :: r in reports && r.index == k }

  function VerdictFrom(outcome: Pool.Outcome): Verdict {
    match outcome
    case Downloaded(size, sha256) => Fetched(size, sha256)
    case Failed(message) => Broken(message)
    case Cancelled => Broken("context canceled")
  }

  /**
   * After any finished pool run, cancelled or not, with distinct destinations: the verdict on each download is what the
   * worker that took its job decided, and is "missing" exactly when the cancellation kept the job from a worker.
   * Without a cancellation no verdict is missing and none is the cancellation's.
   */
  lemma {:induction false} PoolVerdict(t: Target, actions: seq<SyncAction>, s: Pool.State, reports: seq<Pool.Report>,
                                       i: nat)
    requires Pool.Inv(s) && s.finished && Pool.SortedFrom(reports, s.collected)
    requires AllResolve(t, actions) && s.jobs == JobsOf(t, actions) && DistinctDestinations(s.jobs)
    requires i < |actions| && Fetches(actions[i])
    ensures var k := JobNumber(actions, i);
            && k < |s.jobs| && s.jobs[k].url == actions[i].url
            && (Answered(reports, k) ==>
                  k in s.outcomes && VerdictOn(t, reports, actions[i]) == VerdictFrom(s.outcomes[k]))
            && (!Answered(reports, k) ==> s.cancelled && VerdictOn(t, reports, actions[i]) == Missing)
            && (!s.cancelled ==> Answered(reports, k) && !s.outcomes[k].Cancelled?)
  {
    hide *;
    ReportsOk(s, reports);
    JobAt(t, actions, i);
    PlacedJob(t, actions, i);
    if !s.cancelled { Answers(s, reports, JobNumber(actions, i)); }
    var k := JobNumber(actions, i);
    ReportsAreOnJobs(s, reports);
    OwnReport(t, actions, reports, i);
    VerdictOfReport(t, s, actions[i], reports, k);
  }

  lemma {:induction false} PlacedJob(t: Target, actions: seq<SyncAction>, i: nat)
    requires i < |actions| && JobPlaced(t, actions, i)
    ensures DestPath(t, actions[i]).Success? && JobNumber(actions, i) < |JobsOf(t, actions)|
    ensures JobsOf(t, actions)[JobNumber(actions, i)].url == actions[i].url
  {
    hide DestPath, JobsOf, JobNumber;
  }

  ghost predicate AllOk(s: Pool.State, reports: seq<Pool.Report>) { forall r | r in reports :: Pool.ReportOk(s, r) }

  lemma ReportsOk(s: Pool.State, reports: seq<Pool.Report>)
    requires Pool.Inv(s) && s.finished && Pool.SortedFrom(reports, s.collected)
    ensures AllOk(s, reports)
  {
    Pool.ResultsInOrder(s, reports);
    hide Pool.Inv, Pool.SortedFrom, Pool.ReportOk;
    forall r | r in reports ensures Pool.ReportOk(s, r) {
      var j :| 0 <= j < |reports| && reports[j] == r;
    }
  }

  lemma ReportsAreOnJobs(s: Pool.State, reports: seq<Pool.Report>)
    requires AllOk(s, reports)
    ensures ReportsOn(s.jobs, reports)
  {
    forall r | r in reports ensures r.index < |s.jobs| && r.job == s.jobs[r.index] { assert Pool.ReportOk(s, r); }
  }

  /** Without a cancellation job k is answered, and not by the cancellation. */
  lemma Answers(s: Pool.State, reports: seq<Pool.Report>, k: nat)
    requires Pool.Inv(s) && s.finished && !s.cancelled && Pool.SortedFrom(reports, s.collected) && k < |s.jobs|
    ensures Answered(reports, k) && k in s.outcomes && !s.outcomes[k].Cancelled?
  {
    Pool.ExecuteReturnsAll(s, reports);
    hide Pool.Inv, Pool.SortedFrom;
    assert reports[k] in reports;
  }

  lemma {:induction false} VerdictOfReport(t: Target, s: Pool.State, a: SyncAction, reports: seq<Pool.Report>, k: nat)
    requires AllOk(s, reports) && DestPath(t, a).Success?
    requires match ReportFor(reports, DestPath(t, a).value)
             case None => forall r | r in reports :: r.index != k
             case Some(r) => r in reports && r.index == k
    ensures Answered(reports, k) ==> k in s.outcomes && VerdictOn(t, reports, a) == VerdictFrom(s.outcomes[k])
    ensures !Answered(reports, k) ==> VerdictOn(t, reports, a) == Missing
  {
    hide DestPath, ReportFor;
    match ReportFor(reports, DestPath(t, a).value)
    case None =>
    case Some(r) => assert Pool.ReportOk(s, r);
  }

  // ---------------------------------------------------------------- the final percentage

  /** The pool calls back for a download that returned, not for a job a worker refused. */
  predicate CalledBack(r: Pool.Report) { !r.outcome.Cancelled? }

  lemma {:induction false} WhereAll<T(!new)>(list: seq<T>, keep: T -> bool)
    ensures |Where(list, keep)| <= |list|
    ensures |Where(list, keep)| == |list| <==> forall x | x in list :: keep(x)
  {
    if list != [] {
      var n := |list| - 1;
      WhereAll(list[..n], keep);
      assert list == list[..n] + [list[n]];
      assert forall x | x in list[..n] :: x in list;
    }
  }

  /** Job k was downloaded, with or without success. */
  ghost predicate Ended(reports: seq<Pool.Report>, k: nat) {
    exists r :: r in reports && r.index == k && CalledBack(r)
  }

  /**
   * A finished pool run calls back at most once a job, and once for every job exactly when every job was downloaded.
   */
  lemma {:induction false} EndedDownloads(s: Pool.State, reports: seq<Pool.Report>)
    requires Pool.Inv(s) && s.finished && Pool.SortedFrom(reports, s.collected)
    ensures |Where(reports, CalledBack)| <= |s.jobs|
    ensures |Where(reports, CalledBack)| == |s.jobs| <==> forall k: nat | k < |s.jobs| :: Ended(reports, k)
  {
    Pool.ResultsInOrder(s, reports);
    WhereAll(reports, CalledBack);
    var n := |s.jobs|;
    hide Where, Pool.Inv, Pool.SortedFrom;
    if |reports| > 0 {
      Pool.IncreasingAtLeast(reports, |reports| - 1);
    }
    if |reports| == n && forall r | r in reports :: CalledBack(r) {
      forall k: nat | k < n ensures Ended(reports, k) {
        AtItsIndex(reports, n, k);
        assert reports[k] in reports;
      }
    }
    if forall k: nat | k < n :: Ended(reports, k) {
      AllEnded(reports, n);
    }
  }

  lemma {:induction false} AtItsIndex(reports: seq<Pool.Report>, n: nat, k: nat)
    requires forall j, i | 0 <= j < i < |reports| :: reports[j].index < reports[i].index
    requires forall j | 0 <= j < |reports| :: reports[j].index < n
    requires |reports| == n && k < n
    ensures reports[k].index == k
    decreases n - k
  {
    Pool.IncreasingAtLeast(reports, k);
    if k < n - 1 {
      AtItsIndex(reports, n, k + 1);
    }
  }

  lemma AllEnded(reports: seq<Pool.Report>, n: nat)
    requires forall j, i | 0 <= j < i < |reports| :: reports[j].index < reports[i].index
    requires forall j | 0 <= j < |reports| :: reports[j].index < n
    requires forall k: nat | k < n :: Ended(reports, k)
    ensures |reports| == n && forall r | r in reports :: CalledBack(r)
  {
    forall m: nat | m < n ensures Pool.HasIndex(reports, m) {
      assert Ended(reports, m);
      var r :| r in reports && r.index == m;
      var j :| 0 <= j < |reports| && reports[j] == r;
    }
    Pool.FullLength(reports, n);
    forall r | r in reports ensures CalledBack(r) {
      assert Ended(reports, r.index);
      var q :| q in reports && q.index == r.index && CalledBack(q);
      var j :| 0 <= j < |reports| && reports[j] == r;
      var i :| 0 <= i < |reports| && reports[i] == q;
    }
  }

  /**
   * After a finished pool run, cancelled or not, the tracker shows 100 percent exactly when the plan has actions, none
   * of them is a delete, and every download of the plan was made, with or without success.
   */
  lemma {:induction false} FinalPercent(t: Target, actions: seq<SyncAction>, s: Pool.State, reports: seq<Pool.Report>,
                                        files: map<string, Progress.FileProgress>)
    requires Pool.Inv(s) && s.finished && Pool.SortedFrom(reports, s.collected)
    requires AllResolve(t, actions) && s.jobs == JobsOf(t, actions)
    requires forall path | path in files :: !Progress.UnderWay(files[path])
    ensures Progress.Percent(|actions|, |Where(actions, Skips)|, |Where(reports, CalledBack)|, files) == 100.0
       <==> actions != [] && Where(actions, Deletes) == [] && forall k: nat | k < |s.jobs| :: Ended(reports, k)
  {
    hide *;
    EndedDownloads(s, reports);
    JobCount(t, actions);
    ShownPercent(t, reports, actions, |Where(reports, CalledBack)|, files);
  }

  /** A plan with one delete ends at 0 percent, however well it went. */
  lemma DeleteNeverEnds(path: string, files: map<string, Progress.FileProgress>)
    requires forall p | p in files :: !Progress.UnderWay(files[p])
    ensures var actions := [SyncAction(ActionKind.Delete, path, "", "", 0, "")];
            Progress.Percent(|actions|, |Where(actions, Skips)|, 0, files) == 0.0
  {
    Sums.TotalZero(files, Progress.ActiveShare);
    var actions := [SyncAction(ActionKind.Delete, path, "", "", 0, "")];
    assert actions[..0] == [];
    assert Where(actions, Skips) == [];
  }

  /** A plan with one download to a path that leads upward leaves its run row running. */
  lemma RefusedPath(cwd: string, dataDir: string, name: string, pool: seq<Pool.Job> -> seq<Pool.Report>)
    requires IsAbs(cwd) && CleanRelativePath(name).Success?
    ensures var actions := [SyncAction(ActionKind.Download, "..", "", "", 0, "")];
            StatusFor(Success(actions), cwd, dataDir, name, false, pool).Running?
  {
    var a := SyncAction(ActionKind.Download, "..", "", "", 0, "");
    UpwardRefused();
    hide CleanRelativePath, StatusFor;
    LeftRunning(Success([a]), cwd, dataDir, name, false, pool);
    assert a in [a] && Fetches(a) && Refused(cwd, ProviderDir(cwd, dataDir, name), a);
  }

  lemma UpwardRefused()
    ensures CleanRelativePath("..").Failure?
  {}
}
