/**
 * The pool's workers on the disk: whatever the interleaving of their steps and of the writes inside their downloads,
 * and whenever the cancellation comes, the disk and the results are those of the same jobs done one after another.
 */
module PoolSync {
  import opened Text
  import opened ImageFixpoint
  import opened SyncEngine
  import opened SyncRun
  import Pool = DownloadPool

  /** The pool, the disk, and the files as the downloads started so far found them, by job index. */
  datatype State = State(pool: Pool.State, disk: Disk, begun: map<nat, Option<Bytes>>)

  /** A step of the pool, or a write by the download a worker is inside. */
  datatype Event = PoolStep(action: Pool.Action) | Write(w: nat, file: Option<Bytes>)

  /**
   * A download's result is fixed by the file it began with; what it writes in between is any file at its destination.
   */
  ghost predicate Next(world: World, s: State, e: Event, s': State) {
    match e
    case Write(w, file) =>
      && w < |s.pool.workers| && s.pool.workers[w].Running?
      && s' == s.(disk := Put(s.disk, s.pool.workers[w].task.job.destPath, file))
    case PoolStep(a) =>
      && Pool.Steps(s.pool, a, s'.pool)
      && match a
         case StartDownload(w) =>
           var task := s.pool.workers[w].task;
           s'.disk == s.disk && s'.begun == s.begun[task.index := At(s.disk, task.job.destPath)]
         case FinishDownload(w, outcome) =>
           var task := s.pool.workers[w].task;
           && task.index in s.begun && s'.begun == s.begun
           && var (left, r) := Fetch(world, task.job, task.index, s.begun[task.index]);
              outcome == OutcomeOf(r) && s'.disk == Put(s.disk, task.job.destPath, left)
         case _ => s'.disk == s.disk && s'.begun == s.begun
  }

  ghost predicate IsRun(world: World, jobs: seq<Pool.Job>, workers: int, before: Disk, states: seq<State>,
                        events: seq<Event>) {
    && |states| == |events| + 1
    && states[0] == State(Pool.Init(jobs, workers), before, map[])
    && forall k | 0 <= k < |events| :: Next(world, states[k], events[k], states[k + 1])
  }

  // ---------------------------------------------------------------- which downloads have begun

  predicate Waiting(s: State, i: nat) { i !in s.begun && i !in s.pool.outcomes }

  predicate WorkerStage(s: State, w: Pool.Worker) {
    match w
    case Holding(t) => Waiting(s, t.index)
    case Running(t) => t.index in s.begun && t.index !in s.pool.outcomes
    case _ => true
  }

  /** Queued and held jobs have not begun; running ones have and are undecided; a cancelled one never begins. */
  predicate Staged(s: State) {
    && (forall t | t in s.pool.queue :: Waiting(s, t.index))
    && (forall w | 0 <= w < |s.pool.workers| :: WorkerStage(s, s.pool.workers[w]))
    && (forall i | i in s.begun :: i < s.pool.sent)
    && (forall i | i in s.pool.outcomes :: i < s.pool.sent && (s.pool.outcomes[i].Cancelled? <==> i !in s.begun))
  }

  /** What the file at job i's destination is by now. */
  predicate FileStage(world: World, before: Disk, s: State, i: nat)
    requires i < |s.pool.jobs|
  {
    var job := s.pool.jobs[i];
    var found := At(before, job.destPath);
    if i in s.pool.outcomes && i in s.begun then
      At(s.disk, job.destPath) == Fetch(world, job, i, found).0
      && s.pool.outcomes[i] == OutcomeOf(Fetch(world, job, i, found).1)
    else if i in s.begun then s.begun[i] == found
    else At(s.disk, job.destPath) == found
  }

  ghost predicate OthersSame(before: Disk, s: State) {
    forall path | NoJobGoes(s.pool.jobs, path) :: At(s.disk, path) == At(before, path)
  }

  ghost predicate FilesStaged(world: World, before: Disk, s: State) {
    forall i: nat | i < |s.pool.jobs| :: FileStage(world, before, s, i)
  }

  ghost predicate Inv(world: World, before: Disk, s: State) {
    && Pool.Inv(s.pool) && DistinctDestinations(s.pool.jobs)
    && Staged(s) && FilesStaged(world, before, s) && OthersSame(before, s)
  }

  // ---------------------------------------------------------------- every step keeps the invariant

  lemma AtPut(disk: Disk, path: string, file: Option<Bytes>, other: string)
    ensures At(Put(disk, path, file), other) == if other == path then file else At(disk, other)
  {}

  predicate Moves(a: Pool.Action) { !a.SeeCancel? && !a.StartDownload? && !a.FinishDownload? }

  /** A step that neither starts nor decides a download: what it moved keeps its stage, and so does everything else. */
  lemma MoveStaged(s: State, a: Pool.Action, s': State)
    requires Pool.Steps(s.pool, a, s'.pool) && Moves(a) && Staged(s) && s'.begun == s.begun
    ensures Staged(s') && s'.pool.outcomes == s.pool.outcomes
  {
    if a.Receive? {
      assert s.pool.queue[0] in s.pool.queue;
    }
    forall v | 0 <= v < |s'.pool.workers| ensures WorkerStage(s', s'.pool.workers[v]) {
      assert WorkerStage(s, s.pool.workers[v]);
    }
    forall t | t in s'.pool.queue ensures Waiting(s', t.index) {
      assert t in s.pool.queue || t.index == s.pool.sent;
    }
  }

  /** Where a worker goes when it starts or decides its download, and what else stays. */
  lemma DecisionEffect(s: Pool.State, a: Pool.Action, s': Pool.State)
    requires Pool.Steps(s, a, s') && !Moves(a)
    ensures a.w < |s.workers| && s'.workers == s.workers[a.w := s'.workers[a.w]]
    ensures s'.queue == s.queue && s'.sent == s.sent && s'.jobs == s.jobs
    ensures s.workers[a.w].Holding? || s.workers[a.w].Running?
    ensures a.StartDownload? ==> s.workers[a.w].Holding? && s'.outcomes == s.outcomes
                                 && s'.workers[a.w] == Pool.Running(s.workers[a.w].task)
    ensures a.SeeCancel? ==> s.workers[a.w].Holding? && s'.outcomes == s.outcomes[s.workers[a.w].task.index := Pool.Cancelled]
    ensures a.FinishDownload? ==> s.workers[a.w].Running? && !a.outcome.Cancelled?
                                  && s'.outcomes == s.outcomes[s.workers[a.w].task.index := a.outcome]
    ensures a.SeeCancel? ==> s'.workers[a.w].SendingCancelled?
    ensures a.FinishDownload? ==> s'.workers[a.w].Sending?
  {}

  /** A worker that starts or decides its download changes the stage of no other job. */
  lemma DecisionStaged(world: World, s: State, a: Pool.Action, s': State)
    requires Pool.Inv(s.pool) && Next(world, s, PoolStep(a), s') && !Moves(a) && Staged(s)
    ensures Staged(s')
  {
    hide Fetch, Put, At;
    DecisionEffect(s.pool, a, s'.pool);
    hide Pool.Steps;
    var i := s.pool.workers[a.w].task.index;
    assert Pool.InHand(s.pool.workers[a.w], i) == 1;
    Pool.HeldAlone(s.pool, a.w, i);
    HeldIsSent(s.pool, a.w, i);
    assert WorkerStage(s, s.pool.workers[a.w]);
    hide Pool.Inv;
    forall v | 0 <= v < |s'.pool.workers| ensures WorkerStage(s', s'.pool.workers[v]) {
      assert WorkerStage(s, s.pool.workers[v]);
    }
  }

  lemma HeldIsSent(s: Pool.State, w: nat, i: nat)
    requires Pool.Located(s) && w < |s.workers| && Pool.InHand(s.workers[w], i) == 1
    ensures i < s.sent
  {
    Pool.HandsContain(s.workers, w, i);
    assert Pool.Places(s, i) >= 1;
  }

  /** Starting, deciding or writing: the file and the stage of every other job stay as they are. */
  lemma OtherFile(world: World, before: Disk, s: State, s': State, i: nat, k: nat, file: Option<Bytes>)
    requires s'.pool.jobs == s.pool.jobs && DistinctDestinations(s.pool.jobs)
    requires i < |s.pool.jobs| && k < |s.pool.jobs| && i != k && FileStage(world, before, s, i)
    requires s'.disk == Put(s.disk, s.pool.jobs[k].destPath, file) || s'.disk == s.disk
    requires SameElsewhere(s.begun, s'.begun, k) && SameElsewhere(s.pool.outcomes, s'.pool.outcomes, k)
    ensures FileStage(world, before, s', i)
  {
    AtPut(s.disk, s.pool.jobs[k].destPath, file, s.pool.jobs[i].destPath);
    hide Put, At, Fetch, OutcomeOf;
  }

  /** The job a worker has in hand. */
  function TaskIn(s: State, e: Event): Option<Pool.Task> {
    var w := match e
      case Write(w, _) => w
      case PoolStep(a) =>
        if a.SeeCancel? || a.StartDownload? || a.FinishDownload? then a.w else |s.pool.workers|;
    if w < |s.pool.workers| && (s.pool.workers[w].Holding? || s.pool.workers[w].Running?)
    then Some(s.pool.workers[w].task) else None
  }

  lemma TaskIsJob(s: State, e: Event)
    requires Pool.Inv(s.pool) && TaskIn(s, e).Some?
    ensures Pool.TaskOk(s.pool, TaskIn(s, e).value)
  {
    var w := if e.Write? then e.w else e.action.w;
    assert Pool.WorkerOk(s.pool, s.pool.workers[w]);
  }

  /** The file and stage of the job a worker is at. */
  lemma OwnStage(world: World, before: Disk, s: State, e: Event, s': State)
    requires Pool.Inv(s.pool) && Staged(s) && Next(world, s, e, s') && TaskIn(s, e).Some?
    requires TaskIn(s, e).value.index < |s.pool.jobs| && s'.pool.jobs == s.pool.jobs
    requires FileStage(world, before, s, TaskIn(s, e).value.index)
    ensures FileStage(world, before, s', TaskIn(s, e).value.index)
  {
    hide Fetch, OutcomeOf, Pool.Inv, Put, At;
    TaskIsJob(s, e);
    var w := if e.Write? then e.w else e.action.w;
    assert WorkerStage(s, s.pool.workers[w]);
    hide Staged;
    if e.PoolStep? {
      OwnDecision(world, before, s, e.action, s');
    }
  }

  lemma OwnDecision(world: World, before: Disk, s: State, a: Pool.Action, s': State)
    requires Next(world, s, PoolStep(a), s') && !Moves(a) && a.w < |s.pool.workers|
    requires WorkerStage(s, s.pool.workers[a.w]) && TaskIn(s, PoolStep(a)).Some?
    requires Pool.TaskOk(s.pool, s.pool.workers[a.w].task) && s'.pool.jobs == s.pool.jobs
    requires FileStage(world, before, s, s.pool.workers[a.w].task.index)
    ensures FileStage(world, before, s', s.pool.workers[a.w].task.index)
  {
    hide Fetch, OutcomeOf, Put, At;
    DecisionEffect(s.pool, a, s'.pool);
    hide Pool.Steps;
    var task := s.pool.workers[a.w].task;
    if a.FinishDownload? {
      AtPut(s.disk, task.job.destPath, Fetch(world, task.job, task.index, s.begun[task.index]).0, task.job.destPath);
    }
  }

  ghost predicate SameElsewhere<T(!new)>(m: map<nat, T>, m': map<nat, T>, k: nat) {
    forall i: nat | i != k :: (i in m' <==> i in m) && (i in m ==> m'[i] == m[i])
  }

  /** A worker's step touches its own destination and its own job's entries only. */
  lemma WritesOwnFile(world: World, s: State, e: Event, s': State)
    requires Next(world, s, e, s') && TaskIn(s, e).Some?
    ensures var task := TaskIn(s, e).value;
            && (s'.disk == s.disk || s'.disk == Put(s.disk, task.job.destPath, At(s'.disk, task.job.destPath)))
            && SameElsewhere(s.begun, s'.begun, task.index)
            && SameElsewhere(s.pool.outcomes, s'.pool.outcomes, task.index)
  {
    hide Fetch, OutcomeOf;
  }

  lemma NextFiles(world: World, before: Disk, s: State, e: Event, s': State)
    requires Inv(world, before, s) && Next(world, s, e, s') && s'.pool.jobs == s.pool.jobs && TaskIn(s, e).Some?
    ensures FilesStaged(world, before, s') && OthersSame(before, s')
  {
    TaskIsJob(s, e);
    var task := TaskIn(s, e).value;
    var file := At(s'.disk, task.job.destPath);
    WritesOwnFile(world, s, e, s');
    forall i: nat | i < |s'.pool.jobs| ensures FileStage(world, before, s', i) {
      if i == task.index {
        OwnStage(world, before, s, e, s');
      } else {
        hide FileStage, Pool.Inv, DistinctDestinations, Staged;
        OtherFile(world, before, s, s', i, task.index, file);
      }
    }
    forall path | NoJobGoes(s'.pool.jobs, path) ensures At(s'.disk, path) == At(before, path) {
      assert s.pool.jobs[task.index] in s.pool.jobs;
      AtPut(s.disk, task.job.destPath, file, path);
    }
  }

  /** Every step, and every write inside a download, keeps the invariant. */
  lemma NextInv(world: World, before: Disk, s: State, e: Event, s': State)
    requires Inv(world, before, s) && Next(world, s, e, s')
    ensures Inv(world, before, s') && s'.pool.jobs == s.pool.jobs
  {
    if e.PoolStep? { Pool.StepsKeepInv(s.pool, e.action, s'.pool); }
    hide Pool.Inv, DistinctDestinations, Pool.Steps, FileStage;
    NextStaged(world, s, e, s');
    hide Staged;
    if TaskIn(s, e).Some? {
      NextFiles(world, before, s, e, s');
    } else {
      NothingDecided(world, s, e, s');
      StagesDepend(world, before, s, s');
    }
  }

  lemma NextStaged(world: World, s: State, e: Event, s': State)
    requires Pool.Inv(s.pool) && Staged(s) && Next(world, s, e, s')
    ensures Staged(s')
  {
    hide Pool.Inv, Fetch, Put, At;
    match e
    case Write(_, _) =>
    case PoolStep(a) =>
      hide Staged;
      if Moves(a) { MoveStaged(s, a, s'); } else { DecisionStaged(world, s, a, s'); }
  }

  lemma NothingDecided(world: World, s: State, e: Event, s': State)
    requires Next(world, s, e, s') && TaskIn(s, e).None?
    ensures s'.disk == s.disk && s'.begun == s.begun && s'.pool.outcomes == s.pool.outcomes
  {
    if e.PoolStep? {
      if Moves(e.action) {
        KeepsOutcomes(s.pool, e.action, s'.pool);
      } else {
        DecisionEffect(s.pool, e.action, s'.pool);
      }
    }
    hide Fetch, Put, At, Pool.Steps;
  }

  lemma KeepsOutcomes(s: Pool.State, a: Pool.Action, s': Pool.State)
    requires Pool.Steps(s, a, s') && Moves(a)
    ensures s'.outcomes == s.outcomes
  {}

  lemma StagesDepend(world: World, before: Disk, s: State, s': State)
    requires FilesStaged(world, before, s) && OthersSame(before, s)
    requires s'.disk == s.disk && s'.begun == s.begun && s'.pool.outcomes == s.pool.outcomes && s'.pool.jobs == s.pool.jobs
    ensures FilesStaged(world, before, s') && OthersSame(before, s')
  {
    hide Fetch, Put, At;
    forall i: nat | i < |s'.pool.jobs| ensures FileStage(world, before, s', i) {
      assert FileStage(world, before, s, i);
    }
  }

  /** The invariant holds in every state of every run. */
  lemma {:induction false} RunInv(world: World, jobs: seq<Pool.Job>, workers: int, before: Disk, states: seq<State>,
                                  events: seq<Event>, k: nat)
    requires IsRun(world, jobs, workers, before, states, events) && DistinctDestinations(jobs) && k < |states|
    ensures Inv(world, before, states[k]) && states[k].pool.jobs == jobs
  {
    if k == 0 {
      Pool.InitInv(jobs, workers);
    } else {
      hide Inv, Next;
      RunInv(world, jobs, workers, before, states, events, k - 1);
      NextInv(world, before, states[k - 1], events[k - 1], states[k]);
    }
  }

  // ---------------------------------------------------------------- the end of a run

  /** What became of job i, read off the workers' decisions. */
  function FateIn(s: State, i: nat): Fate {
    if i !in s.pool.outcomes then NeverTaken else if s.pool.outcomes[i].Cancelled? then SawCancel else Ran
  }

  /** The world with the fates this run gave its jobs. */
  function WorldOf(world: World, s: State): World { world.(fate := (i: nat) => FateIn(s, i)) }

  /** At the end a job is decided exactly when it was collected, and nothing is under way. */
  lemma EndDecided(s: State, i: nat)
    requires Pool.Inv(s.pool) && Staged(s) && s.pool.finished && i < |s.pool.jobs|
    ensures i in s.pool.outcomes <==> exists r :: r in s.pool.collected && r.index == i
    ensures i in s.begun ==> i in s.pool.outcomes
  {
    Pool.FinishedPlaces(s.pool, i);
    if forall r | r in s.pool.collected :: r.index != i {
      Pool.NotAmongReports(s.pool.collected, i);
      if i < s.pool.sent {
        InQueueSome(s.pool.queue, i);
      }
    }
  }

  lemma {:induction false} InQueueSome(tasks: seq<Pool.Task>, i: nat)
    requires Pool.InQueue(tasks, i) > 0
    ensures exists t :: t in tasks && t.index == i
  {
    var n := |tasks| - 1;
    if tasks[n].index != i {
      InQueueSome(tasks[..n], i);
      var t :| t in tasks[..n] && t.index == i;
      assert t in tasks;
    } else {
      assert tasks[n] in tasks;
    }
  }

  /** The file at job i's destination when the run ends. */
  lemma {:induction false} EndFile(world: World, before: Disk, s: State, i: nat)
    requires Inv(world, before, s) && s.pool.finished && i < |s.pool.jobs|
    ensures At(s.disk, s.pool.jobs[i].destPath)
         == At(DiskAfter(WorldOf(world, s), s.pool.jobs, before), s.pool.jobs[i].destPath)
  {
    EndDecided(s, i);
    OwnFile(WorldOf(world, s), s.pool.jobs, before, i);
    SameFetch(world, s, s.pool.jobs[i], i, At(before, s.pool.jobs[i].destPath));
    assert FileStage(world, before, s, i);
    hide Pool.Inv, DistinctDestinations, DiskAfter, Fetch, OutcomeOf, At;
  }

  lemma SameFetch(world: World, s: State, job: Pool.Job, i: nat, file: Option<Bytes>)
    ensures Fetch(WorldOf(world, s), job, i, file) == Fetch(world, job, i, file)
  {}

  lemma SameDisk(disk: Disk, other: Disk)
    requires forall path :: At(disk, path) == At(other, path)
    ensures disk == other
  {
    forall path ensures path in disk <==> path in other { assert At(disk, path) == At(other, path); }
    forall path | path in disk ensures disk[path] == other[path] { assert At(disk, path) == At(other, path); }
  }

  /** The disk of a finished run is the disk of the same jobs done one after another. */
  lemma {:induction false} EndDisk(world: World, before: Disk, s: State)
    requires Inv(world, before, s) && s.pool.finished
    ensures s.disk == DiskAfter(WorldOf(world, s), s.pool.jobs, before)
  {
    var after := DiskAfter(WorldOf(world, s), s.pool.jobs, before);
    hide DiskAfter, Pool.Inv, DistinctDestinations, Staged, FilesStaged, At, WorldOf;
    forall path ensures At(s.disk, path) == At(after, path) {
      if i :| 0 <= i < |s.pool.jobs| && s.pool.jobs[i].destPath == path {
        EndFile(world, before, s, i);
      } else {
        forall job | job in s.pool.jobs ensures job.destPath != path {}
        Untouched(WorldOf(world, s), s.pool.jobs, before, path);
      }
    }
    SameDisk(s.disk, after);
  }

  ghost predicate SameMembers(left: seq<Pool.Report>, right: seq<Pool.Report>) { forall r :: r in left <==> r in right }

  lemma LastSame(left: seq<Pool.Report>, right: seq<Pool.Report>)
    requires Increasing(left) && Increasing(right) && SameMembers(left, right) && left != [] && right != []
    ensures left[|left| - 1] == right[|right| - 1]
  {
    var m, n := |left| - 1, |right| - 1;
    assert left[m] in left && right[n] in right;
    var j :| 0 <= j <= n && right[j] == left[m];
    var k :| 0 <= k <= m && left[k] == right[n];
    UpToLast(right, j);
    UpToLast(left, k);
  }

  lemma UpToLast(reports: seq<Pool.Report>, j: nat)
    requires Increasing(reports) && j < |reports|
    ensures reports[j].index <= reports[|reports| - 1].index
    ensures j < |reports| - 1 ==> reports[j].index < reports[|reports| - 1].index
  {}

  /** Two lists of reports in strictly increasing order with the same members are the same list. */
  lemma {:induction false} IncreasingUnique(left: seq<Pool.Report>, right: seq<Pool.Report>)
    requires Increasing(left) && Increasing(right) && SameMembers(left, right)
    ensures left == right
  {
    assert left != [] ==> left[0] in left;
    assert right != [] ==> right[0] in right;
    if left != [] && right != [] {
      var m, n := |left| - 1, |right| - 1;
      LastSame(left, right);
      assert SameMembers(left[..m], right[..n]) by {
        forall r ensures r in left[..m] <==> r in right[..n] { InitMembers(left, r); InitMembers(right, r); }
      }
      hide SameMembers;
      IncreasingUnique(left[..m], right[..n]);
      assert left == left[..m] + [left[m]] && right == right[..n] + [right[n]];
    }
  }

  predicate Increasing(reports: seq<Pool.Report>) {
    forall j, k | 0 <= j < k < |reports| :: reports[j].index < reports[k].index
  }

  lemma InitMembers(reports: seq<Pool.Report>, r: Pool.Report)
    requires Increasing(reports) && reports != []
    ensures r in reports[..|reports| - 1] <==> r in reports && r != reports[|reports| - 1]
  {
    var n := |reports| - 1;
    assert reports == reports[..n] + [reports[n]];
    if r in reports[..n] {
      var j :| 0 <= j < n && reports[j] == r;
    }
  }

  /** The reports of jobs done one after another come in increasing order. */
  lemma {:induction false} ReportsIncrease(world: World, jobs: seq<Pool.Job>, before: Disk)
    ensures Increasing(ReportsAfter(world, jobs, before))
    ensures forall r | r in ReportsAfter(world, jobs, before) :: r.index < |jobs|
  {
    hide Fetch, DiskAfter;
    if jobs != [] {
      ReportsIncrease(world, jobs[..|jobs| - 1], before);
    }
  }

  /** A result of a finished run is the report its job gets one after another. */
  lemma ResultIsReport(world: World, before: Disk, s: State, r: Pool.Report)
    requires Inv(world, before, s) && Pool.ReportOk(s.pool, r)
    ensures r == ReportAt(WorldOf(world, s), s.pool.jobs, before, r.index)
    ensures !FateIn(s, r.index).NeverTaken?
  {
    var i := r.index;
    assert FileStage(world, before, s, i);
    assert Staged(s);
    SameFetch(world, s, s.pool.jobs[i], i, At(before, s.pool.jobs[i].destPath));
    hide Pool.Inv, DistinctDestinations, Fetch, At;
  }

  /**
   * A finished run of the pool, in any interleaving and with any cancellation, returns the results and leaves the disk
   * of the same jobs done one after another.
   */
  lemma {:induction false} FinishedRun(world: World, jobs: seq<Pool.Job>, workers: int, before: Disk,
                                       states: seq<State>, events: seq<Event>, results: seq<Pool.Report>)
    requires IsRun(world, jobs, workers, before, states, events) && DistinctDestinations(jobs)
    requires var s := states[|states| - 1]; s.pool.finished && Pool.SortedFrom(results, s.pool.collected)
    ensures var s := states[|states| - 1];
            && s.disk == DiskAfter(WorldOf(world, s), jobs, before)
            && results == ReportsAfter(WorldOf(world, s), jobs, before)
  {
    var s := states[|states| - 1];
    RunInv(world, jobs, workers, before, states, events, |states| - 1);
    hide Inv, IsRun, DiskAfter, ReportsAfter, WorldOf;
    EndDisk(world, before, s);
    EndResults(world, before, s, results);
  }

  lemma {:induction false} EndResults(world: World, before: Disk, s: State, results: seq<Pool.Report>)
    requires Inv(world, before, s) && s.pool.finished && Pool.SortedFrom(results, s.pool.collected)
    ensures results == ReportsAfter(WorldOf(world, s), s.pool.jobs, before)
  {
    var expected := ReportsAfter(WorldOf(world, s), s.pool.jobs, before);
    Pool.ResultsInOrder(s.pool, results);
    ReportsIncrease(WorldOf(world, s), s.pool.jobs, before);
    ReportsMeaning(WorldOf(world, s), s.pool.jobs, before);
    hide ReportsAfter, Pool.Inv, DistinctDestinations, Staged, FilesStaged, OthersSame, ReportAt;
    forall r ensures r in results <==> r in expected {
      if r in results {
        var j :| 0 <= j < |results| && results[j] == r;
        ResultIsReport(world, before, s, r);
      }
      if r in expected {
        EndDecided(s, r.index);
        var c :| c in s.pool.collected && c.index == r.index;
        assert c in multiset(results);
        assert c in results;
        var j :| 0 <= j < |results| && results[j] == c;
        ResultIsReport(world, before, s, c);
      }
    }
    IncreasingUnique(results, expected);
  }

  /** A finished run over a plan's jobs is a sync of the plan, for the planner and validation alike. */
  lemma {:induction false} ConcurrentSync(site: Site, t: Target, world: World, workers: int, before: Disk,
                                          actions: seq<SyncAction>, states: seq<State>, events: seq<Event>,
                                          results: seq<Pool.Report>)
    requires t.cwd == site.cwd && t.root == site.root && world.hash == site.hash
    requires IsRun(world, JobsOf(t, actions), workers, before, states, events)
    requires DistinctDestinations(JobsOf(t, actions))
    requires var s := states[|states| - 1]; s.pool.finished && Pool.SortedFrom(results, s.pool.collected)
    ensures Synced(site, t, before, states[|states| - 1].disk, actions, results)
  {
    var s := states[|states| - 1];
    hide *;
    FinishedRun(world, JobsOf(t, actions), workers, before, states, events, results);
    KeepsHash(world, s);
    JobsDeliver(site, t, WorldOf(world, s), before, actions);
  }

  lemma KeepsHash(world: World, s: State)
    ensures WorldOf(world, s).hash == world.hash
  {}

  /** Until the collector finishes some step can be taken, with the result the download it ends must have. */
  lemma Proceeds(world: World, before: Disk, s: State) returns (e: Event, s': State)
    requires Inv(world, before, s) && !s.pool.finished
    ensures Next(world, s, e, s') && e.PoolStep? && !e.action.Cancel?
  {
    var a := Pool.Progress(s.pool);
    if a.FinishDownload? {
      var task := s.pool.workers[a.w].task;
      assert WorkerStage(s, s.pool.workers[a.w]);
      hide Pool.Inv, Put, At, Fetch;
      var (left, r) := Fetch(world, task.job, task.index, s.begun[task.index]);
      a := Pool.FinishDownload(a.w, OutcomeOf(r));
      s' := State(Pool.Apply(s.pool, a), Put(s.disk, task.job.destPath, left), s.begun);
    } else {
      hide Pool.Inv, Put, At, Fetch;
      s' := State(Pool.Apply(s.pool, a), s.disk, s.begun);
      if a.StartDownload? {
        var task := s.pool.workers[a.w].task;
        s' := s'.(begun := s.begun[task.index := At(s.disk, task.job.destPath)]);
      }
    }
    e := PoolStep(a);
  }
}
