/** The pool's workers and the progress tracker they call back: what the tracker shows when the pool has finished. */
module PoolProgress {
  import opened StoreTables
  import opened SyncEngine
  import Pool = DownloadPool
  import Progress = ProgressTracker

  datatype State = State(pool: Pool.State, board: Progress.Board)

  /** A step of the pool, or bytes arriving in the download a worker is inside. */
  datatype Event = PoolStep(action: Pool.Action) | Arrive(w: nat, bytes: int, total: int)

  /** OnComplete is called when a download returns, before its result is sent. */
  function Ending(dest: string, outcome: Pool.Outcome): Progress.Call {
    match outcome
    case Downloaded(size, _) => Progress.Succeeded(dest, size)
    case _ => Progress.Broke(dest)
  }

  ghost predicate Next(s: State, e: Event, s': State) {
    match e
    case Arrive(w, bytes, total) =>
      && w < |s.pool.workers| && s.pool.workers[w].Running? && s'.pool == s.pool
      && s'.board == Progress.Hear(s.board, Progress.Arriving(s.pool.workers[w].task.job.destPath, bytes, total))
    case PoolStep(a) =>
      && Pool.Steps(s.pool, a, s'.pool)
      && s'.board == if a.FinishDownload? then
                       Progress.Hear(s.board, Ending(s.pool.workers[a.w].task.job.destPath, a.outcome))
                     else s.board
  }

  ghost predicate IsRun(jobs: seq<Pool.Job>, workers: int, states: seq<State>, events: seq<Event>) {
    && |states| == |events| + 1
    && states[0] == State(Pool.Init(jobs, workers), Progress.Board(map[], 0))
    && forall k | 0 <= k < |events| :: Next(states[k], events[k], states[k + 1])
  }

  // ---------------------------------------------------------------- which files are under way

  predicate Downloading(workers: seq<Pool.Worker>, w: nat, dest: string) {
    w < |workers| && workers[w].Running? && workers[w].task.job.destPath == dest
  }

  /** A file shown as under way is being downloaded by some worker. */
  ghost predicate FilesBusy(s: State) {
    forall path | path in s.board.files && Progress.UnderWay(s.board.files[path]) ::
      exists w :: Downloading(s.pool.workers, w, path)
  }

  /** How many workers are about to send a download's result. */
  function Sendings(workers: seq<Pool.Worker>): nat {
    if workers == [] then 0
    else Sendings(workers[..|workers| - 1]) + if workers[|workers| - 1].Sending? then 1 else 0
  }

  lemma {:induction false} SendingsUpdate(workers: seq<Pool.Worker>, w: nat, to: Pool.Worker)
    requires w < |workers|
    ensures Sendings(workers[w := to])
         == Sendings(workers) - (if workers[w].Sending? then 1 else 0) + (if to.Sending? then 1 else 0)
  {
    var n := |workers| - 1;
    if w < n {
      SendingsUpdate(workers[..n], w, to);
      assert workers[w := to][..n] == workers[..n][w := to];
    } else {
      assert workers[w := to][..n] == workers[..n];
    }
  }

  lemma {:induction false} NoSendings(workers: seq<Pool.Worker>)
    requires forall w | 0 <= w < |workers| :: !workers[w].Sending?
    ensures Sendings(workers) == 0
  {
    if workers != [] {
      NoSendings(workers[..|workers| - 1]);
    }
  }

  /** Every download that ended is about to be sent, in the channel or collected. */
  ghost predicate EndsCounted(s: State) {
    s.board.ended == Sendings(s.pool.workers) + |Where(s.pool.buffer, CalledBack)| + |Where(s.pool.collected, CalledBack)|
  }

  ghost predicate Inv(s: State) { Pool.Inv(s.pool) && FilesBusy(s) && EndsCounted(s) }

  // ---------------------------------------------------------------- every step keeps the invariant

  lemma {:induction false} WhereConcat<T(!new)>(a: seq<T>, b: seq<T>, keep: T -> bool)
    ensures Where(a + b, keep) == Where(a, keep) + Where(b, keep)
  {
    if b == [] {
      assert a + b == a;
    } else {
      var n := |b| - 1;
      assert (a + b)[..|a| + n] == a + b[..n];
      WhereConcat(a, b[..n], keep);
    }
  }

  lemma WhereOne<T(!new)>(x: T, keep: T -> bool)
    ensures |Where([x], keep)| == if keep(x) then 1 else 0
  {
    assert [x][..0] == [];
  }

  lemma {:induction false} WhereAdd<T(!new)>(list: seq<T>, x: T, keep: T -> bool)
    ensures |Where(list + [x], keep)| == |Where(list, keep)| + if keep(x) then 1 else 0
    ensures |Where([x] + list, keep)| == |Where(list, keep)| + if keep(x) then 1 else 0
  {
    WhereConcat(list, [x], keep);
    WhereConcat([x], list, keep);
    WhereOne(x, keep);
    hide Where;
  }

  /** What a step of the pool moves, as far as ended downloads go. */
  lemma StepMoves(s: Pool.State, a: Pool.Action, s': Pool.State)
    requires Pool.Steps(s, a, s')
    ensures Pool.ByWorker(a) ==> a.w < |s.workers| && s'.workers == s.workers[a.w := s'.workers[a.w]]
    ensures !Pool.ByWorker(a) ==> s'.workers == s.workers
    ensures a.FinishDownload? ==> s.workers[a.w].Running? && s'.workers[a.w].Sending?
    ensures a.SendResult? ==> && (s.workers[a.w].Sending? || s.workers[a.w].SendingCancelled?)
                              && !s'.workers[a.w].Sending? && s'.buffer == s.buffer + [s.workers[a.w].report]
    ensures Pool.ByWorker(a) && !a.FinishDownload? && !a.SendResult? ==>
              !s.workers[a.w].Sending? && !s'.workers[a.w].Sending?
    ensures Pool.ByWorker(a) && s.workers[a.w].Running? ==> a.FinishDownload?
    ensures !a.SendResult? && !a.Collect? ==> s'.buffer == s.buffer
    ensures !a.Collect? ==> s'.collected == s.collected
    ensures a.Collect? ==> s.buffer != [] && s'.collected == s.collected + [s.buffer[0]] && s'.buffer == s.buffer[1..]
    ensures a.FinishDownload? ==> !a.outcome.Cancelled?
  {}

  lemma SendingOk(s: Pool.State, w: nat)
    requires Pool.Inv(s) && w < |s.workers|
    ensures s.workers[w].Sending? ==> CalledBack(s.workers[w].report)
    ensures s.workers[w].SendingCancelled? ==> !CalledBack(s.workers[w].report)
  {
    assert Pool.WorkerOk(s, s.workers[w]);
  }

  lemma StepCounted(s: State, a: Pool.Action, s': State)
    requires Inv(s) && Next(s, PoolStep(a), s')
    ensures EndsCounted(s')
  {
    hide Pool.Steps, Pool.Inv, FilesBusy, Sendings, Where, CalledBack, Progress.FileOn;
    StepMoves(s.pool, a, s'.pool);
    if Pool.ByWorker(a) {
      SendingsUpdate(s.pool.workers, a.w, s'.pool.workers[a.w]);
      SendingOk(s.pool, a.w);
    }
    if a.SendResult? {
      WhereAdd(s.pool.buffer, s.pool.workers[a.w].report, CalledBack);
    } else if a.Collect? {
      WhereAdd(s.pool.collected, s.pool.buffer[0], CalledBack);
      WhereAdd(s.pool.buffer[1..], s.pool.buffer[0], CalledBack);
      assert s.pool.buffer == [s.pool.buffer[0]] + s.pool.buffer[1..];
    }
  }

  lemma StepBusy(s: State, a: Pool.Action, s': State)
    requires FilesBusy(s) && Next(s, PoolStep(a), s')
    ensures FilesBusy(s')
  {
    StepMoves(s.pool, a, s'.pool);
    hide Pool.Steps;
    forall path | path in s'.board.files && Progress.UnderWay(s'.board.files[path])
      ensures exists w :: Downloading(s'.pool.workers, w, path)
    {
      var w :| Downloading(s.pool.workers, w, path);
      assert Downloading(s'.pool.workers, w, path);
    }
  }

  lemma ArriveBusy(s: State, w: nat, bytes: int, total: int, s': State)
    requires FilesBusy(s) && Next(s, Arrive(w, bytes, total), s')
    ensures FilesBusy(s')
  {
    var dest := s.pool.workers[w].task.job.destPath;
    forall path | path in s'.board.files && Progress.UnderWay(s'.board.files[path])
      ensures exists v :: Downloading(s'.pool.workers, v, path)
    {
      if path == dest {
        assert Downloading(s'.pool.workers, w, path);
      }
    }
  }

  /** Every step of the pool, and all progress inside a download, keeps the invariant. */
  lemma NextInv(s: State, e: Event, s': State)
    requires Inv(s) && Next(s, e, s')
    ensures Inv(s') && s'.pool.jobs == s.pool.jobs
  {
    match e
    case Arrive(w, bytes, total) =>
      ArriveBusy(s, w, bytes, total, s');
      hide Pool.Inv, FilesBusy;
    case PoolStep(a) =>
      Pool.StepsKeepInv(s.pool, a, s'.pool);
      StepBusy(s, a, s');
      StepCounted(s, a, s');
      hide Pool.Inv, FilesBusy, EndsCounted, Pool.Steps;
  }

  lemma {:induction false} RunInv(jobs: seq<Pool.Job>, workers: int, states: seq<State>, events: seq<Event>, k: nat)
    requires IsRun(jobs, workers, states, events) && k < |states|
    ensures Inv(states[k]) && states[k].pool.jobs == jobs
  {
    if k == 0 {
      Pool.InitInv(jobs, workers);
      NoSendings(Pool.Init(jobs, workers).workers);
    } else {
      hide Inv, Next;
      RunInv(jobs, workers, states, events, k - 1);
      NextInv(states[k - 1], events[k - 1], states[k]);
    }
  }

  // ---------------------------------------------------------------- how downloads are shown to have ended

  /** The file of a download that ended shows how: done with its size, or failed. */
  ghost predicate Shown(files: map<string, Progress.FileProgress>, r: Pool.Report) {
    var dest := r.job.destPath;
    match r.outcome
    case Downloaded(size, _) => dest in files && files[dest].done && files[dest].bytesDownloaded == size
    case Failed(_) => dest in files && files[dest].failed
    case Cancelled => true
  }

  ghost predicate AllShown(s: State) {
    && (forall w | 0 <= w < |s.pool.workers| && s.pool.workers[w].Sending? ::
          Shown(s.board.files, s.pool.workers[w].report))
    && (forall r | r in s.pool.buffer || r in s.pool.collected :: Shown(s.board.files, r))
  }

  /** What else has been reported went elsewhere than the download a worker is inside. */
  lemma ElsewhereBound(s: Pool.State, w: nat)
    requires Pool.Inv(s) && DistinctDestinations(s.jobs) && w < |s.workers| && s.workers[w].Running?
    ensures forall r | r in s.buffer || r in s.collected :: r.job.destPath != s.workers[w].task.job.destPath
    ensures forall v | 0 <= v < |s.workers| && s.workers[v].Sending? ::
              s.workers[v].report.job.destPath != s.workers[w].task.job.destPath
  {
    var k := s.workers[w].task.index;
    Pool.HeldAlone(s, w, k);
    assert Pool.WorkerOk(s, s.workers[w]);
    hide Pool.Located, Pool.Budgeted, Pool.Phased;
    forall r | r in s.buffer || r in s.collected ensures r.job.destPath != s.workers[w].task.job.destPath {
      assert Pool.ReportOk(s, r);
    }
    forall v | 0 <= v < |s.workers| && s.workers[v].Sending?
      ensures s.workers[v].report.job.destPath != s.workers[w].task.job.destPath
    {
      assert Pool.WorkerOk(s, s.workers[v]) && Pool.InHand(s.workers[v], k) == 0;
    }
  }

  lemma HearElsewhere(b: Progress.Board, c: Progress.Call, r: Pool.Report)
    requires Shown(b.files, r) && r.job.destPath != c.path
    ensures Shown(Progress.Hear(b, c).files, r)
  {}

  lemma FinishShown(s: State, w: nat, outcome: Pool.Outcome, s': State)
    requires Pool.Inv(s.pool) && DistinctDestinations(s.pool.jobs) && AllShown(s)
    requires Next(s, PoolStep(Pool.FinishDownload(w, outcome)), s')
    ensures AllShown(s')
  {
    ElsewhereBound(s.pool, w);
    var call := Ending(s.pool.workers[w].task.job.destPath, outcome);
    hide Pool.Inv, Shown;
    forall r | Shown(s.board.files, r) && r.job.destPath != call.path ensures Shown(s'.board.files, r) {
      HearElsewhere(s.board, call, r);
    }
    var report := s'.pool.workers[w].report;
    NewShown(s.board, report);
  }

  lemma NewShown(b: Progress.Board, r: Pool.Report)
    requires !r.outcome.Cancelled?
    ensures Shown(Progress.Hear(b, Ending(r.job.destPath, r.outcome)).files, r)
  {}

  lemma OtherStepShown(s: State, a: Pool.Action, s': State)
    requires Pool.Inv(s.pool) && AllShown(s) && !a.FinishDownload? && Next(s, PoolStep(a), s')
    ensures AllShown(s')
  {
    StepMoves(s.pool, a, s'.pool);
    if a.SendResult? {
      SendingOk(s.pool, a.w);
      CancelledShown(s.board, s.pool.workers[a.w].report);
    }
    hide Pool.Steps, Pool.Inv, Shown, CalledBack;
    forall w | 0 <= w < |s'.pool.workers| && s'.pool.workers[w].Sending?
      ensures Shown(s'.board.files, s'.pool.workers[w].report)
    {
      assert Pool.ByWorker(a) ==> w != a.w;
    }
  }

  lemma CancelledShown(b: Progress.Board, r: Pool.Report)
    ensures !CalledBack(r) ==> Shown(b.files, r)
  {}

  lemma ArriveShown(s: State, w: nat, bytes: int, total: int, s': State)
    requires Pool.Inv(s.pool) && DistinctDestinations(s.pool.jobs) && AllShown(s)
    requires Next(s, Arrive(w, bytes, total), s')
    ensures AllShown(s')
  {
    ElsewhereBound(s.pool, w);
    var call := Progress.Arriving(s.pool.workers[w].task.job.destPath, bytes, total);
    hide Pool.Inv, Shown;
    forall r | Shown(s.board.files, r) && r.job.destPath != call.path ensures Shown(s'.board.files, r) {
      HearElsewhere(s.board, call, r);
    }
  }

  /**
   * With distinct destinations, every download that ended is shown as it ended, from then on: done with the size of its
   * result, or failed.
   */
  lemma {:induction false} RunShown(jobs: seq<Pool.Job>, workers: int, states: seq<State>, events: seq<Event>, k: nat)
    requires IsRun(jobs, workers, states, events) && k < |states| && DistinctDestinations(jobs)
    ensures AllShown(states[k])
  {
    if k > 0 {
      RunInv(jobs, workers, states, events, k - 1);
      RunShown(jobs, workers, states, events, k - 1);
      var s, e, s' := states[k - 1], events[k - 1], states[k];
      assert Next(s, e, s');
      hide AllShown, Next, IsRun, FilesBusy, EndsCounted, Pool.Inv;
      match e
      case Arrive(w, bytes, total) => ArriveShown(s, w, bytes, total, s');
      case PoolStep(a) =>
        match a
        case FinishDownload(w, outcome) => FinishShown(s, w, outcome, s');
        case _ => OtherStepShown(s, a, s');
    }
  }

  // ---------------------------------------------------------------- the end of a run

  lemma WithoutOne<T>(a: seq<T>, b: seq<T>, n: nat, j: nat)
    requires multiset(a) == multiset(b) && |a| == n + 1 && j < |b| && b[j] == a[n]
    ensures multiset(a[..n]) == multiset(b[..j] + b[j + 1..])
  {
    assert a == a[..n] + [a[n]];
    assert b == b[..j] + [b[j]] + b[j + 1..];
    var p, q, one := multiset(a[..n]), multiset(b[..j] + b[j + 1..]), multiset{a[n]};
    assert p + one == q + one;
    assert p == p + one - one && q == q + one - one;
  }

  lemma {:induction false} WherePermuted<T(!new)>(a: seq<T>, b: seq<T>, keep: T -> bool)
    requires multiset(a) == multiset(b)
    ensures |Where(a, keep)| == |Where(b, keep)|
  {
    if a == [] {
      assert |multiset(a)| == 0 && |multiset(b)| == |b|;
    } else {
      var n := |a| - 1;
      assert a == a[..n] + [a[n]];
      assert a[n] in multiset(b);
      var j :| 0 <= j < |b| && b[j] == a[n];
      assert b == b[..j] + ([b[j]] + b[j + 1..]);
      WithoutOne(a, b, n, j);
      WherePermuted(a[..n], b[..j] + b[j + 1..], keep);
      WhereAdd(a[..n], a[n], keep);
      WhereAdd(b[j + 1..], b[j], keep);
      WhereConcat(b[..j], b[j + 1..], keep);
      WhereConcat(b[..j], [b[j]] + b[j + 1..], keep);
      hide Where;
    }
  }

  /** When the pool has finished, nothing is under way and every call back is counted. */
  lemma {:induction false} EndShown(s: State, reports: seq<Pool.Report>)
    requires Inv(s) && s.pool.finished && Pool.SortedFrom(reports, s.pool.collected)
    ensures forall path | path in s.board.files :: !Progress.UnderWay(s.board.files[path])
    ensures s.board.ended == |Where(reports, CalledBack)|
  {
    WherePermuted(reports, s.pool.collected, CalledBack);
    NoSendings(s.pool.workers);
  }

  /**
   * After any finished run, cancelled or not, the tracker shows 100 percent exactly when the plan has actions, none of
   * them is a delete, and every download of the plan was made, with or without success.
   */
  lemma {:induction false} RunPercent(t: Target, actions: seq<SyncAction>, workers: int, states: seq<State>,
                                      events: seq<Event>, reports: seq<Pool.Report>)
    requires AllResolve(t, actions) && IsRun(JobsOf(t, actions), workers, states, events)
    requires var s := states[|states| - 1]; s.pool.finished && Pool.SortedFrom(reports, s.pool.collected)
    ensures (var board := states[|states| - 1].board;
             Progress.Percent(|actions|, |Where(actions, Skips)|, board.ended, board.files) == 100.0)
            <==> actions != [] && Where(actions, Deletes) == []
                 && forall k: nat | k < |JobsOf(t, actions)| :: Ended(reports, k)
  {
    var s := states[|states| - 1];
    RunInv(JobsOf(t, actions), workers, states, events, |states| - 1);
    EndShown(s, reports);
    assert Pool.Inv(s.pool);
    hide *;
    FinalPercent(t, actions, s.pool, reports, s.board.files);
  }
}
