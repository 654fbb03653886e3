/**
 * Pool.Execute as a protocol: one sender, some workers, one closer, one collector and a cancellation that may come at
 * any moment, each moving by atomic steps on two buffered channels.
 */
module DownloadPool {

  /** What Download returned for a job, or the cancellation a worker reports instead of calling it. */
  datatype Outcome = Downloaded(size: nat, sha256: string) | Failed(message: string) | Cancelled

  /** A result as the pool sends it: the job it is for, the job's index and the outcome. */
  datatype Report = Report(job: Job, index: nat, outcome: Outcome)

  datatype Job = Job(url: string, destPath: string, expectedChecksum: string, expectedSize: int)

  datatype Task = Task(job: Job, index: nat)

  /** Where a worker stands in its loop. */
  datatype Worker =
    | Idle                                         // about to receive from the job channel
    | Holding(task: Task)                     // received a job, has not looked at the context yet
    | Running(task: Task)                     // inside client.Download
    | Sending(report: Report)                 // about to send a download's result
    | SendingCancelled(report: Report)        // about to send a cancelled result and return
    | Done

  /**
   * The state of one Execute call. emitted counts, per worker, the results it has sent since the cancellation;
   * outcomes records what each finished job's worker decided. Both only watch.
   */
  datatype State = State(
    jobs: seq<Job>,
    sent: nat,
    jobsClosed: bool,
    queue: seq<Task>,
    workers: seq<Worker>,
    buffer: seq<Report>,
    resultsClosed: bool,
    collected: seq<Report>,
    finished: bool,
    cancelled: bool,
    emitted: seq<nat>,
    outcomes: map<nat, Outcome>)

  /** NewPool: at least one worker. */
  function WorkerCount(workers: int): nat { if workers <= 0 then 1 else workers }

  function Init(jobs: seq<Job>, workers: int): State {
    var n := WorkerCount(workers);
    State(jobs, 0, false, [], seq(n, i => Idle), [], false, [], false, false, seq(n, i => 0), map[])
  }

  datatype Action =
    | Cancel
    | SendJob
    | CloseJobs            // every job sent
    | AbortSend            // the sender saw the cancellation
    | Receive(w: nat)
    | Leave(w: nat)        // the job channel is closed and drained
    | SeeCancel(w: nat)
    | StartDownload(w: nat)
    | FinishDownload(w: nat, outcome: Outcome)
    | SendResult(w: nat)
    | CloseResults         // every worker returned
    | Collect
    | FinishCollect

  predicate Enabled(s: State, a: Action) {
    match a
    case Cancel => !s.cancelled
    case SendJob => !s.jobsClosed && s.sent < |s.jobs| && |s.queue| < |s.jobs|
    case CloseJobs => !s.jobsClosed && s.sent == |s.jobs|
    case AbortSend => !s.jobsClosed && s.sent < |s.jobs| && s.cancelled
    case Receive(w) => w < |s.workers| && s.workers[w].Idle? && s.queue != []
    case Leave(w) => w < |s.workers| && s.workers[w].Idle? && s.queue == [] && s.jobsClosed
    case SeeCancel(w) => w < |s.workers| && s.workers[w].Holding? && s.cancelled
    case StartDownload(w) => w < |s.workers| && s.workers[w].Holding? && !s.cancelled
    case FinishDownload(w, outcome) => w < |s.workers| && s.workers[w].Running? && !outcome.Cancelled?
    case SendResult(w) =>
      w < |s.workers| && (s.workers[w].Sending? || s.workers[w].SendingCancelled?) && |s.buffer| < |s.jobs|
    case CloseResults => !s.resultsClosed && forall w | w in s.workers :: w.Done?
    case Collect => !s.finished && s.buffer != []
    case FinishCollect => !s.finished && s.buffer == [] && s.resultsClosed
  }

  function SetWorker(s: State, w: nat, to: Worker): State
    requires w < |s.workers|
  {
    s.(workers := s.workers[w := to])
  }

  /** A worker has decided the job it holds and is about to send the report. */
  function Decide(s: State, w: nat, outcome: Outcome): (s': State)
    requires w < |s.workers| && (s.workers[w].Holding? || s.workers[w].Running?)
  {
    var t := s.workers[w].task;
    var report := Report(t.job, t.index, outcome);
    SetWorker(s, w, if outcome.Cancelled? then SendingCancelled(report) else Sending(report))
      .(outcomes := s.outcomes[t.index := outcome])
  }

  function Send(s: State, w: nat): (s': State)
    requires w < |s.workers| && w < |s.emitted| && (s.workers[w].Sending? || s.workers[w].SendingCancelled?)
  {
    SetWorker(s, w, if s.workers[w].Sending? then Idle else Done)
      .(buffer := s.buffer + [s.workers[w].report],
        emitted := if s.cancelled then s.emitted[w := s.emitted[w] + 1] else s.emitted)
  }

  /** Whether a step is some worker's. */
  predicate ByWorker(a: Action) {
    a.Receive? || a.Leave? || a.SeeCancel? || a.StartDownload? || a.FinishDownload? || a.SendResult?
  }

  function ApplyWorker(s: State, a: Action): (s': State)
    requires Enabled(s, a) && ByWorker(a) && |s.emitted| == |s.workers|
    ensures s'.jobs == s.jobs && |s'.workers| == |s'.emitted| == |s.workers|
  {
    match a
    case Receive(w) => SetWorker(s, w, Holding(s.queue[0])).(queue := s.queue[1..])
    case Leave(w) => SetWorker(s, w, Done)
    case SeeCancel(w) => Decide(s, w, Cancelled)
    case StartDownload(w) => SetWorker(s, w, Running(s.workers[w].task))
    case FinishDownload(w, outcome) => Decide(s, w, outcome)
    case SendResult(w) => Send(s, w)
  }

  function Apply(s: State, a: Action): (s': State)
    requires Enabled(s, a) && |s.emitted| == |s.workers|
    ensures s'.jobs == s.jobs && |s'.workers| == |s'.emitted| == |s.workers|
  {
    if ByWorker(a) then ApplyWorker(s, a)
    else match a
      case Cancel => s.(cancelled := true)
      case SendJob => s.(queue := s.queue + [Task(s.jobs[s.sent], s.sent)], sent := s.sent + 1)
      case CloseJobs => s.(jobsClosed := true)
      case AbortSend => s.(jobsClosed := true)
      case CloseResults => s.(resultsClosed := true)
      case Collect => s.(collected := s.collected + [s.buffer[0]], buffer := s.buffer[1..])
      case FinishCollect => s.(finished := true)
  }

  // ---------------------------------------------------------------- where every job is

  /** How often index i is in a worker's hand. */
  function InHand(w: Worker, i: nat): nat {
    match w
    case Holding(t) => if t.index == i then 1 else 0
    case Running(t) => if t.index == i then 1 else 0
    case Sending(r) => if r.index == i then 1 else 0
    case SendingCancelled(r) => if r.index == i then 1 else 0
    case Idle => 0
    case Done => 0
  }

  function InHands(workers: seq<Worker>, i: nat): nat {
    if workers == [] then 0
    else InHands(workers[..|workers| - 1], i) + InHand(workers[|workers| - 1], i)
  }

  function InQueue(tasks: seq<Task>, i: nat): nat {
    if tasks == [] then 0
    else InQueue(tasks[..|tasks| - 1], i) + if tasks[|tasks| - 1].index == i then 1 else 0
  }

  function InReports(reports: seq<Report>, i: nat): nat {
    if reports == [] then 0
    else InReports(reports[..|reports| - 1], i) + if reports[|reports| - 1].index == i then 1 else 0
  }

  /** How many places hold index i: job channel, workers' hands, result channel, collected results. */
  function Places(s: State, i: nat): nat {
    InQueue(s.queue, i) + InHands(s.workers, i) + InReports(s.buffer, i) + InReports(s.collected, i)
  }

  predicate TaskOk(s: State, t: Task) { t.index < |s.jobs| && t.job == s.jobs[t.index] }

  /** A report is about the job at its index and carries what that job's worker decided. */
  predicate ReportOk(s: State, r: Report) {
    r.index < |s.jobs| && r.job == s.jobs[r.index] && r.index in s.outcomes && s.outcomes[r.index] == r.outcome
  }

  predicate WorkerOk(s: State, w: Worker) {
    match w
    case Holding(t) => TaskOk(s, t)
    case Running(t) => TaskOk(s, t)
    case Sending(r) => ReportOk(s, r) && !r.outcome.Cancelled?
    case SendingCancelled(r) => ReportOk(s, r) && r.outcome.Cancelled? && s.cancelled
    case Idle => true
    case Done => s.jobsClosed || s.cancelled
  }

  /** How many more results a worker can send once the context is cancelled. */
  function StillToEmit(w: Worker): nat {
    match w
    case Idle => 1
    case Holding(_) => 1
    case Running(_) => 2
    case Sending(_) => 2
    case SendingCancelled(_) => 1
    case Done => 0
  }

  /** Every index sent so far is in exactly one place, and no other index is anywhere. */
  ghost predicate Located(s: State) {
    s.sent <= |s.jobs| && forall i: nat :: Places(s, i) == if i < s.sent then 1 else 0
  }

  /** Everything in flight is about the right job, and everything decided is remembered. */
  predicate Faithful(s: State) {
    && (forall t | t in s.queue :: TaskOk(s, t))
    && (forall r | r in s.buffer :: ReportOk(s, r))
    && (forall r | r in s.collected :: ReportOk(s, r))
    && (forall i | 0 <= i < |s.workers| :: WorkerOk(s, s.workers[i]))
  }

  /** A worker sends nothing that counts before the cancellation and at most two results after it. */
  predicate Budgeted(s: State) {
    && (forall i | 0 <= i < |s.workers| && i < |s.emitted| ::
          if s.cancelled then s.emitted[i] + StillToEmit(s.workers[i]) <= 2 else s.emitted[i] == 0)
  }

  /** Workers return only once nothing is left to do or the context is cancelled; channels close in order. */
  predicate Phased(s: State) {
    && (s.jobsClosed && !s.cancelled ==> s.sent == |s.jobs|)
    && (forall i | 0 <= i < |s.workers| && s.workers[i].Done? :: s.cancelled || (s.jobsClosed && s.queue == []))
    && (s.resultsClosed ==> forall i | 0 <= i < |s.workers| :: s.workers[i].Done?)
    && (s.finished ==> s.resultsClosed && s.buffer == [])
    && (!s.cancelled ==> forall r | r in s.buffer :: !r.outcome.Cancelled?)
    && (!s.cancelled ==> forall r | r in s.collected :: !r.outcome.Cancelled?)
  }

  predicate Shaped(s: State) { s.workers != [] && |s.emitted| == |s.workers| }

  ghost predicate Inv(s: State) { Shaped(s) && Located(s) && Faithful(s) && Budgeted(s) && Phased(s) }

  // ---------------------------------------------------------------- counting places

  lemma {:induction false} HandsUpdate(workers: seq<Worker>, w: nat, to: Worker, i: nat)
    requires w < |workers|
    ensures InHands(workers[w := to], i) + InHand(workers[w], i) == InHands(workers, i) + InHand(to, i)
  {
    var n := |workers| - 1;
    if w < n {
      HandsUpdate(workers[..n], w, to, i);
      assert workers[w := to][..n] == workers[..n][w := to];
    } else {
      assert workers[w := to][..n] == workers[..n];
    }
  }

  lemma {:induction false} HandsContain(workers: seq<Worker>, w: nat, i: nat)
    requires w < |workers|
    ensures InHand(workers[w], i) <= InHands(workers, i)
  {
    var n := |workers| - 1;
    if w < n {
      HandsContain(workers[..n], w, i);
    }
  }

  lemma {:induction false} QueuePop(tasks: seq<Task>, i: nat)
    requires tasks != []
    ensures InQueue(tasks, i) == InQueue(tasks[1..], i) + if tasks[0].index == i then 1 else 0
  {
    var n := |tasks| - 1;
    if n > 0 {
      QueuePop(tasks[..n], i);
      assert tasks[..n][1..] == tasks[1..][..n - 1];
    }
  }

  lemma {:induction false} ReportsPop(reports: seq<Report>, i: nat)
    requires reports != []
    ensures InReports(reports, i) == InReports(reports[1..], i) + if reports[0].index == i then 1 else 0
  {
    var n := |reports| - 1;
    if n > 0 {
      ReportsPop(reports[..n], i);
      assert reports[..n][1..] == reports[1..][..n - 1];
    }
  }

  lemma {:induction false} QueuePush(tasks: seq<Task>, t: Task, i: nat)
    ensures InQueue(tasks + [t], i) == InQueue(tasks, i) + if t.index == i then 1 else 0
  {
    assert (tasks + [t])[..|tasks|] == tasks;
  }

  lemma {:induction false} ReportsPush(reports: seq<Report>, r: Report, i: nat)
    ensures InReports(reports + [r], i) == InReports(reports, i) + if r.index == i then 1 else 0
  {
    assert (reports + [r])[..|reports|] == reports;
  }

  /** Two positions with one index count twice. */
  lemma {:induction false} ReportsContain(reports: seq<Report>, j: nat, k: nat)
    requires j <= k < |reports| && reports[j].index == reports[k].index
    ensures InReports(reports, reports[j].index) >= if j < k then 2 else 1
  {
    var n := |reports| - 1;
    if k < n {
      ReportsContain(reports[..n], j, k);
    } else if j < n {
      ReportsContain(reports[..n], j, j);
    }
  }

  lemma {:induction false} QueueContain(tasks: seq<Task>, j: nat, k: nat)
    requires j <= k < |tasks| && tasks[j].index == tasks[k].index
    ensures InQueue(tasks, tasks[j].index) >= if j < k then 2 else 1
  {
    var n := |tasks| - 1;
    if k < n {
      QueueContain(tasks[..n], j, k);
    } else if j < n {
      QueueContain(tasks[..n], j, j);
    }
  }

  // ---------------------------------------------------------------- every step keeps the invariant

  lemma InitInv(jobs: seq<Job>, workers: int)
    ensures Inv(Init(jobs, workers))
  {
    var s := Init(jobs, workers);
    forall i: nat ensures Places(s, i) == 0 {
      NoHands(s.workers, i);
    }
  }

  lemma {:induction false} NoHands(workers: seq<Worker>, i: nat)
    requires forall w | 0 <= w < |workers| :: workers[w].Idle?
    ensures InHands(workers, i) == 0
  {
    if workers != [] {
      NoHands(workers[..|workers| - 1], i);
    }
  }

  lemma StepPlaces(s: State, a: Action, i: nat)
    requires Shaped(s) && Enabled(s, a)
    ensures Places(Apply(s, a), i) == Places(s, i) + if a.SendJob? && s.sent == i then 1 else 0
  {
    hide InHands, InQueue, InReports;
    if ByWorker(a) {
      WorkerPlaces(s, a, i);
    } else {
      match a
      case SendJob => QueuePush(s.queue, Task(s.jobs[s.sent], s.sent), i);
      case Collect => ReportsPop(s.buffer, i); ReportsPush(s.collected, s.buffer[0], i);
      case _ =>
    }
  }

  lemma WorkerPlaces(s: State, a: Action, i: nat)
    requires Shaped(s) && Enabled(s, a) && ByWorker(a)
    ensures Places(ApplyWorker(s, a), i) == Places(s, i)
  {
    hide InHands, InQueue, InReports;
    HandsUpdate(s.workers, a.w, ApplyWorker(s, a).workers[a.w], i);
    match a
    case Receive(w) => QueuePop(s.queue, i);
    case SendResult(w) => ReportsPush(s.buffer, s.workers[w].report, i);
    case _ =>
  }

  lemma StepLocated(s: State, a: Action)
    requires Shaped(s) && Located(s) && Enabled(s, a)
    ensures Located(Apply(s, a))
  {
    forall i: nat ensures Places(Apply(s, a), i) == if i < Apply(s, a).sent then 1 else 0 {
      StepPlaces(s, a, i);
    }
  }

  /** An index in a worker's hand is in no channel and in nobody else's hand. */
  lemma HeldAlone(s: State, w: nat, i: nat)
    requires Located(s) && w < |s.workers| && InHand(s.workers[w], i) == 1
    ensures forall t | t in s.queue :: t.index != i
    ensures forall r | r in s.buffer || r in s.collected :: r.index != i
    ensures forall v | 0 <= v < |s.workers| && v != w :: InHand(s.workers[v], i) == 0
  {
    HandsContain(s.workers, w, i);
    assert Places(s, i) <= 1;
    forall t | t in s.queue ensures t.index != i {
      if k :| 0 <= k < |s.queue| && s.queue[k] == t { QueueContain(s.queue, k, k); }
    }
    forall r | r in s.buffer || r in s.collected ensures r.index != i {
      if k :| 0 <= k < |s.buffer| && s.buffer[k] == r { ReportsContain(s.buffer, k, k); }
      if k :| 0 <= k < |s.collected| && s.collected[k] == r { ReportsContain(s.collected, k, k); }
    }
    forall v | 0 <= v < |s.workers| && v != w ensures InHand(s.workers[v], i) == 0 {
      HandsUpdate(s.workers, w, Idle, i);
      HandsContain(s.workers[w := Idle], v, i);
    }
  }

  lemma WorkerKept(s: State, s': State, w: Worker, i: nat)
    requires WorkerOk(s, w) && InHand(w, i) == 0
    requires s'.jobs == s.jobs && s'.cancelled == s.cancelled && s'.jobsClosed == s.jobsClosed
    requires i in s'.outcomes && s'.outcomes == s.outcomes[i := s'.outcomes[i]]
    ensures WorkerOk(s', w)
  {}

  /** Recording an outcome for a held index disturbs no other report. */
  lemma RecordOutcome(s: State, w: nat, outcome: Outcome, to: Worker, i: nat)
    requires Located(s) && Faithful(s) && w < |s.workers| && InHand(s.workers[w], i) == 1
    requires i < |s.jobs|
    requires WorkerOk(SetWorker(s, w, to).(outcomes := s.outcomes[i := outcome]), to)
    ensures Faithful(SetWorker(s, w, to).(outcomes := s.outcomes[i := outcome]))
  {
    HeldAlone(s, w, i);
    hide Located, InHand;
    var s' := SetWorker(s, w, to).(outcomes := s.outcomes[i := outcome]);
    forall v | 0 <= v < |s'.workers| ensures WorkerOk(s', s'.workers[v]) {
      if v != w {
        WorkerKept(s, s', s.workers[v], i);
      }
    }
  }

  lemma StepFaithful(s: State, a: Action)
    requires Shaped(s) && Located(s) && Faithful(s) && Enabled(s, a)
    ensures Faithful(Apply(s, a))
  {
    if a.SeeCancel? || a.FinishDownload? {
      hide Located;
      var t := s.workers[a.w].task;
      assert WorkerOk(s, s.workers[a.w]);
      RecordOutcome(s, a.w, if a.SeeCancel? then Cancelled else a.outcome, Apply(s, a).workers[a.w], t.index);
    } else if a.Receive? || a.Leave? || a.StartDownload? || a.SendResult? {
      WorkerStepFaithful(s, a);
    } else {
      ChannelStepFaithful(s, a);
    }
  }

  lemma WorkerStepFaithful(s: State, a: Action)
    requires Shaped(s) && Faithful(s) && Enabled(s, a)
    requires a.Receive? || a.Leave? || a.StartDownload? || a.SendResult?
    ensures Faithful(Apply(s, a))
  {
    var s' := Apply(s, a);
    assert WorkerOk(s, s.workers[a.w]);
    if a.Receive? {
      assert s.queue[0] in s.queue;
      assert WorkerOk(s', s'.workers[a.w]);
    } else if a.SendResult? {
      assert ReportOk(s', s.workers[a.w].report);
    }
    assert WorkerOk(s', s'.workers[a.w]);
    hide WorkerOk, TaskOk, ReportOk;
    KeepsFaithful(s, s', a.w);
  }

  lemma ChannelStepFaithful(s: State, a: Action)
    requires Shaped(s) && Faithful(s) && Enabled(s, a) && !ByWorker(a)
    ensures Faithful(Apply(s, a))
  {
    var s' := Apply(s, a);
    if a.SendJob? {
      assert TaskOk(s', Task(s.jobs[s.sent], s.sent));
    } else if a.Collect? {
      assert s.buffer[0] in s.buffer;
    }
    hide TaskOk, ReportOk, WorkerOk;
    assert WorkerOk(s, s.workers[0]);
    ChannelKeepsWorker(s, s', s.workers[0]);
    KeepsFaithful(s, s', 0);
  }

  lemma ChannelKeepsWorker(s: State, s': State, w: Worker)
    requires WorkerOk(s, w) && s'.jobs == s.jobs && s'.outcomes == s.outcomes
    requires s.jobsClosed ==> s'.jobsClosed
    requires s.cancelled ==> s'.cancelled
    ensures WorkerOk(s', w)
  {}

  /** A step that decides nothing keeps faith if what it moved was faithful. */
  lemma KeepsFaithful(s: State, s': State, w: nat)
    requires Faithful(s) && s'.jobs == s.jobs && s'.outcomes == s.outcomes
    requires s.jobsClosed ==> s'.jobsClosed
    requires s.cancelled ==> s'.cancelled
    requires |s'.workers| == |s.workers| && w < |s.workers| && s'.workers == s.workers[w := s'.workers[w]]
    requires WorkerOk(s', s'.workers[w])
    requires forall t | t in s'.queue :: t in s.queue || TaskOk(s', t)
    requires forall r | r in s'.buffer :: r in s.buffer || ReportOk(s', r)
    requires forall r | r in s'.collected :: r in s.collected || ReportOk(s', r)
    ensures Faithful(s')
  {
    forall v | 0 <= v < |s'.workers| ensures WorkerOk(s', s'.workers[v]) {
      if v != w {
        assert WorkerOk(s, s.workers[v]);
      }
    }
  }

  lemma StepBudgeted(s: State, a: Action)
    requires Inv(s) && Enabled(s, a)
    ensures Budgeted(Apply(s, a))
  {
    hide Located, Faithful, Phased;
  }

  lemma StepPhased(s: State, a: Action)
    requires Inv(s) && Enabled(s, a)
    ensures Phased(Apply(s, a))
  {
    hide Located, Budgeted;
    if ByWorker(a) {
      WorkerPhased(s, a);
    } else {
      hide Faithful;
      if a.Collect? { assert s.buffer[0] in s.buffer; }
    }
  }

  lemma WorkerPhased(s: State, a: Action)
    requires Shaped(s) && Faithful(s) && Phased(s) && Enabled(s, a) && ByWorker(a)
    ensures Phased(ApplyWorker(s, a))
  {
    assert WorkerOk(s, s.workers[a.w]);
    hide Faithful;
  }

  /** Every step from a good state leads to a good state. */
  lemma StepInv(s: State, a: Action)
    requires Inv(s) && Enabled(s, a)
    ensures Inv(Apply(s, a))
  {
    hide Located, Faithful, Phased, Budgeted;
    StepLocated(s, a);
    StepFaithful(s, a);
    StepBudgeted(s, a);
    StepPhased(s, a);
  }

  // ---------------------------------------------------------------- runs

  ghost predicate Steps(s: State, a: Action, s': State) { Shaped(s) && Enabled(s, a) && s' == Apply(s, a) }

  /** A run from the start of Execute: states[k + 1] is reached from states[k] by actions[k]. */
  ghost predicate IsRun(jobs: seq<Job>, workers: int, states: seq<State>, actions: seq<Action>) {
    && |states| == |actions| + 1
    && states[0] == Init(jobs, workers)
    && forall k | 0 <= k < |actions| :: Steps(states[k], actions[k], states[k + 1])
  }

  lemma StepsKeepInv(s: State, a: Action, s': State)
    requires Steps(s, a, s') && Inv(s)
    ensures Inv(s') && s'.jobs == s.jobs && |s'.workers| == |s.workers|
  {
    hide Apply, Enabled, Inv;
    StepInv(s, a);
  }

  /** Every state of every run is good, whatever the interleaving and whenever the cancellation comes. */
  lemma {:induction false} RunInv(jobs: seq<Job>, workers: int, states: seq<State>, actions: seq<Action>, k: nat)
    requires IsRun(jobs, workers, states, actions) && k < |states|
    ensures Inv(states[k]) && states[k].jobs == jobs && |states[k].workers| == if workers > 0 then workers else 1
  {
    hide Inv, Steps;
    if k == 0 {
      InitInv(jobs, workers);
    } else {
      RunInv(jobs, workers, states, actions, k - 1);
      StepsKeepInv(states[k - 1], actions[k - 1], states[k]);
    }
  }

  // ---------------------------------------------------------------- no send blocks

  lemma FirstBelow(list: seq<nat>, n: nat)
    requires list != [] && forall j | 0 <= j < |list| :: list[j] < n
    ensures list[0] < n
  {}

  lemma {:induction false} DistinctBelow(list: seq<nat>, n: nat)
    requires forall j, k | 0 <= j < k < |list| :: list[j] != list[k]
    requires forall j | 0 <= j < |list| :: list[j] < n
    ensures |list| <= n
  {
    if list != [] {
      FirstBelow(list, n);
      if j :| 0 <= j < |list| && list[j] == n - 1 {
        DistinctBelow(list[..j] + list[j + 1..], n - 1);
      } else {
        DistinctBelow(list, n - 1);
      }
    }
  }

  /** Both channels have room whenever something is about to be sent, so no goroutine waits on a full buffer. */
  lemma SendNeverBlocks(s: State, w: nat)
    requires Inv(s)
    ensures s.sent < |s.jobs| ==> |s.queue| < |s.jobs|
    ensures w < |s.workers| && (s.workers[w].Sending? || s.workers[w].SendingCancelled?) ==> |s.buffer| < |s.jobs|
  {
    QueueFits(s);
    if w < |s.workers| && (s.workers[w].Sending? || s.workers[w].SendingCancelled?) {
      BufferHasRoom(s, w);
    }
  }

  lemma QueueFits(s: State)
    requires Located(s)
    ensures |s.queue| <= s.sent
  {
    var list: seq<nat> := seq(|s.queue|, k requires 0 <= k < |s.queue| => s.queue[k].index);
    forall j, k | 0 <= j <= k < |list| ensures list[j] < s.sent && (j < k ==> list[j] != list[k]) {
      QueueContain(s.queue, j, j);
      assert Places(s, list[j]) <= 1;
      if list[j] == list[k] { QueueContain(s.queue, j, k); }
    }
    DistinctBelow(list, s.sent);
  }

  lemma BufferHasRoom(s: State, w: nat)
    requires Located(s) && w < |s.workers| && (s.workers[w].Sending? || s.workers[w].SendingCancelled?)
    ensures |s.buffer| < |s.jobs|
  {
    var held := s.workers[w].report.index;
    var list: seq<nat> := seq(|s.buffer|, k requires 0 <= k < |s.buffer| => s.buffer[k].index);
    HandsContain(s.workers, w, held);
    assert Places(s, held) <= 1;
    HeldAlone(s, w, held);
    forall j, k | 0 <= j <= k < |list| ensures list[j] < s.sent && list[j] != held && (j < k ==> list[j] != list[k]) {
      ReportsContain(s.buffer, j, j);
      assert Places(s, list[j]) <= 1;
      assert s.buffer[j] in s.buffer;
      if list[j] == list[k] { ReportsContain(s.buffer, j, k); }
    }
    DistinctBelow([held] + list, s.sent);
  }

  // ---------------------------------------------------------------- progress and termination

  /** Until the collector finishes, some goroutine can take a step on its own, cancellation or not. */
  lemma Progress(s: State) returns (a: Action)
    requires Inv(s) && !s.finished
    ensures Enabled(s, a) && !a.Cancel?
  {
    if w :| 0 <= w < |s.workers| && !s.workers[w].Idle? && !s.workers[w].Done? {
      if s.workers[w].Holding? {
        a := if s.cancelled then SeeCancel(w) else StartDownload(w);
      } else if s.workers[w].Running? {
        a := FinishDownload(w, Failed(""));
      } else {
        BufferHasRoom(s, w);
        a := SendResult(w);
      }
    } else if w :| 0 <= w < |s.workers| && s.workers[w].Idle? {
      a := if s.queue != [] then Receive(w) else if s.jobsClosed then Leave(w)
           else if s.sent < |s.jobs| then SendJob else CloseJobs;
    } else if !s.resultsClosed {
      a := CloseResults;
    } else {
      a := if s.buffer != [] then Collect else FinishCollect;
    }
  }

  function Weight(w: Worker): nat {
    match w
    case Idle => 1
    case Holding(_) => 6
    case Running(_) => 5
    case Sending(_) => 4
    case SendingCancelled(_) => 3
    case Done => 0
  }

  function Weights(workers: seq<Worker>): nat {
    if workers == [] then 0 else Weights(workers[..|workers| - 1]) + Weight(workers[|workers| - 1])
  }

  lemma {:induction false} WeightsUpdate(workers: seq<Worker>, w: nat, to: Worker)
    requires w < |workers|
    ensures Weights(workers[w := to]) + Weight(workers[w]) == Weights(workers) + Weight(to)
  {
    var n := |workers| - 1;
    if w < n {
      WeightsUpdate(workers[..n], w, to);
      assert workers[w := to][..n] == workers[..n][w := to];
    } else {
      assert workers[w := to][..n] == workers[..n];
    }
  }

  /** The work left: every step, the cancellation included, uses some of it up. */
  function WorkLeft(s: State): nat
    requires s.sent <= |s.jobs|
  {
    (if s.cancelled then 0 else 1) + (if s.jobsClosed then 0 else 1 + 7 * (|s.jobs| - s.sent)) + 6 * |s.queue|
    + Weights(s.workers) + |s.buffer| + (if s.resultsClosed then 0 else 1) + (if s.finished then 0 else 1)
  }

  lemma StepUsesWork(s: State, a: Action)
    requires Shaped(s) && s.sent <= |s.jobs| && Enabled(s, a)
    ensures Apply(s, a).sent <= |s.jobs| && WorkLeft(Apply(s, a)) < WorkLeft(s)
  {
    hide Weights;
    if a.Receive? || a.Leave? || a.SeeCancel? || a.StartDownload? || a.FinishDownload? || a.SendResult? {
      WeightsUpdate(s.workers, a.w, Apply(s, a).workers[a.w]);
    }
  }

  lemma {:induction false} IdleWeights(workers: seq<Worker>)
    requires forall w | 0 <= w < |workers| :: workers[w].Idle?
    ensures Weights(workers) == |workers|
  {
    if workers != [] {
      IdleWeights(workers[..|workers| - 1]);
    }
  }

  /** No run of Execute is longer than seven steps a job, one a worker and four. */
  lemma RunLength(jobs: seq<Job>, workers: int, states: seq<State>, actions: seq<Action>)
    requires IsRun(jobs, workers, states, actions)
    ensures |actions| <= 7 * |jobs| + (if workers > 0 then workers else 1) + 4
  {
    WorkAfter(jobs, workers, states, actions, |actions|);
    IdleWeights(Init(jobs, workers).workers);
  }

  lemma StepsUseWork(s: State, a: Action, s': State)
    requires Steps(s, a, s') && s.sent <= |s.jobs|
    ensures s'.sent <= |s'.jobs| && WorkLeft(s') < WorkLeft(s)
  {
    StepUsesWork(s, a);
  }

  lemma {:induction false} WorkAfter(jobs: seq<Job>, workers: int, states: seq<State>, actions: seq<Action>, k: nat)
    requires IsRun(jobs, workers, states, actions) && k < |states|
    ensures states[k].sent <= |states[k].jobs| && k + WorkLeft(states[k]) <= WorkLeft(Init(jobs, workers))
  {
    hide WorkLeft, Steps;
    if k > 0 {
      WorkAfter(jobs, workers, states, actions, k - 1);
      assert Steps(states[k - 1], actions[k - 1], states[k - 1 + 1]);
      StepsUseWork(states[k - 1], actions[k - 1], states[k]);
    }
  }

  // ---------------------------------------------------------------- what Execute returns

  /** results is the collected slice sorted by index, as sort.Slice leaves it. */
  ghost predicate SortedFrom(results: seq<Report>, collected: seq<Report>) {
    && multiset(results) == multiset(collected)
    && forall j, k | 0 <= j < k < |results| :: results[j].index <= results[k].index
  }

  lemma {:induction false} TwiceMeansTwoPlaces(reports: seq<Report>, r: Report) returns (j: nat, k: nat)
    requires multiset(reports)[r] >= 2
    ensures j < k < |reports| && reports[j] == r == reports[k]
  {
    var n := |reports| - 1;
    assert reports == reports[..n] + [reports[n]];
    if reports[n] == r {
      assert r in multiset(reports[..n]);
      assert r in reports[..n];
      j :| 0 <= j < n && reports[j] == r;
      k := n;
    } else {
      j, k := TwiceMeansTwoPlaces(reports[..n], r);
    }
  }

  lemma EqualTwice(reports: seq<Report>, j: nat, k: nat)
    requires j < k < |reports| && reports[j] == reports[k]
    ensures multiset(reports)[reports[j]] >= 2
  {
    assert reports == reports[..k] + reports[k..];
    assert reports[j] in multiset(reports[..k]) by { assert reports[..k][j] == reports[j]; }
    assert reports[k] in multiset(reports[k..]) by { assert reports[k..][0] == reports[k]; }
  }

  lemma CollectedDistinct(s: State, results: seq<Report>, j: nat, k: nat)
    requires Located(s) && multiset(results) == multiset(s.collected) && j < k < |results|
    ensures results[j].index != results[k].index
  {
    var r, t := results[j], results[k];
    if r.index == t.index {
      assert Places(s, r.index) <= 1;
      assert InReports(s.collected, r.index) <= 1;
      hide *;
      assert r in multiset(results) && t in multiset(results);
      assert r in s.collected && t in s.collected;
      var x :| 0 <= x < |s.collected| && s.collected[x] == r;
      var y :| 0 <= y < |s.collected| && s.collected[y] == t;
      if r == t {
        EqualTwice(results, j, k);
        x, y := TwiceMeansTwoPlaces(s.collected, r);
      }
      if x < y { ReportsContain(s.collected, x, y); } else { ReportsContain(s.collected, y, x); }
    }
  }

  /**
   * Whatever was cancelled when, the results Execute returns are in strictly increasing job order, each is about the
   * job at its index and carries what that job's worker decided, and no worker sent more than two after the cancel.
   */
  lemma ResultsInOrder(s: State, results: seq<Report>)
    requires Inv(s) && s.finished && SortedFrom(results, s.collected)
    ensures forall j, k | 0 <= j < k < |results| :: results[j].index < results[k].index
    ensures forall j | 0 <= j < |results| :: ReportOk(s, results[j])
    ensures forall w | 0 <= w < |s.workers| && s.cancelled :: s.emitted[w] <= 2
  {
    forall j, k | 0 <= j < k < |results| ensures results[j].index < results[k].index {
      CollectedDistinct(s, results, j, k);
    }
    forall j | 0 <= j < |results| ensures ReportOk(s, results[j]) {
      assert results[j] in multiset(results);
      assert results[j] in s.collected;
    }
  }

  lemma {:induction false} NotAmongReports(reports: seq<Report>, i: nat)
    requires forall r | r in reports :: r.index != i
    ensures InReports(reports, i) == 0
  {
    if reports != [] {
      NotAmongReports(reports[..|reports| - 1], i);
    }
  }

  lemma {:induction false} NoneInHands(workers: seq<Worker>, i: nat)
    requires forall w | 0 <= w < |workers| :: workers[w].Done?
    ensures InHands(workers, i) == 0
  {
    if workers != [] {
      NoneInHands(workers[..|workers| - 1], i);
    }
  }

  /** At the end every job sent is either among the results or was left in the job channel by the cancellation. */
  lemma {:induction false} FinishedPlaces(s: State, i: nat)
    requires Inv(s) && s.finished && i < |s.jobs|
    ensures InReports(s.collected, i) + InQueue(s.queue, i) == if i < s.sent then 1 else 0
    ensures !s.cancelled ==> InReports(s.collected, i) == 1
  {
    NoneInHands(s.workers, i);
    assert Places(s, i) == if i < s.sent then 1 else 0;
    assert s.workers[0].Done?;
  }

  lemma {:induction false} IncreasingAtLeast(results: seq<Report>, i: nat)
    requires forall j, k | 0 <= j < k < |results| :: results[j].index < results[k].index
    requires i < |results|
    ensures results[i].index >= i
  {
    if i > 0 {
      IncreasingAtLeast(results, i - 1);
    }
  }

  ghost predicate HasIndex(results: seq<Report>, m: nat) {
    exists j :: 0 <= j < |results| && results[j].index == m
  }

  /** A strictly increasing list that holds every index below n has index i at position i. */
  lemma {:induction false} IncreasingAndFull(results: seq<Report>, n: nat, i: nat)
    requires forall j, k | 0 <= j < k < |results| :: results[j].index < results[k].index
    requires forall m: nat | m < n :: HasIndex(results, m)
    requires i < n
    ensures i < |results| && results[i].index == i
  {
    assert HasIndex(results, i);
    var j :| 0 <= j < |results| && results[j].index == i;
    IncreasingAtLeast(results, j);
    if i > 0 {
      IncreasingAndFull(results, n, i - 1);
      assert results[i - 1].index == i - 1;
    }
    if i < |results| {
      IncreasingAtLeast(results, i);
    }
  }

  lemma FullLength(results: seq<Report>, n: nat)
    requires forall j, k | 0 <= j < k < |results| :: results[j].index < results[k].index
    requires forall m: nat | m < n :: HasIndex(results, m)
    requires forall j | 0 <= j < |results| :: results[j].index < n
    ensures |results| == n
  {
    if |results| < n {
      IncreasingAndFull(results, n, |results|);
    } else if |results| > n {
      IncreasingAtLeast(results, n);
    }
  }

  /** Without a cancellation, result i is the download result of job i, for every job. */
  lemma ExecuteReturnsAll(s: State, results: seq<Report>)
    requires Inv(s) && s.finished && !s.cancelled && SortedFrom(results, s.collected)
    ensures |results| == |s.jobs|
    ensures forall i | 0 <= i < |s.jobs| ::
              && results[i].index == i && results[i].job == s.jobs[i]
              && i in s.outcomes && results[i].outcome == s.outcomes[i] && !results[i].outcome.Cancelled?
  {
    ResultsInOrder(s, results);
    var n := |s.jobs|;
    forall m: nat | m < n ensures HasIndex(results, m) {
      FinishedPlaces(s, m);
      if forall r | r in s.collected :: r.index != m { NotAmongReports(s.collected, m); }
      var r :| r in s.collected && r.index == m;
      assert r in multiset(results);
      assert r in results;
    }
    FullLength(results, n);
    forall i | 0 <= i < n ensures results[i].index == i {
      IncreasingAndFull(results, n, i);
    }
    forall i | 0 <= i < n ensures !results[i].outcome.Cancelled? {
      assert results[i] in multiset(results);
      assert results[i] in s.collected;
    }
  }
}
