/** The worker process as a state machine: one epoch of the main loop.

    Every event is one atomic step of one goroutine. The manager goroutine is
    cut into steps at every point where it starts, registers or stops a worker;
    jobs arrive, run, are put into the background and finish, and connections
    drop, between any two of those steps. */
module WorkerPool {
  import opened Counting

  const BALLOONING_UTILIZATION_THRESHOLD := 70
  const UTILIZATION_WATERMARK_LOW := 90

  /** The settings of one epoch; `maxWorker` is the clamped value. */
  datatype Config = Config(
    minWorker: int, maxWorker: int, spawnRate: int, sinkRate: int,
    backgroundingThreshold: int, maxPossibleWorker: int, initialStart: int)

  /** Where the call of doWork for a job stands. */
  datatype Handler = Decoding | Inline | Watching | Returned

  /** Where the execution of a job stands. */
  datatype Runner = Waiting | Executing | Executed | Finished

  datatype Job = Job(
    worker: nat, handler: Handler, runner: Runner,
    resultQueue: bool, canceled: bool, sent: bool,
    ballooning: bool, released: bool)

  /** Where the manager goroutine stands. The guards of adjustWorkerBottomLevel
      read the size of the pool one after the other: Shrinking is before the
      first of them, AboveZero, AboveMinimum and Underused behind one each.
      Stopping: an idle worker was found and is about to be shut down. Crashed:
      it divided by zero. */
  datatype Manager =
    | Sleeping
    | Measured(target: int, total: nat)
    | Filling(left: int, total: nat)
    | Shrinking
    | AboveZero
    | AboveMinimum
    | Underused
    | Crashed
    | Sinking(sinks: nat)
    | Stopping(w: nat, sinks: nat)
    | Growing
    | Spawning(spawns: nat)
    | Adding(w: nat, next: Manager)

  /** `active[w]` is the activeJobs counter of the w-th worker ever created. */
  datatype System = System(
    workerMap: set<nat>, active: seq<int>, jobs: seq<Job>,
    curBallooningWorker: int, activeWorkers: nat, utilization: int,
    firstTick: bool, manager: Manager, results: seq<nat>)

  datatype Event =
    | Arrive(w: nat)
    | DecryptFail(j: nat)
    | Accept(j: nat, hasQueue: bool)
    | Cancel(j: nat)
    | Execute(j: nat)
    | Finish(j: nat)
    | Receive(j: nat)
    | Tick(j: nat, loadAndMemoryOk: bool)
    | Unregister(w: nat)
    | Manage(ok: bool, pick: nat)

  function Init(): System {
    System({}, [], [], 0, 0, 0, true, Sleeping, [])
  }

  // ---- decisions ----

  predicate ConsiderBallooning(cfg: Config, s: System) {
    cfg.backgroundingThreshold > 0 && s.utilization >= BALLOONING_UTILIZATION_THRESHOLD
  }

  predicate StartBallooning(cfg: Config, s: System, loadAndMemoryOk: bool) {
    && cfg.backgroundingThreshold > 0
    && loadAndMemoryOk
    && s.utilization >= BALLOONING_UTILIZATION_THRESHOLD
    && s.curBallooningWorker < cfg.maxPossibleWorker - cfg.maxWorker
  }

  function EffectiveSinkRate(cfg: Config): nat {
    var rate := if cfg.sinkRate <= 0 then cfg.spawnRate else cfg.sinkRate;
    if rate < 0 then 0 else rate
  }

  /** The test against the 90 percent mark: an integer division, then the product. */
  predicate AtWatermark(active: nat, total: nat)
    requires total > 0
  {
    active / total * 100 >= UTILIZATION_WATERMARK_LOW
  }

  predicate Idle(s: System, w: nat) {
    w in s.workerMap && w < |s.active| && s.active[w] == 0
  }

  function Busy(s: System): nat {
    |set w | w in s.workerMap && w < |s.active| && s.active[w] > 0|
  }

  /** The quotient is cut off before it is multiplied: the mark is reached only when all are busy. */
  lemma WatermarkIff(active: nat, total: nat)
    requires total > 0
    ensures AtWatermark(active, total) <==> active >= total
  {
    if active < total {
      assert active / total == 0;
    } else {
      AtLeastOnce(active, total);
    }
  }

  lemma AtLeastOnce(a: nat, b: nat)
    requires 0 < b <= a
    ensures a / b >= 1
  {
  }

  /** It agrees with 90 percent exactly when all are busy or fewer than nine in ten. */
  lemma WatermarkAgreesIff(active: nat, total: nat)
    requires total > 0
    ensures (AtWatermark(active, total) <==> active * 100 >= UTILIZATION_WATERMARK_LOW * total)
      <==> active >= total || active * 10 < 9 * total
  {
    WatermarkIff(active, total);
  }

  /** With 95 of 100 workers busy the pool counts as underused. */
  lemma NinetyFivePercentIsUnderused()
    ensures !AtWatermark(95, 100) && 95 * 100 >= UTILIZATION_WATERMARK_LOW * 100
  {
    WatermarkIff(95, 100);
  }

  // ---- steps ----

  predicate JobEnabled(s: System, j: nat, h: Handler, r: Runner) {
    j < |s.jobs| && s.jobs[j].handler == h && s.jobs[j].runner == r && s.jobs[j].worker < |s.active|
  }

  /** Which events can happen in a state. */
  predicate Enabled(cfg: Config, s: System, e: Event) {
    match e
    case Arrive(w) => w < |s.active|
    case DecryptFail(j) => JobEnabled(s, j, Decoding, Waiting)
    case Accept(j, _) => JobEnabled(s, j, Decoding, Waiting)
    case Cancel(j) => j < |s.jobs|
    case Execute(j) => j < |s.jobs| && s.jobs[j].runner == Executing
    case Finish(j) => j < |s.jobs| && s.jobs[j].runner == Executed && s.jobs[j].worker < |s.active|
    case Receive(j) => JobEnabled(s, j, Watching, Finished)
    case Tick(j, _) => j < |s.jobs| && s.jobs[j].handler == Watching
    case Unregister(w) => true
    case Manage(ok, pick) =>
      s.manager.Sinking? && s.manager.sinks > 0 && |s.workerMap| > cfg.minWorker ==>
        Idle(s, pick) || forall w :: w in s.workerMap ==> !Idle(s, w)
  }

  function Bump(active: seq<int>, w: nat, delta: int): seq<int>
    requires w < |active|
  {
    active[w := active[w] + delta]
  }

  function ApplyArrive(s: System, w: nat): System
    requires w < |s.active|
  {
    s.(active := Bump(s.active, w, 1),
       jobs := s.jobs + [Job(w, Decoding, Waiting, false, false, false, false, false)])
  }

  function ApplyDecryptFail(s: System, j: nat): System
    requires j < |s.jobs| && s.jobs[j].worker < |s.active|
  {
    s.(active := Bump(s.active, s.jobs[j].worker, -1),
       jobs := s.jobs[j := s.jobs[j].(handler := Returned, runner := Finished)])
  }

  function ApplyAccept(cfg: Config, s: System, j: nat, hasQueue: bool): System
    requires j < |s.jobs|
  {
    var handler := if ConsiderBallooning(cfg, s) then Watching else Inline;
    s.(jobs := s.jobs[j := s.jobs[j].(handler := handler, runner := Executing, resultQueue := hasQueue)])
  }

  function ApplyExecute(s: System, j: nat): System
    requires j < |s.jobs|
  {
    var job := s.jobs[j];
    var send := !job.canceled && job.resultQueue;
    s.(jobs := s.jobs[j := job.(runner := Executed, sent := send)],
       results := if send then s.results + [j] else s.results)
  }

  /** The end of an execution: inline in doWork, or the deferred function of
      the goroutine, which gives the balloon back if the flag is set. */
  function ApplyFinish(s: System, j: nat): System
    requires j < |s.jobs| && s.jobs[j].worker < |s.active|
  {
    var job := s.jobs[j];
    var done := job.(runner := Finished,
                     handler := if job.handler == Inline then Returned else job.handler,
                     released := job.ballooning);
    s.(active := Bump(s.active, job.worker, -1),
       jobs := s.jobs[j := done],
       curBallooningWorker := if job.ballooning then s.curBallooningWorker - 1 else s.curBallooningWorker)
  }

  function ApplyTick(cfg: Config, s: System, j: nat, loadAndMemoryOk: bool): System
    requires j < |s.jobs|
  {
    if StartBallooning(cfg, s, loadAndMemoryOk) then
      s.(curBallooningWorker := s.curBallooningWorker + 1,
         jobs := s.jobs[j := s.jobs[j].(ballooning := true, handler := Returned)])
    else s
  }

  function StartWorker(s: System, ok: bool, next: Manager): System {
    if ok then s.(active := s.active + [0], manager := Adding(|s.active|, next)) else s.(manager := next)
  }

  /** One step of manageWorkers. `ok` is the answer of the outside world where
      the step asks for one: servers are active, the new worker came up, the
      pool has been idle long enough, load and memory permit more workers. */
  function ApplyManage(cfg: Config, s: System, ok: bool, pick: nat): System {
    match s.manager
    case Sleeping =>
      if !ok then s.(firstTick := false) else
        var target := if s.firstTick && cfg.initialStart > 0 then cfg.initialStart else cfg.minWorker;
        s.(firstTick := false, activeWorkers := Busy(s), manager := Measured(target, |s.workerMap|))
    case Measured(target, total) => s.(manager := Filling(target - |s.workerMap|, total))
    case Filling(left, total) =>
      if left > 0 then StartWorker(s, ok, Filling(left - 1, total))
      else s.(utilization := if total > 0 then s.activeWorkers * 100 / total else 0, manager := Shrinking)
    case Adding(w, next) => s.(workerMap := s.workerMap + {w}, manager := next)
    case Shrinking => s.(manager := if |s.workerMap| == 0 then Growing else AboveZero)
    case AboveZero => s.(manager := if |s.workerMap| <= cfg.minWorker then Growing else AboveMinimum)
    case AboveMinimum =>
      if |s.workerMap| == 0 then s.(manager := Crashed)
      else if AtWatermark(s.activeWorkers, |s.workerMap|) then s.(manager := Growing)
      else s.(manager := Underused)
    case Underused => s.(manager := if ok then Sinking(EffectiveSinkRate(cfg)) else Growing)
    case Crashed => s
    case Sinking(sinks) =>
      if sinks == 0 || |s.workerMap| <= cfg.minWorker then s.(manager := Growing)
      else if Idle(s, pick) then s.(manager := Stopping(pick, sinks - 1))
      else s.(manager := Sinking(sinks - 1))
    case Stopping(w, sinks) => s.(workerMap := s.workerMap - {w}, manager := Sinking(sinks))
    case Growing =>
      if s.activeWorkers < |s.workerMap| || |s.workerMap| >= cfg.maxWorker || !ok
      then s.(manager := Sleeping)
      else s.(manager := Spawning(if cfg.spawnRate < 0 then 0 else cfg.spawnRate))
    case Spawning(spawns) =>
      if spawns == 0 || |s.workerMap| >= cfg.maxWorker then s.(manager := Sleeping)
      else StartWorker(s, ok, Spawning(spawns - 1))
  }

  function Apply(cfg: Config, s: System, e: Event): System
    requires Enabled(cfg, s, e)
  {
    match e
    case Arrive(w) => ApplyArrive(s, w)
    case DecryptFail(j) => ApplyDecryptFail(s, j)
    case Accept(j, hasQueue) => ApplyAccept(cfg, s, j, hasQueue)
    case Cancel(j) => s.(jobs := s.jobs[j := s.jobs[j].(canceled := true)])
    case Execute(j) => ApplyExecute(s, j)
    case Finish(j) => ApplyFinish(s, j)
    case Receive(j) => s.(jobs := s.jobs[j := s.jobs[j].(handler := Returned)])
    case Tick(j, ok) => ApplyTick(cfg, s, j, ok)
    case Unregister(w) => s.(workerMap := s.workerMap - {w})
    case Manage(ok, pick) => ApplyManage(cfg, s, ok, pick)
  }

  // ---- runs ----

  /** The run of an epoch: a list of events, each enabled when it happens. */
  predicate IsRun(cfg: Config, run: seq<Event>)
    decreases |run|, 0
  {
    run == [] ||
    var before := run[..|run| - 1];
    IsRun(cfg, before) && Enabled(cfg, After(cfg, before), run[|run| - 1])
  }

  function After(cfg: Config, run: seq<Event>): System
    requires IsRun(cfg, run)
    decreases |run|
  {
    if run == [] then Init()
    else Apply(cfg, After(cfg, run[..|run| - 1]), run[|run| - 1])
  }

  ghost predicate Reachable(cfg: Config, s: System) {
    exists run :: IsRun(cfg, run) && After(cfg, run) == s
  }

  lemma ExtendRun(cfg: Config, run: seq<Event>, e: Event)
    requires IsRun(cfg, run) && Enabled(cfg, After(cfg, run), e)
    ensures IsRun(cfg, run + [e]) && After(cfg, run + [e]) == Apply(cfg, After(cfg, run), e)
  {
    assert (run + [e])[..|run|] == run;
  }

  lemma ReachableStep(cfg: Config, s: System, e: Event)
    requires Reachable(cfg, s) && Enabled(cfg, s, e)
    ensures Reachable(cfg, Apply(cfg, s, e))
  {
    var run :| IsRun(cfg, run) && After(cfg, run) == s;
    ExtendRun(cfg, run, e);
  }

  // ---- what every step keeps: job accounting ----

  function UnfinishedOf(w: nat): Job -> bool {
    (job: Job) => job.worker == w && job.runner != Finished
  }

  /** A balloon that was taken and not given back. */
  function Holding(): Job -> bool {
    (job: Job) => job.ballooning && !job.released
  }

  function UnfinishedBallooned(): Job -> bool {
    (job: Job) => job.ballooning && job.runner != Finished
  }

  /** Put into the background after its execution was over. */
  function Leaked(): Job -> bool {
    (job: Job) => job.ballooning && !job.released && job.runner == Finished
  }

  predicate JobOk(job: Job, workers: nat) {
    && job.worker < workers
    && (job.runner == Waiting <==> job.handler == Decoding)
    && (job.runner == Waiting ==> !job.resultQueue)
    && (job.ballooning ==> job.handler == Returned)
    && (job.handler == Returned && job.runner != Finished ==> job.ballooning)
    && (job.handler == Inline ==> job.runner != Finished)
    && (job.released ==> job.ballooning && job.runner == Finished)
    && (job.sent ==> job.resultQueue && job.runner in {Executed, Finished})
    && (job.runner in {Executed, Finished} && job.resultQueue && !job.canceled ==> job.sent)
  }

  ghost predicate JobsInv(s: System) {
    && (forall j :: 0 <= j < |s.jobs| ==> JobOk(s.jobs[j], |s.active|))
    && (forall w :: 0 <= w < |s.active| ==> s.active[w] == Count(s.jobs, UnfinishedOf(w)))
    && s.curBallooningWorker == Count(s.jobs, Holding())
    && (forall j: nat :: multiset(s.results)[j] == if j < |s.jobs| && s.jobs[j].sent then 1 else 0)
  }

  /** Replacing one job changes each counter by that job alone. */
  lemma ReplaceJob(s: System, j: nat, job: Job)
    requires j < |s.jobs|
    ensures forall w :: 0 <= w < |s.active| ==>
      Count(s.jobs[j := job], UnfinishedOf(w)) + (if UnfinishedOf(w)(s.jobs[j]) then 1 else 0)
        == Count(s.jobs, UnfinishedOf(w)) + (if UnfinishedOf(w)(job) then 1 else 0)
    ensures Count(s.jobs[j := job], Holding()) + (if Holding()(s.jobs[j]) then 1 else 0)
        == Count(s.jobs, Holding()) + (if Holding()(job) then 1 else 0)
  {
    forall w | 0 <= w < |s.active|
      ensures Count(s.jobs[j := job], UnfinishedOf(w)) + (if UnfinishedOf(w)(s.jobs[j]) then 1 else 0)
        == Count(s.jobs, UnfinishedOf(w)) + (if UnfinishedOf(w)(job) then 1 else 0)
    {
      CountUpdate(s.jobs, j, job, UnfinishedOf(w));
    }
    CountUpdate(s.jobs, j, job, Holding());
  }

  lemma ArriveKeepsJobs(s: System, w: nat)
    requires JobsInv(s) && w < |s.active|
    ensures JobsInv(ApplyArrive(s, w))
  {
    hide Count;
    var s' := ApplyArrive(s, w);
    var job := s'.jobs[|s.jobs|];
    forall v | 0 <= v < |s'.active| ensures s'.active[v] == Count(s'.jobs, UnfinishedOf(v)) {
      CountAppend(s.jobs, job, UnfinishedOf(v));
    }
    CountAppend(s.jobs, job, Holding());
  }

  lemma JobStepKeepsJobs(cfg: Config, s: System, e: Event)
    requires JobsInv(s) && Enabled(cfg, s, e)
    requires e.DecryptFail? || e.Accept? || e.Cancel? || e.Finish? || e.Receive? || e.Tick?
    ensures JobsInv(Apply(cfg, s, e))
  {
    hide ConsiderBallooning, Count, ApplyFinish, ApplyTick;
    assert JobOk(s.jobs[e.j], |s.active|);
    match e
    case DecryptFail(j) => ReplacedKeepsJobs(s, Apply(cfg, s, e), j);
    case Accept(j, _) => ReplacedKeepsJobs(s, Apply(cfg, s, e), j);
    case Cancel(j) => ReplacedKeepsJobs(s, Apply(cfg, s, e), j);
    case Finish(j) => FinishKeepsJobs(s, j);
    case Receive(j) => ReplacedKeepsJobs(s, Apply(cfg, s, e), j);
    case Tick(j, ok) => TickKeepsJobs(cfg, s, j, ok);
  }

  lemma FinishKeepsJobs(s: System, j: nat)
    requires JobsInv(s) && j < |s.jobs| && s.jobs[j].runner == Executed && s.jobs[j].worker < |s.active|
    ensures JobsInv(ApplyFinish(s, j))
  {
    hide Count;
    assert JobOk(s.jobs[j], |s.active|);
    ReplacedKeepsJobs(s, ApplyFinish(s, j), j);
  }

  lemma TickKeepsJobs(cfg: Config, s: System, j: nat, ok: bool)
    requires JobsInv(s) && j < |s.jobs| && s.jobs[j].handler == Watching
    ensures JobsInv(ApplyTick(cfg, s, j, ok))
  {
    hide Count, StartBallooning;
    assert JobOk(s.jobs[j], |s.active|);
    if StartBallooning(cfg, s, ok) {
      ReplacedKeepsJobs(s, ApplyTick(cfg, s, j, ok), j);
    }
  }

  /** One job is replaced, and the counters follow it. */
  lemma ReplacedKeepsJobs(s: System, s': System, j: nat)
    requires JobsInv(s) && j < |s.jobs| == |s'.jobs| && s'.jobs == s.jobs[j := s'.jobs[j]]
    requires JobOk(s'.jobs[j], |s.active|) && s'.jobs[j].sent == s.jobs[j].sent && s'.jobs[j].worker == s.jobs[j].worker
    requires s'.results == s.results
    requires var w, before, after := s.jobs[j].worker, s.jobs[j].runner != Finished, s'.jobs[j].runner != Finished;
      s'.active == Bump(s.active, w, (if after then 1 else 0) - (if before then 1 else 0))
    requires s'.curBallooningWorker + (if Holding()(s.jobs[j]) then 1 else 0)
      == s.curBallooningWorker + (if Holding()(s'.jobs[j]) then 1 else 0)
    ensures JobsInv(s')
  {
    ReplaceJob(s, j, s'.jobs[j]);
  }

  lemma ExecuteKeepsJobs(s: System, j: nat)
    requires JobsInv(s) && j < |s.jobs| && s.jobs[j].runner == Executing
    ensures JobsInv(ApplyExecute(s, j))
  {
    ReplaceJob(s, j, ApplyExecute(s, j).jobs[j]);
  }

  /** The manager touches neither jobs nor balloons; it may create a worker. */
  lemma ManageFrame(cfg: Config, s: System, ok: bool, pick: nat)
    ensures var s' := ApplyManage(cfg, s, ok, pick);
      && s'.jobs == s.jobs && s'.results == s.results
      && s'.curBallooningWorker == s.curBallooningWorker
      && (s'.active == s.active || s'.active == s.active + [0])
  {
  }

  lemma ManageKeepsJobs(s: System, s': System)
    requires JobsInv(s)
    requires s'.jobs == s.jobs && s'.results == s.results && s'.curBallooningWorker == s.curBallooningWorker
    requires s'.active == s.active || s'.active == s.active + [0]
    ensures JobsInv(s')
  {
    CountNone(s.jobs, UnfinishedOf(|s.active|));
  }

  lemma StepKeepsJobs(cfg: Config, s: System, e: Event)
    requires JobsInv(s) && Enabled(cfg, s, e)
    ensures JobsInv(Apply(cfg, s, e))
  {
    match e
    case Arrive(w) => ArriveKeepsJobs(s, w);
    case Execute(j) => ExecuteKeepsJobs(s, j);
    case Manage(ok, pick) =>
      ManageFrame(cfg, s, ok, pick);
      ManageKeepsJobs(s, ApplyManage(cfg, s, ok, pick));
    case Unregister(w) =>
    case _ => JobStepKeepsJobs(cfg, s, e);
  }

  lemma {:induction false} RunKeepsJobs(cfg: Config, run: seq<Event>)
    requires IsRun(cfg, run)
    ensures JobsInv(After(cfg, run))
  {
    if run != [] {
      RunKeepsJobs(cfg, run[..|run| - 1]);
      StepKeepsJobs(cfg, After(cfg, run[..|run| - 1]), run[|run| - 1]);
    }
  }
}
