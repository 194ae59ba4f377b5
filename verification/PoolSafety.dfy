/** Safety of the worker pool over whole epochs. */
module PoolSafety {
  import opened Counting
  import opened WorkerPool
  import OpenFiles

  // ---- the pool never outgrows maxWorker ----

  /** The settings under which the pool bound is promised. */
  predicate Bounded(cfg: Config) {
    0 <= cfg.maxWorker && cfg.minWorker <= cfg.maxWorker && cfg.initialStart <= cfg.maxWorker
  }

  /** Nothing in the settings lets the pool grow beyond `bound`. */
  predicate Fits(cfg: Config, bound: int) {
    0 <= bound && cfg.minWorker <= bound && cfg.initialStart <= bound && (cfg.maxWorker <= bound || cfg.spawnRate <= 0)
  }

  /** What the manager's position says about the room left below `bound`. */
  predicate Room(cfg: Config, bound: int, size: nat, m: Manager) {
    match m
    case Measured(target, _) => target <= bound
    case Filling(left, _) => size + left <= bound
    case Spawning(spawns) => spawns == 0 || cfg.maxWorker <= bound
    case Adding(_, Filling(left, _)) => 0 <= left && size + 1 + left <= bound
    case Adding(_, Spawning(_)) => size + 1 <= bound && cfg.maxWorker <= bound
    case Adding(_, _) => false
    case _ => true
  }

  predicate PoolInv(cfg: Config, bound: int, s: System) {
    |s.workerMap| <= bound && Room(cfg, bound, |s.workerMap|, s.manager)
  }

  lemma ManageKeepsPool(cfg: Config, bound: int, s: System, ok: bool, pick: nat)
    requires Fits(cfg, bound) && PoolInv(cfg, bound, s)
    ensures PoolInv(cfg, bound, ApplyManage(cfg, s, ok, pick))
  {
    hide EffectiveSinkRate, Busy, AtWatermark, Idle;
    if s.manager.Adding? {
      AddKeepsPool(cfg, bound, s, ok, pick);
    } else {
      var s' := ApplyManage(cfg, s, ok, pick);
      assert s'.workerMap <= s.workerMap;
      Shrinks(s'.workerMap, s.workerMap);
    }
  }

  lemma AddKeepsPool(cfg: Config, bound: int, s: System, ok: bool, pick: nat)
    requires PoolInv(cfg, bound, s) && s.manager.Adding?
    ensures PoolInv(cfg, bound, ApplyManage(cfg, s, ok, pick))
  {
    hide EffectiveSinkRate, Busy, AtWatermark, Idle;
    assert |ApplyManage(cfg, s, ok, pick).workerMap| <= |s.workerMap| + 1;
  }

  lemma Shrinks(a: set<nat>, b: set<nat>)
    requires a <= b
    ensures |a| <= |b|
  {
    assert b == a + (b - a);
  }

  lemma StepKeepsPool(cfg: Config, bound: int, s: System, e: Event)
    requires Fits(cfg, bound) && PoolInv(cfg, bound, s) && Enabled(cfg, s, e)
    ensures PoolInv(cfg, bound, Apply(cfg, s, e))
  {
    if e.Manage? {
      ManageKeepsPool(cfg, bound, s, e.ok, e.pick);
    } else {
      Shrinks(Apply(cfg, s, e).workerMap, s.workerMap);
    }
  }

  /** The pool never outgrows a bound that the settings respect. */
  lemma {:induction false} RunKeepsPool(cfg: Config, bound: int, run: seq<Event>)
    requires Fits(cfg, bound) && IsRun(cfg, run)
    ensures PoolInv(cfg, bound, After(cfg, run))
  {
    if run != [] {
      RunKeepsPool(cfg, bound, run[..|run| - 1]);
      StepKeepsPool(cfg, bound, After(cfg, run[..|run| - 1]), run[|run| - 1]);
    }
  }

  /** The filling loop starts workers until its count runs out, whatever maxWorker is. */
  lemma {:induction false} FillUp(cfg: Config, s: System) returns (full: System)
    requires Reachable(cfg, s) && s.manager.Filling?
    requires forall w :: w in s.workerMap ==> w < |s.active|
    ensures Reachable(cfg, full) && |full.workerMap| >= |s.workerMap| + s.manager.left
    ensures full.manager.Filling? && full.manager.left <= 0 && full.firstTick == s.firstTick
    decreases if s.manager.left > 0 then s.manager.left else 0
  {
    if s.manager.left <= 0 {
      return s;
    }
    var go := Manage(true, 0);
    var started := Apply(cfg, s, go);
    ReachableStep(cfg, s, go);
    var added := Apply(cfg, started, go);
    ReachableStep(cfg, started, go);
    assert |added.workerMap| == |s.workerMap| + 1;
    full := FillUp(cfg, added);
  }

  lemma FirstTickFills(cfg: Config, skip: bool) returns (full: System)
    ensures Reachable(cfg, full)
    ensures |full.workerMap| >= if !skip && cfg.initialStart > 0 then cfg.initialStart else cfg.minWorker
    ensures full.manager.Filling? && full.manager.left <= 0 && !full.firstTick
  {
    var s := Init();
    assert IsRun(cfg, []) && After(cfg, []) == s;
    if skip {
      ReachableStep(cfg, s, Manage(false, 0));
      s := Apply(cfg, s, Manage(false, 0));
    }
    var measured := Apply(cfg, s, Manage(true, 0));
    ReachableStep(cfg, s, Manage(true, 0));
    var filling := Apply(cfg, measured, Manage(true, 0));
    ReachableStep(cfg, measured, Manage(true, 0));
    full := FillUp(cfg, filling);
  }

  /** The pool stays within maxWorker in every reachable state exactly when the
      clamped maximum is neither negative nor below minWorker or initialStart. */
  lemma PoolBoundIff(cfg: Config)
    ensures (forall s :: Reachable(cfg, s) ==> |s.workerMap| <= cfg.maxWorker) <==> Bounded(cfg)
  {
    if Bounded(cfg) {
      forall s | Reachable(cfg, s) ensures |s.workerMap| <= cfg.maxWorker {
        var run :| IsRun(cfg, run) && After(cfg, run) == s;
        RunKeepsPool(cfg, cfg.maxWorker, run);
      }
    } else if cfg.maxWorker < 0 {
      assert IsRun(cfg, []) && Reachable(cfg, Init());
    } else {
      var full := FirstTickFills(cfg, cfg.initialStart <= cfg.maxWorker);
      assert |full.workerMap| > cfg.maxWorker;
    }
  }

  // ---- the open-files budget ----

  /** The guard of the ticker branch keeps the balloons within what the clamped pool leaves over. */
  lemma {:induction false} BalloonsWithinBudget(cfg: Config, run: seq<Event>)
    requires IsRun(cfg, run) && cfg.maxWorker <= cfg.maxPossibleWorker
    ensures 0 <= After(cfg, run).curBallooningWorker <= cfg.maxPossibleWorker - cfg.maxWorker
  {
    RunKeepsJobs(cfg, run);
    if run != [] {
      var s, e := After(cfg, run[..|run| - 1]), run[|run| - 1];
      BalloonsWithinBudget(cfg, run[..|run| - 1]);
      if e.Manage? {
        ManageFrame(cfg, s, e.ok, e.pick);
      }
    }
  }

  /** In every reachable state the registered workers and the ballooned jobs
      together fit the open-files limit. The bound on maxWorker is what
      OpenFiles.ClampMaxWorker returns. */
  lemma DescriptorBudget(cfg: Config, maxOpenFiles: nat, s: System)
    requires Bounded(cfg) && cfg.maxPossibleWorker == OpenFiles.MaxPossibleWorker(maxOpenFiles)
    requires cfg.maxWorker <= cfg.maxPossibleWorker
    requires Reachable(cfg, s)
    ensures |s.workerMap| + s.curBallooningWorker <= cfg.maxPossibleWorker
    ensures maxOpenFiles >= 60 ==> OpenFiles.Needed(|s.workerMap| + s.curBallooningWorker) <= maxOpenFiles as real
  {
    var run :| IsRun(cfg, run) && After(cfg, run) == s;
    RunKeepsPool(cfg, cfg.maxWorker, run);
    BalloonsWithinBudget(cfg, run);
    if maxOpenFiles >= 60 {
      OpenFiles.LimitIsExact(|s.workerMap| + s.curBallooningWorker, maxOpenFiles);
    }
  }

  // ---- job accounting over whole runs ----

  function UnfinishedJobs(s: System, w: nat): set<nat> {
    set j: nat | j < |s.jobs| && s.jobs[j].worker == w && s.jobs[j].runner != Finished
  }

  lemma ActiveJobsOf(s: System, w: nat)
    requires JobsInv(s) && w < |s.active|
    ensures s.active[w] == |UnfinishedJobs(s, w)|
  {
    CountIsCardinality(s.jobs, UnfinishedOf(w));
    assert UnfinishedJobs(s, w) == set j: nat | j < |s.jobs| && UnfinishedOf(w)(s.jobs[j]);
  }

  /** A worker's activeJobs counter is the number of its unfinished jobs. */
  lemma ActiveJobsExact(cfg: Config, s: System, w: nat)
    requires Reachable(cfg, s) && w < |s.active|
    ensures s.active[w] == |UnfinishedJobs(s, w)|
  {
    var run :| IsRun(cfg, run) && After(cfg, run) == s;
    RunKeepsJobs(cfg, run);
    ActiveJobsOf(s, w);
  }

  lemma {:induction false} CountIsCardinality(jobs: seq<Job>, p: Job -> bool)
    ensures Count(jobs, p) == |set j: nat | j < |jobs| && p(jobs[j])|
  {
    var all := set j: nat | j < |jobs| && p(jobs[j]);
    if jobs != [] {
      var n := |jobs| - 1;
      var front := jobs[..n];
      CountIsCardinality(front, p);
      var some := set j: nat | j < |front| && p(front[j]);
      if p(jobs[n]) {
        assert all == some + {n};
      } else {
        assert all == some;
      }
    }
  }

  /** Each job has sent at most one primary result; exactly one once it is
      executed, if it has a result queue and was not cancelled, and none without a queue. */
  lemma OnePrimaryResult(cfg: Config, s: System, j: nat)
    requires Reachable(cfg, s) && j < |s.jobs|
    ensures var job, sent := s.jobs[j], multiset(s.results)[j];
      && sent <= 1
      && (!job.resultQueue ==> sent == 0)
      && (job.runner in {Waiting, Executing} ==> sent == 0)
      && (job.runner in {Executed, Finished} && job.resultQueue && !job.canceled ==> sent == 1)
    ensures forall k :: k in s.results ==> k < |s.jobs|
  {
    var run :| IsRun(cfg, run) && After(cfg, run) == s;
    RunKeepsJobs(cfg, run);
    forall k | k in s.results ensures k < |s.jobs| {
      assert multiset(s.results)[k] > 0;
    }
  }

  /** A job cancelled before its execution ended never sends a result. */
  lemma CanceledStaysSilent(cfg: Config, s: System, e: Event, j: nat)
    requires Reachable(cfg, s) && Enabled(cfg, s, e) && j < |s.jobs|
    requires s.jobs[j].canceled
    ensures var s' := Apply(cfg, s, e);
      j < |s'.jobs| && s'.jobs[j].canceled && multiset(s'.results)[j] == multiset(s.results)[j]
  {
    if e.Manage? {
      ManageFrame(cfg, s, e.ok, e.pick);
    }
  }

  /** The ticker branch was taken although the job's goroutine was already done:
      select may prefer the ticker when both channels are ready. */
  predicate TakesLate(cfg: Config, s: System, e: Event) {
    && e.Tick? && e.j < |s.jobs| && s.jobs[e.j].runner == Finished
    && StartBallooning(cfg, s, e.loadAndMemoryOk)
  }

  function LateTicks(cfg: Config, run: seq<Event>): nat
    requires IsRun(cfg, run)
  {
    if run == [] then 0
    else
      var before := run[..|run| - 1];
      LateTicks(cfg, before) + (if TakesLate(cfg, After(cfg, before), run[|run| - 1]) then 1 else 0)
  }

  lemma StepLeaks(cfg: Config, s: System, e: Event)
    requires JobsInv(s) && Enabled(cfg, s, e)
    ensures Count(Apply(cfg, s, e).jobs, Leaked())
         == Count(s.jobs, Leaked()) + (if TakesLate(cfg, s, e) then 1 else 0)
  {
    var s' := Apply(cfg, s, e);
    if e.Manage? {
      ManageFrame(cfg, s, e.ok, e.pick);
    } else if e.Arrive? {
      CountAppend(s.jobs, s'.jobs[|s.jobs|], Leaked());
    } else if !e.Unregister? {
      CountUpdate(s.jobs, e.j, s'.jobs[e.j], Leaked());
    }
  }

  lemma {:induction false} LeaksAreLateTicks(cfg: Config, run: seq<Event>)
    requires IsRun(cfg, run)
    ensures Count(After(cfg, run).jobs, Leaked()) == LateTicks(cfg, run)
  {
    if run != [] {
      var before := run[..|run| - 1];
      LeaksAreLateTicks(cfg, before);
      RunKeepsJobs(cfg, before);
      StepLeaks(cfg, After(cfg, before), run[|run| - 1]);
    }
  }

  lemma SplitBalloons(s: System)
    requires JobsInv(s)
    ensures s.curBallooningWorker == Count(s.jobs, UnfinishedBallooned()) + Count(s.jobs, Leaked())
  {
    CountSplit(s.jobs, Holding(), UnfinishedBallooned(), Leaked());
  }

  /** The balloon counter is the number of unfinished ballooned jobs plus the
      number of late ticks of the run; so it is exact if and only if there were none. */
  lemma {:induction false} BalloonAccounting(cfg: Config, run: seq<Event>)
    requires IsRun(cfg, run)
    ensures After(cfg, run).curBallooningWorker
         == Count(After(cfg, run).jobs, UnfinishedBallooned()) + LateTicks(cfg, run)
  {
    RunKeepsJobs(cfg, run);
    LeaksAreLateTicks(cfg, run);
    SplitBalloons(After(cfg, run));
  }

  // ---- a run with a late tick ----

  function LeakConfig(): Config {
    Config(1, 1, 3, 1, 30, 2, 0)
  }

  /** One more event on a run, with the state it leads to. */
  lemma Advance(cfg: Config, run: seq<Event>, s: System, e: Event, s': System) returns (longer: seq<Event>)
    requires IsRun(cfg, run) && After(cfg, run) == s
    requires Enabled(cfg, s, e) && Apply(cfg, s, e) == s'
    ensures IsRun(cfg, longer) && After(cfg, longer) == s'
    ensures LateTicks(cfg, longer) == LateTicks(cfg, run) + (if TakesLate(cfg, s, e) then 1 else 0)
  {
    longer := run + [e];
    ExtendRun(cfg, run, e);
    assert longer[..|run|] == run;
  }

  lemma EmptyRun(cfg: Config)
    ensures IsRun(cfg, []) && After(cfg, []) == Init() && LateTicks(cfg, []) == 0
  {
  }

  lemma BusyAre(s: System, who: set<nat>)
    requires forall w :: w in who <==> w in s.workerMap && w < |s.active| && s.active[w] > 0
    ensures Busy(s) == |who|
  {
    assert who == set w | w in s.workerMap && w < |s.active| && s.active[w] > 0;
  }

  lemma FirstWorkerUp() returns (run: seq<Event>)
    ensures IsRun(LeakConfig(), run) && LateTicks(LeakConfig(), run) == 0
    ensures After(LeakConfig(), run) == System({0}, [0], [], 0, 0, 0, false, Sleeping, [])
  {
    hide IsRun, After, LateTicks;
    var cfg, go, s := LeakConfig(), Manage(true, 0), Init();
    EmptyRun(cfg);
    BusyAre(s, {});
    hide Busy;
    run := Advance(cfg, [], s, go, s.(firstTick := false, manager := Measured(1, 0)));
    s := s.(firstTick := false, manager := Measured(1, 0));
    run := Advance(cfg, run, s, go, s.(manager := Filling(1, 0)));
    s := s.(manager := Filling(1, 0));
    run := Advance(cfg, run, s, go, s.(active := [0], manager := Adding(0, Filling(0, 0))));
    s := s.(active := [0], manager := Adding(0, Filling(0, 0)));
    run := Advance(cfg, run, s, go, s.(workerMap := {0}, manager := Filling(0, 0)));
    s := s.(workerMap := {0}, manager := Filling(0, 0));
    run := Advance(cfg, run, s, go, s.(manager := Shrinking));
    run := Advance(cfg, run, s.(manager := Shrinking), go, s.(manager := AboveZero));
    run := Advance(cfg, run, s.(manager := AboveZero), go, s.(manager := Growing));
    run := Advance(cfg, run, s.(manager := Growing), go, s.(manager := Sleeping));
  }

  lemma WorkerBusy() returns (run: seq<Event>)
    ensures IsRun(LeakConfig(), run) && LateTicks(LeakConfig(), run) == 0
    ensures After(LeakConfig(), run) == OneJob()
  {
    hide IsRun, After, LateTicks;
    run := FirstWorkerUp();
    var s := After(LeakConfig(), run);
    run := Advance(LeakConfig(), run, s, Arrive(0), OneJob());
  }

  function OneJob(): System {
    System({0}, [1], [Job(0, Decoding, Waiting, false, false, false, false, false)], 0, 0, 0, false, Sleeping, [])
  }

  lemma PoolSaturated() returns (run: seq<Event>)
    ensures IsRun(LeakConfig(), run) && LateTicks(LeakConfig(), run) == 0
    ensures After(LeakConfig(), run) == OneJob().(activeWorkers := 1, utilization := 100)
  {
    hide IsRun, After, LateTicks;
    var cfg, go, s := LeakConfig(), Manage(true, 0), OneJob();
    run := WorkerBusy();
    BusyAre(s, {0});
    hide Busy;
    run := Advance(cfg, run, s, go, s.(activeWorkers := 1, manager := Measured(1, 1)));
    s := s.(activeWorkers := 1);
    run := Advance(cfg, run, s.(manager := Measured(1, 1)), go, s.(manager := Filling(0, 1)));
    run := Advance(cfg, run, s.(manager := Filling(0, 1)), go, s.(utilization := 100, manager := Shrinking));
    s := s.(utilization := 100);
    run := Advance(cfg, run, s.(manager := Shrinking), go, s.(manager := AboveZero));
    run := Advance(cfg, run, s.(manager := AboveZero), go, s.(manager := Growing));
    run := Advance(cfg, run, s.(manager := Growing), go, s.(manager := Sleeping));
  }

  /** The counter is not always exact: in this run the only job is finished and
      its balloon stays taken, because the ticker was served after the job was done. */
  lemma LateTickHappens() returns (run: seq<Event>)
    ensures IsRun(LeakConfig(), run)
    ensures var s := After(LeakConfig(), run);
      s.curBallooningWorker == 1 && forall j :: 0 <= j < |s.jobs| ==> s.jobs[j].runner == Finished
  {
    hide IsRun, After, LateTicks;
    var cfg := LeakConfig();
    run := PoolSaturated();
    var s := After(cfg, run);
    run := Advance(cfg, run, s, Accept(0, true), ApplyAccept(cfg, s, 0, true));
    s := ApplyAccept(cfg, s, 0, true);
    run := Advance(cfg, run, s, Execute(0), ApplyExecute(s, 0));
    s := ApplyExecute(s, 0);
    run := Advance(cfg, run, s, Finish(0), ApplyFinish(s, 0));
    s := ApplyFinish(s, 0);
    run := Advance(cfg, run, s, Tick(0, true), ApplyTick(cfg, s, 0, true));
  }

  // ---- a run that divides by zero ----

  /** The only worker disconnects between the check of the pool's size and the division by it. */
  lemma CrashHappens() returns (run: seq<Event>)
    ensures IsRun(Config(0, 1, 1, 1, 0, 2, 1), run)
    ensures After(Config(0, 1, 1, 1, 0, 2, 1), run).manager == Crashed
  {
    hide IsRun, After, LateTicks;
    var cfg, go, s := Config(0, 1, 1, 1, 0, 2, 1), Manage(true, 0), Init();
    EmptyRun(cfg);
    BusyAre(s, {});
    hide Busy;
    run := Advance(cfg, [], s, go, s.(firstTick := false, manager := Measured(1, 0)));
    s := s.(firstTick := false, manager := Measured(1, 0));
    run := Advance(cfg, run, s, go, s.(manager := Filling(1, 0)));
    s := s.(manager := Filling(1, 0));
    run := Advance(cfg, run, s, go, s.(active := [0], manager := Adding(0, Filling(0, 0))));
    s := s.(active := [0], manager := Adding(0, Filling(0, 0)));
    run := Advance(cfg, run, s, go, s.(workerMap := {0}, manager := Filling(0, 0)));
    s := s.(workerMap := {0}, manager := Filling(0, 0));
    run := Advance(cfg, run, s, go, s.(manager := Shrinking));
    run := Advance(cfg, run, s.(manager := Shrinking), go, s.(manager := AboveZero));
    run := Advance(cfg, run, s.(manager := AboveZero), go, s.(manager := AboveMinimum));
    s := s.(manager := AboveMinimum);
    run := Advance(cfg, run, s, Unregister(0), s.(workerMap := {}));
    s := s.(workerMap := {});
    run := Advance(cfg, run, s, go, s.(manager := Crashed));
  }
}
