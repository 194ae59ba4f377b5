/** Exactly which settings keep the open-files budget, and which can crash the manager. */
module PoolLimits {
  import opened Counting
  import opened WorkerPool
  import opened PoolSafety
  import OpenFiles
  import PoolManager

  function Max(a: int, b: int): int {
    if a < b then b else a
  }

  /** The size that the pool never exceeds. */
  function PoolCap(cfg: Config): (cap: int)
    ensures Fits(cfg, cap)
  {
    Max(Max(0, cfg.minWorker), Max(cfg.initialStart, if cfg.spawnRate > 0 then cfg.maxWorker else 0))
  }

  // ---- pieces of runs ----

  lemma Go(cfg: Config, s: System, e: Event) returns (s': System)
    requires Reachable(cfg, s) && Enabled(cfg, s, e)
    ensures s' == Apply(cfg, s, e) && Reachable(cfg, s')
  {
    ReachableStep(cfg, s, e);
    s' := Apply(cfg, s, e);
  }

  lemma Manages(cfg: Config, s: System, ok: bool) returns (s': System)
    requires Reachable(cfg, s) && !s.manager.Sinking?
    ensures s' == ApplyManage(cfg, s, ok, 0) && Reachable(cfg, s')
  {
    hide Reachable;
    s' := Go(cfg, s, Manage(ok, 0));
  }

  lemma CountersAreNatural(cfg: Config, s: System)
    requires Reachable(cfg, s)
    ensures forall w :: 0 <= w < |s.active| ==> s.active[w] >= 0
  {
    var run :| IsRun(cfg, run) && After(cfg, run) == s;
    RunKeepsJobs(cfg, run);
  }

  /** The first `n` workers each get a job. */
  lemma {:induction false} AllBusy(cfg: Config, s: System, n: nat) returns (s': System)
    requires Reachable(cfg, s) && n <= |s.active|
    ensures Reachable(cfg, s') && s' == s.(active := s'.active, jobs := s'.jobs) && |s'.active| == |s.active|
    ensures forall w :: 0 <= w < n ==> s'.active[w] > 0
    decreases n
  {
    hide Reachable;
    if n == 0 {
      s' := s;
    } else {
      var before := AllBusy(cfg, s, n - 1);
      CountersAreNatural(cfg, before);
      s' := Go(cfg, before, Arrive(n - 1));
    }
  }

  lemma BusyAll(cfg: Config, s: System)
    requires Reachable(cfg, s) && forall w :: 0 <= w < |s.active| ==> s.active[w] > 0
    ensures Busy(s) == |s.workerMap|
  {
    PoolManager.ReachableKnown(cfg, s);
    BusyAre(s, s.workerMap);
  }

  /** From the guards of the bottom level to those of the top level, stopping nobody. */
  lemma ToGrowing(cfg: Config, s: System) returns (s': System)
    requires Reachable(cfg, s) && s.manager == Shrinking
    ensures Reachable(cfg, s') && s' == s.(manager := Growing)
  {
    hide Reachable, AtWatermark, Busy, Idle;
    s' := Manages(cfg, s, false);
    if s'.manager == AboveZero {
      s' := Manages(cfg, s', false);
      if s'.manager == AboveMinimum {
        s' := Manages(cfg, s', false);
        if s'.manager == Underused {
          s' := Manages(cfg, s', false);
        }
      }
    }
  }

  lemma ToSleeping(cfg: Config, s: System) returns (s': System)
    requires Reachable(cfg, s) && s.manager == Shrinking
    ensures Reachable(cfg, s') && s' == s.(manager := Sleeping)
  {
    hide Reachable;
    s' := ToGrowing(cfg, s);
    s' := Manages(cfg, s', false);
  }

  /** The first half of a tick that has nobody to start. */
  lemma TickToShrinking(cfg: Config, s: System) returns (s': System)
    requires Reachable(cfg, s) && s.manager == Sleeping && !s.firstTick && |s.workerMap| >= cfg.minWorker
    ensures Reachable(cfg, s')
    ensures s' == s.(activeWorkers := Busy(s), utilization := s'.utilization, manager := Shrinking)
    ensures |s.workerMap| > 0 ==> s'.utilization == Busy(s) * 100 / |s.workerMap|
  {
    hide Reachable, Busy;
    s' := Manages(cfg, s, true);
    s' := Manages(cfg, s', true);
    s' := Manages(cfg, s', true);
  }

  /** After the first fill: the manager is before its shrinking guards. */
  lemma Filled(cfg: Config, skip: bool) returns (s: System)
    ensures Reachable(cfg, s) && s.manager == Shrinking && !s.firstTick
    ensures |s.workerMap| >= if !skip && cfg.initialStart > 0 then cfg.initialStart else cfg.minWorker
  {
    hide Reachable;
    s := FirstTickFills(cfg, skip);
    s := Manages(cfg, s, true);
  }

  /** The settings' own minimum is reached, with every worker busy, before a tick or in one. */
  lemma FilledAndBusy(cfg: Config, skip: bool) returns (s: System)
    requires cfg.minWorker <= if !skip && cfg.initialStart > 0 then cfg.initialStart else cfg.minWorker
    ensures Reachable(cfg, s) && s.manager == Shrinking && !s.firstTick && s.activeWorkers == |s.workerMap|
    ensures |s.workerMap| >= if !skip && cfg.initialStart > 0 then cfg.initialStart else cfg.minWorker
    ensures |s.workerMap| > 0 ==> s.utilization == 100 && |s.active| > 0
  {
    hide Reachable, Busy;
    s := Filled(cfg, skip);
    s := ToSleeping(cfg, s);
    s := AllBusy(cfg, s, |s.active|);
    BusyAll(cfg, s);
    PoolManager.ReachableKnown(cfg, s);
    s := TickToShrinking(cfg, s);
    if |s.workerMap| > 0 {
      var w :| w in s.workerMap;
      Percent(|s.workerMap|);
    }
  }

  lemma Percent(n: nat)
    requires n > 0
    ensures n * 100 / n == 100
  {
  }

  // ---- the crash ----

  lemma {:induction false} AllDisconnect(cfg: Config, s: System) returns (s': System)
    requires Reachable(cfg, s)
    ensures Reachable(cfg, s') && s' == s.(workerMap := {})
    decreases |s.workerMap|
  {
    hide Reachable;
    if s.workerMap == {} {
      s' := s;
    } else {
      var w :| w in s.workerMap;
      s' := Go(cfg, s, Unregister(w));
      s' := AllDisconnect(cfg, s');
    }
  }

  /** A pool above the minimum at the shrinking guards can be gone at the division. */
  lemma CrashFrom(cfg: Config, s: System)
    requires Reachable(cfg, s) && s.manager == Shrinking && |s.workerMap| > Max(0, cfg.minWorker)
    ensures exists c :: Reachable(cfg, c) && c.manager == Crashed
  {
    hide Reachable;
    var c := Manages(cfg, s, true);
    c := Manages(cfg, c, true);
    c := AllDisconnect(cfg, c);
    c := Manages(cfg, c, true);
  }

  /** The manager gets through its spawning loop without starting anybody else. */
  lemma {:induction false} FinishSpawning(cfg: Config, s: System) returns (s': System)
    requires Reachable(cfg, s) && s.manager.Spawning?
    ensures Reachable(cfg, s') && s' == s.(manager := Sleeping)
    decreases s.manager.spawns
  {
    hide Reachable;
    s' := Manages(cfg, s, false);
    if s'.manager.Spawning? {
      s' := FinishSpawning(cfg, s');
    }
  }

  /** All are busy and there is room: one more worker starts. */
  lemma OneMore(cfg: Config, s: System) returns (s': System)
    requires Reachable(cfg, s) && s.manager == Shrinking && s.activeWorkers == |s.workerMap|
    requires |s.workerMap| < cfg.maxWorker && cfg.spawnRate > 0
    ensures Reachable(cfg, s') && s'.manager == Sleeping && s'.firstTick == s.firstTick
    ensures |s'.workerMap| == |s.workerMap| + 1
  {
    hide Reachable;
    PoolManager.ReachableKnown(cfg, s);
    s' := ToGrowing(cfg, s);
    s' := Manages(cfg, s', true);
    s' := Manages(cfg, s', true);
    s' := Manages(cfg, s', true);
    s' := FinishSpawning(cfg, s');
  }

  /** The settings let the pool grow beyond the size that the shrinking guards accept. */
  predicate CanCrash(cfg: Config) {
    || cfg.initialStart > Max(0, cfg.minWorker)
    || (cfg.maxWorker > Max(0, cfg.minWorker) && cfg.spawnRate > 0)
  }

  lemma SomeCrash(cfg: Config)
    requires CanCrash(cfg)
    ensures exists c :: Reachable(cfg, c) && c.manager == Crashed
  {
    hide Reachable;
    if cfg.initialStart > Max(0, cfg.minWorker) {
      var s := Filled(cfg, false);
      CrashFrom(cfg, s);
    } else {
      var s := FilledAndBusy(cfg, true);
      if |s.workerMap| <= Max(0, cfg.minWorker) {
        s := OneMore(cfg, s);
        s := TickToShrinking(cfg, s);
      }
      CrashFrom(cfg, s);
    }
  }

  /** The manager has not come to the division, and with a minimum below zero not even to the check before it. */
  predicate Calm(cfg: Config, m: Manager) {
    m != AboveMinimum && m != Crashed && (cfg.minWorker < 0 ==> m != AboveZero)
  }

  lemma ManageStaysCalm(cfg: Config, s: System, ok: bool, pick: nat)
    requires |s.workerMap| <= Max(0, cfg.minWorker) && Calm(cfg, s.manager)
    requires s.manager.Adding? ==> !s.manager.next.AboveZero? && !s.manager.next.AboveMinimum? && !s.manager.next.Crashed?
    ensures Calm(cfg, ApplyManage(cfg, s, ok, pick).manager)
  {
    hide Busy, Idle, EffectiveSinkRate, AtWatermark;
  }

  lemma {:induction false} RunNeverCrashes(cfg: Config, run: seq<Event>)
    requires !CanCrash(cfg) && IsRun(cfg, run)
    ensures Calm(cfg, After(cfg, run).manager)
  {
    if run != [] {
      hide Calm, ApplyManage;
      var before, e := run[..|run| - 1], run[|run| - 1];
      RunNeverCrashes(cfg, before);
      RunKeepsPool(cfg, Max(0, cfg.minWorker), before);
      if e.Manage? {
        ManageStaysCalm(cfg, After(cfg, before), e.ok, e.pick);
      }
    } else {
      assert After(cfg, run) == Init();
    }
  }

  /** Some run makes the manager divide by zero, exactly if the settings start more
      workers than the minimum: at first, or by spawning. */
  lemma CrashIff(cfg: Config)
    ensures (exists s :: Reachable(cfg, s) && s.manager == Crashed) <==> CanCrash(cfg)
  {
    if CanCrash(cfg) {
      SomeCrash(cfg);
    } else {
      forall s | Reachable(cfg, s) ensures s.manager != Crashed {
        var run :| IsRun(cfg, run) && After(cfg, run) == s;
        RunNeverCrashes(cfg, run);
      }
    }
  }

  // ---- the budget ----

  /** Balloons are taken, one job after the other, until the budget is used up. */
  lemma {:induction false} Inflate(cfg: Config, s: System) returns (s': System)
    requires Reachable(cfg, s) && |s.active| > 0 && cfg.backgroundingThreshold > 0
    requires s.utilization >= BALLOONING_UTILIZATION_THRESHOLD
    ensures Reachable(cfg, s') && s'.workerMap == s.workerMap
    ensures s'.curBallooningWorker >= cfg.maxPossibleWorker - cfg.maxWorker
    decreases Max(0, cfg.maxPossibleWorker - cfg.maxWorker - s.curBallooningWorker)
  {
    hide Reachable;
    if s.curBallooningWorker >= cfg.maxPossibleWorker - cfg.maxWorker {
      s' := s;
    } else {
      s' := OneBalloon(cfg, s);
      s' := Inflate(cfg, s');
    }
  }

  lemma OneBalloon(cfg: Config, s: System) returns (s': System)
    requires Reachable(cfg, s) && |s.active| > 0 && cfg.backgroundingThreshold > 0
    requires s.utilization >= BALLOONING_UTILIZATION_THRESHOLD
    requires s.curBallooningWorker < cfg.maxPossibleWorker - cfg.maxWorker
    ensures Reachable(cfg, s') && s'.workerMap == s.workerMap && |s'.active| == |s.active|
    ensures s'.utilization == s.utilization && s'.curBallooningWorker == s.curBallooningWorker + 1
  {
    hide Reachable;
    var j := |s.jobs|;
    s' := Go(cfg, s, Arrive(0));
    s' := Go(cfg, s', Accept(j, false));
    s' := Go(cfg, s', Tick(j, true));
  }

  lemma {:induction false} NoBalloons(cfg: Config, run: seq<Event>)
    requires IsRun(cfg, run) && cfg.backgroundingThreshold <= 0
    ensures After(cfg, run).curBallooningWorker == 0
    ensures forall j :: 0 <= j < |After(cfg, run).jobs| ==> !After(cfg, run).jobs[j].ballooning
  {
    if run != [] {
      var before, e := run[..|run| - 1], run[|run| - 1];
      NoBalloons(cfg, before);
      if e.Manage? {
        ManageFrame(cfg, After(cfg, before), e.ok, e.pick);
      }
    }
  }

  lemma {:induction false} NoWorkers(cfg: Config, run: seq<Event>)
    requires IsRun(cfg, run) && PoolCap(cfg) == 0
    ensures After(cfg, run).active == [] && After(cfg, run).jobs == [] && After(cfg, run).curBallooningWorker == 0
  {
    if run != [] {
      hide ApplyManage;
      var before, e := run[..|run| - 1], run[|run| - 1];
      var s := After(cfg, before);
      NoWorkers(cfg, before);
      RunKeepsPool(cfg, 0, before);
      if e.Manage? {
        NobodyStarts(cfg, s, e.ok, e.pick);
      }
    }
  }

  lemma NobodyStarts(cfg: Config, s: System, ok: bool, pick: nat)
    requires PoolInv(cfg, 0, s) && PoolCap(cfg) == 0
    ensures var s' := ApplyManage(cfg, s, ok, pick);
      s'.active == s.active && s'.jobs == s.jobs && s'.curBallooningWorker == s.curBallooningWorker
  {
    hide Busy, Idle, AtWatermark, EffectiveSinkRate;
  }

  /** The settings' condition: with ballooning the pool may not outgrow maxWorker,
      without it not the worker limit; a pool that never starts needs only a
      limit that is not negative. */
  predicate WithinBudget(cfg: Config) {
    if PoolCap(cfg) == 0 then 0 <= cfg.maxPossibleWorker
    else if cfg.backgroundingThreshold > 0 then PoolCap(cfg) <= cfg.maxWorker
    else PoolCap(cfg) <= cfg.maxPossibleWorker
  }

  function Load(s: System): int {
    |s.workerMap| + s.curBallooningWorker
  }

  lemma LoadFits(cfg: Config, run: seq<Event>)
    requires IsRun(cfg, run) && cfg.maxWorker <= cfg.maxPossibleWorker && WithinBudget(cfg)
    ensures Load(After(cfg, run)) <= cfg.maxPossibleWorker
  {
    RunKeepsPool(cfg, PoolCap(cfg), run);
    if PoolCap(cfg) == 0 {
      NoWorkers(cfg, run);
    } else if cfg.backgroundingThreshold > 0 {
      BalloonsWithinBudget(cfg, run);
    } else {
      NoBalloons(cfg, run);
    }
  }

  /** Without the condition some run exceeds the limit: the first fill, and then every balloon there is. */
  lemma LoadExceeds(cfg: Config) returns (s: System)
    requires cfg.maxWorker <= cfg.maxPossibleWorker && !WithinBudget(cfg)
    ensures Reachable(cfg, s) && Load(s) > cfg.maxPossibleWorker
  {
    if PoolCap(cfg) == 0 {
      s := Init();
      assert IsRun(cfg, []) && After(cfg, []) == s;
    } else {
      hide Reachable;
      s := FilledAndBusy(cfg, cfg.initialStart <= cfg.minWorker);
      BalloonsAreNatural(cfg, s);
      if cfg.backgroundingThreshold > 0 {
        s := Inflate(cfg, s);
      }
    }
  }

  lemma BalloonsAreNatural(cfg: Config, s: System)
    requires Reachable(cfg, s)
    ensures s.curBallooningWorker >= 0
  {
    var run :| IsRun(cfg, run) && After(cfg, run) == s;
    RunKeepsJobs(cfg, run);
  }

  /** Registered workers and balloons stay within the worker limit in every
      reachable state, exactly if the settings meet the condition. */
  lemma BudgetIff(cfg: Config)
    requires cfg.maxWorker <= cfg.maxPossibleWorker
    ensures (forall s :: Reachable(cfg, s) ==> Load(s) <= cfg.maxPossibleWorker) <==> WithinBudget(cfg)
  {
    if WithinBudget(cfg) {
      forall s | Reachable(cfg, s) ensures Load(s) <= cfg.maxPossibleWorker {
        var run :| IsRun(cfg, run) && After(cfg, run) == s;
        LoadFits(cfg, run);
      }
    } else {
      var s := LoadExceeds(cfg);
    }
  }

  /** The same for the descriptors themselves, whatever the clamp has left of maxWorker. */
  lemma DescriptorBudgetIff(cfg: Config, maxOpenFiles: nat)
    requires maxOpenFiles >= 60 && cfg.maxPossibleWorker == OpenFiles.MaxPossibleWorker(maxOpenFiles)
    requires cfg.maxWorker <= cfg.maxPossibleWorker
    ensures (forall s :: Reachable(cfg, s) ==> OpenFiles.Needed(Load(s)) <= maxOpenFiles as real) <==> WithinBudget(cfg)
  {
    hide Reachable, WithinBudget, OpenFiles.Needed, OpenFiles.MaxPossibleWorker;
    BudgetIff(cfg);
    forall s | Reachable(cfg, s)
      ensures OpenFiles.Needed(Load(s)) <= maxOpenFiles as real <==> Load(s) <= cfg.maxPossibleWorker
    {
      BalloonsAreNatural(cfg, s);
      OpenFiles.LimitIsExact(Load(s), maxOpenFiles);
    }
  }

  /** With 100 descriptors and a minimum of twenty, the clamp leaves six workers and twenty are started. */
  lemma ClampBelowMinimum() returns (s: System)
    ensures OpenFiles.MaxPossibleWorker(100) == 6
    ensures Reachable(Config(20, 6, 1, 1, 0, 6, 0), s) && OpenFiles.Needed(Load(s)) > 100.0
  {
    OpenFiles.Linear(20, 100);
    var cfg := Config(20, 6, 1, 1, 0, 6, 0);
    s := LoadExceeds(cfg);
    BalloonsAreNatural(cfg, s);
    OpenFiles.LimitIsExact(Load(s), 100);
  }
}
