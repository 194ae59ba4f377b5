/** manageWorkers and its helpers as the code they are, run against a world that
    may interfere between any two statements. Every state they pass through is
    a state of the machine in WorkerPool, so its safety theorems hold here. */
module PoolManager {
  import opened WorkerPool
  import opened PoolSafety

  // ---- registered workers exist ----

  predicate Known(s: System) {
    && (forall w :: w in s.workerMap ==> w < |s.active|)
    && (s.manager.Adding? ==> s.manager.w < |s.active| && s.manager.w !in s.workerMap && !s.manager.next.Adding?)
  }

  lemma ManageKeepsKnown(cfg: Config, s: System, ok: bool, pick: nat)
    requires Known(s)
    ensures Known(ApplyManage(cfg, s, ok, pick))
  {
  }

  lemma {:induction false} RunKeepsKnown(cfg: Config, run: seq<Event>)
    requires IsRun(cfg, run)
    ensures Known(After(cfg, run))
  {
    if run != [] {
      var s, e := After(cfg, run[..|run| - 1]), run[|run| - 1];
      RunKeepsKnown(cfg, run[..|run| - 1]);
      if e.Manage? {
        ManageKeepsKnown(cfg, s, e.ok, e.pick);
      }
    }
  }

  lemma ReachableKnown(cfg: Config, s: System)
    requires Reachable(cfg, s)
    ensures Known(s)
  {
    var run :| IsRun(cfg, run) && After(cfg, run) == s;
    RunKeepsKnown(cfg, run);
  }

  lemma ReachableWorkers(cfg: Config, s: System)
    requires Reachable(cfg, s)
    ensures forall w :: w in s.workerMap ==> w < |s.active|
  {
    ReachableKnown(cfg, s);
  }

  /** What the manager can rely on while others run. */
  lemma OtherFrame(cfg: Config, s: System, e: Event)
    requires !e.Manage? && Enabled(cfg, s, e)
    ensures var s' := Apply(cfg, s, e);
      && s'.manager == s.manager && s'.firstTick == s.firstTick && s'.workerMap <= s.workerMap
      && s'.activeWorkers == s.activeWorkers && s'.utilization == s.utilization
      && |s.active| <= |s'.active| <= |s.active|
  {
  }

  /** What the outside world answers during one tick. With `quiet`, nothing else
      happens while the manager works. */
  datatype World = World(quiet: bool, serversUp: bool, startsSucceed: bool, longIdle: bool, loadAndMemoryOk: bool)

  /** The manager is about to start a worker and will go on at `next`. */
  predicate StartsNext(cfg: Config, s: System, next: Manager) {
    match s.manager
    case Filling(left, total) => left > 0 && next == Filling(left - 1, total)
    case Spawning(spawns) => spawns > 0 && |s.workerMap| < cfg.maxWorker && next == Spawning(spawns - 1)
    case _ => false
  }

  /** No counter changed, and new workers have no job. */
  predicate OnlyIdleAdded(before: seq<int>, after: seq<int>) {
    before <= after && forall k :: |before| <= k < |after| ==> after[k] == 0
  }

  function IdleIn(active: seq<int>, workers: set<nat>): set<nat> {
    set w | w in workers && w < |active| && active[w] == 0
  }

  function Least(a: int, b: int): int {
    if a < b then a else b
  }

  function BusyIn(active: seq<int>, workers: set<nat>): set<nat> {
    set w | w in workers && w < |active| && active[w] > 0
  }

  lemma OneMore(active: seq<int>, seen: set<nat>, w: nat)
    requires w !in seen
    ensures |BusyIn(active, seen + {w})| == |BusyIn(active, seen)| + (if w < |active| && active[w] > 0 then 1 else 0)
  {
    var before, after := BusyIn(active, seen), BusyIn(active, seen + {w});
    if w < |active| && active[w] > 0 {
      assert after == before + {w};
    } else {
      assert after == before;
    }
  }

  class MainWorker {
    const cfg: Config
    var workerMap: set<nat>
    var activeJobs: seq<int>
    var jobs: seq<Job>
    var curBallooningWorker: int
    var activeWorkers: nat
    var workerUtilization: int
    var firstTick: bool
    var results: seq<nat>
    var position: Manager

    function Snapshot(): System
      reads this
    {
      System(workerMap, activeJobs, jobs, curBallooningWorker, activeWorkers, workerUtilization,
             firstTick, position, results)
    }

    constructor (cfg: Config)
      ensures this.cfg == cfg && Snapshot() == Init() && Reachable(cfg, Snapshot())
    {
      this.cfg := cfg;
      workerMap, activeJobs, jobs, results := {}, [], [], [];
      curBallooningWorker, activeWorkers, workerUtilization := 0, 0, 0;
      firstTick, position := true, Sleeping;
      new;
      assert IsRun(cfg, []) && After(cfg, []) == Snapshot();
    }

    /** One step of any other goroutine. */
    method Other(e: Event)
      requires !e.Manage? && Enabled(cfg, Snapshot(), e)
      modifies this
      ensures Snapshot() == Apply(cfg, old(Snapshot()), e)
    {
      OtherFrame(cfg, Snapshot(), e);
      hide Apply;
      var s := Apply(cfg, Snapshot(), e);
      workerMap, activeJobs, jobs, results := s.workerMap, s.active, s.jobs, s.results;
      curBallooningWorker := s.curBallooningWorker;
    }

    /** Whatever the other goroutines do before the manager's next step. */
    method Interfere(world: World)
      requires Reachable(cfg, Snapshot())
      modifies this
      ensures Reachable(cfg, Snapshot())
      ensures position == old(position) && firstTick == old(firstTick) && workerMap <= old(workerMap)
      ensures activeWorkers == old(activeWorkers) && workerUtilization == old(workerUtilization)
      ensures |activeJobs| == |old(activeJobs)|
      ensures world.quiet ==> Snapshot() == old(Snapshot())
    {
      hide IsRun, After;
      var steps: int := *;
      while steps > 0 && !world.quiet
        invariant Reachable(cfg, Snapshot())
        invariant position == old(position) && firstTick == old(firstTick) && workerMap <= old(workerMap)
        invariant activeWorkers == old(activeWorkers) && workerUtilization == old(workerUtilization)
        invariant |activeJobs| == |old(activeJobs)|
        invariant world.quiet ==> Snapshot() == old(Snapshot())
      {
        var e: Event := *;
        if !e.Manage? && Enabled(cfg, Snapshot(), e) {
          ReachableStep(cfg, Snapshot(), e);
          OtherFrame(cfg, Snapshot(), e);
          Other(e);
        }
        steps := steps - 1;
      }
    }

    /** The loop that counts the workers with running jobs. */
    method CountActive() returns (active: nat)
      ensures active == Busy(Snapshot())
    {
      active := 0;
      var rest := workerMap;
      ghost var seen := {};
      while rest != {}
        invariant rest !! seen && rest + seen == workerMap
        invariant active == |BusyIn(activeJobs, seen)|
      {
        var w :| w in rest;
        OneMore(activeJobs, seen, w);
        if w < |activeJobs| && activeJobs[w] > 0 {
          active := active + 1;
        }
        rest, seen := rest - {w}, seen + {w};
      }
      assert seen == workerMap;
      assert BusyIn(activeJobs, seen) == set w | w in workerMap && w < |activeJobs| && activeJobs[w] > 0;
    }

    /** newWorker: on success the new worker exists, but is not registered yet. */
    method NewWorker(world: World, next: Manager) returns (ok: bool, id: nat)
      requires Reachable(cfg, Snapshot()) && StartsNext(cfg, Snapshot(), next)
      modifies this`activeJobs, this`position
      ensures Reachable(cfg, Snapshot())
      ensures ok ==> id == |old(activeJobs)| && activeJobs == old(activeJobs) + [0] && position == Adding(id, next)
      ensures !ok ==> activeJobs == old(activeJobs) && position == next
      ensures world.startsSucceed ==> ok
    {
      hide IsRun, After;
      ghost var before := Snapshot();
      ok := *;
      ok := ok || world.startsSucceed;
      id := |activeJobs|;
      ReachableStep(cfg, before, Manage(ok, 0));
      if ok {
        activeJobs, position := activeJobs + [0], Adding(id, next);
      } else {
        position := next;
      }
      assert Snapshot() == Apply(cfg, before, Manage(ok, 0));
    }

    method RegisterWorker(id: nat, next: Manager)
      requires Reachable(cfg, Snapshot()) && position == Adding(id, next)
      modifies this`workerMap, this`position
      ensures Reachable(cfg, Snapshot()) && position == next
      ensures id !in old(workerMap) && workerMap == old(workerMap) + {id}
    {
      hide IsRun, After;
      ghost var before := Snapshot();
      ReachableKnown(cfg, before);
      ReachableStep(cfg, before, Manage(true, 0));
      workerMap, position := workerMap + {id}, next;
      assert Snapshot() == Apply(cfg, before, Manage(true, 0));
    }

    /** newWorker followed by registerWorker; a failed start registers nothing. */
    method StartOne(world: World, next: Manager)
      requires Reachable(cfg, Snapshot()) && StartsNext(cfg, Snapshot(), next)
      modifies this
      ensures Reachable(cfg, Snapshot()) && position == next
      ensures firstTick == old(firstTick) && activeWorkers == old(activeWorkers)
      ensures world.quiet ==> old(workerMap) <= workerMap && |workerMap| <= |old(workerMap)| + 1
      ensures world.quiet && world.startsSucceed ==> |workerMap| == |old(workerMap)| + 1
      ensures world.quiet ==> OnlyIdleAdded(old(activeJobs), activeJobs)
      ensures world.quiet ==> forall w :: w in workerMap && w < |old(activeJobs)| ==> w in old(workerMap)
    {
      hide Reachable, StartsNext;
      var ok, id := NewWorker(world, next);
      if ok {
        Interfere(world);
        RegisterWorker(id, next);
      }
    }

    /** Starts workers, as many as are missing when the loop begins. */
    method FillUpTo(world: World, target: int)
      requires Reachable(cfg, Snapshot()) && position.Measured? && position.target == target
      modifies this
      ensures Reachable(cfg, Snapshot()) && position.Filling? && position.left <= 0
      ensures position.total == old(position).total
      ensures firstTick == old(firstTick) && activeWorkers == old(activeWorkers)
      ensures world.quiet ==> old(workerMap) <= workerMap && OnlyIdleAdded(old(activeJobs), activeJobs)
      ensures world.quiet && world.startsSucceed ==> |workerMap| == if |old(workerMap)| < target then target else |old(workerMap)|
      ensures world.quiet ==> forall w :: w in workerMap && w < |old(activeJobs)| ==> w in old(workerMap)
    {
      hide IsRun, After;
      ghost var total := position.total;
      ghost var before := Snapshot();
      ReachableStep(cfg, before, Manage(true, 0));
      var i := target - |workerMap|;
      position := Filling(i, position.total);
      assert Snapshot() == Apply(cfg, before, Manage(true, 0));
      while i > 0
        invariant Reachable(cfg, Snapshot()) && position == Filling(i, total)
        invariant firstTick == old(firstTick) && activeWorkers == old(activeWorkers)
        invariant world.quiet ==> old(workerMap) <= workerMap && OnlyIdleAdded(old(activeJobs), activeJobs)
        invariant world.quiet ==> forall w :: w in workerMap && w < |old(activeJobs)| ==> w in old(workerMap)
        invariant world.quiet && world.startsSucceed ==>
          |workerMap| + (if i > 0 then i else 0) == if |old(workerMap)| < target then target else |old(workerMap)|
      {
        Interfere(world);
        StartOne(world, Filling(i - 1, position.total));
        i := i - 1;
      }
    }

    /** Finds the first idle worker, if there is one. */
    method FindIdle() returns (found: bool, idle: nat)
      requires Reachable(cfg, Snapshot()) && position.Sinking? && position.sinks > 0 && |workerMap| > cfg.minWorker
      modifies this`position
      ensures Reachable(cfg, Snapshot())
      ensures found ==> Idle(old(Snapshot()), idle) && position == Stopping(idle, old(position).sinks - 1)
      ensures !found ==> position == Sinking(old(position).sinks - 1) && forall w :: w in workerMap ==> !Idle(old(Snapshot()), w)
    {
      hide IsRun, After;
      ghost var before := Snapshot();
      var sinks := position.sinks;
      var rest := workerMap;
      idle := 0;
      while rest != {}
        invariant Snapshot() == before && rest <= workerMap
        invariant forall w :: w in workerMap - rest ==> !Idle(before, w)
      {
        idle :| idle in rest;
        if idle < |activeJobs| && activeJobs[idle] == 0 {
          ReachableStep(cfg, before, Manage(true, idle));
          position := Stopping(idle, sinks - 1);
          assert Snapshot() == Apply(cfg, before, Manage(true, idle));
          return true, idle;
        }
        rest := rest - {idle};
      }
      assert forall w :: w in before.workerMap ==> !Idle(before, w);
      ReachableStep(cfg, before, Manage(true, 0));
      position := Sinking(sinks - 1);
      assert Snapshot() == Apply(cfg, before, Manage(true, 0));
      found := false;
    }

    /** Shutdown: the worker leaves the pool. */
    method ShutdownWorker(idle: nat)
      requires Reachable(cfg, Snapshot()) && position.Stopping? && position.w == idle
      modifies this`workerMap, this`position
      ensures Reachable(cfg, Snapshot()) && position == Sinking(old(position).sinks)
      ensures workerMap == old(workerMap) - {idle}
    {
      hide IsRun, After;
      ghost var before := Snapshot();
      ReachableStep(cfg, before, Manage(true, 0));
      workerMap, position := workerMap - {idle}, Sinking(position.sinks);
      assert Snapshot() == Apply(cfg, before, Manage(true, 0));
    }

    /** Stops the first idle worker found, if there is one. It may have become
        busy by then. */
    method StopOneIdle(world: World)
      requires Reachable(cfg, Snapshot()) && position.Sinking? && position.sinks > 0 && |workerMap| > cfg.minWorker
      modifies this
      ensures Reachable(cfg, Snapshot()) && position == Sinking(old(position).sinks - 1)
      ensures firstTick == old(firstTick) && activeWorkers == old(activeWorkers)
      ensures workerMap <= old(workerMap) && (world.quiet ==> activeJobs == old(activeJobs))
      ensures world.quiet ==> old(workerMap) - workerMap <= IdleIn(activeJobs, old(workerMap))
      ensures world.quiet ==>
        |old(workerMap) - workerMap| == Least(1, |IdleIn(activeJobs, old(workerMap))|)
    {
      hide Reachable;
      ghost var before, idleBefore := workerMap, IdleIn(activeJobs, workerMap);
      var found, idle := FindIdle();
      if found {
        assert idle in idleBefore;
        Interfere(world);
        ShutdownWorker(idle);
        assert world.quiet ==> before - workerMap == {idle};
        Smaller({idle}, idleBefore);
      } else {
        assert idleBefore == {};
        assert before - workerMap == {};
      }
    }

    /** Removes idle workers at the sink rate when the pool is larger than needed. */
    method AdjustWorkerBottomLevel(world: World) returns (crashed: bool)
      requires Reachable(cfg, Snapshot()) && position == Shrinking
      modifies this
      ensures Reachable(cfg, Snapshot()) && position == (if crashed then Crashed else Growing)
      ensures crashed ==> !world.quiet && workerMap == {}
      ensures firstTick == old(firstTick) && activeWorkers == old(activeWorkers)
      ensures world.quiet ==>
        activeJobs == old(activeJobs) && workerMap <= old(workerMap)
        && old(workerMap) - workerMap <= IdleIn(activeJobs, old(workerMap))
      ensures world.quiet ==>
        var size, idle := |old(workerMap)|, |IdleIn(activeJobs, old(workerMap))|;
        var rate := if cfg.sinkRate > 0 then cfg.sinkRate else if cfg.spawnRate > 0 then cfg.spawnRate else 0;
        |old(workerMap) - workerMap| ==
          if size > 0 && size > cfg.minWorker && activeWorkers < size && world.longIdle
          then Least(rate, Least(size - cfg.minWorker, idle)) else 0
    {
      hide IsRun, After, Reachable, IdleIn;
      var shrink;
      crashed, shrink := CheckBottomLevel(world);
      if crashed || !shrink {
        return;
      }
      Interfere(world);
      Sink(world, position.sinks);
      ghost var rested := Snapshot();
      ReachableStep(cfg, rested, Manage(true, 0));
      position := Growing;
      assert Snapshot() == Apply(cfg, rested, Manage(true, 0));
    }

    /** The guards, one after the other; workers may disconnect between any two.
        A pool that empties before the division crashes it. */
    method CheckBottomLevel(world: World) returns (crashed: bool, shrink: bool)
      requires Reachable(cfg, Snapshot()) && position == Shrinking
      modifies this
      ensures Reachable(cfg, Snapshot())
      ensures position == if crashed then Crashed else if shrink then Sinking(EffectiveSinkRate(cfg)) else Growing
      ensures crashed ==> !world.quiet && workerMap == {}
      ensures firstTick == old(firstTick) && activeWorkers == old(activeWorkers)
      ensures world.quiet ==> activeJobs == old(activeJobs) && workerMap == old(workerMap)
      ensures world.quiet ==>
        (shrink <==> |workerMap| > 0 && |workerMap| > cfg.minWorker && activeWorkers < |workerMap| && world.longIdle)
    {
      hide IsRun, After, Reachable, AtWatermark, EffectiveSinkRate;
      crashed, shrink := false, false;
      if |workerMap| == 0 {
        Decide(false, Growing);
        return;
      }
      Decide(false, AboveZero);
      Interfere(world);
      if |workerMap| <= cfg.minWorker {
        Decide(false, Growing);
        return;
      }
      Decide(false, AboveMinimum);
      Interfere(world);
      crashed, shrink := CheckUse(world);
    }

    /** The division and the guards behind it. */
    method CheckUse(world: World) returns (crashed: bool, shrink: bool)
      requires Reachable(cfg, Snapshot()) && position == AboveMinimum
      modifies this
      ensures Reachable(cfg, Snapshot())
      ensures position == if crashed then Crashed else if shrink then Sinking(EffectiveSinkRate(cfg)) else Growing
      ensures crashed <==> old(workerMap) == {}
      ensures crashed ==> workerMap == {}
      ensures firstTick == old(firstTick) && activeWorkers == old(activeWorkers)
      ensures world.quiet ==> activeJobs == old(activeJobs) && workerMap == old(workerMap)
      ensures !crashed ==> (shrink <==> activeWorkers < |old(workerMap)| && world.longIdle)
    {
      hide IsRun, After, Reachable, AtWatermark;
      crashed, shrink := false, false;
      if |workerMap| == 0 {
        Decide(false, Crashed);
        return true, false;
      }
      WatermarkIff(activeWorkers, |workerMap|);
      if AtWatermark(activeWorkers, |workerMap|) {
        Decide(false, Growing);
        return;
      }
      Decide(false, Underused);
      Interfere(world);
      shrink := world.longIdle;
      Decide(shrink, if shrink then Sinking(EffectiveSinkRate(cfg)) else Growing);
    }

    /** The manager moves on without changing anything else. */
    method Decide(ok: bool, next: Manager)
      requires Reachable(cfg, Snapshot()) && !position.Sinking?
      requires Apply(cfg, Snapshot(), Manage(ok, 0)) == Snapshot().(manager := next)
      modifies this`position
      ensures Reachable(cfg, Snapshot()) && position == next
    {
      hide IsRun, After, Reachable;
      ghost var before := Snapshot();
      ReachableStep(cfg, before, Manage(ok, 0));
      position := next;
      assert Snapshot() == before.(manager := next);
    }

    /** The loop that stops workers down to the minimum. */
    method Sink(world: World, sinks: nat)
      requires Reachable(cfg, Snapshot()) && position == Sinking(sinks)
      modifies this
      ensures Reachable(cfg, Snapshot()) && position.Sinking?
      ensures position.sinks == 0 || |workerMap| <= cfg.minWorker
      ensures firstTick == old(firstTick) && activeWorkers == old(activeWorkers)
      ensures world.quiet ==> activeJobs == old(activeJobs) && workerMap <= old(workerMap)
      ensures world.quiet ==> old(workerMap) - workerMap <= IdleIn(activeJobs, old(workerMap))
      ensures world.quiet && |old(workerMap)| > cfg.minWorker ==>
        |old(workerMap) - workerMap| ==
          Least(sinks, Least(|old(workerMap)| - cfg.minWorker, |IdleIn(activeJobs, old(workerMap))|))
    {
      hide IsRun, After, Apply, Reachable, IdleIn;
      ghost var start, jobsThen := workerMap, activeJobs;
      var i := sinks;
      while i > 0 && |workerMap| > cfg.minWorker
        invariant Reachable(cfg, Snapshot()) && 0 <= i && position == Sinking(i)
        invariant firstTick == old(firstTick) && activeWorkers == old(activeWorkers)
        invariant i <= sinks
        invariant world.quiet ==> activeJobs == jobsThen && workerMap <= start
        invariant world.quiet ==> start - workerMap <= IdleIn(jobsThen, start)
        invariant world.quiet ==> |start - workerMap| == Least(sinks - i, |IdleIn(jobsThen, start)|)
        invariant world.quiet && |start| > cfg.minWorker ==> |start - workerMap| <= |start| - cfg.minWorker
      {
        ghost var before := workerMap;
        StopOneIdle(world);
        if world.quiet {
          StillIdle(jobsThen, start, before, workerMap);
        }
        i := i - 1;
        Interfere(world);
      }
      if world.quiet {
        SizeLeft(start, workerMap);
      }
    }

    /** Starts workers at the spawn rate when all are busy and the limits permit. */
    method AdjustWorkerTopLevel(world: World)
      requires Reachable(cfg, Snapshot()) && position == Growing
      modifies this
      ensures Reachable(cfg, Snapshot()) && position == Sleeping
      ensures firstTick == old(firstTick) && activeWorkers == old(activeWorkers)
      ensures world.quiet ==> old(workerMap) <= workerMap && OnlyIdleAdded(old(activeJobs), activeJobs)
      ensures world.quiet && workerMap != old(workerMap) ==>
        && world.loadAndMemoryOk && activeWorkers >= |old(workerMap)|
        && |workerMap| <= cfg.maxWorker && |workerMap| <= |old(workerMap)| + cfg.spawnRate
      ensures world.quiet && world.startsSucceed ==>
        var size := |old(workerMap)|;
        |workerMap| ==
          if activeWorkers >= size && size < cfg.maxWorker && world.loadAndMemoryOk && cfg.spawnRate > 0
          then Least(cfg.maxWorker, size + cfg.spawnRate) else size
    {
      hide IsRun, After, Reachable;
      if activeWorkers < |workerMap| || |workerMap| >= cfg.maxWorker || !world.loadAndMemoryOk {
        Decide(world.loadAndMemoryOk, Sleeping);
        return;
      }
      var i := if cfg.spawnRate < 0 then 0 else cfg.spawnRate;
      Decide(true, Spawning(i));
      Interfere(world);
      Spawn(world, i);
      Decide(true, Sleeping);
    }

    /** The loop that starts workers while there is room. */
    method Spawn(world: World, spawns: nat)
      requires Reachable(cfg, Snapshot()) && position == Spawning(spawns)
      modifies this
      ensures Reachable(cfg, Snapshot()) && position.Spawning?
      ensures position.spawns == 0 || |workerMap| >= cfg.maxWorker
      ensures firstTick == old(firstTick) && activeWorkers == old(activeWorkers)
      ensures world.quiet ==> old(workerMap) <= workerMap && OnlyIdleAdded(old(activeJobs), activeJobs)
      ensures world.quiet ==> |workerMap| <= |old(workerMap)| + spawns
      ensures world.quiet && workerMap != old(workerMap) ==> |workerMap| <= cfg.maxWorker && spawns > 0
      ensures world.quiet && world.startsSucceed && |old(workerMap)| < cfg.maxWorker ==>
        |workerMap| == Least(cfg.maxWorker, |old(workerMap)| + spawns)
    {
      hide IsRun, After, Apply, Reachable;
      var i := spawns;
      while i > 0 && |workerMap| < cfg.maxWorker
        invariant Reachable(cfg, Snapshot()) && 0 <= i <= spawns && position == Spawning(i)
        invariant firstTick == old(firstTick) && activeWorkers == old(activeWorkers)
        invariant world.quiet ==> old(workerMap) <= workerMap && OnlyIdleAdded(old(activeJobs), activeJobs)
        invariant world.quiet ==> |workerMap| + i <= |old(workerMap)| + spawns
        invariant world.quiet && workerMap != old(workerMap) ==> |workerMap| <= cfg.maxWorker && spawns > 0
        invariant world.quiet && world.startsSucceed ==> |workerMap| + i == |old(workerMap)| + spawns
        invariant world.quiet && |old(workerMap)| < cfg.maxWorker ==> |workerMap| <= cfg.maxWorker
      {
        StartOne(world, Spawning(i - 1));
        i := i - 1;
        Interfere(world);
      }
    }

    /** Without active servers the tick ends at once. */
    method SkipTick()
      requires Reachable(cfg, Snapshot()) && position == Sleeping
      modifies this`firstTick
      ensures Reachable(cfg, Snapshot()) && !firstTick
    {
      hide IsRun, After;
      ghost var before := Snapshot();
      ReachableStep(cfg, before, Manage(false, 0));
      firstTick := false;
      assert Snapshot() == Apply(cfg, before, Manage(false, 0));
    }

    /** Counts the pool and decides how many workers are wanted at least. */
    method Measure(initialStart: int) returns (total: nat, minWorker: int)
      requires Reachable(cfg, Snapshot()) && position == Sleeping
      requires initialStart == if firstTick then cfg.initialStart else 0
      modifies this`firstTick, this`activeWorkers, this`position
      ensures Reachable(cfg, Snapshot()) && !firstTick
      ensures total == |workerMap| && activeWorkers == Busy(Snapshot())
      ensures minWorker == if initialStart > 0 then initialStart else cfg.minWorker
      ensures position == Measured(minWorker, total)
    {
      hide IsRun, After;
      ghost var before := Snapshot();
      ReachableStep(cfg, before, Manage(true, 0));
      firstTick := false;
      total := |workerMap|;
      activeWorkers := CountActive();
      minWorker := if initialStart > 0 then initialStart else cfg.minWorker;
      position := Measured(minWorker, total);
      assert Snapshot() == Apply(cfg, before, Manage(true, 0));
    }

    method ComputeUtilization()
      requires Reachable(cfg, Snapshot()) && position.Filling? && position.left <= 0
      modifies this`workerUtilization, this`position
      ensures Reachable(cfg, Snapshot()) && position == Shrinking
      ensures var total := old(position).total;
        if total == 0 then workerUtilization == 0
        else workerUtilization * total <= activeWorkers * 100 < (workerUtilization + 1) * total
    {
      hide IsRun, After;
      ghost var before := Snapshot();
      var total := position.total;
      if total > 0 {
        FloorOf(activeWorkers * 100, total);
      }
      ReachableStep(cfg, before, Manage(true, 0));
      workerUtilization := if total > 0 then activeWorkers * 100 / total else 0;
      position := Shrinking;
      assert Snapshot() == Apply(cfg, before, Manage(true, 0));
    }

    /** One call of manageWorkers. Whatever interferes, it is a piece of a run of
        the machine. Left alone it never crashes, stops only idle workers, at most
        as many as the sink rate says, and, if no start fails, leaves exactly the
        pool that filling up, sinking and spawning make of the one it found. */
    method ManageWorkers(world: World, initialStart: int) returns (crashed: bool)
      requires Reachable(cfg, Snapshot()) && position == Sleeping
      requires initialStart == if firstTick then cfg.initialStart else 0
      modifies this
      ensures Reachable(cfg, Snapshot()) && !firstTick
      ensures position == (if crashed then Crashed else Sleeping) && (crashed ==> !world.quiet && workerMap == {})
      ensures !world.serversUp && world.quiet ==> workerMap == old(workerMap)
      ensures world.quiet && world.serversUp && world.startsSucceed ==>
        |workerMap| >= cfg.minWorker || 0 < initialStart <= |workerMap|
      ensures world.quiet ==>
        |old(workerMap) - workerMap| <= if cfg.sinkRate > 0 then cfg.sinkRate else if cfg.spawnRate > 0 then cfg.spawnRate else 0
      ensures world.quiet ==> forall w :: w in old(workerMap) && w !in workerMap ==>
        w < |old(activeJobs)| && old(activeJobs)[w] == 0
      ensures Bounded(cfg) ==> |workerMap| <= cfg.maxWorker
      ensures world.quiet && world.serversUp && world.startsSucceed ==>
        var size, busy := |old(workerMap)|, Busy(old(Snapshot()));
        var wanted := if initialStart > 0 then initialStart else cfg.minWorker;
        var filled := if size < wanted then wanted else size;
        |workerMap| == SizeAfter(cfg, world, filled, busy)
    {
      hide Reachable, Bounded, Known, IdleIn, SizeAfter;
      ghost var start, jobsBefore, first := workerMap, activeJobs, Snapshot();
      ReachableWorkers(cfg, Snapshot());
      if !world.serversUp {
        SkipTick();
        BoundHere(cfg, Snapshot());
        return false;
      }
      var total, minWorker := Measure(initialStart);
      Interfere(world);
      FillUpTo(world, minWorker);
      Interfere(world);
      ghost var filled, jobsThen := workerMap, activeJobs;
      if world.quiet {
        IdleAreTheRest(cfg, Snapshot(), start, jobsBefore);
      }
      crashed := Adjust(world);
      BoundHere(cfg, Snapshot());
      if world.quiet {
        Shrinks(start - workerMap, filled - workerMap);
        FromStart(start, filled, workerMap, jobsBefore, jobsThen);
      }
    }

    /** The second half of a tick: the utilization, then both adjustments. */
    method Adjust(world: World) returns (crashed: bool)
      requires Reachable(cfg, Snapshot()) && position.Filling? && position.left <= 0
      modifies this
      ensures Reachable(cfg, Snapshot()) && firstTick == old(firstTick)
      ensures position == (if crashed then Crashed else Sleeping) && (crashed ==> !world.quiet && workerMap == {})
      ensures world.quiet ==>
        |old(workerMap) - workerMap| <= if cfg.sinkRate > 0 then cfg.sinkRate else if cfg.spawnRate > 0 then cfg.spawnRate else 0
      ensures world.quiet ==> old(workerMap) - workerMap <= IdleIn(old(activeJobs), old(workerMap))
      ensures world.quiet ==> |workerMap| >= |old(workerMap)| || |workerMap| >= cfg.minWorker
      ensures
        var size, idle := |old(workerMap)|, |IdleIn(old(activeJobs), old(workerMap))|;
        world.quiet && world.startsSucceed && idle == size - old(activeWorkers) ==>
          |workerMap| == SizeAfter(cfg, world, size, old(activeWorkers))
    {
      hide Reachable, IdleIn, OnlyIdleAdded;
      ghost var filled := workerMap;
      ComputeUtilization();
      Interfere(world);
      crashed := AdjustWorkerBottomLevel(world);
      if crashed {
        return;
      }
      ghost var sunk := workerMap;
      if world.quiet {
        SizeLeft(filled, sunk);
      }
      Interfere(world);
      AdjustWorkerTopLevel(world);
      if world.quiet {
        Shrinks(filled - workerMap, filled - sunk);
        Shrinks(sunk, workerMap);
      }
    }
  }

  /** The pool that is left of `size` workers, `busy` of them busy: idle ones are
      stopped at the sink rate down to the minimum unless all are busy, then
      new ones are started at the spawn rate up to the maximum if all are. */
  function SizeAfter(cfg: Config, world: World, size: nat, busy: nat): int {
    var rate := if cfg.sinkRate > 0 then cfg.sinkRate else if cfg.spawnRate > 0 then cfg.spawnRate else 0;
    var sunk :=
      if size > 0 && size > cfg.minWorker && busy < size && world.longIdle
      then size - Least(rate, Least(size - cfg.minWorker, size - busy)) else size;
    if busy >= sunk && sunk < cfg.maxWorker && world.loadAndMemoryOk && cfg.spawnRate > 0
    then Least(cfg.maxWorker, sunk + cfg.spawnRate) else sunk
  }

  lemma FloorOf(n: nat, d: nat)
    requires d > 0
    ensures (n / d) * d <= n < (n / d + 1) * d
  {
    assert n == d * (n / d) + n % d;
  }

  lemma Smaller(a: set<nat>, b: set<nat>)
    requires a <= b
    ensures |a| <= |b|
  {
    Shrinks(a, b);
  }

  lemma SizeLeft(start: set<nat>, end: set<nat>)
    requires end <= start
    ensures |start - end| == |start| - |end|
  {
    assert start == end + (start - end);
  }

  /** After some idle workers were stopped, the others are the idle ones. */
  lemma StillIdle(active: seq<int>, start: set<nat>, before: set<nat>, after: set<nat>)
    requires after <= before <= start && start - before <= IdleIn(active, start)
    requires before - after <= IdleIn(active, before)
    ensures |IdleIn(active, before)| == |IdleIn(active, start)| - |start - before|
    ensures start - after <= IdleIn(active, start) && |start - after| == |start - before| + |before - after|
  {
    SizeLeft(IdleIn(active, start), IdleIn(active, before));
    assert IdleIn(active, start) - IdleIn(active, before) == start - before;
    assert start - after == (start - before) + (before - after);
  }

  /** All workers that are not busy are idle, and filling up adds only such. */
  lemma IdleAreTheRest(cfg: Config, s: System, start: set<nat>, before: seq<int>)
    requires Reachable(cfg, s) && OnlyIdleAdded(before, s.active) && start <= s.workerMap
    requires forall w :: w in start ==> w < |before|
    requires forall w :: w in s.workerMap && w < |before| ==> w in start
    ensures |IdleIn(s.active, s.workerMap)| == |s.workerMap| - |BusyIn(before, start)|
  {
    ReachableKnown(cfg, s);
    var run :| IsRun(cfg, run) && After(cfg, run) == s;
    RunKeepsJobs(cfg, run);
    assert BusyIn(before, start) == BusyIn(s.active, s.workerMap);
    assert s.workerMap == BusyIn(s.active, s.workerMap) + IdleIn(s.active, s.workerMap);
  }

  lemma FromStart(start: set<nat>, filled: set<nat>, end: set<nat>, before: seq<int>, after: seq<int>)
    requires start <= filled && OnlyIdleAdded(before, after) && filled - end <= IdleIn(after, filled)
    requires forall w :: w in start ==> w < |before|
    ensures forall w :: w in start && w !in end ==> w < |before| && before[w] == 0
  {
    forall w | w in start && w !in end ensures before[w] == 0 {
      assert w in filled - end;
    }
  }

  lemma BoundHere(cfg: Config, s: System)
    requires Reachable(cfg, s)
    ensures Bounded(cfg) ==> |s.workerMap| <= cfg.maxWorker
  {
    PoolBoundIff(cfg);
  }
}
