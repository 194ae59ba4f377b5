/** Ballooning with nothing atomic but single reads and writes.

    The ticker branch of doWork is cut into its check, its increment and its
    flag-set; the goroutine's deferred function into its read of the flag and
    its decrement. Jobs that doWork runs inline take no part and are left out. */
module Ballooning {
  import opened Counting

  /** Watching: selecting on both channels. Passed: startballooning said yes.
      Bumped: the counter is raised, the flag is not set yet. */
  datatype Handler = Watching | Passed | Bumped | Returned

  /** Releasing: the deferred function saw the flag and is about to decrement. */
  datatype Runner = Running | Releasing | Done

  datatype Job = Job(worker: nat, handler: Handler, runner: Runner, counted: bool, ballooning: bool, released: bool)

  /** `budget` is maxPossibleWorker - maxWorker; the set of workers is fixed. */
  datatype Config = Config(workers: nat, budget: int)

  datatype State = State(cur: int, jobs: seq<Job>)

  datatype Event =
    | Arrive(w: nat)
    | Check(j: nat, ok: bool)
    | Increment(j: nat)
    | SetFlag(j: nat)
    | ReadFlag(j: nat)
    | Release(j: nat)
    | Receive(j: nat)

  predicate Enabled(cfg: Config, s: State, e: Event) {
    match e
    case Arrive(w) => w < cfg.workers && forall i :: 0 <= i < |s.jobs| && s.jobs[i].worker == w ==> s.jobs[i].handler == Returned
    case Check(j, _) => j < |s.jobs| && s.jobs[j].handler == Watching
    case Increment(j) => j < |s.jobs| && s.jobs[j].handler == Passed
    case SetFlag(j) => j < |s.jobs| && s.jobs[j].handler == Bumped
    case ReadFlag(j) => j < |s.jobs| && s.jobs[j].runner == Running
    case Release(j) => j < |s.jobs| && s.jobs[j].runner == Releasing
    case Receive(j) => j < |s.jobs| && s.jobs[j].handler == Watching && s.jobs[j].runner == Done
  }

  /** The job an event is about, after the event. */
  function Moved(cfg: Config, s: State, e: Event): Job
    requires Enabled(cfg, s, e) && !e.Arrive?
  {
    var job := s.jobs[e.j];
    match e
    case Check(_, ok) => if ok && s.cur < cfg.budget then job.(handler := Passed) else job
    case Increment(_) => job.(handler := Bumped, counted := true)
    case SetFlag(_) => job.(handler := Returned, ballooning := true)
    case ReadFlag(_) => job.(runner := if job.ballooning then Releasing else Done)
    case Release(_) => job.(runner := Done, released := true)
    case Receive(_) => job.(handler := Returned)
  }

  function Apply(cfg: Config, s: State, e: Event): State
    requires Enabled(cfg, s, e)
  {
    if e.Arrive? then s.(jobs := s.jobs + [Job(e.w, Watching, Running, false, false, false)])
    else
      var delta := if e.Increment? then 1 else if e.Release? then -1 else 0;
      State(s.cur + delta, s.jobs[e.j := Moved(cfg, s, e)])
  }

  predicate IsRun(cfg: Config, run: seq<Event>)
    decreases |run|, 0
  {
    run == [] ||
    var before := run[..|run| - 1];
    IsRun(cfg, before) && Enabled(cfg, After(cfg, before), run[|run| - 1])
  }

  function After(cfg: Config, run: seq<Event>): State
    requires IsRun(cfg, run)
    decreases |run|
  {
    if run == [] then State(0, [])
    else Apply(cfg, After(cfg, run[..|run| - 1]), run[|run| - 1])
  }

  ghost predicate Reachable(cfg: Config, s: State) {
    exists run :: IsRun(cfg, run) && After(cfg, run) == s
  }

  lemma ReachableStep(cfg: Config, s: State, e: Event)
    requires Reachable(cfg, s) && Enabled(cfg, s, e)
    ensures Reachable(cfg, Apply(cfg, s, e))
  {
    var run :| IsRun(cfg, run) && After(cfg, run) == s;
    assert (run + [e])[..|run|] == run;
    assert IsRun(cfg, run + [e]) && After(cfg, run + [e]) == Apply(cfg, s, e);
  }

  // ---- what every step keeps ----

  function Held(): Job -> bool { (job: Job) => job.counted && !job.released }
  function UnfinishedBallooned(): Job -> bool { (job: Job) => job.ballooning && job.runner != Done }
  function NotUnfinishedBallooned(): Job -> bool {
    (job: Job) => job.counted && !job.released && !(job.ballooning && job.runner != Done)
  }
  function Raising(): Job -> bool { (job: Job) => job.handler == Bumped }
  function Leaked(): Job -> bool { (job: Job) => job.ballooning && job.runner == Done && !job.released }
  function HasPassed(): Job -> bool { (job: Job) => job.handler == Passed }

  predicate JobOk(cfg: Config, job: Job) {
    && job.worker < cfg.workers
    && (job.handler in {Watching, Passed} ==> !job.counted)
    && (job.handler == Bumped ==> job.counted && !job.ballooning)
    && (job.handler == Returned ==> (job.counted <==> job.ballooning))
    && (job.ballooning ==> job.handler == Returned)
    && (job.runner == Releasing ==> job.ballooning)
    && (job.released ==> job.ballooning && job.runner == Done)
  }

  ghost predicate Inv(cfg: Config, s: State) {
    && (forall i :: 0 <= i < |s.jobs| ==> JobOk(cfg, s.jobs[i]))
    && (forall i, k :: 0 <= i < k < |s.jobs| && s.jobs[i].handler != Returned && s.jobs[k].handler != Returned ==>
          s.jobs[i].worker != s.jobs[k].worker)
    && s.cur == Count(s.jobs, Held())
    && (cfg.budget > 0 ==> s.cur + Count(s.jobs, HasPassed()) <= cfg.budget - 1 + cfg.workers)
  }

  function PassedWorkers(jobs: seq<Job>): (ws: set<nat>)
    ensures forall w :: w in ws ==> exists i :: 0 <= i < |jobs| && jobs[i].handler == Passed && jobs[i].worker == w
  {
    if jobs == [] then {}
    else
      var last := jobs[|jobs| - 1];
      PassedWorkers(jobs[..|jobs| - 1]) + (if last.handler == Passed then {last.worker} else {})
  }

  lemma {:induction false} PassedAreWorkers(jobs: seq<Job>)
    requires forall i, k :: 0 <= i < k < |jobs| && jobs[i].handler != Returned && jobs[k].handler != Returned ==>
      jobs[i].worker != jobs[k].worker
    ensures Count(jobs, HasPassed()) == |PassedWorkers(jobs)|
  {
    if jobs != [] {
      PassedAreWorkers(jobs[..|jobs| - 1]);
    }
  }

  lemma {:induction false} Below(a: set<nat>, n: nat)
    requires forall x :: x in a ==> x < n
    ensures |a| <= n
  {
    if n == 0 {
      assert a == {};
    } else {
      Below(a - {n - 1}, n - 1);
    }
  }

  /** With one foreground job per worker, no more checks are pending than there are workers. */
  lemma PendingAtMostWorkers(cfg: Config, jobs: seq<Job>)
    requires forall i :: 0 <= i < |jobs| ==> jobs[i].worker < cfg.workers
    requires forall i, k :: 0 <= i < k < |jobs| && jobs[i].handler != Returned && jobs[k].handler != Returned ==>
      jobs[i].worker != jobs[k].worker
    ensures Count(jobs, HasPassed()) <= cfg.workers
  {
    PassedAreWorkers(jobs);
    Below(PassedWorkers(jobs), cfg.workers);
  }

  lemma ArriveKeeps(cfg: Config, s: State, w: nat)
    requires Inv(cfg, s) && Enabled(cfg, s, Arrive(w))
    ensures Inv(cfg, Apply(cfg, s, Arrive(w)))
  {
    hide Count;
    var job := Job(w, Watching, Running, false, false, false);
    CountAppend(s.jobs, job, Held());
    CountAppend(s.jobs, job, HasPassed());
  }

  lemma StepKeeps(cfg: Config, s: State, e: Event)
    requires Inv(cfg, s) && Enabled(cfg, s, e)
    ensures Inv(cfg, Apply(cfg, s, e))
  {
    if e.Arrive? {
      ArriveKeeps(cfg, s, e.w);
    } else {
      hide Count;
      var s' := Apply(cfg, s, e);
      CountUpdate(s.jobs, e.j, s'.jobs[e.j], Held());
      CountUpdate(s.jobs, e.j, s'.jobs[e.j], HasPassed());
      if e.Check? {
        PendingAtMostWorkers(cfg, s'.jobs);
      }
    }
  }

  lemma {:induction false} RunKeeps(cfg: Config, run: seq<Event>)
    requires IsRun(cfg, run)
    ensures Inv(cfg, After(cfg, run))
  {
    if run == [] {
      assert Count<Job>([], HasPassed()) == 0;
    } else {
      RunKeeps(cfg, run[..|run| - 1]);
      StepKeeps(cfg, After(cfg, run[..|run| - 1]), run[|run| - 1]);
    }
  }

  // ---- results ----

  /** No job gets a balloon without a check of its own that answered yes. */
  lemma {:induction false} BalloonsWereAllowed(cfg: Config, run: seq<Event>, j: nat)
    requires IsRun(cfg, run) && j < |After(cfg, run).jobs|
    ensures var job := After(cfg, run).jobs[j];
      job.handler in {Passed, Bumped} || job.counted || job.ballooning ==> Check(j, true) in run
  {
    if run != [] {
      var before, e := run[..|run| - 1], run[|run| - 1];
      if j < |After(cfg, before).jobs| {
        BalloonsWereAllowed(cfg, before, j);
      }
      assert run == before + [e];
    }
  }

  lemma HeldJobs(s: State, cfg: Config)
    requires Inv(cfg, s)
    ensures s.cur == Count(s.jobs, UnfinishedBallooned()) + Count(s.jobs, Raising()) + Count(s.jobs, Leaked())
  {
    CountSplit(s.jobs, Held(), UnfinishedBallooned(), NotUnfinishedBallooned());
    CountSplit(s.jobs, NotUnfinishedBallooned(), Raising(), Leaked());
  }

  /** However the steps interleave, the counter is the number of unfinished
      ballooned jobs, plus those whose flag is still to be set, plus those whose
      goroutine read the flag too early and will never give their balloon back. */
  lemma {:induction false} CounterExact(cfg: Config, s: State)
    requires Reachable(cfg, s)
    ensures s.cur == Count(s.jobs, UnfinishedBallooned()) + Count(s.jobs, Raising()) + Count(s.jobs, Leaked())
    ensures s.cur >= Count(s.jobs, UnfinishedBallooned())
  {
    var run :| IsRun(cfg, run) && After(cfg, run) == s;
    RunKeeps(cfg, run);
    HeldJobs(s, cfg);
  }

  /** The check alone does not keep the budget, but it is exceeded by less than the number of workers. */
  lemma {:induction false} CounterBound(cfg: Config, s: State)
    requires Reachable(cfg, s) && cfg.budget > 0
    ensures s.cur <= cfg.budget - 1 + cfg.workers
  {
    var run :| IsRun(cfg, run) && After(cfg, run) == s;
    RunKeeps(cfg, run);
  }

  // ---- the bound is attained ----

  lemma {:induction false} Inflate(cfg: Config, n: nat) returns (s: State)
    requires cfg.workers > 0 && n < cfg.budget
    ensures Reachable(cfg, s) && s.cur == n
    ensures forall i :: 0 <= i < |s.jobs| ==> s.jobs[i].handler == Returned
  {
    hide Reachable;
    if n == 0 {
      s := State(0, []);
      assert Reachable(cfg, s) by { Initial(cfg); }
    } else {
      s := Inflate(cfg, n - 1);
      var j := |s.jobs|;
      s := Go(cfg, s, Arrive(0));
      s := Go(cfg, s, Check(j, true));
      s := Go(cfg, s, Increment(j));
      s := Go(cfg, s, SetFlag(j));
    }
  }

  lemma Initial(cfg: Config)
    ensures Reachable(cfg, State(0, []))
  {
    assert IsRun(cfg, []) && After(cfg, []) == State(0, []);
  }

  lemma Go(cfg: Config, s: State, e: Event) returns (s': State)
    requires Reachable(cfg, s) && Enabled(cfg, s, e)
    ensures s' == Apply(cfg, s, e) && Reachable(cfg, s')
  {
    ReachableStep(cfg, s, e);
    s' := Apply(cfg, s, e);
  }

  /** `n` workers have passed their check, one after the other, before anyone increments. */
  lemma {:induction false} AllPass(cfg: Config, n: nat) returns (s: State, base: nat)
    requires cfg.workers > 0 && cfg.budget > 0 && n <= cfg.workers
    ensures Reachable(cfg, s) && s.cur == cfg.budget - 1 && |s.jobs| == base + n
    ensures forall i :: 0 <= i < base ==> s.jobs[i].handler == Returned
    ensures forall i :: base <= i < base + n ==> s.jobs[i].handler == Passed && s.jobs[i].worker == i - base
  {
    hide Reachable;
    if n == 0 {
      s := Inflate(cfg, cfg.budget - 1);
      base := |s.jobs|;
    } else {
      s, base := AllPass(cfg, n - 1);
      var j := |s.jobs|;
      s := Go(cfg, s, Arrive(n - 1));
      s := Go(cfg, s, Check(j, true));
    }
  }

  lemma {:induction false} AllBump(cfg: Config, n: nat) returns (s: State, base: nat)
    requires cfg.workers > 0 && cfg.budget > 0 && n <= cfg.workers
    ensures Reachable(cfg, s) && s.cur == cfg.budget - 1 + n && |s.jobs| == base + cfg.workers
    ensures forall i :: base + n <= i < |s.jobs| ==> s.jobs[i].handler == Passed
  {
    hide Reachable;
    if n == 0 {
      s, base := AllPass(cfg, cfg.workers);
    } else {
      s, base := AllBump(cfg, n - 1);
      s := Go(cfg, s, Increment(base + n - 1));
    }
  }

  /** The budget is kept over all runs exactly if there is at most one worker. */
  lemma BudgetKeptIff(cfg: Config)
    requires cfg.budget > 0
    ensures (forall s :: Reachable(cfg, s) ==> s.cur <= cfg.budget) <==> cfg.workers <= 1
  {
    hide Reachable;
    if cfg.workers <= 1 {
      forall s | Reachable(cfg, s) ensures s.cur <= cfg.budget {
        CounterBound(cfg, s);
      }
    } else {
      BoundAttained(cfg);
    }
  }

  /** For every positive budget and every number of workers some run reaches the bound. */
  lemma BoundAttained(cfg: Config)
    requires cfg.workers > 0 && cfg.budget > 0
    ensures exists s :: Reachable(cfg, s) && s.cur == cfg.budget - 1 + cfg.workers
  {
    hide IsRun, After;
    var s, _ := AllBump(cfg, cfg.workers);
  }
}
