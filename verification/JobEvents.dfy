/** What becomes of jobs, told from the events of a run alone. */
module JobEvents {
  import opened WorkerPool
  import opened PoolSafety

  /** The workers at which jobs arrived, in the order of arrival; the j-th job is the j-th arrival. */
  function Arrivals(run: seq<Event>): seq<nat> {
    if run == [] then []
    else
      var last := run[|run| - 1];
      Arrivals(run[..|run| - 1]) + (if last.Arrive? then [last.w] else [])
  }

  /** The job's result was named a queue, and it was executed without having been cancelled before. */
  predicate Sends(run: seq<Event>, j: nat) {
    exists a, x :: 0 <= a < x < |run| && run[a] == Accept(j, true) && run[x] == Execute(j) && Cancel(j) !in run[..x]
  }

  /** The job was rejected, or its execution ended. */
  predicate Ended(run: seq<Event>, j: nat) {
    DecryptFail(j) in run || Finish(j) in run
  }

  predicate AboutJob(e: Event, j: nat) {
    match e
    case DecryptFail(i) => i == j
    case Accept(i, _) => i == j
    case Cancel(i) => i == j
    case Execute(i) => i == j
    case Finish(i) => i == j
    case Receive(i) => i == j
    case Tick(i, _) => i == j
    case _ => false
  }

  /** The flags of a job say which events it has had. */
  predicate Told(run: seq<Event>, j: nat, job: Job) {
    && (job.resultQueue <==> Accept(j, true) in run)
    && (job.canceled <==> Cancel(j) in run)
    && (job.sent <==> Sends(run, j))
    && (job.runner == Finished <==> Ended(run, j))
    && (job.runner in {Waiting, Executing} ==> Execute(j) !in run)
  }

  ghost predicate AllTold(run: seq<Event>, s: System) {
    && |s.jobs| == |Arrivals(run)|
    && (forall j :: 0 <= j < |s.jobs| ==> s.jobs[j].worker == Arrivals(run)[j] && Told(run, j, s.jobs[j]))
    && (forall j: nat, e :: e in run && AboutJob(e, j) ==> j < |s.jobs|)
  }

  lemma InLonger(run: seq<Event>, e: Event, f: Event)
    ensures f in run + [e] <==> f in run || f == e
  {
  }

  /** Only an execution sends, and only if the job was named a queue and not cancelled by then. */
  lemma SendsLonger(run: seq<Event>, e: Event, j: nat)
    ensures Sends(run + [e], j) <==>
      Sends(run, j) || (e == Execute(j) && Accept(j, true) in run && Cancel(j) !in run)
  {
    var more := run + [e];
    if Sends(run, j) {
      var a, x :| 0 <= a < x < |run| && run[a] == Accept(j, true) && run[x] == Execute(j) && Cancel(j) !in run[..x];
      assert more[..x] == run[..x] && more[a] == run[a] && more[x] == run[x];
    }
    if e == Execute(j) && Accept(j, true) in run && Cancel(j) !in run {
      var a :| 0 <= a < |run| && run[a] == Accept(j, true);
      assert more[..|run|] == run && more[a] == run[a] && more[|run|] == e;
    }
    if Sends(more, j) {
      var a, x :| 0 <= a < x < |more| && more[a] == Accept(j, true) && more[x] == Execute(j) && Cancel(j) !in more[..x];
      assert run[a] == more[a];
      if x < |run| {
        assert more[..x] == run[..x] && run[x] == more[x];
      } else {
        assert more[..x] == run;
      }
    }
  }

  /** Events about other jobs change nothing that is told of a job. */
  lemma OtherEvent(run: seq<Event>, e: Event, j: nat, job: Job)
    requires Told(run, j, job) && !AboutJob(e, j)
    ensures Told(run + [e], j, job)
  {
    hide Sends;
    SendsLonger(run, e, j);
    InLonger(run, e, Execute(j));
  }

  lemma NewJob(run: seq<Event>, e: Event, j: nat, job: Job)
    requires forall f :: f in run ==> !AboutJob(f, j)
    requires e.Arrive? && job.runner == Waiting && !job.resultQueue && !job.canceled && !job.sent
    ensures Told(run + [e], j, job)
  {
    hide Sends;
    SendsLonger(run, e, j);
    NeverSent(run, j);
    assert forall f :: f in run + [e] ==> f in run || f == e;
  }

  lemma NeverSent(run: seq<Event>, j: nat)
    requires forall f :: f in run ==> !AboutJob(f, j)
    ensures !Sends(run, j)
  {
    if Sends(run, j) {
      var a, x :| 0 <= a < x < |run| && run[a] == Accept(j, true) && run[x] == Execute(j) && Cancel(j) !in run[..x];
      assert run[a] in run && AboutJob(run[a], j);
      assert false;
    }
  }

  lemma OwnEvent(cfg: Config, run: seq<Event>, s: System, e: Event, j: nat)
    requires JobsInv(s) && Enabled(cfg, s, e) && j < |s.jobs| && AboutJob(e, j) && Told(run, j, s.jobs[j])
    ensures var s' := Apply(cfg, s, e);
      |s'.jobs| == |s.jobs| && Told(run + [e], j, s'.jobs[j]) && s'.jobs[j].worker == s.jobs[j].worker
  {
    hide Sends, StartBallooning, ConsiderBallooning;
    assert JobOk(s.jobs[j], |s.active|);
    SendsLonger(run, e, j);
    InLonger(run, e, Accept(j, true));
    InLonger(run, e, Cancel(j));
    InLonger(run, e, DecryptFail(j));
    InLonger(run, e, Finish(j));
    InLonger(run, e, Execute(j));
  }

  lemma OthersSame(cfg: Config, s: System, e: Event, j: nat)
    requires Enabled(cfg, s, e) && j < |s.jobs| && !AboutJob(e, j)
    ensures j < |Apply(cfg, s, e).jobs| && Apply(cfg, s, e).jobs[j] == s.jobs[j]
  {
    hide StartBallooning, ConsiderBallooning, ApplyManage;
    if e.Manage? {
      ManageFrame(cfg, s, e.ok, e.pick);
    }
  }

  lemma JobCount(cfg: Config, s: System, e: Event)
    requires Enabled(cfg, s, e)
    ensures |Apply(cfg, s, e).jobs| == |s.jobs| + (if e.Arrive? then 1 else 0)
    ensures e.Arrive? ==>
      Apply(cfg, s, e).jobs[|s.jobs|] == Job(e.w, Decoding, Waiting, false, false, false, false, false)
  {
    hide StartBallooning, ConsiderBallooning, ApplyManage;
    if e.Manage? {
      ManageFrame(cfg, s, e.ok, e.pick);
    }
  }

  lemma AboutKnown(cfg: Config, s: System, e: Event, j: nat)
    requires Enabled(cfg, s, e) && AboutJob(e, j)
    ensures j < |s.jobs|
  {
  }

  lemma StepTells(cfg: Config, run: seq<Event>, s: System, e: Event)
    requires JobsInv(s) && Enabled(cfg, s, e) && AllTold(run, s)
    ensures AllTold(run + [e], Apply(cfg, s, e))
  {
    hide Told, Apply, Enabled, JobsInv;
    var more, s' := run + [e], Apply(cfg, s, e);
    assert more[..|run|] == run;
    JobCount(cfg, s, e);
    forall j | 0 <= j < |s'.jobs| ensures s'.jobs[j].worker == Arrivals(more)[j] && Told(more, j, s'.jobs[j]) {
      if j == |s.jobs| {
        NewJob(run, e, j, s'.jobs[j]);
      } else if AboutJob(e, j) {
        OwnEvent(cfg, run, s, e, j);
      } else {
        OthersSame(cfg, s, e, j);
        OtherEvent(run, e, j, s.jobs[j]);
      }
    }
    forall j: nat, f | f in more && AboutJob(f, j) ensures j < |s'.jobs| {
      if f == e {
        AboutKnown(cfg, s, e, j);
      }
    }
  }

  lemma {:induction false} RunTells(cfg: Config, run: seq<Event>)
    requires IsRun(cfg, run)
    ensures AllTold(run, After(cfg, run))
  {
    hide AllTold, Apply, Enabled, JobsInv;
    if run == [] {
      NothingTold();
    } else {
      var before, e := run[..|run| - 1], run[|run| - 1];
      RunTells(cfg, before);
      RunKeepsJobs(cfg, before);
      StepTells(cfg, before, After(cfg, before), e);
      assert run == before + [e];
    }
  }

  lemma NothingTold()
    ensures AllTold([], Init())
  {
  }

  /** From the events alone: a job has sent exactly one result if it was accepted
      with a result queue and later executed without a cancellation before that,
      and none otherwise. */
  lemma ResultIff(cfg: Config, run: seq<Event>, j: nat)
    requires IsRun(cfg, run)
    ensures multiset(After(cfg, run).results)[j] == if Sends(run, j) then 1 else 0
  {
    hide Sends;
    RunTells(cfg, run);
    RunKeepsJobs(cfg, run);
    var s := After(cfg, run);
    if j < |s.jobs| {
      assert Told(run, j, s.jobs[j]);
    } else {
      NeverSent(run, j);
    }
  }

  function Running(run: seq<Event>, w: nat): set<nat> {
    set j: nat | j < |Arrivals(run)| && Arrivals(run)[j] == w && !Ended(run, j)
  }

  /** From the events alone: a worker's activeJobs is the number of the jobs that
      arrived there and have neither been rejected nor ended. */
  lemma ActiveFromEvents(cfg: Config, run: seq<Event>, w: nat)
    requires IsRun(cfg, run) && w < |After(cfg, run).active|
    ensures After(cfg, run).active[w] == |Running(run, w)|
  {
    RunTells(cfg, run);
    RunKeepsJobs(cfg, run);
    var s := After(cfg, run);
    ActiveJobsOf(s, w);
    assert forall j :: 0 <= j < |s.jobs| ==> Told(run, j, s.jobs[j]);
    assert UnfinishedJobs(s, w) == Running(run, w);
  }

  // ---- balloons ----

  /** What the second look before a balloon asks for. */
  predicate MayBalloon(cfg: Config, s: System) {
    && cfg.backgroundingThreshold > 0
    && s.utilization >= 70
    && s.curBallooningWorker < cfg.maxPossibleWorker - cfg.maxWorker
  }

  /** The job was put into the background by a tick, and its execution has not ended since. */
  predicate HoldsBalloon(cfg: Config, run: seq<Event>, j: nat)
    requires IsRun(cfg, run)
  {
    run != [] &&
    var before, last := run[..|run| - 1], run[|run| - 1];
    if last == Finish(j) then false
    else HoldsBalloon(cfg, before, j) || (last == Tick(j, true) && MayBalloon(cfg, After(cfg, before)))
  }

  /** A job is watched for the background exactly if, when it was accepted, at
      least 70 percent of the workers were busy at the last count. */
  lemma WatchedIff(cfg: Config, s: System, j: nat, hasQueue: bool)
    requires Enabled(cfg, s, Accept(j, hasQueue))
    ensures Apply(cfg, s, Accept(j, hasQueue)).jobs[j].handler == Watching <==>
      cfg.backgroundingThreshold > 0 && s.utilization >= 70
  {
  }

  lemma HoldsStep(cfg: Config, s: System, e: Event, j: nat)
    requires JobsInv(s) && Enabled(cfg, s, e) && j < |s.jobs|
    ensures var s' := Apply(cfg, s, e);
      && j < |s'.jobs|
      && (Holding()(s'.jobs[j]) <==>
            e != Finish(j) && (Holding()(s.jobs[j]) || (e == Tick(j, true) && MayBalloon(cfg, s))))
  {
    assert JobOk(s.jobs[j], |s.active|);
    if !AboutJob(e, j) {
      OthersSame(cfg, s, e, j);
    }
  }

  lemma {:induction false} HoldsFromEvents(cfg: Config, run: seq<Event>, j: nat)
    requires IsRun(cfg, run)
    ensures HoldsBalloon(cfg, run, j) <==> j < |After(cfg, run).jobs| && Holding()(After(cfg, run).jobs[j])
  {
    if run != [] {
      hide Apply, MayBalloon, Enabled, JobsInv;
      var before, e := run[..|run| - 1], run[|run| - 1];
      var s := After(cfg, before);
      HoldsFromEvents(cfg, before, j);
      RunKeepsJobs(cfg, before);
      JobCount(cfg, s, e);
      if j < |s.jobs| {
        HoldsStep(cfg, s, e, j);
      } else if AboutJob(e, j) {
        AboutKnown(cfg, s, e, j);
      }
    }
  }

  function Held(cfg: Config, run: seq<Event>): set<nat>
    requires IsRun(cfg, run)
  {
    set j: nat | j < |Arrivals(run)| && HoldsBalloon(cfg, run, j)
  }

  /** From the events: the balloon counter is the number of jobs that a tick put
      into the background, with all that this asks for, and that have not ended since. */
  lemma BalloonsFromEvents(cfg: Config, run: seq<Event>)
    requires IsRun(cfg, run)
    ensures After(cfg, run).curBallooningWorker == |Held(cfg, run)|
  {
    hide HoldsBalloon;
    RunTells(cfg, run);
    RunKeepsJobs(cfg, run);
    var jobs := After(cfg, run).jobs;
    CountIsCardinality(jobs, Holding());
    forall j: nat ensures HoldsBalloon(cfg, run, j) <==> j < |jobs| && Holding()(jobs[j]) {
      HoldsFromEvents(cfg, run, j);
    }
    assert Held(cfg, run) == set j: nat | j < |jobs| && Holding()(jobs[j]);
  }
}
