/** The result consumers as a state machine: one bounded queue, any number of
    consumers, each sending with retry and failover, and their termination. */
module ResultQueue {
  import opened Counting
  import opened Outcomes

  const RESULT_SERVER_QUEUE_SIZE := 1000
  const LAST_RETRY := 120

  datatype Config = Config(consumers: nat, servers: nat)

  /** Where a consumer stands. Trying: about to send `item` to the server-th
      address in the pass with this retry count. Resting: in the select between
      two passes. Leaving: it has received its termination request, but has not
      closed its connection or returned yet. */
  datatype Pc =
    | Idle
    | Trying(item: nat, retries: nat, server: nat)
    | Resting(item: nat, retries: nat)
    | Leaving
    | Exited

  /** `client` is the connection the consumer carries, wherever the code keeps it. */
  datatype Consumer = Consumer(pc: Pc, client: Option<nat>)

  /** The goroutine that terminates the consumers. Moving: on its way to the i-th
      channel, where nobody sees it yet. Asking: blocked on the i-th channel. */
  datatype Terminator = NotStarted | Moving(i: nat) | Asking(i: nat) | Finished

  datatype State = State(
    queue: seq<nat>, consumers: seq<Consumer>, terminator: Terminator,
    open: set<nat>, nextClient: nat,
    enqueued: multiset<nat>, delivered: multiset<nat>, givenUp: multiset<nat>, abandoned: multiset<nat>)

  datatype Event =
    | Enqueue(item: nat)
    | Take(c: nat)
    | Build(c: nat, ok: bool)
    | Send(c: nat, ok: bool)
    | EndPass(c: nat)
    | Continue(c: nat)
    | StartTermination
    | Proceed
    | Terminate(c: nat)
    | Close(c: nat)
    | Exit(c: nat)

  function Init(cfg: Config): State {
    State([], seq(cfg.consumers, _ => Consumer(Idle, None)), NotStarted, {}, 0,
          multiset{}, multiset{}, multiset{}, multiset{})
  }

  predicate Enabled(cfg: Config, s: State, e: Event) {
    match e
    case Enqueue(_) => |s.queue| < RESULT_SERVER_QUEUE_SIZE
    case StartTermination => s.terminator == NotStarted
    case Proceed => s.terminator.Moving?
    case Take(c) => c < |s.consumers| && s.consumers[c].pc == Idle && s.queue != []
    case Build(c, _) =>
      && c < |s.consumers| && s.consumers[c].pc.Trying? && s.consumers[c].pc.server < cfg.servers
      && s.consumers[c].client.None?
    case Send(c, _) =>
      && c < |s.consumers| && s.consumers[c].pc.Trying? && s.consumers[c].pc.server < cfg.servers
      && s.consumers[c].client.Some?
    case EndPass(c) => c < |s.consumers| && s.consumers[c].pc.Trying? && s.consumers[c].pc.server >= cfg.servers
    // the default case of a select is taken only if no request is waiting
    case Continue(c) => c < |s.consumers| && s.consumers[c].pc.Resting? && s.terminator != Asking(c)
    case Terminate(c) =>
      c < |s.consumers| && s.terminator == Asking(c) && (s.consumers[c].pc == Idle || s.consumers[c].pc.Resting?)
    case Close(c) => c < |s.consumers| && s.consumers[c].pc == Leaving && s.consumers[c].client.Some?
    case Exit(c) => c < |s.consumers| && s.consumers[c].pc == Leaving && s.consumers[c].client.None?
  }

  function Place(s: State, c: nat, consumer: Consumer): State
    requires c < |s.consumers|
  {
    s.(consumers := s.consumers[c := consumer])
  }

  function Closed(s: State, client: Option<nat>): State {
    if client.Some? then s.(open := s.open - {client.value}) else s
  }

  function ApplyBuild(s: State, c: nat, ok: bool): State
    requires c < |s.consumers| && s.consumers[c].pc.Trying?
  {
    var me := s.consumers[c];
    if ok then Place(s, c, me.(client := Some(s.nextClient))).(open := s.open + {s.nextClient}, nextClient := s.nextClient + 1)
    else Place(s, c, me.(pc := me.pc.(server := me.pc.server + 1)))
  }

  function ApplySend(s: State, c: nat, ok: bool): State
    requires c < |s.consumers| && s.consumers[c].pc.Trying?
  {
    var me := s.consumers[c];
    if ok then Place(s, c, me.(pc := Idle)).(delivered := s.delivered + multiset{me.pc.item})
    else Closed(Place(s, c, Consumer(me.pc.(server := me.pc.server + 1), None)), me.client)
  }

  function ApplyEndPass(s: State, c: nat): State
    requires c < |s.consumers| && s.consumers[c].pc.Trying?
  {
    var me := s.consumers[c];
    if me.pc.retries > LAST_RETRY then Place(s, c, me.(pc := Idle)).(givenUp := s.givenUp + multiset{me.pc.item})
    else Place(s, c, me.(pc := Resting(me.pc.item, me.pc.retries + 1)))
  }

  function Next(cfg: Config, i: nat): Terminator {
    if i < cfg.consumers then Asking(i) else Finished
  }

  /** The request is received; closing the connection and returning come later. */
  function ApplyTerminate(cfg: Config, s: State, c: nat): State
    requires c < |s.consumers|
  {
    var me := s.consumers[c];
    Place(s, c, me.(pc := Leaving)).(
      terminator := Moving(c + 1),
      abandoned := if me.pc.Resting? then s.abandoned + multiset{me.pc.item} else s.abandoned)
  }

  function Apply(cfg: Config, s: State, e: Event): State
    requires Enabled(cfg, s, e)
  {
    match e
    case Enqueue(item) => s.(queue := s.queue + [item], enqueued := s.enqueued + multiset{item})
    case StartTermination => s.(terminator := Moving(0))
    case Proceed => s.(terminator := Next(cfg, s.terminator.i))
    case Take(c) => Place(s, c, s.consumers[c].(pc := Trying(s.queue[0], 0, 0))).(queue := s.queue[1..])
    case Build(c, ok) => ApplyBuild(s, c, ok)
    case Send(c, ok) => ApplySend(s, c, ok)
    case EndPass(c) => ApplyEndPass(s, c)
    case Continue(c) =>
      Place(s, c, s.consumers[c].(pc := Trying(s.consumers[c].pc.item, s.consumers[c].pc.retries, 0)))
    case Terminate(c) => ApplyTerminate(cfg, s, c)
    case Close(c) => Closed(Place(s, c, s.consumers[c].(client := None)), s.consumers[c].client)
    case Exit(c) => Place(s, c, s.consumers[c].(pc := Exited))
  }

  predicate IsRun(cfg: Config, run: seq<Event>)
    decreases |run|, 0
  {
    run == [] ||
    var before := run[..|run| - 1];
    IsRun(cfg, before) && Enabled(cfg, After(cfg, before), run[|run| - 1])
  }

  function After(cfg: Config, run: seq<Event>): State
    requires IsRun(cfg, run)
    decreases |run|
  {
    if run == [] then Init(cfg)
    else Apply(cfg, After(cfg, run[..|run| - 1]), run[|run| - 1])
  }

  ghost predicate Reachable(cfg: Config, s: State) {
    exists run :: IsRun(cfg, run) && After(cfg, run) == s
  }

  lemma ReachableStep(cfg: Config, s: State, e: Event)
    requires Reachable(cfg, s) && Enabled(cfg, s, e)
    ensures Reachable(cfg, Apply(cfg, s, e))
  {
    var run :| IsRun(cfg, run) && After(cfg, run) == s;
    assert (run + [e])[..|run|] == run;
    assert IsRun(cfg, run + [e]) && After(cfg, run + [e]) == Apply(cfg, s, e);
  }

  // ---- what the consumers hold together ----

  function Hand(): Consumer -> multiset<nat> {
    (c: Consumer) => if c.pc.Trying? || c.pc.Resting? then multiset{c.pc.item} else multiset{}
  }

  function InHand(s: State): multiset<nat> {
    Gather(s.consumers, Hand())
  }

  function Carries(): Consumer -> multiset<nat> {
    (c: Consumer) => if c.client.Some? then multiset{c.client.value} else multiset{}
  }

  // ---- conservation ----

  function Accounted(s: State): multiset<nat> {
    multiset(s.queue) + InHand(s) + s.delivered + s.givenUp + s.abandoned
  }

  ghost predicate Conserved(s: State) {
    |s.queue| <= RESULT_SERVER_QUEUE_SIZE && s.enqueued == Accounted(s)
  }

  lemma TakeConserves(cfg: Config, s: State, c: nat)
    requires Conserved(s) && Enabled(cfg, s, Take(c))
    ensures Conserved(Apply(cfg, s, Take(c)))
  {
    hide Gather;
    var s' := Apply(cfg, s, Take(c));
    GatherUpdate(s.consumers, c, s'.consumers[c], Hand());
    assert s.queue == [s.queue[0]] + s.queue[1..];
    assert Hand()(s.consumers[c]) == multiset{} && Hand()(s'.consumers[c]) == multiset{s.queue[0]};
    assert InHand(s') == InHand(s) + multiset{s.queue[0]};
    assert multiset(s.queue) == multiset(s'.queue) + multiset{s.queue[0]};
  }

  /** A consumer that lets go of its item passes it to exactly one of the three ends. */
  lemma LetGo(s: State, s': State, c: nat, item: nat)
    requires Conserved(s) && c < |s.consumers|
    requires Hand()(s.consumers[c]) == multiset{item}
    requires |s'.consumers| == |s.consumers| && s'.consumers == s.consumers[c := s'.consumers[c]]
    requires Hand()(s'.consumers[c]) == multiset{}
    requires s'.queue == s.queue && s'.enqueued == s.enqueued
    requires s'.delivered + s'.givenUp + s'.abandoned == s.delivered + s.givenUp + s.abandoned + multiset{item}
    ensures Conserved(s')
  {
    hide Gather, Hand;
    GatherUpdate(s.consumers, c, s'.consumers[c], Hand());
    assert InHand(s) == InHand(s') + multiset{item};
    assert Accounted(s') == multiset(s.queue) + InHand(s') + (s'.delivered + s'.givenUp + s'.abandoned);
    assert Accounted(s) == multiset(s.queue) + (InHand(s') + multiset{item}) + (s.delivered + s.givenUp + s.abandoned);
  }

  lemma KeepsItem(s: State, s': State, c: nat)
    requires Conserved(s) && c < |s.consumers|
    requires |s'.consumers| == |s.consumers| && s'.consumers == s.consumers[c := s'.consumers[c]]
    requires Hand()(s.consumers[c]) == Hand()(s'.consumers[c])
    requires s'.queue == s.queue && s'.enqueued == s.enqueued
    requires s'.delivered == s.delivered && s'.givenUp == s.givenUp && s'.abandoned == s.abandoned
    ensures Conserved(s')
  {
    hide Gather, Hand;
    GatherUpdate(s.consumers, c, s'.consumers[c], Hand());
    Cancel(InHand(s), InHand(s'), Hand()(s.consumers[c]));
  }

  lemma EnqueueConserves(s: State, item: nat)
    requires Conserved(s) && |s.queue| < RESULT_SERVER_QUEUE_SIZE
    ensures Conserved(s.(queue := s.queue + [item], enqueued := s.enqueued + multiset{item}))
  {
    assert multiset(s.queue + [item]) == multiset(s.queue) + multiset{item};
  }

  lemma BuildConserves(s: State, c: nat, ok: bool)
    requires Conserved(s) && c < |s.consumers| && s.consumers[c].pc.Trying?
    ensures Conserved(ApplyBuild(s, c, ok))
  {
    hide Conserved, Gather;
    KeepsItem(s, ApplyBuild(s, c, ok), c);
  }

  lemma SendConserves(s: State, c: nat, ok: bool)
    requires Conserved(s) && c < |s.consumers| && s.consumers[c].pc.Trying?
    ensures Conserved(ApplySend(s, c, ok))
  {
    hide Conserved, Gather;
    if ok {
      LetGo(s, ApplySend(s, c, ok), c, s.consumers[c].pc.item);
    } else {
      KeepsItem(s, ApplySend(s, c, ok), c);
    }
  }

  lemma EndPassConserves(s: State, c: nat)
    requires Conserved(s) && c < |s.consumers| && s.consumers[c].pc.Trying?
    ensures Conserved(ApplyEndPass(s, c))
  {
    hide Conserved, Gather;
    if s.consumers[c].pc.retries > LAST_RETRY {
      LetGo(s, ApplyEndPass(s, c), c, s.consumers[c].pc.item);
    } else {
      KeepsItem(s, ApplyEndPass(s, c), c);
    }
  }

  lemma TerminateConserves(cfg: Config, s: State, c: nat)
    requires Conserved(s) && c < |s.consumers| && (s.consumers[c].pc == Idle || s.consumers[c].pc.Resting?)
    ensures Conserved(ApplyTerminate(cfg, s, c))
  {
    hide Conserved, Gather;
    if s.consumers[c].pc.Resting? {
      LetGo(s, ApplyTerminate(cfg, s, c), c, s.consumers[c].pc.item);
    } else {
      KeepsItem(s, ApplyTerminate(cfg, s, c), c);
    }
  }

  lemma ContinueConserves(s: State, c: nat, pc: Pc)
    requires Conserved(s) && c < |s.consumers| && s.consumers[c].pc.Resting?
    requires pc == Trying(s.consumers[c].pc.item, s.consumers[c].pc.retries, 0)
    ensures Conserved(Place(s, c, s.consumers[c].(pc := pc)))
  {
    hide Conserved, Gather;
    KeepsItem(s, Place(s, c, s.consumers[c].(pc := pc)), c);
  }

  lemma StepConserves(cfg: Config, s: State, e: Event)
    requires Conserved(s) && Enabled(cfg, s, e)
    ensures Conserved(Apply(cfg, s, e))
  {
    hide Conserved, ApplyBuild, ApplySend, ApplyEndPass, ApplyTerminate;
    match e
    case Enqueue(item) => EnqueueConserves(s, item);
    case StartTermination => TerminatorOnly(s, Moving(0));
    case Proceed => TerminatorOnly(s, Next(cfg, s.terminator.i));
    case Take(c) => TakeConserves(cfg, s, c);
    case Build(c, ok) => BuildConserves(s, c, ok);
    case Send(c, ok) => SendConserves(s, c, ok);
    case EndPass(c) => EndPassConserves(s, c);
    case Continue(c) => ContinueConserves(s, c, Trying(s.consumers[c].pc.item, s.consumers[c].pc.retries, 0));
    case Terminate(c) => TerminateConserves(cfg, s, c);
    case Close(c) => LeaveConserves(cfg, s, e);
    case Exit(c) => LeaveConserves(cfg, s, e);
  }

  lemma LeaveConserves(cfg: Config, s: State, e: Event)
    requires Conserved(s) && Enabled(cfg, s, e) && (e.Close? || e.Exit?)
    ensures Conserved(Apply(cfg, s, e))
  {
    hide Conserved, Gather;
    KeepsItem(s, Apply(cfg, s, e), e.c);
  }

  lemma TerminatorOnly(s: State, t: Terminator)
    requires Conserved(s)
    ensures Conserved(s.(terminator := t))
  {
  }

  // ---- connections ----

  ghost predicate Owned(s: State) {
    && multiset(s.open) == Gather(s.consumers, Carries())
    && (forall id :: id in s.open ==> id < s.nextClient)
    && (forall c :: 0 <= c < |s.consumers| && s.consumers[c].pc == Exited ==> s.consumers[c].client == None)
  }

  /** One consumer opens what it then carries and closes what it carried. */
  lemma Rebalanced(s: State, s': State, c: nat)
    requires Owned(s) && c < |s.consumers|
    requires |s'.consumers| == |s.consumers| && s'.consumers == s.consumers[c := s'.consumers[c]]
    requires s'.consumers[c].pc == Exited ==> s'.consumers[c].client.None?
    requires s'.nextClient >= s.nextClient
    requires
      var was, now := s.consumers[c].client, s'.consumers[c].client;
      || (now == was && s'.open == s.open)
      || (now.None? && s'.open == Closed(s, was).open)
      || (was.None? && now == Some(s.nextClient) && s'.open == s.open + {s.nextClient} && s'.nextClient > s.nextClient)
    ensures Owned(s')
  {
    hide Gather;
    var before, after := Carries()(s.consumers[c]), Carries()(s'.consumers[c]);
    GatherUpdate(s.consumers, c, s'.consumers[c], Carries());
    GatherContains(s.consumers, c, Carries());
    assert s.consumers[c].client.Some? ==> multiset(s.open)[s.consumers[c].client.value] > 0;
    assert multiset(s'.open) + before == multiset(s.open) + after;
    Cancel(multiset(s'.open), Gather(s'.consumers, Carries()), before);
  }

  lemma StepOwns(cfg: Config, s: State, e: Event)
    requires Owned(s) && Enabled(cfg, s, e)
    ensures Owned(Apply(cfg, s, e))
  {
    hide Owned, Gather;
    if e.Enqueue? || e.StartTermination? || e.Proceed? {
      assert Owned(Apply(cfg, s, e)) by { SameConsumers(s, Apply(cfg, s, e)); }
    } else {
      Rebalanced(s, Apply(cfg, s, e), e.c);
    }
  }

  lemma SameConsumers(s: State, s': State)
    requires Owned(s) && s'.consumers == s.consumers && s'.open == s.open && s'.nextClient == s.nextClient
    ensures Owned(s')
  {
  }

  lemma Cancel(a: multiset<nat>, b: multiset<nat>, c: multiset<nat>)
    requires a + c == b + c
    ensures a == b
  {
    assert a == (a + c) - c && b == (b + c) - c;
  }

  // ---- retries and termination ----

  predicate PcOk(cfg: Config, pc: Pc) {
    match pc
    case Trying(_, retries, server) => retries <= LAST_RETRY + 1 && server <= cfg.servers
    case Resting(_, retries) => 1 <= retries <= LAST_RETRY + 1
    case _ => true
  }

  /** How many termination requests have been received. */
  function Requests(cfg: Config, t: Terminator): nat {
    match t
    case NotStarted => 0
    case Moving(i) => i
    case Asking(i) => i
    case Finished => cfg.consumers
  }

  /** The consumer has received its termination request. */
  predicate Gone(pc: Pc) { pc == Leaving || pc == Exited }

  predicate Progress(cfg: Config, s: State) {
    && |s.consumers| == cfg.consumers
    && (s.terminator.Asking? ==> s.terminator.i < cfg.consumers)
    && (s.terminator.Moving? ==> s.terminator.i <= cfg.consumers)
    && (forall c :: 0 <= c < |s.consumers| ==> PcOk(cfg, s.consumers[c].pc))
    && (forall c :: 0 <= c < |s.consumers| ==> (Gone(s.consumers[c].pc) <==> c < Requests(cfg, s.terminator)))
  }

  lemma StepProgresses(cfg: Config, s: State, e: Event)
    requires Progress(cfg, s) && Enabled(cfg, s, e)
    ensures Progress(cfg, Apply(cfg, s, e))
  {
    hide Progress;
    match e
    case Enqueue(_) => SameProgress(cfg, s, Apply(cfg, s, e));
    case StartTermination => StartProgresses(cfg, s);
    case Proceed => ProceedProgresses(cfg, s);
    case Terminate(c) => TerminateProgresses(cfg, s, c);
    case _ => MoveProgresses(cfg, s, e);
  }

  lemma SameProgress(cfg: Config, s: State, s': State)
    requires Progress(cfg, s) && s'.consumers == s.consumers && s'.terminator == s.terminator
    ensures Progress(cfg, s')
  {
  }

  lemma StartProgresses(cfg: Config, s: State)
    requires Progress(cfg, s) && s.terminator == NotStarted
    ensures Progress(cfg, s.(terminator := Moving(0)))
  {
  }

  lemma ProceedProgresses(cfg: Config, s: State)
    requires Progress(cfg, s) && s.terminator.Moving?
    ensures Progress(cfg, s.(terminator := Next(cfg, s.terminator.i)))
  {
  }

  lemma PlaceProgresses(cfg: Config, s: State, c: nat, me: Consumer)
    requires Progress(cfg, s) && c < |s.consumers| && PcOk(cfg, me.pc)
    requires Gone(s.consumers[c].pc) <==> Gone(me.pc)
    ensures Progress(cfg, Place(s, c, me))
  {
  }

  lemma TerminateProgresses(cfg: Config, s: State, c: nat)
    requires Progress(cfg, s) && c < |s.consumers| && s.terminator == Asking(c)
    ensures Progress(cfg, ApplyTerminate(cfg, s, c))
  {
  }

  /** The steps of a consumer that neither receive nor need a request. */
  lemma MoveProgresses(cfg: Config, s: State, e: Event)
    requires Progress(cfg, s) && Enabled(cfg, s, e)
    requires !e.Enqueue? && !e.StartTermination? && !e.Proceed? && !e.Terminate?
    ensures Progress(cfg, Apply(cfg, s, e))
  {
    var c, s' := e.c, Apply(cfg, s, e);
    assert PcOk(cfg, s.consumers[c].pc);
    PlaceProgresses(cfg, s, c, s'.consumers[c]);
    SameProgress(cfg, Place(s, c, s'.consumers[c]), s');
  }

  lemma {:induction false} RunKeeps(cfg: Config, run: seq<Event>)
    requires IsRun(cfg, run)
    ensures Conserved(After(cfg, run)) && Owned(After(cfg, run)) && Progress(cfg, After(cfg, run))
  {
    if run == [] {
      GatherNothing(Init(cfg).consumers, Hand());
      GatherNothing(Init(cfg).consumers, Carries());
    } else {
      var s, e := After(cfg, run[..|run| - 1]), run[|run| - 1];
      RunKeeps(cfg, run[..|run| - 1]);
      StepConserves(cfg, s, e);
      StepOwns(cfg, s, e);
      StepProgresses(cfg, s, e);
    }
  }
}
