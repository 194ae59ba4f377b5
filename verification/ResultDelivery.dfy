/** What the result consumers guarantee over whole runs, and the consumer's
    code as it is, run between the steps of everybody else. */
module ResultDelivery {
  import opened Counting
  import opened Outcomes
  import opened ResultQueue

  lemma ReachableKeeps(cfg: Config, s: State)
    requires Reachable(cfg, s)
    ensures Conserved(s) && Owned(s) && Progress(cfg, s)
  {
    hide Apply;
    var run :| IsRun(cfg, run) && After(cfg, run) == s;
    RunKeeps(cfg, run);
  }

  // ---- conservation ----

  /** Every result ever enqueued is, in every reachable state, in exactly one
      place: queued, in a consumer's hand, delivered, given up, or abandoned. */
  lemma Conservation(cfg: Config, s: State)
    requires Reachable(cfg, s)
    ensures s.enqueued == multiset(s.queue) + InHand(s) + s.delivered + s.givenUp + s.abandoned
    ensures |s.queue| <= 1000
  {
    ReachableKeeps(cfg, s);
  }

  /** While nobody takes any, up to a thousand results fit, in their order, and one more has to wait. */
  lemma {:induction false} QueueFills(cfg: Config, items: seq<nat>) returns (s: State)
    requires |items| <= 1000
    ensures Reachable(cfg, s) && s.queue == items
    ensures forall item :: Enabled(cfg, s, Enqueue(item)) <==> |items| < 1000
  {
    hide Reachable, Init;
    if items == [] {
      InitReachable(cfg);
      s := Init(cfg);
      InitIsEmpty(cfg);
    } else {
      var n := |items| - 1;
      s := QueueFills(cfg, items[..n]);
      assert Enabled(cfg, s, Enqueue(items[n]));
      s := Go(cfg, s, Enqueue(items[n]));
      assert items[..n] + [items[n]] == items;
    }
  }

  lemma InitIsEmpty(cfg: Config)
    ensures Init(cfg).queue == []
  {
  }

  /** A result enqueued once is acknowledged at most once, and never both
      acknowledged and given up or abandoned. */
  lemma AcknowledgedOnce(cfg: Config, s: State, item: nat)
    requires Reachable(cfg, s) && s.enqueued[item] == 1
    ensures s.delivered[item] + s.givenUp[item] + s.abandoned[item] <= 1
    ensures item in s.queue || item in InHand(s) ==> item !in s.delivered
  {
    Conservation(cfg, s);
  }

  // ---- connections ----

  lemma {:induction false} GatherPair(cs: seq<Consumer>, c: nat, d: nat, id: nat)
    requires c < d < |cs| && cs[c].client == Some(id) && cs[d].client == Some(id)
    ensures Gather(cs, Carries())[id] >= 2
  {
    var front := cs[..|cs| - 1];
    if d == |cs| - 1 {
      GatherContains(front, c, Carries());
      assert Carries()(front[c]) == multiset{id};
    } else {
      GatherPair(front, c, d, id);
    }
  }

  lemma {:induction false} GatherWitness(cs: seq<Consumer>, id: nat) returns (c: nat)
    requires id in Gather(cs, Carries())
    ensures c < |cs| && cs[c].client == Some(id)
  {
    var n := |cs| - 1;
    if cs[n].client == Some(id) {
      c := n;
    } else {
      c := GatherWitness(cs[..n], id);
    }
  }

  /** The open connections are exactly the ones the consumers carry, each carried
      by one consumer; so a consumer owns at most one, and an exited consumer none. */
  lemma Ownership(cfg: Config, s: State)
    requires Reachable(cfg, s)
    ensures forall id :: id in s.open <==> exists c :: 0 <= c < |s.consumers| && s.consumers[c].client == Some(id)
    ensures forall c, d :: 0 <= c < d < |s.consumers| && s.consumers[c].client.Some? ==>
      s.consumers[c].client != s.consumers[d].client
    ensures forall c :: 0 <= c < |s.consumers| && s.consumers[c].pc == Exited ==> s.consumers[c].client.None?
  {
    hide IsRun, After;
    ReachableKeeps(cfg, s);
    OwnershipOf(s);
  }

  lemma OwnershipOf(s: State)
    requires Owned(s)
    ensures forall id :: id in s.open <==> exists c :: 0 <= c < |s.consumers| && s.consumers[c].client == Some(id)
    ensures forall c, d :: 0 <= c < d < |s.consumers| && s.consumers[c].client.Some? ==>
      s.consumers[c].client != s.consumers[d].client
  {
    hide Gather;
    var bag := Gather(s.consumers, Carries());
    forall id | id in s.open
      ensures exists c :: 0 <= c < |s.consumers| && s.consumers[c].client == Some(id)
    {
      assert multiset(s.open)[id] == 1;
      var c := GatherWitness(s.consumers, id);
    }
    forall c | 0 <= c < |s.consumers| && s.consumers[c].client.Some?
      ensures s.consumers[c].client.value in s.open
    {
      GatherContains(s.consumers, c, Carries());
      assert bag[s.consumers[c].client.value] > 0;
    }
    forall c, d | 0 <= c < d < |s.consumers| && s.consumers[c].client.Some?
      ensures s.consumers[c].client != s.consumers[d].client
    {
      if s.consumers[c].client == s.consumers[d].client {
        GatherPair(s.consumers, c, d, s.consumers[c].client.value);
      }
    }
  }

  // ---- termination ----

  /** The consumers that are gone are those that received their request. When the
      terminator is done all of them are gone, and the connections still open are
      exactly those of consumers that have yet to close one. */
  lemma GoneAreServed(cfg: Config, s: State)
    requires Reachable(cfg, s)
    ensures |s.consumers| == cfg.consumers
    ensures forall c :: 0 <= c < cfg.consumers ==> (Gone(s.consumers[c].pc) <==> c < Requests(cfg, s.terminator))
    ensures s.terminator == Finished ==> forall c :: 0 <= c < cfg.consumers ==> Gone(s.consumers[c].pc)
    ensures s.terminator == Finished ==> forall id :: id in s.open <==> LeavesWith(s, id)
    ensures s.terminator == Finished ==>
      (s.open == {} <==> forall c :: 0 <= c < cfg.consumers ==> s.consumers[c].client.None?)
  {
    hide IsRun, After;
    ReachableKeeps(cfg, s);
    Ownership(cfg, s);
    if s.terminator == Finished {
      forall id ensures id in s.open <==> LeavesWith(s, id) {
        if id in s.open {
          var c :| 0 <= c < |s.consumers| && s.consumers[c].client == Some(id);
          assert Gone(s.consumers[c].pc) && s.consumers[c].pc == Leaving;
        }
      }
      forall c | 0 <= c < cfg.consumers && s.consumers[c].client.Some? ensures s.consumers[c].client.value in s.open {
        assert s.consumers[c].client == Some(s.consumers[c].client.value);
      }
    }
  }

  predicate LeavesWith(s: State, id: nat) {
    exists c :: 0 <= c < |s.consumers| && s.consumers[c].pc == Leaving && s.consumers[c].client == Some(id)
  }

  /** What a leaving consumer can still do: close its connection if it has one,
      then return. It takes, sends and opens nothing. */
  lemma LeavingEnds(cfg: Config, s: State, c: nat)
    requires c < |s.consumers| && s.consumers[c].pc == Leaving
    ensures forall e :: Enabled(cfg, s, e) && Moves(e, c) <==>
      e == if s.consumers[c].client.Some? then Close(c) else Exit(c)
    ensures var me := s.consumers[c];
      if me.client.Some? then Apply(cfg, s, Close(c)).consumers[c] == Consumer(Leaving, None)
        && Apply(cfg, s, Close(c)).open == s.open - {me.client.value}
      else Apply(cfg, s, Exit(c)).consumers[c] == Consumer(Exited, None) && Apply(cfg, s, Exit(c)).open == s.open
  {
  }

  /** The terminator can be done while a connection is still open: the send of a
      request ends when it is received, before the receiver closes anything. */
  lemma DoneWhileOpen(cfg: Config) returns (s: State)
    requires cfg.consumers == 1 && cfg.servers > 0
    ensures Reachable(cfg, s) && s.terminator == Finished && s.open != {}
    ensures s.consumers == [Consumer(Leaving, Some(0))]
  {
    hide Reachable;
    s := AskedWhileIdle(cfg);
    GoneAreServed(cfg, s);
    s := Go(cfg, s, Terminate(0));
    s := Go(cfg, s, Proceed);
    GoneAreServed(cfg, s);
    assert s.consumers[0] == Consumer(Leaving, Some(0));
    assert LeavesWith(s, 0);
  }

  lemma LeaveStep(cfg: Config, s: State, e: Event, c: nat)
    requires Enabled(cfg, s, e) && |s.consumers| == cfg.consumers
    requires c < |s.consumers| && !Gone(s.consumers[c].pc)
    ensures var s' := Apply(cfg, s, e);
      && c < |s'.consumers|
      && (Gone(s'.consumers[c].pc) <==> e == Terminate(c))
      && (e == Terminate(c) ==> Requests(cfg, s'.terminator) == Requests(cfg, s.terminator) + 1)
  {
  }

  /** A consumer leaves in the step that hands it a request, and in no other; each
      such step hands over one request. */
  lemma LeavingIsARequest(cfg: Config, s: State, e: Event, c: nat)
    requires Reachable(cfg, s) && Enabled(cfg, s, e) && c < |s.consumers| && !Gone(s.consumers[c].pc)
    ensures var s' := Apply(cfg, s, e);
      && c < |s'.consumers|
      && (Gone(s'.consumers[c].pc) <==> e == Terminate(c))
      && (e == Terminate(c) ==> Requests(cfg, s'.terminator) == Requests(cfg, s.terminator) + 1)
  {
    hide Reachable, Apply, Conserved, Owned;
    ReachableKeeps(cfg, s);
    LeaveStep(cfg, s, e, c);
  }

  // ---- retries ----

  /** The event is a step of consumer `c`. */
  predicate Moves(e: Event, c: nat) {
    match e
    case Enqueue(_) => false
    case StartTermination => false
    case Proceed => false
    case Take(d) => d == c
    case Build(d, _) => d == c
    case Send(d, _) => d == c
    case EndPass(d) => d == c
    case Continue(d) => d == c
    case Terminate(d) => d == c
    case Close(d) => d == c
    case Exit(d) => d == c
  }

  lemma OthersStay(cfg: Config, s: State, e: Event, c: nat)
    requires Enabled(cfg, s, e) && !Moves(e, c) && c < |s.consumers|
    ensures var s' := Apply(cfg, s, e);
      |s'.consumers| == |s.consumers| && s'.consumers[c] == s.consumers[c]
    ensures Grown(s, Apply(cfg, s, e))
  {
  }

  /** Nothing delivered, given up or abandoned is ever taken back. */
  predicate Grown(s: State, s': State) {
    s.delivered <= s'.delivered && s.givenUp <= s'.givenUp && s.abandoned <= s'.abandoned
  }

  function Passes(cfg: Config, retries: nat): nat
    requires retries <= LAST_RETRY + 1
  {
    (LAST_RETRY + 1 - retries) * (2 * cfg.servers + 3)
  }

  /** An upper bound on the steps a consumer still needs for the item in its hand. */
  function StepsLeft(cfg: Config, c: Consumer): nat
    requires PcOk(cfg, c.pc)
  {
    match c.pc
    case Trying(_, retries, server) =>
      Passes(cfg, retries) + 2 * (cfg.servers - server) + (if c.client.None? then 1 else 0) + 1
    case Resting(_, retries) => Passes(cfg, retries) + 2 * cfg.servers + 3
    case _ => 0
  }

  lemma Distribute(cfg: Config, retries: nat)
    requires retries <= LAST_RETRY
    ensures Passes(cfg, retries) == Passes(cfg, retries + 1) + 2 * cfg.servers + 3
  {
  }

  /** Sending always ends: each step of a consumer with an item in its hand brings
      it closer, and no step of anyone else sets it back. */
  lemma SendingEnds(cfg: Config, s: State, e: Event, c: nat)
    requires Reachable(cfg, s) && Enabled(cfg, s, e) && c < |s.consumers|
    requires s.consumers[c].pc.Trying? || s.consumers[c].pc.Resting?
    ensures PcOk(cfg, s.consumers[c].pc)
    ensures var s' := Apply(cfg, s, e);
      && c < |s'.consumers| && PcOk(cfg, s'.consumers[c].pc)
      && (if !Moves(e, c) then s'.consumers[c] == s.consumers[c]
          else StepsLeft(cfg, s'.consumers[c]) < StepsLeft(cfg, s.consumers[c]))
  {
    hide IsRun, After;
    ReachableKeeps(cfg, s);
    SendingStep(cfg, s, e, c);
  }

  lemma SendingStep(cfg: Config, s: State, e: Event, c: nat)
    requires Progress(cfg, s) && Enabled(cfg, s, e) && c < |s.consumers|
    requires s.consumers[c].pc.Trying? || s.consumers[c].pc.Resting?
    ensures var s' := Apply(cfg, s, e);
      && c < |s'.consumers| && PcOk(cfg, s'.consumers[c].pc)
      && (if !Moves(e, c) then s'.consumers[c] == s.consumers[c]
          else StepsLeft(cfg, s'.consumers[c]) < StepsLeft(cfg, s.consumers[c]))
  {
    assert PcOk(cfg, s.consumers[c].pc);
    if Moves(e, c) {
      OwnStep(cfg, s, e, c);
    } else {
      OthersStay(cfg, s, e, c);
    }
  }

  lemma OwnStep(cfg: Config, s: State, e: Event, c: nat)
    requires c < |s.consumers| && PcOk(cfg, s.consumers[c].pc) && Enabled(cfg, s, e) && Moves(e, c)
    requires s.consumers[c].pc.Trying? || s.consumers[c].pc.Resting?
    ensures var s' := Apply(cfg, s, e);
      && c < |s'.consumers| && PcOk(cfg, s'.consumers[c].pc)
      && StepsLeft(cfg, s'.consumers[c]) < StepsLeft(cfg, s.consumers[c])
  {
    hide Passes;
    if e.EndPass? && s.consumers[c].pc.Trying? && s.consumers[c].pc.retries <= LAST_RETRY {
      Distribute(cfg, s.consumers[c].pc.retries);
    }
  }

  // ---- how long a request waits ----

  /** The events can happen one after the other, starting in `s`. */
  predicate Continues(cfg: Config, s: State, more: seq<Event>)
    decreases |more|
  {
    more == [] || (Enabled(cfg, s, more[0]) && Continues(cfg, Apply(cfg, s, more[0]), more[1..]))
  }

  function Final(cfg: Config, s: State, more: seq<Event>): State
    requires Continues(cfg, s, more)
    decreases |more|
  {
    if more == [] then s else Final(cfg, Apply(cfg, s, more[0]), more[1..])
  }

  function OwnSteps(more: seq<Event>, c: nat): nat {
    if more == [] then 0 else (if Moves(more[0], c) then 1 else 0) + OwnSteps(more[1..], c)
  }

  function Enqueues(more: seq<Event>): nat {
    if more == [] then 0 else (if more[0].Enqueue? then 1 else 0) + Enqueues(more[1..])
  }

  /** Steps until the consumer is next in a select, while it is being asked. */
  function AskedLeft(cfg: Config, c: Consumer): nat
    requires PcOk(cfg, c.pc)
  {
    match c.pc
    case Trying(_, _, server) => 2 * (cfg.servers - server) + (if c.client.None? then 1 else 0) + 1
    case _ => 0
  }

  /** Taking a result and one pass over the servers with it. */
  function PassSteps(cfg: Config): nat {
    2 * cfg.servers + 3
  }

  function Waiting(cfg: Config, s: State, c: nat): nat
    requires c < |s.consumers| && PcOk(cfg, s.consumers[c].pc)
  {
    AskedLeft(cfg, s.consumers[c]) + |s.queue| * PassSteps(cfg)
  }

  lemma WaitingStep(cfg: Config, s: State, e: Event, c: nat)
    requires Progress(cfg, s) && Enabled(cfg, s, e) && s.terminator == Asking(c) && e != Terminate(c)
    ensures var s' := Apply(cfg, s, e);
      && s'.terminator == Asking(c) && c < |s.consumers| && c < |s'.consumers|
      && PcOk(cfg, s.consumers[c].pc) && PcOk(cfg, s'.consumers[c].pc)
      && Waiting(cfg, s', c) + (if Moves(e, c) then 1 else 0)
           <= Waiting(cfg, s, c) + (if e.Enqueue? then PassSteps(cfg) else 0)
  {
    var s' := Apply(cfg, s, e);
    assert PcOk(cfg, s.consumers[c].pc);
    if e.Take? {
      Fewer(|s.queue|, PassSteps(cfg));
    } else if e.Enqueue? {
      Fewer(|s'.queue|, PassSteps(cfg));
    } else {
      assert s'.queue == s.queue;
    }
  }

  lemma Fewer(n: nat, k: nat)
    requires n > 0
    ensures n * k == (n - 1) * k + k
  {
  }

  /** While the terminator waits for a consumer, that consumer can do only so many
      steps of its own before it receives the request: the rest of the pass it is
      in, and one pass for each result that its select prefers to the request. No
      rest between two passes is followed by another pass. In a select it can be
      served at once, and before that it can move. */
  lemma RequestIsServed(cfg: Config, s: State, more: seq<Event>, c: nat)
    requires Reachable(cfg, s) && s.terminator == Asking(c)
    requires Continues(cfg, s, more) && Terminate(c) !in more
    ensures c < |s.consumers| && PcOk(cfg, s.consumers[c].pc)
    ensures OwnSteps(more, c) <= AskedLeft(cfg, s.consumers[c]) + (|s.queue| + Enqueues(more)) * PassSteps(cfg)
    ensures var end := Final(cfg, s, more);
      && end.terminator == Asking(c) && c < |end.consumers| && PcOk(cfg, end.consumers[c].pc)
      && (AskedLeft(cfg, end.consumers[c]) == 0 ==> Enabled(cfg, end, Terminate(c)))
      && (AskedLeft(cfg, end.consumers[c]) > 0 ==>
            Enabled(cfg, end, Build(c, true)) || Enabled(cfg, end, Send(c, true)) || Enabled(cfg, end, EndPass(c)))
  {
    hide Reachable, Conserved, Owned, Enabled, Apply;
    ReachableKeeps(cfg, s);
    ServedBound(cfg, s, more, c);
  }

  lemma {:induction false} ServedBound(cfg: Config, s: State, more: seq<Event>, c: nat)
    requires Progress(cfg, s) && s.terminator == Asking(c) && c < |s.consumers|
    requires Continues(cfg, s, more) && Terminate(c) !in more
    ensures PcOk(cfg, s.consumers[c].pc)
    ensures OwnSteps(more, c) <= AskedLeft(cfg, s.consumers[c]) + (|s.queue| + Enqueues(more)) * PassSteps(cfg)
    ensures var end := Final(cfg, s, more);
      && end.terminator == Asking(c) && c < |end.consumers| && PcOk(cfg, end.consumers[c].pc)
      && OwnSteps(more, c) + Waiting(cfg, end, c) <= Waiting(cfg, s, c) + Enqueues(more) * PassSteps(cfg)
      && (AskedLeft(cfg, end.consumers[c]) == 0 ==> Enabled(cfg, end, Terminate(c)))
      && (AskedLeft(cfg, end.consumers[c]) > 0 ==>
            Enabled(cfg, end, Build(c, true)) || Enabled(cfg, end, Send(c, true)) || Enabled(cfg, end, EndPass(c)))
    decreases |more|
  {
    hide Apply, Enabled;
    if more == [] {
      AskedCanMove(cfg, s, c);
    } else {
      var e, rest := more[0], more[1..];
      WaitingStep(cfg, s, e, c);
      StepProgresses(cfg, s, e);
      ServedBound(cfg, Apply(cfg, s, e), rest, c);
      hide Waiting, PassSteps;
      Sums(Enqueues(rest), if e.Enqueue? then 1 else 0, PassSteps(cfg));
    }
    Sums(|s.queue|, Enqueues(more), PassSteps(cfg));
    NonNegative(cfg, Final(cfg, s, more), c);
    WaitingIs(cfg, s, c);
  }

  lemma WaitingIs(cfg: Config, s: State, c: nat)
    requires c < |s.consumers| && PcOk(cfg, s.consumers[c].pc)
    ensures Waiting(cfg, s, c) == AskedLeft(cfg, s.consumers[c]) + |s.queue| * PassSteps(cfg)
  {
  }

  lemma NonNegative(cfg: Config, s: State, c: nat)
    requires c < |s.consumers| && PcOk(cfg, s.consumers[c].pc)
    ensures Waiting(cfg, s, c) >= 0
  {
  }

  lemma Sums(a: nat, b: nat, k: nat)
    ensures (a + b) * k == a * k + b * k
  {
  }

  lemma AskedCanMove(cfg: Config, s: State, c: nat)
    requires Progress(cfg, s) && s.terminator == Asking(c) && c < |s.consumers|
    ensures PcOk(cfg, s.consumers[c].pc)
    ensures AskedLeft(cfg, s.consumers[c]) == 0 ==> Enabled(cfg, s, Terminate(c))
    ensures AskedLeft(cfg, s.consumers[c]) > 0 ==>
      Enabled(cfg, s, Build(c, true)) || Enabled(cfg, s, Send(c, true)) || Enabled(cfg, s, EndPass(c))
  {
  }

  /** The term for new results is needed: a select is free to prefer them, one after the other. */
  lemma {:induction false} RequestCanWait(cfg: Config, s: State, c: nat, item: nat, n: nat) returns (more: seq<Event>)
    requires s.terminator == Asking(c) && c < |s.consumers| && s.consumers[c].pc == Idle && s.consumers[c].client.Some?
    requires s.queue == [] && cfg.servers > 0
    ensures Continues(cfg, s, more) && Terminate(c) !in more && OwnSteps(more, c) == 2 * n == 2 * Enqueues(more)
    decreases n
  {
    if n == 0 {
      more := [];
    } else {
      var s1 := Apply(cfg, s, Enqueue(item));
      var s2 := Apply(cfg, s1, Take(c));
      var s3 := Apply(cfg, s2, Send(c, true));
      assert s3.queue == [] && s3.consumers[c] == s.consumers[c];
      var rest := RequestCanWait(cfg, s3, c, item, n - 1);
      more := Before(cfg, s2, Send(c, true), rest, c);
      more := Before(cfg, s1, Take(c), more, c);
      more := Before(cfg, s, Enqueue(item), more, c);
    }
  }

  /** There is such a state: a consumer that has delivered a result is asked while it is idle. */
  lemma AskedWhileIdle(cfg: Config) returns (s: State)
    requires cfg.consumers > 0 && cfg.servers > 0
    ensures Reachable(cfg, s) && s.terminator == Asking(0) && |s.consumers| > 0
    ensures s.consumers[0] == Consumer(Idle, Some(0)) && s.queue == []
  {
    hide Reachable;
    InitReachable(cfg);
    s := Go(cfg, Init(cfg), Enqueue(0));
    s := Go(cfg, s, Take(0));
    s := Go(cfg, s, Build(0, true));
    s := Go(cfg, s, Send(0, true));
    s := Go(cfg, s, StartTermination);
    s := Go(cfg, s, Proceed);
  }

  lemma InitReachable(cfg: Config)
    ensures Reachable(cfg, Init(cfg))
  {
    assert IsRun(cfg, []) && After(cfg, []) == Init(cfg);
  }

  lemma Go(cfg: Config, s: State, e: Event) returns (s': State)
    requires Reachable(cfg, s) && Enabled(cfg, s, e)
    ensures s' == Apply(cfg, s, e) && Reachable(cfg, s')
  {
    ReachableStep(cfg, s, e);
    s' := Apply(cfg, s, e);
  }

  lemma Before(cfg: Config, s: State, e: Event, rest: seq<Event>, c: nat) returns (more: seq<Event>)
    requires Enabled(cfg, s, e) && Continues(cfg, Apply(cfg, s, e), rest) && e != Terminate(c) && Terminate(c) !in rest
    ensures Continues(cfg, s, more) && Terminate(c) !in more
    ensures OwnSteps(more, c) == OwnSteps(rest, c) + (if Moves(e, c) then 1 else 0)
    ensures Enqueues(more) == Enqueues(rest) + (if e.Enqueue? then 1 else 0)
  {
    more := [e] + rest;
    assert more[1..] == rest;
  }

  // ---- the consumer's code ----

  class Process {
    const cfg: Config
    var s: State

    constructor (cfg: Config)
      ensures this.cfg == cfg && s == Init(cfg) && Reachable(cfg, s)
    {
      this.cfg := cfg;
      s := Init(cfg);
      new;
      assert IsRun(cfg, []) && After(cfg, []) == s;
    }

    /** One step of one goroutine. */
    method Step(e: Event)
      requires Reachable(cfg, s) && Enabled(cfg, s, e)
      modifies this
      ensures s == Apply(cfg, old(s), e) && Reachable(cfg, s)
    {
      ReachableStep(cfg, s, e);
      s := Apply(cfg, s, e);
    }

    /** Whatever everybody but consumer `c` does in between. */
    method Others(c: nat)
      requires Reachable(cfg, s) && c < |s.consumers|
      modifies this
      ensures Reachable(cfg, s) && |s.consumers| == |old(s).consumers| && s.consumers[c] == old(s).consumers[c]
      ensures Grown(old(s), s)
    {
      hide Reachable;
      var steps: int := *;
      while steps > 0
        invariant Reachable(cfg, s) && |s.consumers| == |old(s).consumers| && s.consumers[c] == old(s).consumers[c]
        invariant Grown(old(s), s)
      {
        var e: Event := *;
        if Enabled(cfg, s, e) && !Moves(e, c) {
          OthersStay(cfg, s, e, c);
          Step(e);
        }
        steps := steps - 1;
      }
    }

    /** sendAnswer to one address: connects if no connection is left over, then sends. */
    method SendAnswer(c: nat) returns (sent: bool)
      requires Reachable(cfg, s) && c < |s.consumers| && s.consumers[c].pc.Trying? && s.consumers[c].pc.server < cfg.servers
      modifies this
      ensures Reachable(cfg, s) && |s.consumers| == |old(s).consumers|
      ensures var before := old(s).consumers[c].pc;
        if sent then s.consumers[c].pc == Idle && s.consumers[c].client.Some?
        else s.consumers[c] == Consumer(before.(server := before.server + 1), None)
      ensures Grown(old(s), s)
      ensures sent ==> s.delivered[old(s).consumers[c].pc.item] > old(s).delivered[old(s).consumers[c].pc.item]
    {
      hide Reachable;
      if s.consumers[c].client.None? {
        var built: bool := *;
        Step(Build(c, built));
        if !built {
          return false;
        }
        Others(c);
      }
      sent := *;
      Step(Send(c, sent));
    }

    /** The inner loop of sendResult: one pass over the servers, up to the first that takes the result. */
    method TryServers(c: nat) returns (success: bool)
      requires Reachable(cfg, s) && c < |s.consumers|
      requires s.consumers[c].pc.Trying? && s.consumers[c].pc.server == 0
      modifies this
      ensures Reachable(cfg, s) && |s.consumers| == |old(s).consumers| && Grown(old(s), s)
      ensures success ==> s.consumers[c].pc == Idle && s.consumers[c].client.Some?
      ensures !success ==> s.consumers[c].pc == old(s).consumers[c].pc.(server := cfg.servers)
      ensures !success && cfg.servers > 0 ==> s.consumers[c].client.None?
      ensures var item := old(s).consumers[c].pc.item;
        success ==> s.delivered[item] > old(s).delivered[item]
    {
      hide Reachable;
      ghost var item, retries := s.consumers[c].pc.item, s.consumers[c].pc.retries;
      success := false;
      var address := 0;
      while address < cfg.servers && !success
        invariant Reachable(cfg, s) && |s.consumers| == |old(s).consumers| && 0 <= address <= cfg.servers
        invariant success ==> s.consumers[c].pc == Idle && s.consumers[c].client.Some?
        invariant !success ==> s.consumers[c].pc == Trying(item, retries, address)
        invariant !success && address > 0 ==> s.consumers[c].client.None?
        invariant Grown(old(s), s) && (success ==> s.delivered[item] > old(s).delivered[item])
        decreases cfg.servers - address, !success
      {
        Others(c);
        success := SendAnswer(c);
        if !success {
          address := address + 1;
        }
      }
    }

    /** What a consumer does with its connection behind the request. */
    method CloseClient(c: nat)
      requires Reachable(cfg, s) && c < |s.consumers| && s.consumers[c].pc == Leaving
      modifies this
      ensures Reachable(cfg, s) && |s.consumers| == |old(s).consumers| && Grown(old(s), s)
      ensures s.consumers[c] == Consumer(Leaving, None)
    {
      hide Reachable;
      Others(c);
      if s.consumers[c].client.Some? {
        Step(Close(c));
      }
    }

    /** sendResult: at most 122 passes over the servers, one second apart. */
    method SendResult(c: nat) returns (shouldExit: bool, success: bool, passes: nat)
      requires Reachable(cfg, s) && c < |s.consumers|
      requires s.consumers[c].pc.Trying? && s.consumers[c].pc.retries == 0 && s.consumers[c].pc.server == 0
      modifies this
      ensures Reachable(cfg, s) && |s.consumers| == |old(s).consumers|
      ensures 1 <= passes <= 122
      ensures shouldExit <==> s.consumers[c].pc == Leaving
      ensures !shouldExit ==> s.consumers[c].pc == Idle
      ensures success ==> !shouldExit && s.consumers[c].client.Some?
      ensures shouldExit ==> s.consumers[c].client.None?
      ensures !success && !shouldExit ==> passes == 122
      ensures !success && cfg.servers > 0 ==> s.consumers[c].client.None?
      ensures var item := old(s).consumers[c].pc.item;
        if success then s.delivered[item] > old(s).delivered[item]
        else if shouldExit then s.abandoned[item] > old(s).abandoned[item]
        else s.givenUp[item] > old(s).givenUp[item]
    {
      hide Reachable;
      ghost var item := s.consumers[c].pc.item;
      var retries := 0;
      passes, success, shouldExit := 0, false, false;
      while true
        invariant Reachable(cfg, s) && |s.consumers| == |old(s).consumers|
        invariant retries == passes <= LAST_RETRY + 1 && !success && !shouldExit
        invariant s.consumers[c].pc == Trying(item, retries, 0) && Grown(old(s), s)
        decreases LAST_RETRY + 2 - retries
      {
        success := TryServers(c);
        passes := passes + 1;
        if success {
          return;
        }
        Others(c);
        Step(EndPass(c));
        if retries > LAST_RETRY {
          return;
        }
        retries := retries + 1;
        Others(c);
        if s.terminator == Asking(c) {
          Step(Terminate(c));
          CloseClient(c);
          return true, false, passes;
        }
        Step(Continue(c));
      }
    }

    /** One round of runResultServerConsumer: either a request ends the consumer
        and closes its connection, or a result is taken and sent. */
    method ServeOnce(c: nat) returns (exited: bool)
      requires Reachable(cfg, s) && c < |s.consumers| && s.consumers[c].pc == Idle
      requires s.queue != [] || s.terminator == Asking(c)
      modifies this
      ensures Reachable(cfg, s) && |s.consumers| == |old(s).consumers|
      ensures exited <==> s.consumers[c].pc == Exited
      ensures exited ==> s.consumers[c].client.None?
      ensures !exited ==> s.consumers[c].pc == Idle
      ensures exited ==> c < Requests(cfg, s.terminator)
    {
      hide Reachable;
      var preferRequest: bool := *;
      if s.terminator == Asking(c) && (preferRequest || s.queue == []) {
        Step(Terminate(c));
        CloseClient(c);
        exited := true;
      } else {
        Step(Take(c));
        var success, passes;
        exited, success, passes := SendResult(c);
      }
      if exited {
        Others(c);
        Step(Exit(c));
      }
      assert c < |s.consumers|;
      GoneAreServed(cfg, s);
    }
  }
}
