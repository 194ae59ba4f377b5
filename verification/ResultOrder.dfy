/** In which order the results of the shared queue are handed out and dealt with. */
module ResultOrder {
  import opened Outcomes
  import opened ResultQueue

  /** What was enqueued, in order. */
  function Enqueued(run: seq<Event>): seq<nat> {
    if run == [] then []
    else
      var last := run[|run| - 1];
      Enqueued(run[..|run| - 1]) + (if last.Enqueue? then [last.item] else [])
  }

  /** What a consumer has in its hand. */
  function Holds(c: Consumer): seq<nat> {
    if c.pc.Trying? || c.pc.Resting? then [c.pc.item] else []
  }

  /** What was handed out, to any consumer, in order: what a consumer holds after its take. */
  function HandedOut(cfg: Config, run: seq<Event>): seq<nat>
    requires IsRun(cfg, run)
  {
    if run == [] then []
    else
      var before, last := run[..|run| - 1], run[|run| - 1];
      HandedOut(cfg, before) + (if last.Take? then HeldBy(After(cfg, run), last.c) else [])
  }

  function HeldBy(s: State, c: nat): seq<nat> {
    if c < |s.consumers| then Holds(s.consumers[c]) else []
  }

  lemma StepOrder(cfg: Config, s: State, e: Event)
    requires Enabled(cfg, s, e)
    ensures var s' := Apply(cfg, s, e);
      (if e.Take? then HeldBy(s', e.c) else []) + s'.queue == s.queue + (if e.Enqueue? then [e.item] else [])
  {
    if e.Take? {
      assert s.queue == [s.queue[0]] + s.queue[1..];
    }
  }

  /** First in, first out: what was handed out, then what is queued, is what was enqueued, in that order. */
  lemma {:induction false} FirstInFirstOut(cfg: Config, run: seq<Event>)
    requires IsRun(cfg, run)
    ensures HandedOut(cfg, run) + After(cfg, run).queue == Enqueued(run)
  {
    if run != [] {
      hide Apply, HeldBy, Enabled;
      var before, e := run[..|run| - 1], run[|run| - 1];
      var s, s' := After(cfg, before), After(cfg, run);
      FirstInFirstOut(cfg, before);
      StepOrder(cfg, s, e);
      var taken, added := if e.Take? then HeldBy(s', e.c) else [], if e.Enqueue? then [e.item] else [];
      Regroup(HandedOut(cfg, before), taken, s'.queue, s.queue, added);
    }
  }

  lemma Regroup(out: seq<nat>, taken: seq<nat>, after: seq<nat>, before: seq<nat>, added: seq<nat>)
    requires taken + after == before + added
    ensures (out + taken) + after == (out + before) + added
  {
    assert (out + taken) + after == out + (taken + after);
    assert out + (before + added) == (out + before) + added;
  }

  /** What consumer `c` took, in order. */
  function TakenBy(cfg: Config, run: seq<Event>, c: nat): seq<nat>
    requires IsRun(cfg, run)
  {
    if run == [] then []
    else
      var before, last := run[..|run| - 1], run[|run| - 1];
      TakenBy(cfg, before, c) + (if last == Take(c) then HeldBy(After(cfg, run), c) else [])
  }

  /** What consumer `c` was done with, in order: delivered, given up or abandoned. */
  function DoneBy(cfg: Config, run: seq<Event>, c: nat): seq<nat>
    requires IsRun(cfg, run)
  {
    if run == [] then []
    else
      var before := run[..|run| - 1];
      DoneBy(cfg, before, c)
        + (if HeldBy(After(cfg, run), c) == [] then HeldBy(After(cfg, before), c) else [])
  }

  lemma StepHands(cfg: Config, s: State, e: Event, c: nat)
    requires Enabled(cfg, s, e)
    ensures var was, now := HeldBy(s, c), HeldBy(Apply(cfg, s, e), c);
      && |was| <= 1 && |now| <= 1
      && (e == Take(c) ==> was == [] && |now| == 1)
      && (e != Take(c) ==> now == was || now == [])
  {
    match e
    case Enqueue(_) =>
    case StartTermination =>
    case Proceed =>
    case Send(d, ok) => SendHands(s, d, ok);
    case _ => MoveHands(cfg, s, e);
  }

  lemma SendHands(s: State, d: nat, ok: bool)
    requires d < |s.consumers| && s.consumers[d].pc.Trying?
    ensures var s' := ApplySend(s, d, ok);
      |s'.consumers| == |s.consumers| && forall c: nat :: HeldBy(s', c) == if ok && c == d then [] else HeldBy(s, c)
  {
  }

  lemma MoveHands(cfg: Config, s: State, e: Event)
    requires Enabled(cfg, s, e)
    requires !e.Enqueue? && !e.StartTermination? && !e.Proceed? && !e.Send?
    ensures var s' := Apply(cfg, s, e);
      && |s'.consumers| == |s.consumers| && (forall c: nat :: c != e.c ==> HeldBy(s', c) == HeldBy(s, c))
      && (e.Take? ==> HeldBy(s, e.c) == [] && HeldBy(s', e.c) == [s.queue[0]])
      && (!e.Take? ==> HeldBy(s', e.c) == HeldBy(s, e.c) || HeldBy(s', e.c) == [])
  {
  }

  /** Each consumer deals with its results one by one, in the order it took them. */
  lemma {:induction false} OneByOne(cfg: Config, run: seq<Event>, c: nat)
    requires IsRun(cfg, run)
    ensures DoneBy(cfg, run, c) + HeldBy(After(cfg, run), c) == TakenBy(cfg, run, c)
  {
    if run != [] {
      hide Apply, HeldBy, Enabled;
      var before, e := run[..|run| - 1], run[|run| - 1];
      var s, s' := After(cfg, before), After(cfg, run);
      OneByOne(cfg, before, c);
      StepHands(cfg, s, e, c);
      assert DoneBy(cfg, before, c) + [] == DoneBy(cfg, before, c);
    } else {
      NothingHeld(cfg, c);
    }
  }

  lemma NothingHeld(cfg: Config, c: nat)
    ensures HeldBy(Init(cfg), c) == []
  {
  }

  lemma ConsumerCount(cfg: Config, s: State, e: Event)
    requires Enabled(cfg, s, e)
    ensures |Apply(cfg, s, e).consumers| == |s.consumers|
  {
  }

  lemma {:induction false} OnlyConsumerTakes(cfg: Config, run: seq<Event>)
    requires IsRun(cfg, run) && cfg.consumers == 1
    ensures TakenBy(cfg, run, 0) == HandedOut(cfg, run)
    ensures |After(cfg, run).consumers| == 1
  {
    if run != [] {
      hide Apply, HeldBy;
      var before := run[..|run| - 1];
      OnlyConsumerTakes(cfg, before);
      ConsumerCount(cfg, After(cfg, before), run[|run| - 1]);
    }
  }

  /** With one consumer, results are delivered, given up and abandoned in the order in which they were enqueued. */
  lemma SingleConsumerKeepsOrder(cfg: Config, run: seq<Event>)
    requires IsRun(cfg, run) && cfg.consumers == 1
    ensures DoneBy(cfg, run, 0) + HeldBy(After(cfg, run), 0) + After(cfg, run).queue == Enqueued(run)
  {
    OneByOne(cfg, run, 0);
    OnlyConsumerTakes(cfg, run);
    FirstInFirstOut(cfg, run);
  }

  // ---- what a step counts as ----

  /** The totals in the order of done results: each is counted as delivered if it
      was sent, as given up if a pass ended it, and as abandoned if a request did. */
  lemma DoneIsCounted(cfg: Config, s: State, e: Event, c: nat)
    requires Enabled(cfg, s, e) && HeldBy(s, c) != [] && HeldBy(Apply(cfg, s, e), c) == []
    ensures var s', item := Apply(cfg, s, e), HeldBy(s, c)[0];
      match e
      case Send(d, ok) => d == c && ok && s'.delivered == s.delivered + multiset{item}
        && s'.givenUp == s.givenUp && s'.abandoned == s.abandoned
      case EndPass(d) => d == c && s.consumers[c].pc.retries > 120 && s'.givenUp == s.givenUp + multiset{item}
        && s'.delivered == s.delivered && s'.abandoned == s.abandoned
      case Terminate(d) => d == c && s'.abandoned == s.abandoned + multiset{item}
        && s'.delivered == s.delivered && s'.givenUp == s.givenUp
      case _ => false
  {
  }
}
