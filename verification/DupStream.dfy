/** The stream of results to one duplicate server: a bounded queue that drops
    what does not fit, one consumer, and a retry that never skips the head. */
module DupStream {
  import opened Outcomes
  import opened Subsequence

  /** `offered` and `delivered` are the history; `lost` is what the consumer held
      when it was terminated, `dropped` counts offers to a full queue. */
  datatype Stream<T> = Stream(
    capacity: nat, queue: seq<T>, hand: Option<T>, resting: bool, running: bool,
    offered: seq<T>, delivered: seq<T>, lost: seq<T>, dropped: nat)

  /** Waiting: the consumer is blocked in its select when the offer comes. */
  datatype Event<T> = Offer(item: T, waiting: bool) | Take | Send(ok: bool) | Retry | Terminate

  function Launch<T>(capacity: nat): Stream<T> {
    Stream(capacity, [], None, false, true, [], [], [], 0)
  }

  predicate Enabled<T>(s: Stream<T>, e: Event<T>) {
    match e
    case Offer(_, _) => true
    case Take => s.running && s.hand.None? && s.queue != []
    case Send(_) => s.running && s.hand.Some? && !s.resting
    case Retry => s.running && s.hand.Some? && s.resting
    case Terminate => s.running && (s.hand.None? || s.resting)
  }

  /** The send in a select with default: into the queue, straight to a waiting
      consumer if the channel has no queue at all, or dropped. */
  function ApplyOffer<T>(s: Stream<T>, item: T, waiting: bool): Stream<T> {
    var seen := s.(offered := s.offered + [item]);
    if |s.queue| < s.capacity then seen.(queue := s.queue + [item])
    else if s.capacity == 0 && waiting && s.running && s.hand.None? && s.queue == [] then seen.(hand := Some(item))
    else seen.(dropped := s.dropped + 1)
  }

  function Apply<T>(s: Stream<T>, e: Event<T>): Stream<T>
    requires Enabled(s, e)
  {
    match e
    case Offer(item, waiting) => ApplyOffer(s, item, waiting)
    case Take => s.(queue := s.queue[1..], hand := Some(s.queue[0]))
    case Send(ok) =>
      if ok then s.(delivered := s.delivered + [s.hand.value], hand := None) else s.(resting := true)
    case Retry => s.(resting := false)
    case Terminate => s.(running := false, resting := false, hand := None,
                         lost := if s.hand.Some? then [s.hand.value] else [])
  }

  function InHand<T>(s: Stream<T>): seq<T> {
    if s.hand.Some? then [s.hand.value] else []
  }

  /** Everything that was not dropped, in the order it travels. */
  function Accepted<T>(s: Stream<T>): seq<T> {
    s.delivered + s.lost + InHand(s) + s.queue
  }

  predicate Inv<T(==)>(s: Stream<T>) {
    && |s.queue| <= s.capacity
    && Sub(Accepted(s), s.offered)
    && |s.offered| == |Accepted(s)| + s.dropped
    && (s.resting ==> s.hand.Some?)
    && (s.hand.Some? ==> s.running)
    && (s.lost != [] ==> !s.running)
  }

  /** Every step keeps what was accepted, in order; only an offer adds to it. */
  lemma StepKeeps<T>(s: Stream<T>, e: Event<T>)
    requires Inv(s) && Enabled(s, e)
    ensures Inv(Apply(s, e))
  {
    hide Sub;
    if e.Offer? {
      OfferKeeps(s, e.item, e.waiting);
    } else {
      SameAccepted(s, e);
      hide Accepted;
    }
  }

  lemma OfferKeeps<T>(s: Stream<T>, item: T, waiting: bool)
    requires Inv(s)
    ensures Inv(ApplyOffer(s, item, waiting))
  {
    hide Sub, Accepted;
    SubBoth(Accepted(s), s.offered, item);
    SubRight(Accepted(s), s.offered, item);
    OfferAccepted(s, item, waiting);
  }

  /** An offer is accepted at the end, or dropped. */
  lemma OfferAccepted<T>(s: Stream<T>, item: T, waiting: bool)
    ensures var s' := ApplyOffer(s, item, waiting);
      Accepted(s') == if s'.dropped == s.dropped then Accepted(s) + [item] else Accepted(s)
  {
    var s' := ApplyOffer(s, item, waiting);
    var front := s.delivered + s.lost;
    if s'.dropped == s.dropped {
      if |s.queue| < s.capacity {
        assert (front + InHand(s)) + (s.queue + [item]) == (front + InHand(s) + s.queue) + [item];
      } else {
        assert s.queue == [] && InHand(s) == [];
        assert front + [item] + [] == (front + [] + []) + [item];
      }
    }
  }

  /** Everything else moves what was accepted along, without adding or losing any of it. */
  lemma SameAccepted<T>(s: Stream<T>, e: Event<T>)
    requires Inv(s) && Enabled(s, e) && !e.Offer?
    ensures Accepted(Apply(s, e)) == Accepted(s)
  {
    hide Sub;
    var front := s.delivered + s.lost;
    match e
    case Take =>
      assert s.queue == [s.queue[0]] + s.queue[1..];
      assert front + [s.queue[0]] + s.queue[1..] == front + [] + s.queue;
    case Send(ok) =>
      if ok {
        assert s.lost == [];
        assert (s.delivered + InHand(s)) + [] + [] == s.delivered + [] + InHand(s);
      }
    case Retry =>
    case Terminate =>
      assert s.lost == [];
      assert s.delivered + InHand(s) + [] == s.delivered + [] + InHand(s);
  }

  predicate IsRun<T>(capacity: nat, run: seq<Event<T>>)
    decreases |run|, 0
  {
    run == [] ||
    var before := run[..|run| - 1];
    IsRun(capacity, before) && Enabled(After(capacity, before), run[|run| - 1])
  }

  function After<T>(capacity: nat, run: seq<Event<T>>): Stream<T>
    requires IsRun(capacity, run)
    decreases |run|
  {
    if run == [] then Launch(capacity)
    else Apply(After(capacity, run[..|run| - 1]), run[|run| - 1])
  }

  /** What was offered during a run. */
  function Offers<T>(run: seq<Event<T>>): seq<T> {
    if run == [] then []
    else
      var last := run[|run| - 1];
      Offers(run[..|run| - 1]) + (if last.Offer? then [last.item] else [])
  }

  /** How many offers found the queue full. */
  function FullOffers<T>(capacity: nat, run: seq<Event<T>>): nat
    requires IsRun(capacity, run)
  {
    if run == [] then 0
    else
      var before, last := run[..|run| - 1], run[|run| - 1];
      FullOffers(capacity, before) + (if last.Offer? && Refused(After(capacity, before), last.waiting) then 1 else 0)
  }

  /** The offers that were not refused, in their order. */
  function Kept<T>(capacity: nat, run: seq<Event<T>>): seq<T>
    requires IsRun(capacity, run)
  {
    if run == [] then []
    else
      var before, last := run[..|run| - 1], run[|run| - 1];
      Kept(capacity, before) + (if last.Offer? && !Refused(After(capacity, before), last.waiting) then [last.item] else [])
  }

  /** The queue is full, and nobody waits at a channel without a queue. */
  predicate Refused<T>(s: Stream<T>, waiting: bool) {
    |s.queue| >= s.capacity && !(s.capacity == 0 && waiting && s.running && s.hand.None?)
  }

  /** Only offers are recorded as offered, and only refused ones are dropped. */
  lemma StepHistory<T>(s: Stream<T>, e: Event<T>)
    requires Inv(s) && Enabled(s, e)
    ensures var s' := Apply(s, e);
      && s'.capacity == s.capacity
      && s'.offered == s.offered + (if e.Offer? then [e.item] else [])
      && s'.dropped == s.dropped + (if e.Offer? && Refused(s, e.waiting) then 1 else 0)
  {
  }

  lemma LaunchKeeps<T>(capacity: nat)
    ensures Inv(Launch<T>(capacity))
  {
  }

  lemma {:induction false} RunKeeps<T>(capacity: nat, run: seq<Event<T>>)
    requires IsRun(capacity, run)
    ensures Inv(After(capacity, run)) && After(capacity, run).capacity == capacity
    ensures After(capacity, run).offered == Offers(run)
    ensures After(capacity, run).dropped == FullOffers(capacity, run)
  {
    hide Inv;
    if run == [] {
      LaunchKeeps<T>(capacity);
    } else {
      var before := run[..|run| - 1];
      RunKeeps(capacity, before);
      StepKeeps(After(capacity, before), run[|run| - 1]);
      StepHistory(After(capacity, before), run[|run| - 1]);
    }
  }

  /** What was delivered, then what was lost at termination, then what is in hand,
      then what is queued, is exactly the offers that did not find a full queue. */
  lemma {:induction false} ExactlyKept<T>(capacity: nat, run: seq<Event<T>>)
    requires IsRun(capacity, run)
    ensures var s := After(capacity, run);
      s.delivered + s.lost + InHand(s) + s.queue == Kept(capacity, run)
  {
    hide Inv, Refused;
    if run != [] {
      var before, e := run[..|run| - 1], run[|run| - 1];
      var s := After(capacity, before);
      ExactlyKept(capacity, before);
      RunKeeps(capacity, before);
      StepHistory(s, e);
      if e.Offer? {
        OfferAccepted(s, e.item, e.waiting);
      } else {
        SameAccepted(s, e);
      }
    }
  }

  /** In order and without repetition: what was delivered, then what was lost at
      termination, then what is in hand, then what is queued is a subsequence of
      what was offered, shorter by the number of offers to a full queue. */
  lemma {:induction false} OrderAndLoss<T>(capacity: nat, run: seq<Event<T>>)
    requires IsRun(capacity, run)
    ensures var s := After(capacity, run);
      && Sub(s.delivered + s.lost + InHand(s) + s.queue, Offers(run))
      && |Offers(run)| == |s.delivered| + |s.lost| + |InHand(s)| + |s.queue| + FullOffers(capacity, run)
      && |s.queue| <= capacity
      && |s.lost| <= 1 && (s.lost != [] ==> !s.running)
  {
    RunKeeps(capacity, run);
    LostAtMostOne(capacity, run);
  }

  /** A result is lost in the consumer's hand only after an attempt to send one has failed. */
  lemma {:induction false} LostAfterFailure<T>(capacity: nat, run: seq<Event<T>>)
    requires IsRun(capacity, run)
    ensures After(capacity, run).resting || After(capacity, run).lost != [] ==> Send(false) in run
  {
    if run != [] {
      var before, e := run[..|run| - 1], run[|run| - 1];
      LostAfterFailure(capacity, before);
      assert run == before + [e];
      RunKeeps(capacity, before);
    }
  }

  lemma {:induction false} LostAtMostOne<T>(capacity: nat, run: seq<Event<T>>)
    requires IsRun(capacity, run)
    ensures |After(capacity, run).lost| <= 1
  {
    if run != [] {
      LostAtMostOne(capacity, run[..|run| - 1]);
    }
  }

  /** While the consumer runs and the queue never overflowed, nothing is lost or reordered. */
  lemma {:induction false} LosslessWhileRoom<T>(capacity: nat, run: seq<Event<T>>)
    requires IsRun(capacity, run) && FullOffers(capacity, run) == 0
    ensures var s := After(capacity, run);
      s.delivered + s.lost + InHand(s) + s.queue == Offers(run)
  {
    RunKeeps(capacity, run);
    SubFull(Accepted(After(capacity, run)), Offers(run));
  }

  lemma {:induction false} SubFull<T>(a: seq<T>, b: seq<T>)
    requires Sub(a, b) && |a| == |b|
    ensures a == b
  {
    if a != [] {
      var m := |a| - 1;
      if a[m] == b[m] && Sub(a[..m], b[..m]) {
        SubFull(a[..m], b[..m]);
        assert a == a[..m] + [a[m]] && b == b[..m] + [b[m]];
      } else {
        SubLength(a, b[..m]);
      }
    }
  }
}
