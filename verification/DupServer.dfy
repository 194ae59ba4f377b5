/** The duplicate servers: one copied answer is shared by all their queues, and
    a consumer marks it passive through the shared reference before sending. */
module DupServer {
  import opened Subsequence
  import opened DupStream
  import opened Outcomes
  import ListAttributes

  class Answer {
    var active: string
    const payload: string

    constructor (active: string, payload: string)
      ensures this.active == active && this.payload == payload
    {
      this.active, this.payload := active, payload;
    }
  }

  /** What went over the wire to a duplicate server. */
  datatype Sent = Sent(address: string, active: string, payload: string)

  // ---- which consumers termination reaches ----

  /** The consumer map after the start loop: a later consumer for the same
      address takes the place of an earlier one. Consumers are numbered in the
      order of their launch. */
  function Register(addresses: seq<string>): map<string, nat> {
    if addresses == [] then map[]
    else Register(addresses[..|addresses| - 1])[addresses[|addresses| - 1] := |addresses| - 1]
  }

  lemma {:induction false} RegisterLast(addresses: seq<string>)
    ensures forall a :: a in Register(addresses) <==> a in addresses
    ensures forall a :: a in Register(addresses) ==>
      var i := Register(addresses)[a];
      i < |addresses| && addresses[i] == a && forall k :: i < k < |addresses| ==> addresses[k] != a
  {
    if addresses != [] {
      var front := addresses[..|addresses| - 1];
      RegisterLast(front);
      assert addresses == front + [addresses[|addresses| - 1]];
    }
  }

  predicate Reached(addresses: seq<string>, i: nat) {
    exists a :: a in Register(addresses) && Register(addresses)[a] == i
  }

  /** Every launched consumer is in the map, and so gets its termination request,
      exactly if no address is listed twice. */
  lemma AllReachedIff(addresses: seq<string>)
    ensures (forall i: nat :: i < |addresses| ==> Reached(addresses, i)) <==> Distinct(addresses)
  {
    RegisterLast(addresses);
    if Distinct(addresses) {
      forall i: nat | i < |addresses| ensures Reached(addresses, i) {
        assert addresses[i] in Register(addresses);
      }
    } else {
      var i: nat, k: nat :| i < k < |addresses| && addresses[i] == addresses[k];
      assert !Reached(addresses, i);
    }
  }

  /** The configuration's list cleaning makes every consumer reachable and every lookup succeed. */
  lemma CleanListReachesAll(configured: seq<string>)
    ensures var addresses := ListAttributes.Clean(configured);
      && (forall i: nat :: i < |addresses| ==> Reached(addresses, i))
      && (forall a :: a in addresses ==> a in Register(addresses))
  {
    ListAttributes.CleanIsUnique(configured);
    AllReachedIff(ListAttributes.Clean(configured));
    RegisterLast(ListAttributes.Clean(configured));
  }

  // ---- the consumers and their shared answers ----

  /** A stream of duplicates: its items are copies made here. */
  ghost predicate StreamOk(s: Stream<Answer>, backlog: nat, copies: set<Answer>) {
    && s.capacity == backlog && Inv(s)
    && (s.hand.Some? ==> s.hand.value in copies)
    && (forall i :: 0 <= i < |s.queue| ==> s.queue[i] in copies)
  }

  lemma StepOk(s: Stream<Answer>, e: Event<Answer>, backlog: nat, copies: set<Answer>)
    requires StreamOk(s, backlog, copies) && Enabled(s, e) && (e.Offer? ==> e.item in copies)
    ensures StreamOk(Apply(s, e), backlog, copies)
  {
    hide Inv;
    StepKeeps(s, e);
  }

  lemma LaunchOk(backlog: nat)
    ensures StreamOk(Launch(backlog), backlog, {})
  {
  }

  lemma MoreCopies(streams: map<string, Stream<Answer>>, backlog: nat, copies: set<Answer>, more: set<Answer>)
    requires copies <= more && forall a :: a in streams ==> StreamOk(streams[a], backlog, copies)
    ensures forall a :: a in streams ==> StreamOk(streams[a], backlog, more)
  {
    hide Inv;
  }

  lemma HandIsCopy(s: Stream<Answer>, backlog: nat, copies: set<Answer>)
    requires StreamOk(s, backlog, copies) && s.hand.Some?
    ensures s.hand.value in copies
  {
    hide Inv;
  }

  lemma FreeHandRests(s: Stream<Answer>, backlog: nat, copies: set<Answer>)
    requires StreamOk(s, backlog, copies) && s.hand.None?
    ensures !s.resting
  {
  }

  class DupServers {
    const addresses: seq<string>
    const passive: bool
    const backlog: nat
    var index: map<string, nat>
    var streams: map<string, Stream<Answer>>
    var sent: seq<Sent>
    /** The duplicates made so far; primary answers are never among them. */
    ghost var copies: set<Answer>

    ghost predicate Valid()
      reads this
    {
      && streams.Keys == index.Keys == (set a | a in addresses)
      && (forall a :: a in streams ==> StreamOk(streams[a], backlog, copies))
      && (passive ==> forall i :: 0 <= i < |sent| ==> sent[i].active == "passive")
    }

    /** initializeDupServerConsumers */
    constructor (addresses: seq<string>, passive: bool, backlog: nat)
      ensures Valid() && this.addresses == addresses && this.passive == passive && this.backlog == backlog
      ensures index == Register(addresses) && copies == {} && sent == []
      ensures forall a :: a in addresses ==> streams[a] == Launch(backlog)
    {
      this.addresses, this.passive, this.backlog := addresses, passive, backlog;
      index, streams, sent, copies := map[], map[], [], {};
      new;
      for i := 0 to |addresses|
        invariant index == Register(addresses[..i]) && copies == {} && sent == []
        invariant index.Keys == streams.Keys == set a | a in addresses[..i]
        invariant forall a :: a in streams ==> streams[a] == Launch(backlog)
      {
        assert addresses[..i + 1][..i] == addresses[..i];
        assert addresses[..i + 1] == addresses[..i] + [addresses[i]];
        index := index[addresses[i] := i];
        streams := streams[addresses[i] := Launch(backlog)];
      }
      assert addresses[..|addresses|] == addresses;
      LaunchOk(backlog);
    }

    /** One step of the stream to `address`. */
    method Step(address: string, e: Event<Answer>)
      requires Valid() && address in streams && Enabled(streams[address], e)
      requires e.Offer? ==> e.item in copies
      modifies this`streams
      ensures Valid() && streams == old(streams)[address := Apply(old(streams)[address], e)]
    {
      hide StreamOk;
      StepOk(streams[address], e, backlog, copies);
      streams := streams[address := Apply(streams[address], e)];
    }

    /** enqueueDupServerResult: one copy, offered to every address. No state of
        any consumer makes it wait, and the primary answer is only read.
        `waiting` are the addresses whose consumer is blocked in its select. */
    method Enqueue(result: Answer, waiting: set<string>) returns (copy: Answer)
      requires Valid() && Distinct(addresses) && result !in copies
      modifies this`streams, this`copies
      ensures Valid() && fresh(copy) && copies == old(copies) + {copy}
      ensures copy.active == result.active && copy.payload == result.payload
      ensures streams.Keys == old(streams).Keys
      ensures forall a :: a in streams ==> streams[a] == ApplyOffer(old(streams)[a], copy, a in waiting)
    {
      copy := new Answer(result.active, result.payload);
      copies := copies + {copy};
      MoreCopies(streams, backlog, old(copies), copies);
      OfferAll(copy, waiting);
    }

    method OfferAll(copy: Answer, waiting: set<string>)
      requires Valid() && Distinct(addresses) && copy in copies
      modifies this`streams
      ensures Valid() && streams.Keys == old(streams).Keys
      ensures forall a :: a in streams ==> streams[a] == ApplyOffer(old(streams)[a], copy, a in waiting)
    {
      hide StreamOk, ApplyOffer;
      for i := 0 to |addresses|
        invariant Valid() && streams.Keys == old(streams).Keys
        invariant forall k :: 0 <= k < i ==>
          streams[addresses[k]] == ApplyOffer(old(streams)[addresses[k]], copy, addresses[k] in waiting)
        invariant forall k :: i <= k < |addresses| ==> streams[addresses[k]] == old(streams)[addresses[k]]
      {
        Step(addresses[i], Offer(copy, addresses[i] in waiting));
      }
    }

    /** sendResultDup: marks the answer passive if so configured, then tries to
        send it. The shared copy is the only answer it may change. */
    method SendDup(address: string, ok: bool)
      requires Valid() && address in streams && Enabled(streams[address], Send(ok))
      modifies this`streams, this`sent, copies`active
      ensures Valid() && copies == old(copies)
      ensures streams == old(streams)[address := Apply(old(streams)[address], Send(ok))]
      ensures var item := old(streams)[address].hand.value;
        && item.active == (if passive then "passive" else old(item.active))
        && sent == (if ok then old(sent) + [Sent(address, item.active, item.payload)] else old(sent))
      ensures forall other :: other in copies && other != old(streams)[address].hand.value ==> other.active == old(other.active)
    {
      hide StreamOk;
      var item := streams[address].hand.value;
      HandIsCopy(streams[address], backlog, copies);
      if passive {
        item.active := "passive";
      }
      Step(address, Send(ok));
      if ok {
        sent := sent + [Sent(address, item.active, item.payload)];
      }
    }

    /** One step of anyone but the consumers in `quiet`: an answer is enqueued, or
        a consumer takes, sends, retries or ends. */
    method OtherStep(quiet: set<string>, primaries: set<Answer>)
      requires Valid() && Distinct(addresses) && primaries !! copies
      modifies this`streams, this`sent, this`copies, copies`active
      ensures Valid() && primaries !! copies && old(copies) <= copies && fresh(copies - old(copies))
      ensures streams.Keys == old(streams).Keys
      ensures forall p :: p in primaries ==> p.active == old(p.active)
      ensures forall c :: c in old(copies) ==> c.active == old(c.active) || (passive && c.active == "passive")
      ensures forall a :: a in quiet && a in streams ==> Untouched(old(streams)[a], streams[a])
      ensures forall a :: a in quiet ==> SentTo(sent, a) == SentTo(old(sent), a)
    {
      hide StreamOk, Inv, Distinct, SentTo;
      var enqueue: bool := *;
      if enqueue {
        if primaries != {} {
          var result :| result in primaries;
          var waiting: set<string> := *;
          OfferKeepsHand();
          var _ := Enqueue(result, waiting);
        }
      } else {
        var address: string := *;
        if address in streams && address !in quiet {
          ConsumerStep(address);
        }
      }
    }

    /** One step of the consumer of `address`, whichever is possible. */
    method ConsumerStep(address: string)
      requires Valid() && address in streams
      modifies this`streams, this`sent, copies`active
      ensures Valid() && copies == old(copies) && streams.Keys == old(streams).Keys
      ensures forall c :: c in copies ==> c.active == old(c.active) || (passive && c.active == "passive")
      ensures forall a :: a in streams && a != address ==> streams[a] == old(streams)[a]
      ensures forall a :: a != address ==> SentTo(sent, a) == SentTo(old(sent), a)
    {
      hide StreamOk, Inv;
      var ok: bool := *;
      var e: Event<Answer> := *;
      if e.Take? && Enabled(streams[address], Take) {
        Step(address, Take);
      } else if e.Send? && Enabled(streams[address], Send(ok)) {
        SendDup(address, ok);
      } else if e.Retry? && Enabled(streams[address], Retry) {
        Step(address, Retry);
      } else if e.Terminate? && Enabled(streams[address], Terminate) {
        Step(address, Terminate);
      }
    }

    /** Any interleaving of all addresses, except the consumers in `quiet`. However
        answers are enqueued, shared, marked, sent, retried and dropped, the
        primary answers stay as they are. */
    method Others(quiet: set<string>, primaries: set<Answer>)
      requires Valid() && Distinct(addresses) && primaries !! copies
      modifies this`streams, this`sent, this`copies, copies`active
      ensures Valid() && primaries !! copies && old(copies) <= copies && fresh(copies - old(copies))
      ensures streams.Keys == old(streams).Keys
      ensures forall p :: p in primaries ==> p.active == old(p.active)
      ensures forall c :: c in old(copies) ==> c.active == old(c.active) || (passive && c.active == "passive")
      ensures forall a :: a in quiet && a in streams ==> Untouched(old(streams)[a], streams[a])
      ensures forall a :: a in quiet ==> SentTo(sent, a) == SentTo(old(sent), a)
    {
      hide Valid, StreamOk, Inv, Distinct, SentTo;
      var steps: int := *;
      while steps > 0
        invariant Valid() && primaries !! copies && old(copies) <= copies && fresh(copies - old(copies))
        invariant streams.Keys == old(streams).Keys
        invariant forall p :: p in primaries ==> p.active == old(p.active)
        invariant forall c :: c in old(copies) ==> c.active == old(c.active) || (passive && c.active == "passive")
        invariant forall a :: a in quiet && a in streams ==> Untouched(old(streams)[a], streams[a])
        invariant forall a :: a in quiet ==> SentTo(sent, a) == SentTo(old(sent), a)
      {
        OtherStep(quiet, primaries);
        steps := steps - 1;
      }
    }

    /** A whole round of one item to one address, with any number of failures and
        anything else happening in between. Head-of-line: the item at the head of
        the queue is the next that this address is sent, and it is sent once. */
    method Deliver(address: string, failures: nat, primaries: set<Answer>)
      requires Valid() && Distinct(addresses) && primaries !! copies
      requires address in streams && Enabled(streams[address], Take)
      modifies this`streams, this`sent, this`copies, copies`active
      ensures Valid() && primaries !! copies && old(copies) <= copies && fresh(copies - old(copies))
      ensures streams.Keys == old(streams).Keys
      ensures forall p :: p in primaries ==> p.active == old(p.active)
      ensures var before, item := old(streams)[address], old(streams)[address].queue[0];
        && streams[address].delivered == before.delivered + [item]
        && streams[address].hand.None? && before.queue[1..] <= streams[address].queue
        && SentTo(sent, address) == SentTo(old(sent), address)
             + [Sent(address, if passive then "passive" else old(item.active), item.payload)]
    {
      hide StreamOk, Inv, Distinct;
      var item := streams[address].queue[0];
      ghost var before, taken := streams[address], streams[address].queue[1..];
      FreeHandRests(streams[address], backlog, copies);
      HeadIsCopy(streams[address], backlog, copies);
      Step(address, Take);
      var i := 0;
      while i < failures
        invariant 0 <= i <= failures && Valid() && primaries !! copies && old(copies) <= copies && fresh(copies - old(copies))
        invariant streams.Keys == old(streams).Keys && item in copies
        invariant forall p :: p in primaries ==> p.active == old(p.active)
        invariant item.active == old(item.active) || (passive && item.active == "passive")
        invariant Carries(before, streams[address], item) && SentTo(sent, address) == SentTo(old(sent), address)
      {
        FailOnce(address, item, primaries);
        i := i + 1;
      }
      Others({address}, primaries);
      SendDup(address, true);
    }

    /** One failed attempt for the item in hand, with others before and after it. */
    method FailOnce(address: string, item: Answer, primaries: set<Answer>)
      requires Valid() && Distinct(addresses) && primaries !! copies && item in copies
      requires address in streams && streams[address].running && streams[address].hand == Some(item) && !streams[address].resting
      modifies this`streams, this`sent, this`copies, copies`active
      ensures Valid() && primaries !! copies && old(copies) <= copies && fresh(copies - old(copies))
      ensures streams.Keys == old(streams).Keys
      ensures forall p :: p in primaries ==> p.active == old(p.active)
      ensures item.active == old(item.active) || (passive && item.active == "passive")
      ensures Untouched(old(streams)[address], streams[address]) && SentTo(sent, address) == SentTo(old(sent), address)
    {
      hide StreamOk, Inv, Distinct, SentTo;
      Others({address}, primaries);
      SendDup(address, false);
      Others({address}, primaries);
      Step(address, Retry);
    }

    /** One request: received at the consumer's next select. */
    method TerminateOne(address: string)
      requires Valid() && address in streams && streams[address].running
      modifies this`streams, this`sent, copies`active
      ensures Valid() && copies == old(copies) && streams.Keys == old(streams).Keys
      ensures !streams[address].running && streams[address].hand.None?
      ensures Accepted(streams[address]) == Accepted(old(streams)[address])
      ensures forall a :: a in streams && a != address ==> streams[a] == old(streams)[a]
    {
      hide StreamOk, Accepted;
      if streams[address].hand.Some? && !streams[address].resting {
        var ok: bool := *;
        OkAccepted(streams[address], Send(ok), backlog, copies);
        SendDup(address, ok);
      }
      OkAccepted(streams[address], Terminate, backlog, copies);
      Step(address, Terminate);
    }

    /** terminateDupServerConsumers: hands every consumer in the map its request,
        once the send that is under way has ended. What was accepted and not
        delivered by then is lost with the queue or with the consumer's hand. */
    method TerminateAll()
      requires Valid() && forall a :: a in streams ==> streams[a].running
      modifies this`streams, this`sent, copies`active
      ensures Valid() && copies == old(copies) && streams.Keys == old(streams).Keys
      ensures forall a :: a in streams ==> !streams[a].running && streams[a].hand.None?
      ensures forall a :: a in streams ==> Accepted(streams[a]) == Accepted(old(streams)[a])
    {
      hide Valid, StreamOk, Inv, Accepted;
      var rest := streams.Keys;
      while rest != {}
        invariant rest <= streams.Keys && Valid() && copies == old(copies) && streams.Keys == old(streams).Keys
        invariant forall a :: a in rest ==> streams[a] == old(streams)[a]
        invariant forall a :: a in streams && a !in rest ==> !streams[a].running && streams[a].hand.None?
        invariant forall a :: a in streams ==> Accepted(streams[a]) == Accepted(old(streams)[a])
      {
        var a :| a in rest;
        TerminateOne(a);
        rest := rest - {a};
      }
    }
  }

  lemma OkAccepted(s: Stream<Answer>, e: Event<Answer>, backlog: nat, copies: set<Answer>)
    requires StreamOk(s, backlog, copies) && Enabled(s, e) && !e.Offer?
    ensures Accepted(Apply(s, e)) == Accepted(s)
  {
    hide Inv, Accepted;
    SameAccepted(s, e);
  }

  /** The primary answer goes to the result queue and, copied, to the duplicates.
      The copy, shared by all of them, is written to, and may be the very item
      that is sent next; the primary stays as it was. */
  method PrimaryStaysActive(servers: DupServers, primary: Answer, address: string, failures: nat)
    requires servers.Valid() && Distinct(servers.addresses) && primary !in servers.copies
    requires address in servers.streams && servers.streams[address].running && servers.streams[address].hand.None?
    requires servers.streams[address].queue != [] || servers.backlog > 0
    modifies servers, servers.copies
    ensures primary.active == old(primary.active)
    ensures old(servers.streams)[address].queue == [] ==>
      SentTo(servers.sent, address) == SentTo(old(servers.sent), address)
        + [Sent(address, if servers.passive then "passive" else old(primary.active), primary.payload)]
  {
    hide StreamOk, Inv, Distinct, SentTo;
    NothingWaits(servers.streams[address], servers.backlog, servers.copies);
    var copy := servers.Enqueue(primary, {});
    servers.Deliver(address, failures, {primary});
  }

  /** A stream knows the capacity it was launched with. */
  lemma NothingWaits(s: Stream<Answer>, backlog: nat, copies: set<Answer>)
    requires StreamOk(s, backlog, copies)
    ensures s.capacity == backlog
  {
  }

  /** The stream only gained offers while its consumer held an item. */
  predicate Untouched(s: Stream<Answer>, s': Stream<Answer>) {
    s.hand.Some? ==>
      && s.queue <= s'.queue
      && s' == s.(queue := s'.queue, offered := s'.offered, dropped := s'.dropped)
  }

  /** The head of `before` is in hand, and nothing else was taken or delivered. */
  predicate Carries(before: Stream<Answer>, s: Stream<Answer>, item: Answer) {
    && before.queue != [] && item == before.queue[0]
    && s.running && s.hand == Some(item) && !s.resting
    && s.delivered == before.delivered && before.queue[1..] <= s.queue
  }

  lemma OfferKeepsHand()
    ensures forall s: Stream<Answer>, item: Answer, waiting: bool :: Untouched(s, ApplyOffer(s, item, waiting))
  {
  }

  lemma HeadIsCopy(s: Stream<Answer>, backlog: nat, copies: set<Answer>)
    requires StreamOk(s, backlog, copies) && s.queue != []
    ensures s.queue[0] in copies
  {
    hide Inv;
  }

  /** What went to one address. */
  function SentTo(sent: seq<Sent>, address: string): seq<Sent> {
    if sent == [] then []
    else
      var last := sent[|sent| - 1];
      SentTo(sent[..|sent| - 1], address) + (if last.address == address then [last] else [])
  }
}
