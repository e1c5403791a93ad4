/** Whole runs of the DNS requester: at rest, after anything, every counter is what it counts. */
module DnsRuns {
  import opened Basics
  import opened Queues
  import opened DnsState
  import opened DnsCounts
  import opened DnsRequests

  datatype Step =
    | NewServer
    | Lookup
    | NextName(x: nat)
    | Cancel(x: nat)
    | Timeout(x: nat, maxRetransmits: nat, maxTimeouts: nat)
    | Answer(x: nat)
    | Reject(x: nat, maxReissues: nat)
    | ServerFails(s: nat)
    | ServerUp(s: nat)
    | Probe(s: nat)
    | SendAll
    | Resize(max: int)

  /** The steps that do not take the requests above the limit. */
  predicate KeepsLimit(step: Step) {
    !step.Resize? && !step.Probe? && !step.NextName?
  }

  /** The steps that leave no room that a waiting request could have. */
  predicate KeepsWork(step: Step) {
    !step.Resize? && !step.NextName?
  }

  /** A server comes first, and no step runs out of ids or leaves room. */
  ghost predicate Served(steps: seq<(Step, seq<nat>, nat -> Outcome)>, max: int) {
    && steps != [] && steps[0].0.NewServer?
    && forall k :: 0 <= k < |steps| ==> KeepsWork(steps[k].0) && |Usable(steps[k].1)| >= max
  }

  /** A step, with the numbers drawn and the network as they happen to be; steps on things that
      are not there are not taken. */
  method Perform(b: EvdnsBase, step: Step, draws: seq<nat>, net: nat -> Outcome)
    requires b.Valid()
    modifies b
    ensures b.Valid() && |b.servers| >= |old(b.servers)|
    ensures step.NewServer? ==> b.servers != []
    ensures !step.Resize? ==> b.maxInflight == old(b.maxInflight)
    ensures KeepsLimit(step) && old(b.inflight) <= b.maxInflight ==> b.inflight <= b.maxInflight
    ensures KeepsWork(step) && old(b.AtWork()) && old(b.servers) != [] && |Usable(draws)| >= b.maxInflight ==>
      b.AtWork()
    ensures step.NewServer? && old(b.AtWork()) ==> b.AtWork()
  {
    hide EvdnsBase.Valid, Alive, Steady, Settled, Rerouted, MovedFrom, Unasked, AfterSending;
    match step {
      case NewServer => b.AddNameserver();
      case Lookup => var _ := b.Resolve(draws, net);
      case NextName(x) => if x in b.reqs && b.reqs[x].ns.Some? { var _, _ := b.SearchNext(x, draws, net); }
      case Cancel(x) => if x in b.reqs { var _ := b.Finish(x, draws, net); }
      case Timeout(x, maxRetransmits, maxTimeouts) =>
        if x in b.reqs && b.reqs[x].ns.Some? { var _ := b.TimedOut(x, maxRetransmits, maxTimeouts, draws, net); }
      case Answer(x) => if x in b.reqs && b.reqs[x].ns.Some? { b.Answered(x, draws, net); }
      case Reject(x, maxReissues) => if x in b.reqs && b.reqs[x].ns.Some? { b.Rejected(x, maxReissues, draws, net); }
      case ServerFails(s) => if s < |b.servers| { b.NameserverFailed(s); }
      case ServerUp(s) => if s < |b.servers| { b.NameserverUp(s, draws, net); }
      case Probe(s) => if s < |b.servers| { var _ := b.SendProbe(s, draws, net); }
      case SendAll => b.TransmitAll(net);
      case Resize(max) => b.SetMaxInflight(max);
    }
  }

  /** At rest: the inflight counter is the number of inflight requests, of entries in the buckets and
      of requests the servers count; each is in the bucket of its id; the waiting counter is the
      number of waiting requests; the good servers are those that are up. */
  method Run(max: int, steps: seq<(Step, seq<nat>, nat -> Outcome)>) returns (b: EvdnsBase)
    ensures b.inflight == TotalLength(b.heads) && b.inflight == |Inflight(b.reqs)|
    ensures b.inflight == SumInflight(b.servers)
    ensures forall s :: 0 <= s < |b.servers| ==> b.servers[s].inflight == |Assigned(b.reqs, s)|
    ensures forall x, i :: 0 <= i < |b.heads| ==>
      (x in b.heads[i] <==> x in b.reqs && b.reqs[x].ns.Some? && b.reqs[x].transId % |b.heads| == i)
    ensures b.waitingCount == |b.waiting| && b.waitingCount == |Waiting(b.reqs)|
    ensures forall x :: x in b.waiting <==> x in b.reqs && b.reqs[x].ns == None
    ensures b.good == CountUp(b.servers)
    ensures (forall k :: 0 <= k < |steps| ==> KeepsLimit(steps[k].0)) ==> b.inflight <= b.maxInflight
    ensures Served(steps, b.maxInflight) ==> b.AtWork()
  {
    hide EvdnsBase.Valid, Inflight, Waiting, TotalLength, SumInflight, CountUp, Assigned, Usable;
    b := new EvdnsBase(max);
    ghost var limit := b.maxInflight;
    for k := 0 to |steps|
      invariant b.Valid() && fresh(b)
      invariant (forall j :: 0 <= j < |steps| ==> KeepsWork(steps[j].0)) ==> b.maxInflight == limit
      invariant (forall j :: 0 <= j < |steps| ==> KeepsLimit(steps[j].0)) ==> b.inflight <= b.maxInflight
      invariant k > 0 && steps[0].0.NewServer? ==> b.servers != []
      invariant Served(steps, limit) ==> b.AtWork()
    {
      Perform(b, steps[k].0, steps[k].1, steps[k].2);
    }
    CountersTell(b);
  }

  lemma CountersTell(b: EvdnsBase)
    requires b.Valid()
    ensures b.inflight == TotalLength(b.heads) && b.inflight == |Inflight(b.reqs)|
    ensures b.inflight == SumInflight(b.servers)
    ensures forall s :: 0 <= s < |b.servers| ==> b.servers[s].inflight == |Assigned(b.reqs, s)|
    ensures forall x, i :: 0 <= i < |b.heads| ==>
      (x in b.heads[i] <==> x in b.reqs && b.reqs[x].ns.Some? && b.reqs[x].transId % |b.heads| == i)
    ensures b.waitingCount == |b.waiting| && b.waitingCount == |Waiting(b.reqs)|
    ensures forall x :: x in b.waiting <==> x in b.reqs && b.reqs[x].ns == None
    ensures b.good == CountUp(b.servers)
  {
    hide TotalLength, SumInflight, CountUp, Assigned, RingOk, BucketsOk, WaitingOk, ServersOk, Inflight, Waiting;
    ServersTell(b.reqs, b.servers);
    BucketsTell(b.reqs, b.heads);
    WaitingTell(b.reqs, b.waiting);
    BucketsCount(b.reqs, b.heads);
  }

  lemma UsableOnes()
    ensures |Usable([0, 1])| == 2 && |Usable([0])| == 1
  {
    assert Usable([0, 1]) == {0, 1} && Usable([0]) == {0};
  }

  /** So the limit is overrun: one request is inflight and three wait when the limit goes up to two,
      and the next name of the one takes the room that two of those who wait have had. */
  method SearchOverruns() returns (b: EvdnsBase)
    ensures b.Valid() && b.maxInflight == 2 && b.inflight == 3
  {
    hide EvdnsBase.Valid, Weaker, Usable;
    var draws, net := [0, 1], _ => Sent;
    UsableOnes();
    b := new EvdnsBase(1);
    b.AddNameserver();
    var x := b.Resolve(draws, net);
    var _ := b.Resolve(draws, net);
    var _ := b.Resolve(draws, net);
    var _ := b.Resolve(draws, net);
    b.SetMaxInflight(2);
    var _, _ := b.SearchNext(x, draws, net);
  }

  /** And so the next name is stranded: with room for one request at a time, nothing is inflight, and
      the only request there is waits for a pump that only another one would set off. */
  method SearchStrands() returns (b: EvdnsBase)
    ensures b.Valid() && b.maxInflight == 1 && b.inflight == 0 && |b.waiting| == 1 && b.reqs.Keys == {b.waiting[0]}
  {
    hide EvdnsBase.Valid, Weaker, Usable;
    var draws, net := [0], _ => Sent;
    UsableOnes();
    b := new EvdnsBase(1);
    b.AddNameserver();
    var x := b.Resolve(draws, net);
    var _, _ := b.SearchNext(x, draws, net);
    CountersTell(b);
    assert b.waiting != [] && b.waiting[0] in b.waiting;
  }
}
