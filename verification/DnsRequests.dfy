/** The DNS requester over UDP: requests go out, wait, are answered, time out and move between
    servers, and the counters always tell the truth.  `draws` are what the random generator yields;
    `net` says what sending a request comes to. */
module DnsRequests {
  import opened Basics
  import opened Queues
  import opened DnsState
  import opened DnsCounts

  datatype Outcome = Sent | Busy | Broken

  class EvdnsBase {
    var reqs: Requests
    var heads: seq<seq<nat>>
    var waiting: seq<nat>
    var servers: seq<Server>
    /** The circular list of servers, from server_head on. */
    var ring: seq<nat>
    var good: int
    var inflight: int
    var waitingCount: int
    var maxInflight: int
    var nextId: nat

    ghost predicate Valid()
      reads this
    {
      && BucketsOk(reqs, heads) && inflight == TotalLength(heads)
      && WaitingOk(reqs, waiting) && waitingCount == |waiting|
      && ServersOk(reqs, servers) && inflight == SumInflight(servers) && good == CountUp(servers)
      && RingOk(ring, |servers|)
      && maxInflight >= 1 && forall x :: x in reqs ==> x < nextId
    }

    /** There is no room for another request, or nobody waits for it. */
    predicate AtWork()
      reads this
    {
      inflight >= maxInflight || waiting == []
    }

    /** A base with room for `max` requests at a time. */
    constructor (max: int)
      ensures Valid() && reqs == map[] && servers == [] && waiting == [] && inflight == 0
      ensures maxInflight == if max < 1 then 1 else max
    {
      var m := if max < 1 then 1 else max;
      reqs, waiting, servers, ring := map[], [], [], [];
      heads := seq((m + 4) / 5, _ => []);
      good, inflight, waitingCount, maxInflight, nextId := 0, 0, 0, m, 0;
      new;
      EmptyHeads(heads);
    }

    // ---- Choosing ----

    /** nameserver_pick: it ends, and finds a server that is up if there is one. */
    method Pick() returns (ns: Option<nat>)
      requires Valid()
      modifies this`ring
      ensures Valid()
      ensures ns == None <==> servers == []
      ensures ns.Some? ==> ns.value < |servers|
      ensures ns.Some? && (exists s :: 0 <= s < |servers| && servers[s].up) ==> servers[ns.value].up
    {
      hide BucketsOk, WaitingOk, ServersOk, SumInflight, CountUp, TotalLength;
      SomeUp(servers);
      EmptyRing(ring, |servers|);
      if ring == [] { return None; }
      RingRotates(ring, |servers|);
      if good == 0 {
        ring := ring[1..] + [ring[0]];
        assert ring[0] in ring;
        return Some(ring[0]);
      }
      ghost var ring0 := ring;
      ghost var k := 0;
      var picked := ring[0];
      while !servers[ring[0]].up
        invariant 0 <= k < |ring0| && ring == ring0[k..] + ring0[..k] && RingOk(ring, |servers|) && ring[0] < |servers|
        invariant forall j :: 0 <= j < k ==> ring0[j] < |servers| && !servers[ring0[j]].up
        decreases |ring0| - k
      {
        AllDown(servers, ring0, k + 1);
        RingRotates(ring, |servers|);
        ring := ring[1..] + [ring[0]];
        k := k + 1;
        assert ring == ring0[k..] + ring0[..k];
        assert ring[0] in ring;
      }
      picked := ring[0];
      RingRotates(ring, |servers|);
      ring := ring[1..] + [ring[0]];
      ns := Some(picked);
    }

    /** request_find_from_trans_id: one bucket is enough. */
    method Find(id: nat) returns (x: Option<nat>)
      requires Valid()
      ensures x.Some? ==> x.value in reqs && reqs[x.value].ns.Some? && reqs[x.value].transId == id
      ensures x == None ==> forall y :: y in reqs && reqs[y].ns.Some? ==> reqs[y].transId != id
    {
      hide WaitingOk, ServersOk, SumInflight, CountUp, TotalLength, RingOk;
      var q := heads[id % |heads|];
      assert BucketOk(reqs, heads, id % |heads|);
      var i := 0;
      while i < |q|
        invariant 0 <= i <= |q| && forall j :: 0 <= j < i ==> q[j] in reqs && reqs[q[j]].transId != id
      {
        assert q[i] in q && InBucket(reqs, q[i], |heads|, id % |heads|);
        if reqs[q[i]].transId == id { return Some(q[i]); }
        i := i + 1;
      }
      forall y | y in reqs && reqs[y].ns.Some? ensures reqs[y].transId != id {
        assert reqs[y].transId == id ==> InBucket(reqs, y, |heads|, id % |heads|) && y in q;
      }
      x := None;
    }

    /** transaction_id_pick, as long as the draws last. */
    method PickId(draws: seq<nat>) returns (id: Option<nat>)
      requires Valid()
      ensures id.Some? ==> id.value != NO_ID && id.value in draws
      ensures id.Some? ==> forall y :: y in reqs && reqs[y].ns.Some? ==> reqs[y].transId != id.value
      ensures id == None ==> |Usable(draws)| <= inflight
    {
      hide BucketsOk, WaitingOk, ServersOk, RingOk, SumInflight, CountUp, TotalLength;
      var i := 0;
      while i < |draws|
        invariant 0 <= i <= |draws|
        invariant forall j :: 0 <= j < i && draws[j] != NO_ID ==> draws[j] in Ids(reqs)
      {
        if draws[i] != NO_ID {
          var x := Find(draws[i]);
          if x == None { return Some(draws[i]); }
        }
        i := i + 1;
      }
      IdsRunOut(reqs, heads, draws);
      id := None;
    }

    // ---- Moving requests ----

    /** A request goes into the bucket of its id. */
    method Insert(x: nat, r: Request)
      requires Valid() && x !in reqs && x < nextId && r.ns.Some? && r.ns.value < |servers|
      modifies this`reqs, this`heads, this`servers, this`inflight
      ensures Valid() && reqs == old(reqs)[x := r] && |servers| == |old(servers)| && |heads| == |old(heads)|
      ensures inflight == old(inflight) + 1 && SameStates(old(servers), servers)
    {
      hide WaitingOk, BucketsOk, ServersOk, SumInflight, CountUp, TotalLength, RingOk;
      var s := r.ns.value;
      BucketsInsert(reqs, heads, x, r);
      ServersInsert(reqs, servers, x, r, s);
      ServerSums(servers, s, servers[s].(inflight := servers[s].inflight + 1));
      WaitingKept(reqs, waiting, reqs[x := r]);
      BucketsAny(reqs, heads);
      var i := r.transId % |heads|;
      heads := heads[i := heads[i] + [x]];
      servers := servers[s := servers[s].(inflight := servers[s].inflight + 1)];
      reqs := reqs[x := r];
      inflight := inflight + 1;
    }

    /** A request goes to the end of the waiting list. */
    method Wait(x: nat, r: Request)
      requires Valid() && x !in reqs && x < nextId && r.ns == None
      modifies this`reqs, this`waiting, this`waitingCount
      ensures Valid() && reqs == old(reqs)[x := r] && waiting == old(waiting) + [x]
    {
      hide BucketsOk, ServersOk, SumInflight, CountUp, TotalLength, RingOk, WaitingOk;
      WaitingInsert(reqs, waiting, x, r);
      BucketsKept(reqs, heads, reqs[x := r]);
      ServersKept(reqs, servers, reqs[x := r], servers);
      waiting := waiting + [x];
      waitingCount := waitingCount + 1;
      reqs := reqs[x := r];
    }

    /** The step of the pump: from the waiting list to a bucket. */
    method Promote(x: nat, s: nat, id: nat)
      requires Valid() && x in waiting && s < |servers| && x in reqs
      modifies this`reqs, this`heads, this`servers, this`inflight, this`waiting, this`waitingCount
      ensures Valid() && reqs == old(reqs)[x := old(reqs)[x].(ns := Some(s), transId := id)]
      ensures |waiting| == |old(waiting)| - 1 && inflight == old(inflight) + 1
      ensures |servers| == |old(servers)| && |heads| == |old(heads)| && SameStates(old(servers), servers)
    {
      hide BucketsOk, ServersOk, SumInflight, CountUp, TotalLength, RingOk, Without;
      var r := reqs[x].(ns := Some(s), transId := id);
      BucketsInsert(reqs, heads, x, r);
      ServersInsert(reqs, servers, x, r, s);
      ServerSums(servers, s, servers[s].(inflight := servers[s].inflight + 1));
      WaitingRemove(reqs, waiting, x, reqs[x := r]);
      BucketsAny(reqs, heads);
      waiting := Without(waiting, x);
      waitingCount := waitingCount - 1;
      var i := id % |heads|;
      heads := heads[i := heads[i] + [x]];
      servers := servers[s := servers[s].(inflight := servers[s].inflight + 1)];
      reqs := reqs[x := r];
      inflight := inflight + 1;
    }

    /** The books' part of request_finished. */
    method Remove(x: nat)
      requires Valid() && x in reqs
      modifies this`reqs, this`heads, this`servers, this`inflight, this`waiting, this`waitingCount
      ensures Valid() && reqs == old(reqs) - {x}
      ensures |servers| == |old(servers)| && SameStates(old(servers), servers)
      ensures inflight == old(inflight) - (if old(reqs)[x].ns.Some? then 1 else 0)
      ensures |waiting| == |old(waiting)| - (if old(reqs)[x].ns == None then 1 else 0)
    {
      hide BucketsOk, ServersOk, SumInflight, CountUp, TotalLength, RingOk, Without;
      BucketsAny(reqs, heads);
      if reqs[x].ns.Some? {
        ServerKnown(reqs, servers, x);
        var s := reqs[x].ns.value;
        BucketsRemove(reqs, heads, x);
        ServersRemove(reqs, servers, x, s);
        ServerSums(servers, s, servers[s].(inflight := servers[s].inflight - 1));
        WaitingKept(reqs, waiting, reqs - {x});
        var i := reqs[x].transId % |heads|;
        heads := heads[i := Without(heads[i], x)];
        servers := servers[s := servers[s].(inflight := servers[s].inflight - 1)];
        inflight := inflight - 1;
      } else {
        WaitingRemove(reqs, waiting, x, reqs - {x});
        BucketsKept(reqs, heads, reqs - {x});
        ServersKept(reqs, servers, reqs - {x}, servers);
        waiting := Without(waiting, x);
        waitingCount := waitingCount - 1;
      }
      reqs := reqs - {x};
    }

    /** request_swap_ns. */
    method Swap(x: nat, ns: Option<nat>)
      requires Valid() && x in reqs && reqs[x].ns.Some? && (ns.Some? ==> ns.value < |servers|)
      modifies this`reqs, this`servers
      ensures Valid() && |servers| == |old(servers)| && SameStates(old(servers), servers)
      ensures reqs == if ns == None then old(reqs) else old(reqs)[x := old(reqs)[x].(ns := ns)]
    {
      hide BucketsOk, ServersOk, SumInflight, CountUp, TotalLength, RingOk, WaitingOk;
      ServerKnown(reqs, servers, x);
      if ns.Some? && reqs[x].ns != ns {
        var s, t := reqs[x].ns.value, ns.value;
        var r := reqs[x].(ns := ns);
        SomeAssigned(reqs, servers, x);
        // EVUTIL_ASSERT(req->ns->requests_inflight > 0)
        assert servers[s].inflight > 0;
        ServersSwap(reqs, servers, x, t);
        SwapSums(servers, s, t);
        BucketsKept(reqs, heads, reqs[x := r]);
        WaitingKept(reqs, waiting, reqs[x := r]);
        servers := Swapped(servers, s, t);
        reqs := reqs[x := r];
      }
    }

    /** The fields of a request that the books do not depend on. */
    method Note(x: nat, txCount: nat, reissues: nat, transmitMe: bool)
      requires Valid() && x in reqs
      modifies this`reqs
      ensures Valid()
      ensures reqs == old(reqs)[x := old(reqs)[x].(txCount := txCount, reissues := reissues, transmitMe := transmitMe)]
    {
      hide BucketsOk, ServersOk, SumInflight, CountUp, TotalLength, RingOk, WaitingOk;
      var reqs1 := reqs[x := reqs[x].(txCount := txCount, reissues := reissues, transmitMe := transmitMe)];
      BucketsKept(reqs, heads, reqs1);
      WaitingKept(reqs, waiting, reqs1);
      ServersKept(reqs, servers, reqs1, servers);
      reqs := reqs1;
    }

    /** A server changes in anything but its count of requests; `good` follows its state. */
    method SetServer(s: nat, v: Server)
      requires Valid() && s < |servers| && v.inflight == servers[s].inflight
      modifies this`servers, this`good
      ensures Valid() && servers == old(servers)[s := v]
    {
      hide BucketsOk, ServersOk, SumInflight, CountUp, TotalLength, RingOk, WaitingOk;
      ServerSums(servers, s, v);
      ServersKept(reqs, servers, reqs, servers[s := v]);
      good := good - (if servers[s].up then 1 else 0) + (if v.up then 1 else 0);
      servers := servers[s := v];
    }

    // ---- Servers ----

    /** evdns_nameserver_add_impl_: after the head of the ring, and up. */
    method AddNameserver()
      requires Valid()
      modifies this`servers, this`ring, this`good
      ensures Valid() && servers == old(servers) + [Server(true, 0, 0, false, None)]
    {
      hide BucketsOk, SumInflight, CountUp, TotalLength, WaitingOk;
      var v := Server(true, 0, 0, false, None);
      ServerSumsSnoc(servers, v);
      ServersGrown(reqs, servers, v);
      RingInsert(ring, |servers|);
      ring := if ring == [] then [|servers|] else [ring[0], |servers|] + ring[1..];
      servers := servers + [v];
      good := good + 1;
    }

    /** nameserver_failed: what has not been sent yet moves to a server that is up, if there is one. */
    method NameserverFailed(s: nat)
      requires Valid() && s < |servers|
      modifies this`servers, this`good, this`ring, this`reqs
      ensures Valid() && Weaker(old(servers), servers) && !servers[s].up && MovedFrom(old(reqs), reqs, s)
      ensures old(servers)[s].up && good > 0 ==> forall x :: x in reqs ==> Settled(reqs, x, s)
    {
      hide ServersOk, SumInflight, CountUp, TotalLength, WaitingOk, RingOk, Settled;
      if !servers[s].up { return; }
      SetServer(s, servers[s].(up := false));
      if good == 0 { return; }
      ghost var servers1, reqs1 := servers, reqs;
      SomeUp(servers);
      var i := 0;
      while i < |heads|
        invariant Valid() && 0 <= i <= |heads| && good > 0 && SameStates(servers1, servers) && MovedFrom(reqs1, reqs, s)
        invariant forall j, x :: 0 <= j < i && x in heads[j] ==> Settled(reqs, x, s)
      {
        ghost var reqs2 := reqs;
        MoveUnsent(i, s);
        MovedTrans(reqs1, reqs2, reqs, s);
        i := i + 1;
      }
      forall x | x in reqs ensures Settled(reqs, x, s) {
        if reqs[x].ns.Some? {
          assert BucketOk(reqs, heads, reqs[x].transId % |heads|);
          assert InBucket(reqs, x, |heads|, reqs[x].transId % |heads|);
        } else {
          WaitingSettled(reqs, x, s);
        }
      }
    }

    /** One bucket of that walk. */
    method MoveUnsent(i: nat, s: nat)
      requires Valid() && i < |heads| && s < |servers| && !servers[s].up
      requires exists t :: 0 <= t < |servers| && servers[t].up
      modifies this`servers, this`ring, this`reqs
      ensures Valid() && SameStates(old(servers), servers) && MovedFrom(old(reqs), reqs, s)
      ensures forall x :: x in heads[i] ==> Settled(reqs, x, s)
      ensures forall x :: Settled(old(reqs), x, s) ==> Settled(reqs, x, s)
    {
      hide ServersOk, SumInflight, CountUp, TotalLength, WaitingOk, RingOk, BucketsOk;
      var k := 0;
      BucketMembers(reqs, heads, i);
      while k < |heads[i]|
        invariant Valid() && 0 <= k <= |heads[i]| && SameStates(old(servers), servers) && MovedFrom(old(reqs), reqs, s)
        invariant forall j :: 0 <= j < k ==> Settled(reqs, heads[i][j], s)
        invariant forall x :: Settled(old(reqs), x, s) ==> Settled(reqs, x, s)
      {
        var x := heads[i][k];
        assert x in heads[i];
        if reqs[x].txCount == 0 && reqs[x].ns == Some(s) {
          var t := Pick();
          Swap(x, t);
        }
        k := k + 1;
      }
    }

    // ---- Sending ----

    /** evdns_request_transmit, over UDP. */
    method Transmit(x: nat, outcome: Outcome)
      requires Valid() && x in reqs
      modifies this`servers, this`good, this`ring, this`reqs
      ensures Valid() && Weaker(old(servers), servers) && Steady(old(reqs), reqs) && OthersRerouted(old(reqs), reqs, x)
      ensures var r := old(reqs)[x];
        var idle := r.ns == None || (r.ns.value < |old(servers)| && old(servers)[r.ns.value].choked);
        && (r.ns.Some? ==> r.ns.value < |servers|)
        && (idle || outcome == Busy ==> reqs == old(reqs)[x := r.(transmitMe := true)])
        && (idle || outcome == Sent ==> servers == old(servers))
        && (!idle && outcome == Busy ==>
              servers == old(servers)[r.ns.value := old(servers)[r.ns.value].(choked := true)])
        && (!idle && outcome == Sent ==> reqs == old(reqs)[x := r.(txCount := r.txCount + 1, transmitMe := false)])
        && (!idle && outcome == Broken ==>
              reqs[x].txCount == r.txCount + 1 && !reqs[x].transmitMe && !servers[r.ns.value].up)
    {
      hide ServersOk, SumInflight, CountUp, TotalLength, WaitingOk, RingOk, BucketsOk, Settled;
      Note(x, reqs[x].txCount, reqs[x].reissues, true);
      if reqs[x].ns == None { return; }
      ServerKnown(reqs, servers, x);
      if servers[reqs[x].ns.value].choked { return; }
      Send(x, outcome);
    }

    /** evdns_request_transmit_to, and what its result leads to. */
    method Send(x: nat, outcome: Outcome)
      requires Valid() && x in reqs && reqs[x].ns.Some? && reqs[x].ns.value < |servers|
      modifies this`servers, this`good, this`ring, this`reqs
      ensures Valid() && Weaker(old(servers), servers) && Steady(old(reqs), reqs) && OthersRerouted(old(reqs), reqs, x)
      ensures var r := old(reqs)[x];
        var s := r.ns.value;
        && (outcome == Busy ==> reqs == old(reqs) && servers == old(servers)[s := old(servers)[s].(choked := true)])
        && (outcome == Sent ==>
              reqs == old(reqs)[x := r.(txCount := r.txCount + 1, transmitMe := false)] && servers == old(servers))
        && (outcome == Broken ==> reqs[x].txCount == r.txCount + 1 && !reqs[x].transmitMe && !servers[s].up)
    {
      hide ServersOk, SumInflight, CountUp, TotalLength, WaitingOk, RingOk, BucketsOk, Settled;
      var s := reqs[x].ns.value;
      if outcome == Busy {
        SetServer(s, servers[s].(choked := true));
        return;
      }
      if outcome == Broken { NameserverFailed(s); }
      Note(x, reqs[x].txCount + 1, reqs[x].reissues, false);
    }

    /** evdns_transmit: everything that wants to be sent, and nothing else. */
    method TransmitAll(net: nat -> Outcome)
      requires Valid()
      modifies this`servers, this`good, this`ring, this`reqs
      ensures Valid() && Weaker(old(servers), servers) && Steady(old(reqs), reqs) && Unasked(old(reqs), reqs)
      ensures (forall x :: net(x) == Sent) ==>
        servers == old(servers) && forall x :: x in reqs ==> reqs[x] == AfterSending(old(reqs)[x], servers)
    {
      hide ServersOk, SumInflight, CountUp, TotalLength, WaitingOk, RingOk, BucketsOk, PartlySent, BeenRound;
      NoneRound(reqs, servers);
      var i := 0;
      while i < |heads|
        invariant Valid() && 0 <= i <= |heads| && Weaker(old(servers), servers) && Steady(old(reqs), reqs)
        invariant Unasked(old(reqs), reqs)
        invariant (forall x :: net(x) == Sent) ==> servers == old(servers) && PartlySent(old(reqs), reqs, servers)
        invariant (forall x :: net(x) == Sent) ==>
          forall j, x :: 0 <= j < i && x in heads[j] ==> BeenRound(old(reqs), reqs, servers, x)
      {
        ghost var reqs1 := reqs;
        TransmitBucket(i, net);
        RoundTrans(old(reqs), reqs1, reqs, servers);
        i := i + 1;
      }
      if forall x :: net(x) == Sent { AllRound(old(reqs), reqs, servers, heads); }
    }

    /** One bucket of that walk. */
    method TransmitBucket(i: nat, net: nat -> Outcome)
      requires Valid() && i < |heads|
      modifies this`servers, this`good, this`ring, this`reqs
      ensures Valid() && Weaker(old(servers), servers) && Steady(old(reqs), reqs) && Unasked(old(reqs), reqs)
      ensures (forall x :: net(x) == Sent) ==>
        && servers == old(servers) && PartlySent(old(reqs), reqs, servers)
        && forall x :: x in heads[i] ==> BeenRound(old(reqs), reqs, servers, x)
    {
      hide ServersOk, SumInflight, CountUp, TotalLength, WaitingOk, RingOk, BucketsOk, PartlySent, BeenRound;
      NoneRound(reqs, servers);
      var k := 0;
      while k < |heads[i]|
        invariant Valid() && 0 <= k <= |heads[i]| && Weaker(old(servers), servers) && Steady(old(reqs), reqs)
        invariant Unasked(old(reqs), reqs)
        invariant (forall x :: net(x) == Sent) ==> servers == old(servers) && PartlySent(old(reqs), reqs, servers)
        invariant (forall x :: net(x) == Sent) ==>
          forall j :: 0 <= j < k ==> BeenRound(old(reqs), reqs, servers, heads[i][j])
      {
        var x := heads[i][k];
        assert x in heads[i];
        BucketMembers(reqs, heads, i);
        ghost var reqs1 := reqs;
        TransmitOne(x, net(x));
        if forall y :: net(y) == Sent { RoundStep(old(reqs), reqs1, servers, x); }
        k := k + 1;
      }
    }

    method TransmitOne(x: nat, outcome: Outcome)
      requires Valid() && x in reqs && reqs[x].ns.Some?
      modifies this`servers, this`good, this`ring, this`reqs
      ensures Valid() && Weaker(old(servers), servers) && Steady(old(reqs), reqs) && Unasked(old(reqs), reqs)
      ensures outcome == Sent ==> servers == old(servers) && reqs == old(reqs)[x := AfterSending(old(reqs)[x], servers)]
    {
      hide ServersOk, SumInflight, CountUp, TotalLength, WaitingOk, RingOk, BucketsOk;
      ServerKnown(reqs, servers, x);
      if reqs[x].transmitMe { Transmit(x, outcome); }
    }

    /** evdns_requests_pump_waiting_queue: from the waiting list while there is room.  It stops
        short only for want of a server, or of drawn numbers. */
    method Pump(draws: seq<nat>, net: nat -> Outcome) returns (starved: bool)
      requires Valid()
      modifies this`servers, this`good, this`ring, this`reqs, this`heads, this`inflight, this`waiting, this`waitingCount
      ensures Valid() && Weaker(old(servers), servers) && Alive(old(reqs), reqs)
      ensures inflight + |waiting| == old(inflight) + |old(waiting)| && |waiting| <= |old(waiting)|
      ensures |waiting| < |old(waiting)| ==> inflight <= maxInflight
      ensures !starved && servers != [] ==> AtWork()
      ensures |Usable(draws)| >= maxInflight ==> !starved
    {
      hide ServersOk, SumInflight, CountUp, TotalLength, RingOk, BucketsOk, WaitingOk;
      starved := false;
      while inflight < maxInflight && waitingCount > 0
        invariant Valid() && Weaker(old(servers), servers) && Alive(old(reqs), reqs)
        invariant inflight + |waiting| == old(inflight) + |old(waiting)| && |waiting| <= |old(waiting)|
        invariant |waiting| < |old(waiting)| ==> inflight <= maxInflight
        decreases |waiting|
      {
        var x := waiting[0];
        assert x in waiting;
        var ns := Pick();
        if ns == None { return; }
        var id := PickId(draws);
        if id == None { return true; }
        Launch(x, ns.value, id.value, net);
      }
    }

    /** The body of that loop: to the server, under the id, and everything unsent with it. */
    method Launch(x: nat, s: nat, id: nat, net: nat -> Outcome)
      requires Valid() && x in waiting && s < |servers|
      modifies this`servers, this`good, this`ring, this`reqs, this`heads, this`inflight, this`waiting, this`waitingCount
      ensures Valid() && Weaker(old(servers), servers) && Alive(old(reqs), reqs)
      ensures inflight == old(inflight) + 1 && |waiting| == |old(waiting)| - 1
    {
      hide ServersOk, SumInflight, CountUp, TotalLength, RingOk, BucketsOk;
      Promote(x, s, id);
      Transmit(x, net(x));
      TransmitAll(net);
    }

    /** request_finished: the request leaves the books, and room is used. */
    method Finish(x: nat, draws: seq<nat>, net: nat -> Outcome) returns (starved: bool)
      requires Valid() && x in reqs
      modifies this`servers, this`good, this`ring, this`reqs, this`heads, this`inflight, this`waiting, this`waitingCount
      ensures Valid() && Weaker(old(servers), servers) && Alive(old(reqs) - {x}, reqs)
      ensures inflight + |waiting| == old(inflight) + |old(waiting)| - 1
      ensures old(inflight) <= maxInflight ==> inflight <= maxInflight
      ensures !starved && servers != [] ==> AtWork()
      ensures |Usable(draws)| >= maxInflight ==> !starved
    {
      hide ServersOk, SumInflight, CountUp, TotalLength, RingOk, BucketsOk, WaitingOk;
      Remove(x);
      starved := Pump(draws, net);
    }

    // ---- Requests ----

    /** request_new: whether it can go out at once, and then under what id and to which server. */
    method Prepare(draws: seq<nat>) returns (r: Request, starved: bool)
      requires Valid()
      modifies this`ring
      ensures Valid() && r.txCount == 0 && (r.ns.Some? ==> r.ns.value < |servers|)
      ensures !starved ==> (r.ns.Some? <==> inflight < maxInflight && servers != [])
      ensures |Usable(draws)| >= maxInflight ==> !starved
      ensures r.ns.Some? ==>
        inflight < maxInflight && forall y :: y in reqs && reqs[y].ns.Some? ==> reqs[y].transId != r.transId
    {
      hide ServersOk, SumInflight, CountUp, TotalLength, RingOk, BucketsOk, WaitingOk;
      r, starved := Request(None, NO_ID, 0, 0, false), false;
      if inflight < maxInflight {
        var id := PickId(draws);
        if id == None { return r, true; }
        var ns := Pick();
        r := r.(ns := ns, transId := id.value);
      }
    }

    /** request_submit. */
    method Submit(r: Request, net: nat -> Outcome) returns (x: nat)
      requires Valid() && (r.ns.Some? ==> r.ns.value < |servers|)
      modifies this`servers, this`good, this`ring, this`reqs, this`heads
      modifies this`inflight, this`waiting, this`waitingCount, this`nextId
      ensures Valid() && x == old(nextId) && x !in old(reqs) && Weaker(old(servers), servers)
      ensures Steady(old(reqs)[x := r], reqs)
      ensures inflight == old(inflight) + (if r.ns.Some? then 1 else 0)
      ensures |waiting| == |old(waiting)| + (if r.ns == None then 1 else 0)
    {
      hide ServersOk, SumInflight, CountUp, TotalLength, RingOk, BucketsOk, WaitingOk;
      x := nextId;
      nextId := nextId + 1;
      if r.ns.Some? {
        Insert(x, r);
        Transmit(x, net(x));
      } else {
        Wait(x, r);
      }
    }

    /** evdns_base_resolve_ipv4 without a search list: a new request.  The limit is kept. */
    method Resolve(draws: seq<nat>, net: nat -> Outcome) returns (x: nat)
      requires Valid()
      modifies this`servers, this`good, this`ring, this`reqs, this`heads
      modifies this`inflight, this`waiting, this`waitingCount, this`nextId
      ensures Valid() && x !in old(reqs) && x in reqs && Weaker(old(servers), servers) && |servers| == |old(servers)|
      ensures reqs.Keys == old(reqs).Keys + {x} && Steady(old(reqs), reqs - {x})
      ensures inflight == old(inflight) + (if reqs[x].ns.Some? then 1 else 0)
      ensures |waiting| == |old(waiting)| + (if reqs[x].ns == None then 1 else 0)
      ensures reqs[x].ns.Some? ==> old(inflight) < maxInflight && servers != []
      ensures |Usable(draws)| >= maxInflight && old(inflight) < maxInflight && servers != [] ==> reqs[x].ns.Some?
      ensures old(inflight) <= maxInflight ==> inflight <= maxInflight
      ensures old(AtWork()) && servers != [] && |Usable(draws)| >= maxInflight ==> AtWork()
    {
      hide ServersOk, SumInflight, CountUp, TotalLength, RingOk, BucketsOk, WaitingOk;
      var r, _ := Prepare(draws);
      x := Submit(r, net);
    }

    /** search_try_next: the next name is prepared before the old request is finished.  So the limit
        is overrun exactly when there was room and the waiting requests could take it all; and the
        next name waits, with room and nobody to pump it in, exactly when there was neither room nor
        anyone waiting. */
    method SearchNext(x: nat, draws: seq<nat>, net: nat -> Outcome) returns (y: nat, starved: bool)
      requires Valid() && x in reqs && reqs[x].ns.Some?
      modifies this`servers, this`good, this`ring, this`reqs, this`heads
      modifies this`inflight, this`waiting, this`waitingCount, this`nextId
      ensures Valid() && x !in reqs && y in reqs && Weaker(old(servers), servers) && |servers| == |old(servers)|
      ensures old(inflight) <= maxInflight && !starved && servers != [] ==>
        (inflight > maxInflight <==> old(inflight) < maxInflight && |old(waiting)| > maxInflight - old(inflight))
      ensures old(inflight) <= maxInflight ==> inflight <= maxInflight + 1
      ensures old(inflight) <= maxInflight && !starved && servers != [] ==>
        (AtWork() <==> !(old(inflight) == maxInflight && old(waiting) == []))
      ensures reqs.Keys == old(reqs).Keys - {x} + {y} && (old(inflight) >= maxInflight ==> reqs[y].ns == None)
      ensures inflight + |waiting| == old(inflight) + |old(waiting)|
      ensures |Usable(draws)| >= maxInflight ==> !starved
    {
      hide ServersOk, SumInflight, CountUp, TotalLength, RingOk, BucketsOk, WaitingOk;
      var r, starved1 := Prepare(draws);
      assert x < nextId;
      var starved2 := Finish(x, draws, net);
      y := Submit(r, net);
      starved := starved1 || starved2;
    }

    /** evdns_request_timeout_callback, over UDP: given up after the last retransmission, sent again
        to the server that is picked before that. */
    method TimedOut(x: nat, maxRetransmits: nat, maxTimeouts: nat, draws: seq<nat>,
        net: nat -> Outcome) returns (to: Option<nat>)
      requires Valid() && x in reqs && reqs[x].ns.Some?
      modifies this`servers, this`good, this`ring, this`reqs, this`heads, this`inflight, this`waiting, this`waitingCount
      ensures Valid() && Weaker(old(servers), servers)
      ensures to == None <==> old(reqs)[x].txCount >= maxRetransmits
      ensures to == None ==>
        && x !in reqs && reqs.Keys == old(reqs).Keys - {x}
        && old(reqs)[x].ns.value < |servers| && !servers[old(reqs)[x].ns.value].up
      ensures to.Some? ==>
        && reqs.Keys == old(reqs).Keys && to.value < |servers|
        && ((exists s :: 0 <= s < |servers| && old(servers)[s].up) ==> old(servers)[to.value].up)
        && (net(x) == Sent && !old(servers)[to.value].choked ==>
              reqs[x] == old(reqs)[x].(ns := to, txCount := old(reqs)[x].txCount + 1, transmitMe := false))
      ensures old(inflight) <= maxInflight ==> inflight <= maxInflight
      ensures old(AtWork()) && servers != [] && |Usable(draws)| >= maxInflight ==> AtWork()
    {
      hide ServersOk, SumInflight, CountUp, TotalLength, RingOk, BucketsOk, WaitingOk;
      ServerKnown(reqs, servers, x);
      if reqs[x].txCount >= maxRetransmits {
        var s := reqs[x].ns.value;
        var _ := Finish(x, draws, net);
        NameserverFailed(s);
        to := None;
      } else {
        to := Pick();
        Resend(x, to.value, maxTimeouts, net(x));
      }
    }

    method Resend(x: nat, t: nat, maxTimeouts: nat, outcome: Outcome)
      requires Valid() && x in reqs && reqs[x].ns.Some? && t < |servers|
      modifies this`servers, this`good, this`ring, this`reqs
      ensures Valid() && Weaker(old(servers), servers) && reqs.Keys == old(reqs).Keys
      ensures outcome == Sent && !old(servers)[t].choked ==>
        reqs[x] == old(reqs)[x].(ns := Some(t), txCount := old(reqs)[x].txCount + 1, transmitMe := false)
    {
      hide ServersOk, SumInflight, CountUp, TotalLength, RingOk, BucketsOk, WaitingOk;
      Swap(x, Some(t));
      Transmit(x, outcome);
      ServerKnown(reqs, servers, x);
      CountTimeout(reqs[x].ns.value, maxTimeouts);
    }

    /** The end of that callback: too many timeouts in a row, and the server has failed. */
    method CountTimeout(s: nat, maxTimeouts: nat)
      requires Valid() && s < |servers|
      modifies this`servers, this`good, this`ring, this`reqs
      ensures Valid() && Weaker(old(servers), servers) && MovedFrom(old(reqs), reqs, s)
      ensures old(servers)[s].timedout >= maxTimeouts ==> !servers[s].up
      ensures old(servers)[s].timedout < maxTimeouts ==>
        servers == old(servers)[s := old(servers)[s].(timedout := old(servers)[s].timedout + 1)] && reqs == old(reqs)
    {
      hide ServersOk, SumInflight, CountUp, TotalLength, RingOk, BucketsOk, WaitingOk, Settled;
      SetServer(s, servers[s].(timedout := servers[s].timedout + 1));
      if servers[s].timedout > maxTimeouts {
        SetServer(s, servers[s].(timedout := 0));
        NameserverFailed(s);
      }
    }

    /** nameserver_up: an outstanding probe is cancelled. */
    method NameserverUp(s: nat, draws: seq<nat>, net: nat -> Outcome)
      requires Valid() && s < |servers|
      modifies this`servers, this`good, this`ring, this`reqs, this`heads, this`inflight, this`waiting, this`waitingCount
      ensures Valid() && |servers| == |old(servers)| && servers[s].up
      ensures var p := old(servers)[s].probe;
        && (!old(servers)[s].up && p.Some? && p.value in old(reqs) ==> Alive(old(reqs) - {p.value}, reqs))
        && (old(servers)[s].up || p == None || p.value !in old(reqs) ==> Alive(old(reqs), reqs))
      ensures old(inflight) <= maxInflight ==> inflight <= maxInflight
      ensures old(AtWork()) && servers != [] && |Usable(draws)| >= maxInflight ==> AtWork()
    {
      hide ServersOk, SumInflight, CountUp, TotalLength, RingOk, BucketsOk, WaitingOk;
      if servers[s].up { return; }
      var p := servers[s].probe;
      if p.Some? && p.value in reqs { var _ := Finish(p.value, draws, net); }
      SetServer(s, servers[s].(probe := None, up := true, timedout := 0));
    }

    /** reply_handle of a good answer: its server is up, and the request is done. */
    method Answered(x: nat, draws: seq<nat>, net: nat -> Outcome)
      requires Valid() && x in reqs && reqs[x].ns.Some?
      modifies this`servers, this`good, this`ring, this`reqs, this`heads, this`inflight, this`waiting, this`waitingCount
      ensures Valid() && x !in reqs && |servers| == |old(servers)|
      ensures old(reqs)[x].ns.value < |servers|
      ensures var v := old(servers)[old(reqs)[x].ns.value];
        reqs.Keys == old(reqs).Keys - {x} - (if !v.up && v.probe.Some? then {v.probe.value} else {})
      ensures old(inflight) <= maxInflight ==> inflight <= maxInflight
      ensures old(AtWork()) && servers != [] && |Usable(draws)| >= maxInflight ==> AtWork()
    {
      hide ServersOk, SumInflight, CountUp, TotalLength, RingOk, BucketsOk, WaitingOk;
      ServerKnown(reqs, servers, x);
      var s := reqs[x].ns.value;
      if servers[s].probe == Some(x) { SetServer(s, servers[s].(probe := None)); }
      NameserverUp(s, draws, net);
      var _ := Finish(x, draws, net);
    }

    /** reply_handle of a NOTIMPL or REFUSED: the server has failed; request_reissue tries another. */
    method Rejected(x: nat, maxReissues: nat, draws: seq<nat>, net: nat -> Outcome)
      requires Valid() && x in reqs && reqs[x].ns.Some?
      modifies this`servers, this`good, this`ring, this`reqs, this`heads, this`inflight, this`waiting, this`waitingCount
      ensures Valid() && Weaker(old(servers), servers)
      ensures x in reqs ==>
        reqs[x].reissues == old(reqs)[x].reissues + 1 <= maxReissues && reqs[x].txCount == 0 && reqs[x].transmitMe
      ensures x in reqs && old(reqs)[x].txCount > 0 ==> reqs[x].ns.Some? && reqs[x].ns != old(reqs)[x].ns
      ensures old(inflight) <= maxInflight ==> inflight <= maxInflight
      ensures old(AtWork()) && servers != [] && |Usable(draws)| >= maxInflight ==> AtWork()
    {
      hide ServersOk, SumInflight, CountUp, TotalLength, RingOk, BucketsOk, WaitingOk;
      ServerKnown(reqs, servers, x);
      if reqs[x].reissues < maxReissues {
        NameserverFailed(reqs[x].ns.value);
        var last := reqs[x].ns;
        var ns := Pick();
        Swap(x, ns);
        if reqs[x].ns != last {
          Note(x, 0, reqs[x].reissues + 1, true);
          return;
        }
      }
      var _ := Finish(x, draws, net);
    }

    /** evdns_base_set_max_requests_inflight: the inflight requests go to new buckets. */
    method SetMaxInflight(max: int)
      requires Valid()
      modifies this`heads, this`maxInflight
      ensures Valid() && maxInflight == (if max < 1 then 1 else max) && |heads| == (maxInflight + 4) / 5
      ensures reqs == old(reqs) && servers == old(servers) && waiting == old(waiting)
      ensures inflight == old(inflight) && waitingCount == old(waitingCount) && good == old(good)
    {
      hide ServersOk, SumInflight, CountUp, TotalLength, RingOk, WaitingOk, BucketsOk;
      var m := if max < 1 then 1 else max;
      var newHeads: seq<seq<nat>> := seq((m + 4) / 5, _ => []);
      EmptyHeads(newHeads);
      var oldHeads := heads;
      ghost var n := |heads|;
      ghost var todo: Requests, done: Requests := reqs, map[];
      var i := 0;
      while i < |oldHeads|
        invariant 0 <= i <= |oldHeads| == n && |newHeads| == (m + 4) / 5
        invariant Halfway(reqs, todo, done) && BucketsOk(todo, oldHeads) && BucketsOk(done, newHeads)
        invariant TotalLength(oldHeads) + TotalLength(newHeads) == inflight
        invariant forall j :: 0 <= j < i ==> oldHeads[j] == []
        decreases n - i
      {
        while oldHeads[i] != []
          invariant 0 <= i < |oldHeads| == n && |newHeads| == (m + 4) / 5
          invariant Halfway(reqs, todo, done) && BucketsOk(todo, oldHeads) && BucketsOk(done, newHeads)
          invariant TotalLength(oldHeads) + TotalLength(newHeads) == inflight
          invariant forall j :: 0 <= j < i ==> oldHeads[j] == []
          decreases |oldHeads[i]|
        {
          var x := oldHeads[i][0];
          OneMoved(reqs, todo, done, oldHeads, newHeads, i);
          var k := reqs[x].transId % |newHeads|;
          oldHeads := oldHeads[i := oldHeads[i][1..]];
          newHeads := newHeads[k := newHeads[k] + [x]];
          todo, done := todo - {x}, done[x := reqs[x]];
        }
        i := i + 1;
      }
      AllMoved(reqs, todo, done, oldHeads, newHeads);
      heads := newHeads;
      maxInflight := m;
    }

    /** nameserver_send_probe: into the inflight requests no matter what. */
    method SendProbe(s: nat, draws: seq<nat>, net: nat -> Outcome) returns (x: Option<nat>)
      requires Valid() && s < |servers|
      modifies this`servers, this`good, this`ring, this`reqs, this`heads
      modifies this`inflight, this`waiting, this`waitingCount, this`nextId
      ensures Valid() && |servers| == |old(servers)|
      ensures x == None ==> reqs == old(reqs) && inflight == old(inflight) && servers == old(servers)
      ensures x.Some? ==>
        && x.value !in old(reqs) && reqs.Keys == old(reqs).Keys + {x.value} && reqs[x.value].ns.Some?
        && inflight == old(inflight) + 1 && servers[s].probe == x
      ensures |waiting| == |old(waiting)|
    {
      hide ServersOk, SumInflight, CountUp, TotalLength, RingOk, BucketsOk, WaitingOk;
      var r, _ := Prepare(draws);
      var id := PickId(draws);
      if id == None { return None; }
      SetServer(s, servers[s].(probe := Some(nextId)));
      var y := Submit(r.(ns := Some(s), transId := id.value), net);
      x := Some(y);
    }
  }

  // ---- Rehashing ----

  /** Half-way from the old buckets to the new: each inflight request is in one or the other. */
  ghost predicate Halfway(reqs: Requests, todo: Requests, done: Requests) {
    && (forall x :: x in todo ==> x in reqs && todo[x] == reqs[x])
    && (forall x :: x in done ==> x in reqs && done[x] == reqs[x] && x !in todo && reqs[x].ns.Some?)
    && (forall x :: x in reqs && reqs[x].ns.Some? ==> x in todo || x in done)
  }

  lemma OneMoved(reqs: Requests, todo: Requests, done: Requests, oldHeads: seq<seq<nat>>, newHeads: seq<seq<nat>>,
      i: nat)
    requires Halfway(reqs, todo, done) && BucketsOk(todo, oldHeads) && BucketsOk(done, newHeads) && i < |oldHeads|
    requires oldHeads[i] != []
    ensures var x := oldHeads[i][0];
      && x in todo && x in reqs && todo[x] == reqs[x]
      && var k := reqs[x].transId % |newHeads|;
         && Halfway(reqs, todo - {x}, done[x := reqs[x]])
         && BucketsOk(todo - {x}, oldHeads[i := oldHeads[i][1..]])
         && BucketsOk(done[x := reqs[x]], newHeads[k := newHeads[k] + [x]])
         && TotalLength(oldHeads[i := oldHeads[i][1..]]) + TotalLength(newHeads[k := newHeads[k] + [x]])
              == TotalLength(oldHeads) + TotalLength(newHeads)
  {
    hide TotalLength, Without, BucketsOk;
    var x := oldHeads[i][0];
    FirstOfBucket(todo, oldHeads, i);
    WithoutFirst(oldHeads[i]);
    BucketsRemove(todo, oldHeads, x);
    BucketsInsert(done, newHeads, x, reqs[x]);
    BucketsAny(done, newHeads);
  }

  lemma FirstOfBucket(reqs: Requests, heads: seq<seq<nat>>, i: nat)
    requires BucketsOk(reqs, heads) && i < |heads| && heads[i] != []
    ensures InBucket(reqs, heads[i][0], |heads|, i)
  {
    assert BucketOk(reqs, heads, i);
    assert heads[i][0] in heads[i];
  }

  lemma WithoutFirst(q: seq<nat>)
    requires q != []
    ensures Without(q, q[0]) == q[1..]
  {
    assert q[0] in q && IndexOf(q, q[0]) == 0;
  }

  lemma AllMoved(reqs: Requests, todo: Requests, done: Requests, oldHeads: seq<seq<nat>>, newHeads: seq<seq<nat>>)
    requires Halfway(reqs, todo, done) && BucketsOk(todo, oldHeads) && BucketsOk(done, newHeads)
    requires forall i :: 0 <= i < |oldHeads| ==> oldHeads[i] == []
    ensures BucketsOk(reqs, newHeads) && TotalLength(oldHeads) == 0
  {
    forall x | x in reqs && reqs[x].ns.Some? ensures x in done {
      if x in todo {
        assert BucketOk(todo, oldHeads, todo[x].transId % |oldHeads|);
        assert InBucket(todo, x, |oldHeads|, todo[x].transId % |oldHeads|);
        assert false;
      }
    }
    AllEmpty(oldHeads);
    BucketsKept(done, newHeads, reqs);
  }

  /** The same requests, still inflight or still waiting under their ids. */
  ghost predicate Steady(r: Requests, r1: Requests) {
    && r1.Keys == r.Keys
    && forall x :: x in r ==>
         && (r1[x].ns.Some? <==> r[x].ns.Some?) && r1[x].transId == r[x].transId && r1[x].reissues == r[x].reissues
  }

  /** The same requests, and none that was inflight went back to waiting. */
  ghost predicate Alive(r: Requests, r1: Requests) {
    r1.Keys == r.Keys && forall x :: x in r && r[x].ns.Some? ==> r1[x].ns.Some?
  }

  /** No server came up, and the probes are the same. */
  ghost predicate Weaker(ss: seq<Server>, ss1: seq<Server>) {
    |ss1| == |ss| && forall s :: 0 <= s < |ss| ==> (ss1[s].up ==> ss[s].up) && ss1[s].probe == ss[s].probe
  }

  /** Requests differ in nothing but the server they are assigned to. */
  ghost predicate Rerouted(r: Requests, r1: Requests) {
    r1.Keys == r.Keys && forall x :: x in r ==> r1[x] == r[x].(ns := r1[x].ns) && (r1[x].ns.Some? <==> r[x].ns.Some?)
  }

  /** Only unsent requests of server `s` have changed, and only their server. */
  ghost predicate MovedFrom(r: Requests, r1: Requests, s: nat) {
    Rerouted(r, r1) && forall x :: x in r && Settled(r, x, s) ==> r1[x] == r[x]
  }

  /** All but `x` differ in nothing but their server. */
  ghost predicate OthersRerouted(r: Requests, r1: Requests, x: nat) {
    r1.Keys == r.Keys && forall y :: y in r && y != x ==> r1[y] == r[y].(ns := r1[y].ns)
  }

  /** A request after evdns_transmit has been round, when nothing goes wrong. */
  function AfterSending(r: Request, servers: seq<Server>): Request {
    if r.transmitMe && r.ns.Some? && r.ns.value < |servers| && !servers[r.ns.value].choked
    then r.(txCount := r.txCount + 1, transmitMe := false) else r
  }

  ghost predicate BeenRound(r: Requests, r1: Requests, servers: seq<Server>, x: nat) {
    x in r && x in r1 && r1[x] == AfterSending(r[x], servers)
  }

  /** Half-way through: each is as it was, or sent. */
  ghost predicate PartlySent(r: Requests, r1: Requests, servers: seq<Server>) {
    r1.Keys == r.Keys && forall x :: x in r ==> r1[x] == r[x] || r1[x] == AfterSending(r[x], servers)
  }

  lemma AllRound(r: Requests, r1: Requests, servers: seq<Server>, heads: seq<seq<nat>>)
    requires PartlySent(r, r1, servers) && BucketsOk(r1, heads)
    requires forall j, x :: 0 <= j < |heads| && x in heads[j] ==> BeenRound(r, r1, servers, x)
    ensures forall x :: x in r1 ==> r1[x] == AfterSending(r[x], servers)
  {
    forall x | x in r1 ensures r1[x] == AfterSending(r[x], servers) {
      if r1[x].ns.Some? {
        var j := r1[x].transId % |heads|;
        assert BucketOk(r1, heads, j);
        assert InBucket(r1, x, |heads|, j);
        assert x in heads[j];
        assert BeenRound(r, r1, servers, x);
      } else {
        assert r[x].ns == None;
      }
    }
  }

  lemma NoneRound(r: Requests, servers: seq<Server>)
    ensures PartlySent(r, r, servers)
  {
  }

  lemma RoundStep(r: Requests, r1: Requests, servers: seq<Server>, x: nat)
    requires PartlySent(r, r1, servers) && x in r1
    ensures var r2 := r1[x := AfterSending(r1[x], servers)];
      && PartlySent(r, r2, servers) && BeenRound(r, r2, servers, x)
      && forall y :: BeenRound(r, r1, servers, y) ==> BeenRound(r, r2, servers, y)
  {
  }

  lemma RoundTrans(r: Requests, r1: Requests, r2: Requests, servers: seq<Server>)
    ensures PartlySent(r, r1, servers) && PartlySent(r1, r2, servers) ==>
      && PartlySent(r, r2, servers)
      && forall x :: BeenRound(r, r1, servers, x) || BeenRound(r1, r2, servers, x) ==> BeenRound(r, r2, servers, x)
  {
  }

  lemma MovedTrans(r: Requests, r1: Requests, r2: Requests, s: nat)
    requires MovedFrom(r, r1, s) && MovedFrom(r1, r2, s)
    ensures MovedFrom(r, r2, s)
  {
    forall x | x in r && Settled(r, x, s) ensures r2[x] == r[x] { assert r1[x] == r[x]; }
  }

  /** A request that did not want to be sent has not been. */
  ghost predicate Unasked(r: Requests, r1: Requests) {
    r1.Keys == r.Keys && forall x :: x in r && !r[x].transmitMe ==> r1[x].txCount == r[x].txCount && !r1[x].transmitMe
  }

  /** Not, or no longer, an unsent request of server `s`. */
  ghost predicate Settled(reqs: Requests, x: nat, s: nat) {
    x in reqs ==> reqs[x].txCount != 0 || reqs[x].ns != Some(s)
  }

  lemma WaitingSettled(reqs: Requests, x: nat, s: nat)
    requires x in reqs && reqs[x].ns == None
    ensures Settled(reqs, x, s)
  {
  }

  lemma BucketMembers(reqs: Requests, heads: seq<seq<nat>>, i: nat)
    requires BucketsOk(reqs, heads) && i < |heads|
    ensures forall x :: x in heads[i] ==> x in reqs && reqs[x].ns.Some?
  {
    assert BucketOk(reqs, heads, i);
  }

  lemma ServersGrown(reqs: Requests, servers: seq<Server>, v: Server)
    requires ServersOk(reqs, servers) && v.inflight == 0
    ensures ServersOk(reqs, servers + [v])
  {
    var servers1 := servers + [v];
    forall t | 0 <= t < |servers1| ensures ServerOk(reqs, servers1, t) {
      if t < |servers| { assert ServerOk(reqs, servers, t); } else { assert Assigned(reqs, t) == {}; }
    }
  }

  /** Only counts of requests differ. */
  ghost predicate SameStates(ss: seq<Server>, ss1: seq<Server>) {
    |ss1| == |ss| && forall s :: 0 <= s < |ss| ==> ss1[s] == ss[s].(inflight := ss1[s].inflight)
  }

  lemma EmptyHeads(heads: seq<seq<nat>>)
    requires |heads| > 0 && forall i :: 0 <= i < |heads| ==> heads[i] == []
    ensures BucketsOk(map[], heads) && TotalLength(heads) == 0
  {
    AllEmpty(heads);
    forall i | 0 <= i < |heads| ensures BucketOk(map[], heads, i) { }
  }

  lemma {:induction false} AllEmpty(heads: seq<seq<nat>>)
    requires forall i :: 0 <= i < |heads| ==> heads[i] == []
    ensures TotalLength(heads) == 0
  {
    if heads != [] { AllEmpty(heads[1..]); }
  }

  lemma EmptyRing(ring: seq<nat>, n: nat)
    requires RingOk(ring, n)
    ensures ring == [] <==> n == 0
    ensures ring != [] ==> ring[0] < n
  {
    if ring != [] { assert ring[0] in ring; }
    if n > 0 { assert 0 in ring; }
  }

  /** Servers passed over are down; if all in the ring were, all servers would be. */
  lemma AllDown(servers: seq<Server>, ring: seq<nat>, k: nat)
    requires RingOk(ring, |servers|) && k <= |ring| && exists s :: 0 <= s < |servers| && servers[s].up
    requires forall j :: 0 <= j < k ==> ring[j] < |servers| && !servers[ring[j]].up
    ensures k < |ring|
  {
    var s :| 0 <= s < |servers| && servers[s].up;
    assert s in ring;
    var j :| 0 <= j < |ring| && ring[j] == s;
  }

  lemma BucketsAny(reqs: Requests, heads: seq<seq<nat>>)
    requires BucketsOk(reqs, heads)
    ensures |heads| > 0
  {
  }

  lemma ServerKnown(reqs: Requests, servers: seq<Server>, x: nat)
    requires ServersOk(reqs, servers) && x in reqs && reqs[x].ns.Some?
    ensures reqs[x].ns.value < |servers|
  {
  }
}
