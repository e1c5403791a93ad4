/** The books of the DNS requester: requests in buckets or waiting, servers in a ring, and the
    counters over both. */
module DnsState {
  import opened Basics
  import opened Queues

  /** struct request; `ns` is the server it is assigned to, None while it waits. */
  datatype Request = Request(ns: Option<nat>, transId: nat, txCount: nat, reissues: nat, transmitMe: bool)

  /** struct nameserver; `probe` is the request that probes it. */
  datatype Server = Server(up: bool, inflight: int, timedout: nat, choked: bool, probe: Option<nat>)

  type Requests = map<nat, Request>

  function SumInflight(ss: seq<Server>): int {
    if ss == [] then 0 else ss[0].inflight + SumInflight(ss[1..])
  }

  function CountUp(ss: seq<Server>): nat {
    if ss == [] then 0 else (if ss[0].up then 1 else 0) + CountUp(ss[1..])
  }

  lemma {:induction false} ServerSums(ss: seq<Server>, i: nat, s: Server)
    requires i < |ss|
    ensures SumInflight(ss[i := s]) == SumInflight(ss) - ss[i].inflight + s.inflight
    ensures CountUp(ss[i := s]) == CountUp(ss) - (if ss[i].up then 1 else 0) + (if s.up then 1 else 0)
  {
    if i > 0 {
      ServerSums(ss[1..], i - 1, s);
      assert ss[i := s][1..] == ss[1..][i - 1 := s];
    } else {
      assert ss[i := s][1..] == ss[1..];
    }
  }

  lemma {:induction false} ServerSumsSnoc(ss: seq<Server>, s: Server)
    ensures SumInflight(ss + [s]) == SumInflight(ss) + s.inflight
    ensures CountUp(ss + [s]) == CountUp(ss) + (if s.up then 1 else 0)
  {
    if ss != [] {
      ServerSumsSnoc(ss[1..], s);
      assert (ss + [s])[1..] == ss[1..] + [s];
    } else {
      assert (ss + [s])[1..] == [];
    }
  }

  lemma {:induction false} SomeUp(ss: seq<Server>)
    ensures CountUp(ss) > 0 <==> exists i :: 0 <= i < |ss| && ss[i].up
  {
    if ss != [] {
      SomeUp(ss[1..]);
      if i :| 0 <= i < |ss| && ss[i].up { assert i == 0 || ss[1..][i - 1].up; }
      if i :| 0 <= i < |ss[1..]| && ss[1..][i].up { assert ss[i + 1].up; }
    }
  }

  // ---- Buckets and the waiting list ----

  predicate InBucket(reqs: Requests, x: nat, n: nat, i: nat)
    requires n > 0
  {
    x in reqs && reqs[x].ns.Some? && reqs[x].transId % n == i
  }

  /** A bucket holds exactly the inflight requests whose id it stands for. */
  ghost predicate BucketOk(reqs: Requests, heads: seq<seq<nat>>, i: nat)
    requires i < |heads|
  {
    NoDup(heads[i]) && forall x :: x in heads[i] <==> InBucket(reqs, x, |heads|, i)
  }

  ghost predicate BucketsOk(reqs: Requests, heads: seq<seq<nat>>) {
    |heads| > 0 && forall i {:trigger BucketOk(reqs, heads, i)} :: 0 <= i < |heads| ==> BucketOk(reqs, heads, i)
  }

  ghost predicate WaitingOk(reqs: Requests, waiting: seq<nat>) {
    NoDup(waiting) && forall x :: x in waiting <==> x in reqs && reqs[x].ns == None
  }

  /** The requests assigned to a server. */
  ghost function Assigned(reqs: Requests, s: nat): set<nat> {
    set x | x in reqs && reqs[x].ns == Some(s)
  }

  ghost predicate ServerOk(reqs: Requests, servers: seq<Server>, s: nat)
    requires s < |servers|
  {
    servers[s].inflight == |Assigned(reqs, s)|
  }

  ghost predicate ServersOk(reqs: Requests, servers: seq<Server>) {
    && (forall s {:trigger ServerOk(reqs, servers, s)} :: 0 <= s < |servers| ==> ServerOk(reqs, servers, s))
    && (forall x {:trigger reqs[x]} :: x in reqs && reqs[x].ns.Some? ==> reqs[x].ns.value < |servers|)
  }

  ghost predicate RingOk(ring: seq<nat>, n: nat) {
    NoDup(ring) && forall s: nat :: s in ring <==> s < n
  }

  // ---- How they change ----

  /** A request comes in, assigned to server `s`. */
  lemma BucketsInsert(reqs: Requests, heads: seq<seq<nat>>, x: nat, r: Request)
    requires BucketsOk(reqs, heads) && (x in reqs ==> reqs[x].ns == None) && r.ns.Some?
    ensures var i := r.transId % |heads|;
      && BucketsOk(reqs[x := r], heads[i := heads[i] + [x]])
      && TotalLength(heads[i := heads[i] + [x]]) == TotalLength(heads) + 1
  {
    var i := r.transId % |heads|;
    var reqs1, heads1 := reqs[x := r], heads[i := heads[i] + [x]];
    TotalLengthUpdate(heads, i, heads[i] + [x]);
    assert BucketOk(reqs, heads, i);
    assert !InBucket(reqs, x, |heads|, i);
    SnocFacts(heads[i], x);
    forall k | 0 <= k < |heads1| ensures BucketOk(reqs1, heads1, k) { assert BucketOk(reqs, heads, k); }
  }

  /** An inflight request goes. */
  lemma BucketsRemove(reqs: Requests, heads: seq<seq<nat>>, x: nat)
    requires BucketsOk(reqs, heads) && x in reqs && reqs[x].ns.Some?
    ensures var i := reqs[x].transId % |heads|;
      && BucketsOk(reqs - {x}, heads[i := Without(heads[i], x)])
      && TotalLength(heads[i := Without(heads[i], x)]) == TotalLength(heads) - 1
  {
    var i := reqs[x].transId % |heads|;
    assert BucketOk(reqs, heads, i) && x in heads[i];
    WithoutFacts(heads[i], x);
    var reqs1, heads1 := reqs - {x}, heads[i := Without(heads[i], x)];
    TotalLengthUpdate(heads, i, Without(heads[i], x));
    forall k | 0 <= k < |heads1| ensures BucketOk(reqs1, heads1, k) { assert BucketOk(reqs, heads, k); }
  }

  /** Buckets do not care about anything but whether a request is inflight, and its id. */
  lemma BucketsKept(reqs: Requests, heads: seq<seq<nat>>, reqs1: Requests)
    requires BucketsOk(reqs, heads)
    requires forall x :: (x in reqs && reqs[x].ns.Some?) <==> (x in reqs1 && reqs1[x].ns.Some?)
    requires forall x :: x in reqs && reqs[x].ns.Some? && x in reqs1 ==> reqs1[x].transId == reqs[x].transId
    ensures BucketsOk(reqs1, heads)
  {
    forall i | 0 <= i < |heads| ensures BucketOk(reqs1, heads, i) { assert BucketOk(reqs, heads, i); }
  }

  /** A request that was not assigned is, to server `s`. */
  lemma ServersInsert(reqs: Requests, servers: seq<Server>, x: nat, r: Request, s: nat)
    requires ServersOk(reqs, servers) && (x in reqs ==> reqs[x].ns == None) && r.ns == Some(s) && s < |servers|
    ensures ServersOk(reqs[x := r], servers[s := servers[s].(inflight := servers[s].inflight + 1)])
  {
    var reqs1, servers1 := reqs[x := r], servers[s := servers[s].(inflight := servers[s].inflight + 1)];
    forall t | 0 <= t < |servers1| ensures ServerOk(reqs1, servers1, t) {
      assert ServerOk(reqs, servers, t);
      if t == s {
        assert Assigned(reqs1, t) == Assigned(reqs, t) + {x};
      } else {
        assert Assigned(reqs1, t) == Assigned(reqs, t);
      }
    }
  }

  lemma ServersRemove(reqs: Requests, servers: seq<Server>, x: nat, s: nat)
    requires ServersOk(reqs, servers) && x in reqs && reqs[x].ns == Some(s) && s < |servers|
    ensures ServersOk(reqs - {x}, servers[s := servers[s].(inflight := servers[s].inflight - 1)])
  {
    var reqs1, servers1 := reqs - {x}, servers[s := servers[s].(inflight := servers[s].inflight - 1)];
    forall t | 0 <= t < |servers1| ensures ServerOk(reqs1, servers1, t) {
      assert ServerOk(reqs, servers, t);
      if t == s {
        assert Assigned(reqs, t) == Assigned(reqs1, t) + {x};
      } else {
        assert Assigned(reqs1, t) == Assigned(reqs, t);
      }
    }
  }

  /** Who is assigned where is all that matters. */
  lemma ServersKept(reqs: Requests, servers: seq<Server>, reqs1: Requests, servers1: seq<Server>)
    requires ServersOk(reqs, servers) && |servers1| == |servers|
    requires forall t :: 0 <= t < |servers| ==> servers1[t].inflight == servers[t].inflight
    requires forall x :: (x in reqs && reqs[x].ns.Some?) <==> (x in reqs1 && reqs1[x].ns.Some?)
    requires forall x :: x in reqs && reqs[x].ns.Some? && x in reqs1 ==> reqs1[x].ns == reqs[x].ns
    ensures ServersOk(reqs1, servers1)
  {
    forall t | 0 <= t < |servers1| ensures ServerOk(reqs1, servers1, t) {
      assert ServerOk(reqs, servers, t);
      assert Assigned(reqs1, t) == Assigned(reqs, t);
    }
    forall x | x in reqs1 && reqs1[x].ns.Some?
      ensures reqs1[x].ns.value < |servers1|
    {
      assert x in reqs && reqs[x].ns.Some?;
    }
  }

  /** request_swap_ns: from server `s` to server `t`. */
  function Swapped(servers: seq<Server>, s: nat, t: nat): seq<Server>
    requires s < |servers| && t < |servers|
  {
    var servers1 := servers[s := servers[s].(inflight := servers[s].inflight - 1)];
    servers1[t := servers1[t].(inflight := servers1[t].inflight + 1)]
  }

  lemma ServersSwap(reqs: Requests, servers: seq<Server>, x: nat, t: nat)
    requires ServersOk(reqs, servers) && x in reqs && reqs[x].ns.Some? && t < |servers| && reqs[x].ns.value != t
    ensures reqs[x].ns.value < |servers|
    ensures ServersOk(reqs[x := reqs[x].(ns := Some(t))], Swapped(servers, reqs[x].ns.value, t))
  {
    hide SumInflight, CountUp, ServerOk;
    var s := reqs[x].ns.value;
    var mid := servers[s := servers[s].(inflight := servers[s].inflight - 1)];
    var r := reqs[x].(ns := Some(t));
    var rest := reqs - {x};
    ServersRemove(reqs, servers, x, s);
    ServersInsert(rest, mid, x, r, t);
    assert rest[x := r] == reqs[x := r];
  }

  lemma SwapSums(servers: seq<Server>, s: nat, t: nat)
    requires s < |servers| && t < |servers|
    ensures SumInflight(Swapped(servers, s, t)) == SumInflight(servers)
    ensures CountUp(Swapped(servers, s, t)) == CountUp(servers)
  {
    hide SumInflight, CountUp;
    var mid := servers[s := servers[s].(inflight := servers[s].inflight - 1)];
    ServerSums(servers, s, mid[s]);
    ServerSums(mid, t, mid[t].(inflight := mid[t].inflight + 1));
  }

  lemma SomeAssigned(reqs: Requests, servers: seq<Server>, x: nat)
    requires ServersOk(reqs, servers) && x in reqs && reqs[x].ns.Some?
    ensures reqs[x].ns.value < |servers| && servers[reqs[x].ns.value].inflight > 0
  {
    var s := reqs[x].ns.value;
    assert ServerOk(reqs, servers, s) && x in Assigned(reqs, s);
  }

  lemma WaitingInsert(reqs: Requests, waiting: seq<nat>, x: nat, r: Request)
    requires WaitingOk(reqs, waiting) && x !in reqs && r.ns == None
    ensures WaitingOk(reqs[x := r], waiting + [x])
  {
  }

  /** A waiting request goes, or is assigned. */
  lemma WaitingRemove(reqs: Requests, waiting: seq<nat>, x: nat, reqs1: Requests)
    requires WaitingOk(reqs, waiting) && x in waiting
    requires forall y :: y != x ==> ((y in reqs1 && reqs1[y].ns == None) <==> (y in reqs && reqs[y].ns == None))
    requires x in reqs1 ==> reqs1[x].ns.Some?
    ensures WaitingOk(reqs1, Without(waiting, x)) && |Without(waiting, x)| == |waiting| - 1
  {
    WithoutFacts(waiting, x);
  }

  lemma WaitingKept(reqs: Requests, waiting: seq<nat>, reqs1: Requests)
    requires WaitingOk(reqs, waiting)
    requires forall y :: (y in reqs1 && reqs1[y].ns == None) <==> (y in reqs && reqs[y].ns == None)
    ensures WaitingOk(reqs1, waiting)
  {
  }

  lemma RingRotates(ring: seq<nat>, n: nat)
    requires RingOk(ring, n) && ring != []
    ensures RingOk(ring[1..] + [ring[0]], n)
  {
    var r := ring[1..] + [ring[0]];
    forall s: nat ensures s in r <==> s < n { assert s in r <==> s in ring; }
  }

  lemma RingInsert(ring: seq<nat>, n: nat)
    requires RingOk(ring, n)
    ensures RingOk(if ring == [] then [n] else [ring[0], n] + ring[1..], n + 1)
  {
    var r := if ring == [] then [n] else [ring[0], n] + ring[1..];
    assert n !in ring;
    forall s: nat ensures s in r <==> s < n + 1 { assert s in r <==> s in ring || s == n; }
  }
}
