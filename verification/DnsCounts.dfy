/** What the books of the DNS requester say in numbers: counters against sets of requests. */
module DnsCounts {
  import opened Basics
  import opened Queues
  import opened DnsState

  const NO_ID := 0xffff

  /** The inflight requests. */
  ghost function Inflight(reqs: Requests): set<nat> {
    set x | x in reqs && reqs[x].ns.Some?
  }

  ghost function Waiting(reqs: Requests): set<nat> {
    set x | x in reqs && reqs[x].ns == None
  }

  lemma ServersTell(reqs: Requests, servers: seq<Server>)
    requires ServersOk(reqs, servers)
    ensures forall s :: 0 <= s < |servers| ==> servers[s].inflight == |Assigned(reqs, s)|
  {
    hide Assigned;
    forall s | 0 <= s < |servers|
      ensures servers[s].inflight == |Assigned(reqs, s)|
    {
      assert ServerOk(reqs, servers, s);
    }
  }

  lemma BucketsTell(reqs: Requests, heads: seq<seq<nat>>)
    requires BucketsOk(reqs, heads)
    ensures forall x, i :: 0 <= i < |heads| ==>
      (x in heads[i] <==> x in reqs && reqs[x].ns.Some? && reqs[x].transId % |heads| == i)
  {
    forall x: nat, i | 0 <= i < |heads|
      ensures x in heads[i] <==> x in reqs && reqs[x].ns.Some? && reqs[x].transId % |heads| == i
    {
      assert BucketOk(reqs, heads, i);
      assert x in heads[i] <==> InBucket(reqs, x, |heads|, i);
    }
  }

  lemma WaitingTell(reqs: Requests, waiting: seq<nat>)
    requires WaitingOk(reqs, waiting)
    ensures |waiting| == |Waiting(reqs)| && forall x :: x in waiting <==> x in reqs && reqs[x].ns == None
  {
    Elements(waiting);
    assert Waiting(reqs) == ElementsOf(waiting);
  }

  ghost function ElementsOf(q: seq<nat>): (r: set<nat>)
    ensures forall x :: x in r <==> x in q
  {
    if q == [] then {} else {q[0]} + ElementsOf(q[1..])
  }

  lemma {:induction false} Elements(q: seq<nat>)
    requires NoDup(q)
    ensures |ElementsOf(q)| == |q|
  {
    if q != [] {
      Elements(q[1..]);
      assert q[0] !in q[1..];
    }
  }

  /** The members of the first n buckets. */
  ghost function InFirst(heads: seq<seq<nat>>, n: nat): set<nat>
    requires n <= |heads|
  {
    if n == 0 then {} else InFirst(heads, n - 1) + ElementsOf(heads[n - 1])
  }

  lemma BucketsCount(reqs: Requests, heads: seq<seq<nat>>)
    requires BucketsOk(reqs, heads)
    ensures TotalLength(heads) == |Inflight(reqs)|
  {
    hide TotalLength, InFirst;
    FirstCount(reqs, heads, |heads|);
    assert heads[..|heads|] == heads;
    forall x ensures x in InFirst(heads, |heads|) <==> x in Inflight(reqs) {
      FirstHas(heads, |heads|, x);
      if x in Inflight(reqs) {
        assert BucketOk(reqs, heads, reqs[x].transId % |heads|);
        assert InBucket(reqs, x, |heads|, reqs[x].transId % |heads|);
      }
      if i :| 0 <= i < |heads| && x in heads[i] {
        assert BucketOk(reqs, heads, i);
        assert InBucket(reqs, x, |heads|, i);
      }
    }
    assert InFirst(heads, |heads|) == Inflight(reqs);
  }

  lemma {:induction false} FirstHas(heads: seq<seq<nat>>, n: nat, x: nat)
    requires n <= |heads|
    ensures x in InFirst(heads, n) <==> exists i :: 0 <= i < n && x in heads[i]
    decreases n
  {
    if n > 0 { FirstHas(heads, n - 1, x); }
  }

  /** A request of one bucket is in none before it. */
  lemma BucketsApart(reqs: Requests, heads: seq<seq<nat>>, n: nat, x: nat)
    requires BucketsOk(reqs, heads) && n < |heads| && x in heads[n]
    ensures x !in InFirst(heads, n)
  {
    FirstHas(heads, n, x);
    assert BucketOk(reqs, heads, n);
    assert InBucket(reqs, x, |heads|, n);
    forall i | 0 <= i < n ensures x !in heads[i] { assert BucketOk(reqs, heads, i); }
  }

  /** So the lengths add up. */
  lemma {:induction false} FirstCount(reqs: Requests, heads: seq<seq<nat>>, n: nat)
    requires BucketsOk(reqs, heads) && n <= |heads|
    ensures TotalLength(heads[..n]) == |InFirst(heads, n)|
    decreases n
  {
    hide BucketsOk, TotalLength, ElementsOf, InFirst;
    if n > 0 {
      FirstCount(reqs, heads, n - 1);
      PrefixTotal(heads, n);
      FirstUnfolds(heads, n);
      BucketApart(reqs, heads, n - 1);
      Disjoint(InFirst(heads, n - 1), ElementsOf(heads[n - 1]));
    } else {
      assert heads[..0] == [];
      NoBuckets();
      NoneFirst(heads);
    }
  }

  lemma PrefixTotal(heads: seq<seq<nat>>, n: nat)
    requires 0 < n <= |heads|
    ensures TotalLength(heads[..n]) == TotalLength(heads[..n - 1]) + |heads[n - 1]|
  {
    hide TotalLength;
    assert heads[..n] == heads[..n - 1] + [heads[n - 1]];
    TotalLengthSnoc(heads[..n - 1], heads[n - 1]);
  }

  lemma FirstUnfolds(heads: seq<seq<nat>>, n: nat)
    requires 0 < n <= |heads|
    ensures InFirst(heads, n) == InFirst(heads, n - 1) + ElementsOf(heads[n - 1])
  {
  }

  lemma NoneFirst(heads: seq<seq<nat>>)
    ensures InFirst(heads, 0) == {}
  {
  }

  lemma BucketApart(reqs: Requests, heads: seq<seq<nat>>, n: nat)
    requires BucketsOk(reqs, heads) && n < |heads|
    ensures InFirst(heads, n) !! ElementsOf(heads[n]) && |ElementsOf(heads[n])| == |heads[n]|
  {
    hide BucketsOk, InFirst;
    BucketNoDup(reqs, heads, n);
    Elements(heads[n]);
    forall x | x in ElementsOf(heads[n]) ensures x !in InFirst(heads, n) { BucketsApart(reqs, heads, n, x); }
  }

  lemma NoBuckets()
    ensures TotalLength([]) == 0
  {
  }

  lemma BucketNoDup(reqs: Requests, heads: seq<seq<nat>>, i: nat)
    requires BucketsOk(reqs, heads) && i < |heads|
    ensures NoDup(heads[i])
  {
    assert BucketOk(reqs, heads, i);
  }

  lemma Disjoint(a: set<nat>, b: set<nat>)
    requires a !! b
    ensures |a + b| == |a| + |b|
  {
  }

  lemma {:induction false} TotalLengthSnoc(qs: seq<seq<nat>>, q: seq<nat>)
    ensures TotalLength(qs + [q]) == TotalLength(qs) + |q|
  {
    if qs != [] {
      TotalLengthSnoc(qs[1..], q);
      assert (qs + [q])[1..] == qs[1..] + [q];
    } else {
      assert (qs + [q])[1..] == [];
    }
  }

  // ---- Ids ----

  /** The ids in use. */
  ghost function Ids(reqs: Requests): set<nat> {
    set x | x in reqs && reqs[x].ns.Some? :: reqs[x].transId
  }

  /** The ids that drawn numbers offer. */
  ghost function Usable(draws: seq<nat>): set<nat> {
    set d | d in draws && d != NO_ID
  }

  /** As long as more ids are drawn than requests are inflight, one of them is free. */
  lemma IdsRunOut(reqs: Requests, heads: seq<seq<nat>>, draws: seq<nat>)
    requires BucketsOk(reqs, heads) && Usable(draws) <= Ids(reqs)
    ensures |Usable(draws)| <= TotalLength(heads)
  {
    hide BucketsOk, TotalLength;
    BucketsCount(reqs, heads);
    ImageSmall(reqs, Inflight(reqs), Ids(reqs));
    SubsetSmall(Usable(draws), Ids(reqs));
  }

  lemma {:induction false} ImageSmall(reqs: Requests, s: set<nat>, ids: set<nat>)
    requires s <= reqs.Keys && ids == set x | x in s :: reqs[x].transId
    ensures |ids| <= |s|
    decreases |s|
  {
    if s != {} {
      var y :| y in s;
      var ids1 := set x | x in s - {y} :: reqs[x].transId;
      ImageSmall(reqs, s - {y}, ids1);
      assert ids == ids1 + {reqs[y].transId};
    }
  }

  lemma {:induction false} SubsetSmall(a: set<nat>, b: set<nat>)
    requires a <= b
    ensures |a| <= |b|
  {
    assert b == a + (b - a);
  }
}
