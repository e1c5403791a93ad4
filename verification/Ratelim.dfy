/** Rate limiting of bufferevents, alone and in groups.  `busy` is the set of bufferevents whose
    lock another thread holds at that moment, so that EVLOCK_TRY_LOCK_ fails on them. */
module Ratelim {
  import opened Basics
  import opened Queues
  import opened Buckets
  import opened RatelimState

  const MAX_SINGLE_DEFAULT := 16384
  const DEFAULT_MIN_SHARE := 64

  /** C division, which truncates. */
  function Quotient(a: int, n: int): int
    requires n > 0
  {
    if a >= 0 then a / n else -((-a) / n)
  }

  /** Where FOREACH_RANDOM_ORDER goes: from a random member to the end, then from the first up to it. */
  method RandomOrder(members: seq<nat>, which: nat) returns (order: seq<nat>)
    requires members != [] ==> which < |members|
    ensures order == if members == [] then [] else members[which..] + members[..which]
  {
    order := [];
    if members == [] { return; }
    var i := which;
    while i < |members|
      invariant which <= i <= |members| && order == members[which..i]
    {
      order := order + [members[i]];
      i := i + 1;
    }
    i := 0;
    while i < |members| && i != which
      invariant 0 <= i <= which && order == members[which..] + members[..i]
    {
      order := order + [members[i]];
      i := i + 1;
    }
  }

  /** The walk meets every member exactly once. */
  lemma EachOnce(members: seq<nat>, which: nat)
    requires which < |members|
    ensures multiset(members[which..] + members[..which]) == multiset(members)
    ensures NoDup(members) ==> NoDup(members[which..] + members[..which])
  {
    assert members == members[..which] + members[which..];
  }

  class RateLimits {
    var bevs: seq<Bev>
    var groups: seq<Group>
    /** The bufferevents inside bufferevent_add_to_rate_limit_group that have left the group's lock
        and not yet acted on the flags they saw. */
    var joining: map<nat, Both<bool>>

    ghost predicate Valid()
      reads this
    {
      Consistent(bevs, groups, joining) && AllAsleep(groups)
    }

    constructor ()
      ensures Valid() && bevs == [] && groups == [] && joining == map[]
    {
      bevs, groups, joining := [], [], map[];
    }

    /** bufferevent_ratelim_init_ on a new bufferevent. */
    method NewBev(enabled: Both<bool>)
      requires Valid()
      modifies this`bevs
      ensures Valid() && |bevs| == |old(bevs)| + 1 && bevs[..|old(bevs)|] == old(bevs)
      ensures !bevs[|old(bevs)|].limiting && bevs[|old(bevs)|].enabled == enabled && bevs[|old(bevs)|].cfg == None
    {
      var b := Bev(enabled, enabled, Both({}, {}), Both(MAX_SINGLE_DEFAULT, MAX_SINGLE_DEFAULT),
                   false, None, Bucket(Both(0, 0), 0, false), false, None);
      BevGrown(bevs, groups, joining, b);
      bevs := bevs + [b];
    }

    /** bufferevent_rate_limit_group_new. */
    method NewGroup(c: Cfg, tick: nat)
      requires Valid() && CfgOk(c)
      modifies this`groups
      ensures Valid() && |groups| == |old(groups)| + 1 && groups[..|old(groups)|] == old(groups)
      ensures groups[|old(groups)|] == Group(
        c, Bucket(Both(c.rate.r, c.rate.w), tick, false), Both(false, false), Both(false, false),
        [], 0, Min(DEFAULT_MIN_SHARE, Min(c.rate.r, c.rate.w)), DEFAULT_MIN_SHARE, false)
    {
      var share := Min(DEFAULT_MIN_SHARE, Min(c.rate.r, c.rate.w));
      var b := Init(Bucket(Both(0, 0), 0, false), c, tick, false);
      var g := Group(c, b, Both(false, false), Both(false, false), [], 0, share, DEFAULT_MIN_SHARE, false);
      GroupGrown(bevs, groups, joining, g);
      groups := groups + [g];
    }

    // ---- One bufferevent ----

    /** bufferevent_enable and bufferevent_disable of one direction. */
    method SetEnabled(x: nat, d: Dir, on: bool)
      requires Valid() && x < |bevs| && x !in joining
      modifies this`bevs
      ensures Valid() && |bevs| == |old(bevs)| && bevs == old(bevs)[x := bevs[x]]
      ensures bevs[x].enabled == old(bevs)[x].enabled.Set(d, on) && bevs[x].suspended == old(bevs)[x].suspended
      ensures SameBuckets(old(bevs), bevs)
    {
      var b := bevs[x];
      assert BevIn(bevs, groups, x);
      var b1 := b.(enabled := b.enabled.Set(d, on));
      if !on {
        b1 := b1.(running := b1.running.Set(d, false));
      } else if b.suspended.Get(d) == {} {
        b1 := b1.(running := b1.running.Set(d, true));
      }
      PutBev(bevs, groups, joining, x, b1);
      bevs := bevs[x := b1];
    }

    /** A suspension for a reason outside rate limiting comes or goes. */
    method SetSuspended(x: nat, d: Dir, why: Reason, on: bool)
      requires Valid() && x < |bevs| && x !in joining && why != BW && why != BW_GROUP
      modifies this`bevs
      ensures Valid() && |bevs| == |old(bevs)|
      ensures bevs == old(bevs)[x := if on then Suspend(old(bevs)[x], d, why) else Unsuspend(old(bevs)[x], d, why)]
      ensures SameBuckets(old(bevs), bevs)
    {
      hide BevOk, Bit, Waking, Suspend, Unsuspend;
      var b := bevs[x];
      assert BevIn(bevs, groups, x);
      SuspendOk(b, d, why);
      UnsuspendOk(b, d, why);
      SameGroup(b, d, why);
      SuspendFacts(b, d, why);
      UnsuspendFacts(b, d, why);
      var b1 := if on then Suspend(b, d, why) else Unsuspend(b, d, why);
      PutBev(bevs, groups, joining, x, b1);
      bevs := bevs[x := b1];
    }

    /** bufferevent_set_rate_limit; None stands for a NULL configuration. */
    method SetRateLimit(x: nat, c: Option<Cfg>, tick: nat)
      requires Valid() && x < |bevs| && x !in joining && (c.Some? ==> CfgOk(c.value))
      modifies this`bevs
      ensures Valid() && |bevs| == |old(bevs)| && bevs == old(bevs)[x := bevs[x]]
      ensures bevs[x].cfg == c && Unlimited(old(bevs)[x], bevs[x])
      ensures c.Some? ==> bevs[x].bucket == Configured(old(bevs)[x], c.value, tick)
      ensures old(bevs)[x].cfg == None && c.Some? ==> bevs[x].bucket.limit == Both(c.value.rate.r, c.value.rate.w)
      ensures c.Some? && old(bevs)[x].cfg.Some? && old(bevs)[x].cfg != c ==>
        forall d :: bevs[x].bucket.limit.Get(d) == Min(old(bevs)[x].bucket.limit.Get(d), c.value.maximum.Get(d))
      ensures old(bevs)[x].cfg != c ==>
        forall d :: Bit(bevs[x].suspended, d, BW) <==> c.Some? && bevs[x].bucket.limit.Get(d) <= 0
    {
      hide BevOk, Bit, Waking, CfgOk;
      var b := bevs[x];
      assert BevIn(bevs, groups, x);
      var b1 := Configure(b, c, tick);
      PutBev(bevs, groups, joining, x, b1);
      bevs := bevs[x := b1];
    }

    /** bev_refill_callback_, run by the timer, which is not persistent. */
    method Refill(x: nat, tick: nat)
      requires Valid() && x < |bevs| && x !in joining && bevs[x].timer
      modifies this`bevs
      ensures Valid() && |bevs| == |old(bevs)| && bevs == old(bevs)[x := bevs[x]]
      ensures old(bevs)[x].cfg.Some? && bevs[x].bucket == Update(old(bevs)[x].bucket, old(bevs)[x].cfg.value, tick)
      ensures bevs[x].cfg == old(bevs)[x].cfg
      ensures forall d :: Bit(bevs[x].suspended, d, BW) <==>
        Bit(old(bevs)[x].suspended, d, BW) && bevs[x].bucket.limit.Get(d) <= 0
      ensures Unlimited(old(bevs)[x], bevs[x])
    {
      hide Bit, Waking, CfgOk, DirOk, Update;
      assert BevIn(bevs, groups, x);
      var b1 := RefillOwn(bevs[x], tick);
      PutBev(bevs, groups, joining, x, b1);
      bevs := bevs[x := b1];
    }

    /** bufferevent_decrement_read_limit and bufferevent_decrement_write_limit. */
    method DecrementLimit(x: nat, d: Dir, decr: int)
      requires Valid() && x < |bevs| && x !in joining && bevs[x].cfg.Some?
      requires InRange(bevs[x].bucket.limit.Get(d) - decr)
      modifies this`bevs
      ensures Valid() && |bevs| == |old(bevs)| && bevs == old(bevs)[x := bevs[x]]
      ensures bevs[x].bucket == Less(old(bevs)[x].bucket, d, decr) && bevs[x].cfg == old(bevs)[x].cfg
      ensures var was, now := old(bevs)[x].bucket.limit.Get(d), bevs[x].bucket.limit.Get(d);
        && (was > 0 && now <= 0 ==> Bit(bevs[x].suspended, d, BW))
        && (was <= 0 && now > 0 ==> !Bit(bevs[x].suspended, d, BW))
      ensures Unlimited(old(bevs)[x], bevs[x])
    {
      hide BevOk, Bit, Waking;
      assert BevIn(bevs, groups, x);
      var b1 := Adjust(bevs[x], d, decr);
      PutBev(bevs, groups, joining, x, b1);
      bevs := bevs[x := b1];
    }

    // ---- Groups ----

    /** bev_group_suspend_reading_ and bev_group_suspend_writing_. */
    method SuspendGroup(k: nat, d: Dir, busy: set<nat>)
      requires Consistent(bevs, groups, joining) && k < |groups|
      modifies this`bevs, this`groups
      ensures Consistent(bevs, groups, joining)
      ensures groups == old(groups)[k := Slept(old(groups)[k], d)]
      ensures |bevs| == |old(bevs)| && AllHeld(old(bevs), bevs, groups[k].members, busy + joining.Keys, d)
      ensures SameBuckets(old(bevs), bevs)
    {
      hide BevOk, Bit, Suspend;
      var g := groups[k];
      assert GroupIn(bevs, groups, k);
      var g1 := g.(suspended := g.suspended.Set(d, true), pending := g.pending.Set(d, false));
      ghost var bevs0, groups0, failing := bevs, groups, busy + joining.Keys;
      groups := groups[k := g1];
      SuspendTwice(bevs, d);
      var i := 0;
      while i < |g1.members|
        invariant 0 <= i <= |g1.members|
        invariant AllHeld(bevs0, bevs, g1.members[..i], failing, d)
        modifies this`bevs
      {
        var x := g1.members[i];
        assert x in g1.members;
        assert g1.members[..i + 1] == g1.members[..i] + [x];
        if x !in busy && x !in joining { bevs := bevs[x := Suspend(bevs[x], d, BW_GROUP)]; }
        i := i + 1;
      }
      assert g1.members[..i] == g1.members;
      GroupHeld(bevs0, groups0, joining, k, bevs, g1, d, failing);
      BucketsHeld(bevs0, bevs, g1.members, failing, d);
    }

    /** bev_group_unsuspend_reading_ and bev_group_unsuspend_writing_; `which` is what the random
        number generator gives. */
    method UnsuspendGroup(k: nat, d: Dir, busy: set<nat>, which: nat)
      requires Consistent(bevs, groups, joining) && k < |groups|
      modifies this`bevs, this`groups
      ensures Consistent(bevs, groups, joining)
      ensures
        var g := old(groups)[k];
        groups == old(groups)[k := Woken(g, d, Missed(g.members, busy + joining.Keys))]
      ensures |bevs| == |old(bevs)| && AllReleased(old(bevs), bevs, groups[k].members, busy + joining.Keys, d)
      ensures SameBuckets(old(bevs), bevs)
      ensures forall x :: x in groups[k].members && x !in busy && x !in joining ==>
        x < |bevs| && !Bit(bevs[x].suspended, d, BW_GROUP)
    {
      hide BevOk, Bit, Unsuspend;
      var g := groups[k];
      assert GroupIn(bevs, groups, k);
      ghost var bevs0, groups0 := bevs, groups;
      groups := groups[k := g.(suspended := g.suspended.Set(d, false))];
      var again := ReleaseWalk(g.members, d, busy, which);
      var g1 := g.(suspended := g.suspended.Set(d, false), pending := g.pending.Set(d, again));
      groups := groups[k := g1];
      assert groups == groups0[k := g1];
      GroupReleased(bevs0, groups0, joining, k, bevs, g1, d, busy + joining.Keys);
      BucketsReleased(bevs0, bevs, g1.members, busy + joining.Keys, d);
    }

    /** The walk of the unsuspend functions over the members, from a random one on. */
    method ReleaseWalk(members: seq<nat>, d: Dir, busy: set<nat>, which: nat) returns (again: bool)
      requires forall x :: x in members ==> x < |bevs|
      modifies this`bevs
      ensures again == Missed(members, busy + joining.Keys)
      ensures AllReleased(old(bevs), bevs, members, busy + joining.Keys, d)
    {
      hide Unsuspend, AllReleased, Missed;
      ghost var bevs0 := bevs;
      var start := if members == [] then 0 else which % |members|;
      var order := RandomOrder(members, start);
      SameElements(members, start);
      assert forall x :: x in order ==> x in members;
      again := ReleaseInOrder(order, d, busy + joining.Keys);
      ReleasedSame(bevs0, bevs, order, members, busy + joining.Keys, d);
    }

    /** Try to lock each, and take its bit off. */
    method ReleaseInOrder(order: seq<nat>, d: Dir, failing: set<nat>) returns (again: bool)
      requires forall x :: x in order ==> x < |bevs|
      modifies this`bevs
      ensures again == Missed(order, failing) && AllReleased(old(bevs), bevs, order, failing, d)
    {
      hide Unsuspend, AllReleased, Missed;
      ghost var bevs0 := bevs;
      ReleasedNone(bevs, failing, d);
      again := false;
      var i := 0;
      while i < |order|
        invariant 0 <= i <= |order|
        invariant again == Missed(order[..i], failing)
        invariant |bevs| == |bevs0| && AllReleased(bevs0, bevs, order[..i], failing, d)
      {
        var x := order[i];
        assert x in order;
        ReleaseStep(bevs0, bevs, order[..i], x, failing, d);
        assert order[..i + 1] == order[..i] + [x];
        if x !in failing {
          bevs := bevs[x := Unsuspend(bevs[x], d, BW_GROUP)];
        } else {
          again := true;
        }
        i := i + 1;
      }
      assert order[..i] == order;
    }

    /** bufferevent_remove_from_rate_limit_group. */
    method Leave(x: nat)
      requires Valid() && x < |bevs| && x !in joining
      modifies this`bevs, this`groups
      ensures Valid() && |bevs| == |old(bevs)| && |groups| == |old(groups)|
      ensures bevs == old(bevs)[x := bevs[x]] && bevs[x].group == None && bevs[x].limiting == old(bevs)[x].limiting
      ensures SameBuckets(old(bevs), bevs)
      ensures forall d, why :: Bit(bevs[x].suspended, d, why) <==>
        Bit(old(bevs)[x].suspended, d, why) && why != BW_GROUP
      ensures forall k :: 0 <= k < |groups| ==>
        var g := old(groups)[k];
        groups[k] ==
          if old(bevs)[x].group == Some(k) then g.(members := Without(g.members, x), nMembers := g.nMembers - 1) else g
    {
      hide BevOk, GroupOk, Bit, Unsuspend, Waking;
      var b := bevs[x];
      assert BevIn(bevs, groups, x);
      var b1 := b.(group := None);
      UnsuspendFacts(b1, Reading, BW_GROUP);
      UnsuspendFacts(Unsuspend(b1, Reading, BW_GROUP), Writing, BW_GROUP);
      if b.group.Some? {
        var k := b.group.value;
        Unlinked(bevs, groups, joining, x, k);
        groups := groups[k := groups[k].(members := Without(groups[k].members, x), nMembers := groups[k].nMembers - 1)];
      } else {
        UnsuspendOk(b1, Reading, BW_GROUP);
        UnsuspendOk(Unsuspend(b1, Reading, BW_GROUP), Writing, BW_GROUP);
        PutBev(bevs, groups, joining, x, Unsuspend(Unsuspend(b1, Reading, BW_GROUP), Writing, BW_GROUP));
      }
      b1 := Unsuspend(b1, Reading, BW_GROUP);
      b1 := Unsuspend(b1, Writing, BW_GROUP);
      bevs := bevs[x := b1];
    }

    /** bufferevent_add_to_rate_limit_group up to the release of the group's lock.  The
        bufferevent's own lock stays held until JoinEnd. */
    method JoinBegin(x: nat, k: nat)
      requires Valid() && x < |bevs| && x !in joining && k < |groups|
      modifies this`bevs, this`groups, this`joining
      ensures Valid() && |bevs| == |old(bevs)| && |groups| == |old(groups)|
      ensures bevs == old(bevs)[x := bevs[x]] && bevs[x].group == Some(k)
      ensures SameBuckets(old(bevs), bevs) && SameShares(old(groups), groups)
      ensures joining ==
        if old(bevs)[x].group == Some(k) then old(joining) else old(joining)[x := old(groups)[k].suspended]
    {
      hide Bit, Waking, DirOk, GroupIn, AllAsleep;
      var b := bevs[x];
      assert BevIn(bevs, groups, x);
      if !b.limiting {
        b := b.(limiting := true);
        MadeLimiting(bevs[x]);
        PutBev(bevs, groups, joining, x, b);
        bevs := bevs[x := b];
      }
      if b.group == Some(k) { return; }
      if b.group.Some? { Leave(x); }
      Link(x, k);
    }

    /** Into the list of the group, with a look at its flags. */
    method Link(x: nat, k: nat)
      requires Valid() && x < |bevs| && x !in joining && k < |groups| && bevs[x].group == None && bevs[x].limiting
      modifies this`bevs, this`groups, this`joining
      ensures Valid() && bevs == old(bevs)[x := old(bevs)[x].(group := Some(k))]
      ensures joining == old(joining)[x := old(groups)[k].suspended] && SameShares(old(groups), groups)
    {
      hide GroupOk, Bit, Waking, DirOk;
      var g := groups[k];
      Linked(bevs, groups, joining, x, k);
      bevs := bevs[x := bevs[x].(group := Some(k))];
      groups := groups[k := g.(members := [x] + g.members, nMembers := g.nMembers + 1)];
      joining := joining[x := g.suspended];
    }

    /** The rest of bufferevent_add_to_rate_limit_group: act on the flags seen, unlock. */
    method JoinEnd(x: nat)
      requires Valid() && x in joining
      modifies this`bevs, this`joining
      ensures Valid() && |bevs| == |old(bevs)| && joining == old(joining) - {x}
      ensures x < |bevs| && bevs == old(bevs)[x := bevs[x]] && bevs[x].group == old(bevs)[x].group
      ensures SameBuckets(old(bevs), bevs)
      ensures forall d, why :: Bit(bevs[x].suspended, d, why) <==>
        Bit(old(bevs)[x].suspended, d, why) || (why == BW_GROUP && old(joining)[x].Get(d))
    {
      hide BevOk, GroupOk, Bit, Suspend, Waking;
      assert JoinOk(bevs, groups, x, joining[x]);
      var b := bevs[x];
      assert BevIn(bevs, groups, x);
      if joining[x].r {
        SuspendFacts(b, Reading, BW_GROUP);
        SuspendOk(b, Reading, BW_GROUP);
        b := Suspend(b, Reading, BW_GROUP);
      }
      if joining[x].w {
        SuspendFacts(b, Writing, BW_GROUP);
        SuspendOk(b, Writing, BW_GROUP);
        b := Suspend(b, Writing, BW_GROUP);
      }
      Joined(bevs, groups, joining, x, b);
      bevs := bevs[x := b];
      joining := joining - {x};
    }

    /** bufferevent_get_rlim_max_: how much may be read or written now. */
    method GetMax(x: nat, d: Dir, tick: nat) returns (max: nat)
      requires Valid() && x < |bevs| && x !in joining
      modifies this`bevs
      ensures Valid() && |bevs| == |old(bevs)| && bevs == old(bevs)[x := bevs[x]]
      ensures bevs[x].group == old(bevs)[x].group && bevs[x].cfg == old(bevs)[x].cfg
      ensures var b := old(bevs)[x];
        var own := if b.cfg.Some? then bevs[x].bucket.limit.Get(d) else b.maxSingle.Get(d);
        && bevs[x].bucket == (if b.cfg.Some? then Update(b.bucket, b.cfg.value, tick) else b.bucket)
        && (b.group == None ==> max == Max(0, own))
        && (b.group.Some? ==>
              && b.group.value < |groups|
              && var g := groups[b.group.value];
                 && (g.suspended.Get(d) ==> max == 0 && Bit(bevs[x].suspended, d, BW_GROUP))
                 && (!g.suspended.Get(d) ==>
                       && g.nMembers > 0
                       && max == Max(0, Min(own, Max(g.minShare, Quotient(g.bucket.limit.Get(d), g.nMembers))))))
    {
      hide BevOk, Bit, Suspend, Waking, Update;
      var b := bevs[x];
      assert BevIn(bevs, groups, x);
      var cap: int := b.maxSingle.Get(d);
      if b.cfg.Some? {
        b := Refreshed(b, tick);
        cap := b.bucket.limit.Get(d);
      }
      if b.group.Some? {
        var g := groups[b.group.value];
        assert GroupIn(bevs, groups, b.group.value);
        var share;
        b, share := GroupShare(b, g, d);
        if cap > share { cap := share; }
      }
      PutBev(bevs, groups, joining, x, b);
      bevs := bevs[x := b];
      max := if cap < 0 then 0 else cap;
    }

    /** The group's bucket changes by some bytes, whatever they are. */
    method Spend(k: nat, d: Dir, bytes: int)
      requires Valid() && k < |groups| && InRange(groups[k].bucket.limit.Get(d) - bytes)
      modifies this`groups
      ensures Consistent(bevs, groups, joining)
      ensures groups == old(groups)[k := Spent(old(groups)[k], d, bytes)]
    {
      hide BevOk, Bit;
      var g := groups[k];
      assert GroupIn(bevs, groups, k);
      var g1 := Spent(g, d, bytes);
      PutGroup(bevs, groups, joining, k, g1);
      groups := groups[k := g1];
    }

    /** The group part of bufferevent_decrement_read_buckets_ and its twin. */
    method DecrementGroupBucket(k: nat, d: Dir, bytes: int, busy: set<nat>, which: nat)
      requires Valid() && k < |groups| && InRange(groups[k].bucket.limit.Get(d) - bytes)
      modifies this`bevs, this`groups
      ensures Valid() && |bevs| == |old(bevs)| && |groups| == |old(groups)|
      ensures var g := Spent(old(groups)[k], d, bytes);
        var missed := Missed(g.members, busy + joining.Keys);
        groups == old(groups)[k :=
          if g.bucket.limit.Get(d) <= 0 then Slept(g, d)
          else if g.suspended.Get(d) then Woken(g, d, missed) else g]
      ensures SameBuckets(old(bevs), bevs)
    {
      hide Consistent, AllHeld, AllReleased, Missed;
      Spend(k, d, bytes);
      if groups[k].bucket.limit.Get(d) <= 0 {
        SuspendGroup(k, d, busy);
      } else if groups[k].suspended.Get(d) {
        UnsuspendGroup(k, d, busy, which);
      }
    }

    /** bufferevent_decrement_read_buckets_ and bufferevent_decrement_write_buckets_. */
    method DecrementBuckets(x: nat, d: Dir, bytes: int, busy: set<nat>, which: nat)
      requires Valid() && x < |bevs| && x !in joining
      requires bevs[x].cfg.Some? ==> InRange(bevs[x].bucket.limit.Get(d) - bytes)
      requires bevs[x].group.Some? && bevs[x].group.value < |groups| ==>
        InRange(groups[bevs[x].group.value].bucket.limit.Get(d) - bytes)
      modifies this`bevs, this`groups
      ensures Valid() && |bevs| == |old(bevs)| && |groups| == |old(groups)|
      ensures var b := old(bevs)[x];
        bevs[x].bucket == if b.cfg.Some? then Less(b.bucket, d, bytes) else b.bucket
      ensures forall y :: 0 <= y < |bevs| ==>
        bevs[y].cfg == old(bevs)[y].cfg && (y != x ==> bevs[y].bucket == old(bevs)[y].bucket)
      ensures var k := old(bevs)[x].group;
        if k == None then groups == old(groups)
        else
          && k.value < |groups|
          && groups[k.value] == Spent(old(groups)[k.value], d, bytes).(
                                  suspended := groups[k.value].suspended, pending := groups[k.value].pending)
          && (groups[k.value].suspended.Get(d) <==> groups[k.value].bucket.limit.Get(d) <= 0)
          && groups == old(groups)[k.value := groups[k.value]]
    {
      hide BevOk, Bit, Waking, GroupOk;
      var b := bevs[x];
      assert BevIn(bevs, groups, x);
      if b.cfg.Some? {
        var b1 := SpendOwn(b, d, bytes);
        PutBev(bevs, groups, joining, x, b1);
        bevs := bevs[x := b1];
      }
      if b.group.Some? {
        DecrementGroupBucket(b.group.value, d, bytes, busy, which);
      }
    }

    /** bufferevent_rate_limit_group_decrement_read and its twin. */
    method GroupDecrement(k: nat, d: Dir, decr: int, busy: set<nat>, which: nat)
      requires Valid() && k < |groups| && InRange(groups[k].bucket.limit.Get(d) - decr)
      modifies this`bevs, this`groups
      ensures Valid() && |bevs| == |old(bevs)| && |groups| == |old(groups)|
      ensures var was, g := old(groups)[k].bucket.limit.Get(d), Spent(old(groups)[k], d, decr);
        var missed := Missed(g.members, busy + joining.Keys);
        groups == old(groups)[k :=
          if was > 0 && g.bucket.limit.Get(d) <= 0 then Slept(g, d)
          else if was <= 0 && g.bucket.limit.Get(d) > 0 then Woken(g, d, missed) else g]
      ensures SameBuckets(old(bevs), bevs)
    {
      hide Consistent, AllHeld, AllReleased, Missed;
      var was := groups[k].bucket.limit.Get(d);
      Spend(k, d, decr);
      var now := groups[k].bucket.limit.Get(d);
      if was > 0 && now <= 0 {
        SuspendGroup(k, d, busy);
      } else if was <= 0 && now > 0 {
        UnsuspendGroup(k, d, busy, which);
      }
    }

    /** bufferevent_rate_limit_group_set_min_share. */
    method SetMinShare(k: nat, share: nat) returns (r: int)
      requires Valid() && k < |groups|
      modifies this`groups
      ensures Valid() && |groups| == |old(groups)|
      ensures r == if share > SSIZE_MAX then -1 else 0
      ensures r == -1 ==> groups == old(groups)
      ensures r == 0 ==>
        var g := old(groups)[k];
        groups == old(groups)[k := g.(
          configured := share, minShare := Min(share, Min(g.cfg.rate.r, g.cfg.rate.w)),
          everZeroShare := g.everZeroShare || share == 0)]
    {
      hide BevOk, Bit, InRange;
      if share > SSIZE_MAX { return -1; }
      var g := groups[k];
      assert GroupIn(bevs, groups, k);
      var least := share;
      if least > g.cfg.rate.r { least := g.cfg.rate.r; }
      if least > g.cfg.rate.w { least := g.cfg.rate.w; }
      var g1 := g.(configured := share, minShare := least, everZeroShare := g.everZeroShare || share == 0);
      PutGroup(bevs, groups, joining, k, g1);
      groups := groups[k := g1];
      r := 0;
    }

    /** bufferevent_rate_limit_group_set_cfg. */
    method SetGroupCfg(k: nat, c: Cfg)
      requires Valid() && k < |groups| && CfgOk(c)
      modifies this`groups
      ensures Valid() && |groups| == |old(groups)| && groups == old(groups)[k := groups[k]]
      ensures groups[k].cfg == c && groups[k].members == old(groups)[k].members
      ensures forall d :: groups[k].bucket.limit.Get(d) == Min(old(groups)[k].bucket.limit.Get(d), c.maximum.Get(d))
      ensures groups[k].minShare == Min(old(groups)[k].configured, Min(c.rate.r, c.rate.w))
      ensures groups[k].bucket == old(groups)[k].bucket.(limit := groups[k].bucket.limit)
      ensures groups[k].everZeroShare == old(groups)[k].everZeroShare
    {
      hide BevOk, Bit;
      var g := groups[k];
      assert GroupIn(bevs, groups, k);
      var limit := g.bucket.limit;
      if limit.r > c.maximum.r { limit := limit.(r := c.maximum.r); }
      if limit.w > c.maximum.w { limit := limit.(w := c.maximum.w); }
      var least := g.configured;
      if least > c.rate.r { least := c.rate.r; }
      if least > c.rate.w { least := c.rate.w; }
      var g1 := g.(cfg := c, bucket := g.bucket.(limit := limit), minShare := least);
      PutGroup(bevs, groups, joining, k, g1);
      groups := groups[k := g1];
    }

    /** bev_group_refill_callback_, run by the persistent master timer. */
    method GroupRefill(k: nat, tick: nat, busy: Both<set<nat>>, which: Both<nat>)
      requires Valid() && k < |groups|
      modifies this`bevs, this`groups
      ensures Valid() && |bevs| == |old(bevs)| && |groups| == |old(groups)|
      ensures Refreshing(old(groups)[k], groups[k], tick)
      ensures forall j :: 0 <= j < |groups| && j != k ==> groups[j] == old(groups)[j]
      ensures SameBuckets(old(bevs), bevs)
      ensures forall d, x ::
        Due(groups[k].bucket, old(groups)[k], d) && x in groups[k].members && x !in busy.Get(d) && x !in joining ==>
        x < |bevs| && !Bit(bevs[x].suspended, d, BW_GROUP)
    {
      hide Consistent, AllAsleep, Bit, Update, Missed, Refreshing, Released, Due;
      OneOrOther(bevs, groups, joining, k);
      ghost var g := groups[k];
      RefreshingOf(g, tick, Missed(g.members, busy.r + joining.Keys), Missed(g.members, busy.w + joining.Keys));
      UpdateGroup(k, tick);
      ReleaseIfDue(k, Reading, busy.r, which.r);
      ReleaseIfDue(k, Writing, busy.w, which.w);
    }

    /** The half of the refill callback for one direction. */
    method ReleaseIfDue(k: nat, d: Dir, busy: set<nat>, which: nat)
      requires Valid() && k < |groups|
      modifies this`bevs, this`groups
      ensures Valid() && |bevs| == |old(bevs)|
      ensures var g := old(groups)[k];
        groups == old(groups)[k := Released(g, d, Missed(g.members, busy + joining.Keys))]
      ensures forall x ::
        Due(old(groups)[k].bucket, old(groups)[k], d) && x in groups[k].members && x !in busy && x !in joining ==>
        x < |bevs| && !Bit(bevs[x].suspended, d, BW_GROUP)
      ensures forall x :: 0 <= x < |bevs| && !Bit(old(bevs)[x].suspended, Other(d), BW_GROUP) ==>
        !Bit(bevs[x].suspended, Other(d), BW_GROUP)
      ensures SameBuckets(old(bevs), bevs)
    {
      hide BevOk, Bit, Update, Waking, Unsuspend, Missed, CfgOk, InRange;
      assert GroupIn(bevs, groups, k);
      ghost var bevs0 := bevs;
      var g := groups[k];
      if g.pending.Get(d) || (g.suspended.Get(d) && g.bucket.limit.Get(d) >= g.minShare) {
        UnsuspendGroup(k, d, busy, which);
        ReleasedOther(bevs0, bevs, groups[k].members, busy + joining.Keys, d);
      }
    }

    method UpdateGroup(k: nat, tick: nat)
      requires Valid() && k < |groups|
      modifies this`groups
      ensures Valid()
      ensures var g := old(groups)[k];
        groups == old(groups)[k := g.(bucket := Update(g.bucket, g.cfg, tick))]
    {
      hide BevOk, Bit, Update, InRange, CfgOk;
      var g := groups[k];
      assert GroupIn(bevs, groups, k);
      UpdateFacts(g.bucket, g.cfg, tick, Reading);
      UpdateFacts(g.bucket, g.cfg, tick, Writing);
      var g1 := g.(bucket := Update(g.bucket, g.cfg, tick));
      PutGroup(bevs, groups, joining, k, g1);
      groups := groups[k := g1];
    }
  }

  /** Whether the refill callback releases the members, once the bucket is refilled. */
  predicate Due(bucket: Bucket, g: Group, d: Dir) {
    g.pending.Get(d) || (g.suspended.Get(d) && bucket.limit.Get(d) >= g.minShare)
  }

  /** What a refill does to its group: a suspension ends exactly when the bucket has reached the
      minimum share. */
  ghost predicate Refreshing(g: Group, g1: Group, tick: nat) {
    && g1 == g.(bucket := Update(g.bucket, g.cfg, tick), suspended := g1.suspended, pending := g1.pending)
    && (forall d :: g1.suspended.Get(d) <==> g.suspended.Get(d) && g1.bucket.limit.Get(d) < g.minShare)
    && (forall d :: !Due(g1.bucket, g, d) ==> g1.pending.Get(d) == g.pending.Get(d))
  }

  /** The group after the half of the refill callback for one direction. */
  function Released(g: Group, d: Dir, missed: bool): Group {
    if Due(g.bucket, g, d) then Woken(g, d, missed) else g
  }

  lemma RefreshingOf(g: Group, tick: nat, missedR: bool, missedW: bool)
    requires forall d :: !(g.suspended.Get(d) && g.pending.Get(d))
    ensures var g1 := g.(bucket := Update(g.bucket, g.cfg, tick));
      var g2 := Released(g1, Reading, missedR);
      var g3 := Released(g2, Writing, missedW);
      && Refreshing(g, g3, tick)
      && g2.members == g.members && g3.members == g.members && g3.bucket == g1.bucket
      && (Due(g3.bucket, g, Reading) <==> Due(g1.bucket, g1, Reading))
      && (Due(g3.bucket, g, Writing) <==> Due(g2.bucket, g2, Writing))
  {
    hide Update;
  }

  lemma ReleasedOther(bevs: seq<Bev>, bevs1: seq<Bev>, members: seq<nat>, busy: set<nat>, d: Dir)
    requires AllReleased(bevs, bevs1, members, busy, d)
    ensures forall x :: 0 <= x < |bevs| && !Bit(bevs[x].suspended, Other(d), BW_GROUP) ==>
      !Bit(bevs1[x].suspended, Other(d), BW_GROUP)
  {
    hide Unsuspend, Bit;
    forall x | 0 <= x < |bevs| && !Bit(bevs[x].suspended, Other(d), BW_GROUP)
      ensures !Bit(bevs1[x].suspended, Other(d), BW_GROUP)
    {
      UnsuspendFacts(bevs[x], d, BW_GROUP);
    }
  }

  /** A group is not suspended while it owes releases. */
  lemma OneOrOther(bevs: seq<Bev>, groups: seq<Group>, joining: map<nat, Both<bool>>, k: nat)
    requires Consistent(bevs, groups, joining) && k < |groups|
    ensures forall d :: !(groups[k].suspended.Get(d) && groups[k].pending.Get(d))
  {
    hide BevOk;
    assert GroupIn(bevs, groups, k);
  }

  lemma MadeLimiting(b: Bev)
    requires BevOk(b)
    ensures BevOk(b.(limiting := true))
  {
  }

  /** The group's part of bufferevent_get_rlim_max_: a share, or none and the bit when it sleeps. */
  method GroupShare(b: Bev, g: Group, d: Dir) returns (b1: Bev, share: int)
    requires BevOk(b) && GroupOk(g) && g.nMembers > 0
    ensures BevOk(b1) && b1 == b.(running := b1.running, suspended := b1.suspended)
    ensures forall e :: Bit(b1.suspended, e, BW_GROUP) ==> Bit(b.suspended, e, BW_GROUP) || Waking(g, e)
    ensures g.suspended.Get(d) ==> share == 0 && Bit(b1.suspended, d, BW_GROUP)
    ensures !g.suspended.Get(d) ==> b1 == b && share == Max(g.minShare, Quotient(g.bucket.limit.Get(d), g.nMembers))
  {
    hide BevOk, Bit, Suspend, GroupOk;
    b1, share := b, 0;
    if g.suspended.Get(d) {
      SuspendFacts(b, d, BW_GROUP);
      SuspendOk(b, d, BW_GROUP);
      b1 := Suspend(b, d, BW_GROUP);
    } else {
      share := Quotient(g.bucket.limit.Get(d), g.nMembers);
      if share < g.minShare { share := g.minShare; }
    }
  }

  /** bufferevent_update_buckets. */
  method Refreshed(b: Bev, tick: nat) returns (b1: Bev)
    requires BevOk(b) && b.cfg.Some?
    ensures BevOk(b1) && b1 == b.(bucket := Update(b.bucket, b.cfg.value, tick))
  {
    hide Update, CfgOk, Bit, RunOk;
    UpdateFacts(b.bucket, b.cfg.value, tick, Reading);
    UpdateFacts(b.bucket, b.cfg.value, tick, Writing);
    b1 := b.(bucket := Update(b.bucket, b.cfg.value, tick));
  }

  /** Nobody's own bucket has changed. */
  ghost predicate SameBuckets(bevs: seq<Bev>, bevs1: seq<Bev>) {
    |bevs1| == |bevs| && forall y :: 0 <= y < |bevs| ==>
      bevs1[y].bucket == bevs[y].bucket && bevs1[y].cfg == bevs[y].cfg
  }

  /** No group's bucket, configuration or history has changed. */
  ghost predicate SameShares(groups: seq<Group>, groups1: seq<Group>) {
    |groups1| == |groups| && forall k :: 0 <= k < |groups| ==>
      && groups1[k].bucket == groups[k].bucket && groups1[k].cfg == groups[k].cfg
      && groups1[k].everZeroShare == groups[k].everZeroShare
  }

  lemma BucketsHeld(bevs: seq<Bev>, bevs1: seq<Bev>, members: seq<nat>, busy: set<nat>, d: Dir)
    requires AllHeld(bevs, bevs1, members, busy, d)
    ensures SameBuckets(bevs, bevs1)
  {
  }

  lemma BucketsReleased(bevs: seq<Bev>, bevs1: seq<Bev>, members: seq<nat>, busy: set<nat>, d: Dir)
    requires AllReleased(bevs, bevs1, members, busy, d)
    ensures SameBuckets(bevs, bevs1)
  {
  }

  lemma SameElements(members: seq<nat>, which: nat)
    requires members != [] ==> which < |members|
    ensures var order := if members == [] then [] else members[which..] + members[..which];
      forall x :: x in order <==> x in members
  {
    if members != [] { assert members == members[..which] + members[which..]; }
  }

  function Less(b: Bucket, d: Dir, bytes: int): Bucket {
    b.(limit := b.limit.Set(d, b.limit.Get(d) - bytes))
  }

  function Spent(g: Group, d: Dir, bytes: int): Group {
    g.(bucket := Less(g.bucket, d, bytes))
  }

  function Slept(g: Group, d: Dir): Group {
    g.(suspended := g.suspended.Set(d, true), pending := g.pending.Set(d, false))
  }

  function Woken(g: Group, d: Dir, missed: bool): Group {
    g.(suspended := g.suspended.Set(d, false), pending := g.pending.Set(d, missed))
  }

  /** Nothing but the own bucket, its configuration, its timer and its suspension bit differ. */
  ghost predicate Unlimited(b: Bev, b1: Bev) {
    && b1.enabled == b.enabled && b1.maxSingle == b.maxSingle && b1.group == b.group
    && forall d, why :: why != BW ==> (Bit(b1.suspended, d, why) <==> Bit(b.suspended, d, why))
  }

  /** The bucket under a configuration: the same one leaves it, another clips it, the first fills it. */
  function Configured(b: Bev, c: Cfg, tick: nat): Bucket {
    if b.cfg == Some(c) then b.bucket else Init(b.bucket, c, tick, b.cfg.Some?)
  }

  /** The body of bufferevent_set_rate_limit. */
  method Configure(b: Bev, c: Option<Cfg>, tick: nat) returns (b1: Bev)
    requires BevOk(b) && (c.Some? ==> CfgOk(c.value))
    ensures BevOk(b1) && b1.cfg == c && Unlimited(b, b1)
    ensures c.Some? ==> b1.bucket == Configured(b, c.value, tick)
    ensures b.cfg == None && c.Some? ==> b1.bucket.limit == Both(c.value.rate.r, c.value.rate.w)
    ensures c.Some? && b.cfg.Some? && b.cfg != c ==>
      forall d :: b1.bucket.limit.Get(d) == Min(b.bucket.limit.Get(d), c.value.maximum.Get(d))
    ensures b.cfg != c ==> forall d :: Bit(b1.suspended, d, BW) <==> c.Some? && b1.bucket.limit.Get(d) <= 0
  {
    hide Suspend, Unsuspend, Bit, RunOk;
    b1 := b;
    if c == None {
      if b.limiting {
        b1 := b1.(cfg := None);
        UnsuspendFacts(b1, Reading, BW);
        b1 := Unsuspend(b1, Reading, BW);
        UnsuspendFacts(b1, Writing, BW);
        b1 := Unsuspend(b1, Writing, BW);
        b1 := b1.(timer := false);
      }
      return;
    }
    if b.limiting && b.cfg == c { return; }
    var reinit := b.cfg.Some?;
    b1 := b1.(limiting := true, cfg := c, bucket := Init(b1.bucket, c.value, tick, reinit));
    if reinit { b1 := b1.(timer := false); }
    // event_assign: the refill event must not be pending here.
    assert !b1.timer;
    var empty := false;
    if b1.bucket.limit.r > 0 {
      UnsuspendFacts(b1, Reading, BW);
      b1 := Unsuspend(b1, Reading, BW);
    } else {
      SuspendFacts(b1, Reading, BW);
      b1 := Suspend(b1, Reading, BW);
      empty := true;
    }
    if b1.bucket.limit.w > 0 {
      UnsuspendFacts(b1, Writing, BW);
      b1 := Unsuspend(b1, Writing, BW);
    } else {
      SuspendFacts(b1, Writing, BW);
      b1 := Suspend(b1, Writing, BW);
      empty := true;
    }
    if empty { b1 := b1.(timer := true); }
  }

  /** The body of bev_refill_callback_. */
  method RefillOwn(b: Bev, tick: nat) returns (b1: Bev)
    requires BevOk(b) && b.timer
    ensures BevOk(b1) && Unlimited(b, b1) && b.cfg.Some? && b1.cfg == b.cfg
    ensures b1.bucket == Update(b.bucket, b.cfg.value, tick)
    ensures forall d :: Bit(b1.suspended, d, BW) <==> Bit(b.suspended, d, BW) && b1.bucket.limit.Get(d) <= 0
  {
    hide Update, CfgOk, Suspend, Unsuspend, Bit, RunOk;
    UpdateFacts(b.bucket, b.cfg.value, tick, Reading);
    UpdateFacts(b.bucket, b.cfg.value, tick, Writing);
    b1 := b.(timer := false, bucket := Update(b.bucket, b.cfg.value, tick));
    var again := false;
    if Bit(b1.suspended, Reading, BW) {
      if b1.bucket.limit.r > 0 {
        UnsuspendFacts(b1, Reading, BW);
        b1 := Unsuspend(b1, Reading, BW);
      } else {
        again := true;
      }
    }
    if Bit(b1.suspended, Writing, BW) {
      if b1.bucket.limit.w > 0 {
        UnsuspendFacts(b1, Writing, BW);
        b1 := Unsuspend(b1, Writing, BW);
      } else {
        again := true;
      }
    }
    if again { b1 := b1.(timer := true); }
  }

  function Other(d: Dir): Dir {
    if d == Reading then Writing else Reading
  }

  /** The body of bufferevent_decrement_read_limit and its twin. */
  method Adjust(b: Bev, d: Dir, decr: int) returns (b1: Bev)
    requires BevOk(b) && b.cfg.Some? && InRange(b.bucket.limit.Get(d) - decr)
    ensures BevOk(b1) && Unlimited(b, b1) && b1.cfg == b.cfg
    ensures b1.bucket == Less(b.bucket, d, decr)
    ensures var was, now := b.bucket.limit.Get(d), b.bucket.limit.Get(d) - decr;
      Bit(b1.suspended, d, BW) <==>
        if was > 0 && now <= 0 then true else if was <= 0 && now > 0 then false else Bit(b.suspended, d, BW)
    ensures Bit(b1.suspended, Other(d), BW) <==> Bit(b.suspended, Other(d), BW)
  {
    hide CfgOk, InRange, Suspend, Unsuspend, Bit, RunOk;
    var was := b.bucket.limit.Get(d);
    var now := was - decr;
    b1 := b.(bucket := b.bucket.(limit := b.bucket.limit.Set(d, now)));
    if was > 0 && now <= 0 {
      SuspendFacts(b1, d, BW);
      b1 := Suspend(b1, d, BW);
      b1 := b1.(timer := true);
    } else if was <= 0 && now > 0 {
      if !Bit(b1.suspended, Other(d), BW) { b1 := b1.(timer := false); }
      UnsuspendFacts(b1, d, BW);
      b1 := Unsuspend(b1, d, BW);
    }
  }

  /** What bufferevent_decrement_read_buckets_ and its twin do to the own bucket. */
  method SpendOwn(b: Bev, d: Dir, bytes: int) returns (b1: Bev)
    requires BevOk(b) && b.cfg.Some? && InRange(b.bucket.limit.Get(d) - bytes)
    ensures BevOk(b1) && Unlimited(b, b1) && b1.cfg == b.cfg
    ensures b1.bucket == Less(b.bucket, d, bytes)
    ensures Bit(b1.suspended, d, BW) <==> b1.bucket.limit.Get(d) <= 0
    ensures Bit(b1.suspended, Other(d), BW) <==> Bit(b.suspended, Other(d), BW)
  {
    hide CfgOk, InRange, Suspend, Unsuspend, Bit, RunOk;
    b1 := b.(bucket := b.bucket.(limit := b.bucket.limit.Set(d, b.bucket.limit.Get(d) - bytes)));
    if b1.bucket.limit.Get(d) <= 0 {
      SuspendFacts(b1, d, BW);
      b1 := Suspend(b1, d, BW);
      b1 := b1.(timer := true);
    } else if Bit(b1.suspended, d, BW) {
      if !Bit(b1.suspended, Other(d), BW) { b1 := b1.(timer := false); }
      UnsuspendFacts(b1, d, BW);
      b1 := Unsuspend(b1, d, BW);
    }
  }
}
