/** Whole runs of rate limiting, with whatever locks busy whenever: no bufferevent is put to sleep
    for bandwidth without something that will wake it. */
module RatelimRuns {
  import opened Basics
  import opened Queues
  import opened Buckets
  import opened RatelimState
  import opened Ratelim

  datatype Step =
    | Create(enabled: Both<bool>)
    | CreateGroup(cfg: Cfg, tick: nat)
    | Enable(x: nat, d: Dir, on: bool)
    | SuspendFor(x: nat, d: Dir, why: Reason, on: bool)
    | Limit(x: nat, newCfg: Option<Cfg>, tick: nat)
    | StartJoin(x: nat, k: nat)
    | FinishJoin(x: nat)
    | LeaveGroup(x: nat)
    | AskMax(x: nat, d: Dir, tick: nat)
    | Transfer(x: nat, d: Dir, bytes: int, busy: set<nat>, which: nat)
    | Decrement(x: nat, d: Dir, bytes: int)
    | DecrementGroup(k: nat, d: Dir, bytes: int, busy: set<nat>, which: nat)
    | TimerFires(x: nat, tick: nat)
    | GroupTimerFires(k: nat, tick: nat, busyBoth: Both<set<nat>>, whichBoth: Both<nat>)
    | Reconfigure(k: nat, cfg: Cfg)
    | MinShare(k: nat, share: nat)

  /** Which steps a program can take: the objects exist, nobody else holds the bufferevent's lock,
      configurations come from ev_token_bucket_cfg_new, and no limit overflows its type. */
  predicate CanTake(bevs: seq<Bev>, groups: seq<Group>, joining: map<nat, Both<bool>>, s: Step) {
    match s
    case Create(_) => true
    case CreateGroup(c, _) => CfgOk(c)
    case Enable(x, _, _) => x < |bevs| && x !in joining
    case SuspendFor(x, _, why, _) => x < |bevs| && x !in joining && why != BW && why != BW_GROUP
    case Limit(x, c, _) => x < |bevs| && x !in joining && (c.Some? ==> CfgOk(c.value))
    case StartJoin(x, k) => x < |bevs| && x !in joining && k < |groups|
    case FinishJoin(x) => x in joining
    case LeaveGroup(x) => x < |bevs| && x !in joining
    case AskMax(x, _, _) => x < |bevs| && x !in joining
    case Transfer(x, d, bytes, _, _) =>
      && x < |bevs| && x !in joining
      && (bevs[x].cfg.Some? ==> InRange(bevs[x].bucket.limit.Get(d) - bytes))
      && (bevs[x].group.Some? && bevs[x].group.value < |groups| ==>
            InRange(groups[bevs[x].group.value].bucket.limit.Get(d) - bytes))
    case Decrement(x, d, bytes) =>
      x < |bevs| && x !in joining && bevs[x].cfg.Some? && InRange(bevs[x].bucket.limit.Get(d) - bytes)
    case DecrementGroup(k, d, bytes, _, _) => k < |groups| && InRange(groups[k].bucket.limit.Get(d) - bytes)
    case TimerFires(x, _) => x < |bevs| && x !in joining && bevs[x].timer
    case GroupTimerFires(k, _, _, _) => k < |groups|
    case Reconfigure(k, c) => k < |groups| && CfgOk(c)
    case MinShare(k, _) => k < |groups|
  }

  /** The steps that take from a bucket, or leave it, by hand. */
  predicate OnlyTakes(s: Step) {
    match s
    case Transfer(_, _, bytes, _, _) => bytes >= 0
    case Decrement(_, _, bytes) => bytes >= 0
    case DecrementGroup(_, _, bytes, _, _) => bytes >= 0
    case _ => true
  }

  /** The steps that leave every group a minimum share. */
  predicate GivesShare(s: Step) {
    s.MinShare? ==> s.share > 0
  }

  /** No refill has wrapped around, and no limit is above its maximum. */
  ghost predicate Within(b: Bucket, c: Cfg) {
    !b.overflowed && b.limit.r <= c.maximum.r && b.limit.w <= c.maximum.w
  }

  ghost predicate BevsWithin(bevs: seq<Bev>) {
    forall x :: 0 <= x < |bevs| && bevs[x].cfg.Some? ==> Within(bevs[x].bucket, bevs[x].cfg.value)
  }

  ghost predicate GroupsWithin(groups: seq<Group>) {
    forall k :: 0 <= k < |groups| ==> Within(groups[k].bucket, groups[k].cfg)
  }

  ghost predicate AllShare(groups: seq<Group>) {
    forall k :: 0 <= k < |groups| ==> !groups[k].everZeroShare
  }

  lemma UpdateWithin(b: Bucket, c: Cfg, tick: nat)
    requires CfgOk(c) && InRange(b.limit.r) && InRange(b.limit.w) && Within(b, c)
    ensures Within(Update(b, c, tick), c)
  {
    WithinMaximumIsExact(b, c, tick);
  }

  lemma ConfiguredWithin(b: Bev, c: Cfg, tick: nat)
    requires CfgOk(c) && (b.cfg.Some? ==> Within(b.bucket, b.cfg.value))
    ensures Within(Configured(b, c, tick), c)
  {
  }

  lemma NewWithin(c: Cfg, tick: nat)
    requires CfgOk(c)
    ensures Within(Bucket(Both(c.rate.r, c.rate.w), tick, false), c)
  {
  }

  lemma RefreshedWithin(g: Group, g1: Group, tick: nat)
    requires Refreshing(g, g1, tick) && CfgOk(g.cfg) && InRange(g.bucket.limit.r) && InRange(g.bucket.limit.w)
    ensures g1.everZeroShare == g.everZeroShare && (Within(g.bucket, g.cfg) ==> Within(g1.bucket, g1.cfg))
  {
    hide Update, CfgOk, InRange, Within;
    if Within(g.bucket, g.cfg) { UpdateWithin(g.bucket, g.cfg, tick); }
  }

  /** Every bucket holds a limit of its type, under a configuration. */
  lemma BucketsKnown(r: RateLimits)
    requires r.Valid()
    ensures forall x :: 0 <= x < |r.bevs| && r.bevs[x].cfg.Some? ==>
      CfgOk(r.bevs[x].cfg.value) && InRange(r.bevs[x].bucket.limit.r) && InRange(r.bevs[x].bucket.limit.w)
    ensures forall k :: 0 <= k < |r.groups| ==>
      CfgOk(r.groups[k].cfg) && InRange(r.groups[k].bucket.limit.r) && InRange(r.groups[k].bucket.limit.w)
  {
    hide InRange, CfgOk;
    forall x | 0 <= x < |r.bevs| && r.bevs[x].cfg.Some?
      ensures CfgOk(r.bevs[x].cfg.value) && InRange(r.bevs[x].bucket.limit.r) && InRange(r.bevs[x].bucket.limit.w)
    {
      assert BevIn(r.bevs, r.groups, x);
    }
    forall k | 0 <= k < |r.groups|
      ensures CfgOk(r.groups[k].cfg) && InRange(r.groups[k].bucket.limit.r) && InRange(r.groups[k].bucket.limit.w)
    {
      assert GroupIn(r.bevs, r.groups, k);
    }
  }

  method Perform(r: RateLimits, s: Step)
    requires r.Valid() && CanTake(r.bevs, r.groups, r.joining, s)
    modifies r
    ensures r.Valid()
    ensures OnlyTakes(s) && old(BevsWithin(r.bevs)) ==> BevsWithin(r.bevs)
    ensures OnlyTakes(s) && old(GroupsWithin(r.groups)) ==> GroupsWithin(r.groups)
    ensures GivesShare(s) && old(AllShare(r.groups)) ==> AllShare(r.groups)
  {
    hide RateLimits.Valid, Update, Less, InRange, CfgOk, Within, Bit, Unlimited, Refreshing, Suspend, Unsuspend;
    BucketsKnown(r);
    match s {
      case Create(enabled) => r.NewBev(enabled);
      case CreateGroup(c, tick) =>
        NewWithin(c, tick);
        r.NewGroup(c, tick);
      case Enable(x, d, on) => r.SetEnabled(x, d, on);
      case SuspendFor(x, d, why, on) => r.SetSuspended(x, d, why, on);
      case Limit(x, c, tick) =>
        ghost var b := r.bevs[x];
        r.SetRateLimit(x, c, tick);
        if c.Some? && (b.cfg.Some? ==> Within(b.bucket, b.cfg.value)) { ConfiguredWithin(b, c.value, tick); }
      case StartJoin(x, k) => r.JoinBegin(x, k);
      case FinishJoin(x) => r.JoinEnd(x);
      case LeaveGroup(x) => r.Leave(x);
      case AskMax(x, d, tick) =>
        ghost var b := r.bevs[x];
        var _ := r.GetMax(x, d, tick);
        if b.cfg.Some? && Within(b.bucket, b.cfg.value) { UpdateWithin(b.bucket, b.cfg.value, tick); }
      case TimerFires(x, tick) =>
        ghost var b := r.bevs[x];
        r.Refill(x, tick);
        if b.cfg.Some? && Within(b.bucket, b.cfg.value) { UpdateWithin(b.bucket, b.cfg.value, tick); }
      case GroupTimerFires(k, tick, busy, which) =>
        ghost var g := r.groups[k];
        r.GroupRefill(k, tick, busy, which);
        RefreshedWithin(g, r.groups[k], tick);
      case Transfer(_, _, _, _, _) => Take(r, s);
      case Decrement(_, _, _) => Take(r, s);
      case DecrementGroup(_, _, _, _, _) => Take(r, s);
      case Reconfigure(k, c) => Share(r, s);
      case MinShare(k, share) => Share(r, s);
    }
  }

  /** The steps that take bytes from a bucket. */
  method Take(r: RateLimits, s: Step)
    requires r.Valid() && CanTake(r.bevs, r.groups, r.joining, s) && (s.Transfer? || s.Decrement? || s.DecrementGroup?)
    modifies r
    ensures r.Valid()
    ensures OnlyTakes(s) && old(BevsWithin(r.bevs)) ==> BevsWithin(r.bevs)
    ensures OnlyTakes(s) && old(GroupsWithin(r.groups)) ==> GroupsWithin(r.groups)
    ensures old(AllShare(r.groups)) ==> AllShare(r.groups)
  {
    hide RateLimits.Valid, Update, InRange, CfgOk, Bit, Unlimited, Missed;
    match s {
      case Transfer(x, d, bytes, busy, which) => r.DecrementBuckets(x, d, bytes, busy, which);
      case Decrement(x, d, bytes) => r.DecrementLimit(x, d, bytes);
      case DecrementGroup(k, d, bytes, busy, which) => r.GroupDecrement(k, d, bytes, busy, which);
    }
  }

  /** The steps that change how a group shares. */
  method Share(r: RateLimits, s: Step)
    requires r.Valid() && CanTake(r.bevs, r.groups, r.joining, s) && (s.Reconfigure? || s.MinShare?)
    modifies r
    ensures r.Valid() && r.bevs == old(r.bevs)
    ensures old(GroupsWithin(r.groups)) ==> GroupsWithin(r.groups)
    ensures GivesShare(s) && old(AllShare(r.groups)) ==> AllShare(r.groups)
  {
    hide RateLimits.Valid, InRange, CfgOk;
    match s {
      case Reconfigure(k, c) =>
        r.SetGroupCfg(k, c);
        ghost var limit := r.groups[k].bucket.limit;
        assert limit.Get(Reading) <= c.maximum.r && limit.Get(Writing) <= c.maximum.w;
      case MinShare(k, share) => var _ := r.SetMinShare(k, share);
    }
  }

  /** Nothing sleeps for bandwidth unless somebody will come to wake it, and nothing that ought to
      sleep is awake. */
  ghost predicate NoLostWakeup(bevs: seq<Bev>, groups: seq<Group>, x: nat, d: Dir)
    requires x < |bevs|
  {
    var b := bevs[x];
    && (BW in b.suspended.Get(d) ==> b.cfg.Some? && b.timer)
    && (b.cfg.Some? && !b.bucket.overflowed && b.bucket.limit.Get(d) <= 0 ==> BW in b.suspended.Get(d))
    && (BW_GROUP in b.suspended.Get(d) ==>
          && b.group.Some? && b.group.value < |groups|
          && var g := groups[b.group.value];
             x in g.members && (g.suspended.Get(d) || g.pending.Get(d)))
    && (b.running.Get(d) <==> b.enabled.Get(d) && b.suspended.Get(d) == {})
  }

  ghost predicate GroupGuarded(g: Group, d: Dir) {
    && !(g.suspended.Get(d) && g.pending.Get(d))
    && (!g.bucket.overflowed && !g.everZeroShare && g.bucket.limit.Get(d) <= 0 ==> g.suspended.Get(d))
  }

  /** Without the history: the limits are within the maximum, and an empty one suspends. */
  ghost predicate BevCovered(b: Bev)
    requires b.cfg.Some?
  {
    Within(b.bucket, b.cfg.value) && forall d :: b.bucket.limit.Get(d) <= 0 ==> BW in b.suspended.Get(d)
  }

  lemma Covered(bevs: seq<Bev>, groups: seq<Group>)
    requires forall x, d :: 0 <= x < |bevs| ==> NoLostWakeup(bevs, groups, x, d)
    requires forall k, d :: 0 <= k < |groups| ==> GroupGuarded(groups[k], d)
    ensures BevsWithin(bevs) ==> forall x :: 0 <= x < |bevs| && bevs[x].cfg.Some? ==> BevCovered(bevs[x])
    ensures GroupsWithin(groups) && AllShare(groups) ==>
      forall k, d :: 0 <= k < |groups| && groups[k].bucket.limit.Get(d) <= 0 ==> groups[k].suspended.Get(d)
  {
    if BevsWithin(bevs) {
      forall x, d | 0 <= x < |bevs| && bevs[x].cfg.Some? && bevs[x].bucket.limit.Get(d) <= 0
        ensures BW in bevs[x].suspended.Get(d)
      {
        assert NoLostWakeup(bevs, groups, x, d);
      }
    }
    if GroupsWithin(groups) && AllShare(groups) {
      forall k, d | 0 <= k < |groups| && groups[k].bucket.limit.Get(d) <= 0 ensures groups[k].suspended.Get(d) {
        assert GroupGuarded(groups[k], d);
      }
    }
  }

  /** Every reachable state, whichever locks were busy on the way. */
  method Run(steps: seq<Step>) returns (r: RateLimits)
    ensures forall x, d :: 0 <= x < |r.bevs| ==> NoLostWakeup(r.bevs, r.groups, x, d)
    ensures forall k, d :: 0 <= k < |r.groups| ==> GroupGuarded(r.groups[k], d)
    ensures forall k :: 0 <= k < |r.groups| ==> r.groups[k].nMembers == |r.groups[k].members|
    ensures forall k, x :: 0 <= k < |r.groups| && 0 <= x < |r.bevs| ==>
      (x in r.groups[k].members <==> r.bevs[x].group == Some(k))
    ensures (forall i :: 0 <= i < |steps| ==> OnlyTakes(steps[i])) ==>
      && (forall x :: 0 <= x < |r.bevs| && r.bevs[x].cfg.Some? ==> BevCovered(r.bevs[x]))
      && (forall k :: 0 <= k < |r.groups| ==> Within(r.groups[k].bucket, r.groups[k].cfg))
      && ((forall i :: 0 <= i < |steps| ==> GivesShare(steps[i])) ==>
            forall k, d :: 0 <= k < |r.groups| && r.groups[k].bucket.limit.Get(d) <= 0 ==> r.groups[k].suspended.Get(d))
  {
    hide RateLimits.Valid, CanTake, NoLostWakeup, GroupGuarded, OnlyTakes, GivesShare, Within;
    r := new RateLimits();
    for i := 0 to |steps|
      invariant r.Valid() && fresh(r)
      invariant (forall j :: 0 <= j < |steps| ==> OnlyTakes(steps[j])) ==> BevsWithin(r.bevs) && GroupsWithin(r.groups)
      invariant (forall j :: 0 <= j < |steps| ==> GivesShare(steps[j])) ==> AllShare(r.groups)
    {
      if CanTake(r.bevs, r.groups, r.joining, steps[i]) { Perform(r, steps[i]); }
    }
    ValidMeans(r);
    Covered(r.bevs, r.groups);
  }

  lemma ValidMeans(r: RateLimits)
    requires r.Valid()
    ensures forall x, d :: 0 <= x < |r.bevs| ==> NoLostWakeup(r.bevs, r.groups, x, d)
    ensures forall k, d :: 0 <= k < |r.groups| ==> GroupGuarded(r.groups[k], d)
    ensures forall k :: 0 <= k < |r.groups| ==> r.groups[k].nMembers == |r.groups[k].members|
    ensures forall k, x :: 0 <= k < |r.groups| && 0 <= x < |r.bevs| ==>
      (x in r.groups[k].members <==> r.bevs[x].group == Some(k))
  {
    hide InRange, CfgOk, NoDup;
    forall x, d | 0 <= x < |r.bevs| ensures NoLostWakeup(r.bevs, r.groups, x, d) { assert BevIn(r.bevs, r.groups, x); }
    forall k | 0 <= k < |r.groups|
      ensures r.groups[k].nMembers == |r.groups[k].members|
      ensures GroupGuarded(r.groups[k], Reading) && GroupGuarded(r.groups[k], Writing)
    {
      assert GroupIn(r.bevs, r.groups, k);
    }
    forall k, x | 0 <= k < |r.groups| && 0 <= x < |r.bevs|
      ensures x in r.groups[k].members <==> r.bevs[x].group == Some(k)
    {
      assert GroupIn(r.bevs, r.groups, k);
      assert BevIn(r.bevs, r.groups, x);
    }
  }

  /** The wake-up does come: once the clock has moved on far enough, the timer's callback lifts the
      suspension, and the direction runs again if that was all that stopped it. */
  method TimerWakes(r: RateLimits, x: nat, d: Dir, tick: nat)
    requires r.Valid() && x < |r.bevs| && x !in r.joining && BW in r.bevs[x].suspended.Get(d) && r.bevs[x].cfg.Some?
    requires var b := r.bevs[x]; var c := b.cfg.value;
      b.bucket.limit.Get(d) <= c.maximum.Get(d) && b.bucket.limit.Get(d) + Counted(b.bucket, tick) * c.rate.Get(d) > 0
    modifies r
    ensures r.Valid() && |r.bevs| == |old(r.bevs)| && BW !in r.bevs[x].suspended.Get(d)
    ensures old(r.bevs)[x].suspended.Get(d) == {BW} && old(r.bevs)[x].enabled.Get(d) ==> r.bevs[x].running.Get(d)
  {
    hide Update, Counted, HeldOk;
    assert BevIn(r.bevs, r.groups, x);
    ghost var b := r.bevs[x];
    RefillReaches(b.bucket, b.cfg.value, tick, d, 1);
    r.Refill(x, tick);
    assert BevIn(r.bevs, r.groups, x);
    assert !Bit(r.bevs[x].suspended, d, BW);
    if b.suspended.Get(d) == {BW} {
      forall why ensures why !in r.bevs[x].suspended.Get(d) {
        assert why != BW ==> (Bit(r.bevs[x].suspended, d, why) <==> Bit(b.suspended, d, why));
      }
    }
  }

  /** Likewise for a group: after enough ticks a callback that finds no lock busy releases every
      member. */
  method GroupTimerWakes(r: RateLimits, k: nat, d: Dir, tick: nat, which: Both<nat>)
    requires r.Valid() && k < |r.groups| && r.joining == map[]
    requires (r.groups[k].suspended.Get(d) || r.groups[k].pending.Get(d))
    requires var g := r.groups[k];
      && g.bucket.limit.Get(d) <= g.cfg.maximum.Get(d)
      && g.bucket.limit.Get(d) + Counted(g.bucket, tick) * g.cfg.rate.Get(d) >= g.minShare
    modifies r
    ensures r.Valid() && |r.groups| == |old(r.groups)| && !r.groups[k].suspended.Get(d)
    ensures forall x :: 0 <= x < |r.bevs| && r.bevs[x].group == Some(k) ==> BW_GROUP !in r.bevs[x].suspended.Get(d)
  {
    hide Update, Counted, BevOk, HeldOk;
    assert GroupIn(r.bevs, r.groups, k);
    ghost var g := r.groups[k];
    RefillReaches(g.bucket, g.cfg, tick, d, g.minShare);
    r.GroupRefill(k, tick, Both({}, {}), which);
    assert Due(r.groups[k].bucket, g, d);
    forall x | 0 <= x < |r.bevs| && r.bevs[x].group == Some(k) ensures BW_GROUP !in r.bevs[x].suspended.Get(d) {
      assert BevIn(r.bevs, r.groups, x);
      assert !Bit(r.bevs[x].suspended, d, BW_GROUP);
    }
  }

  /** A refill keeps "empty means suspended" except in exactly one case: a suspended group without
      a minimum share whose bucket comes back to exactly zero. */
  lemma RefillKeepsGuardIff(g: Group, g1: Group, tick: nat, d: Dir)
    requires GroupOk(g) && Refreshing(g, g1, tick) && !g1.bucket.overflowed
    requires g.bucket.limit.Get(d) <= 0 ==> g.suspended.Get(d)
    ensures (g1.bucket.limit.Get(d) <= 0 ==> g1.suspended.Get(d))
      <==> !(g.suspended.Get(d) && g.minShare == 0 && g1.bucket.limit.Get(d) == 0)
  {
    hide Update;
    UpdateFacts(g.bucket, g.cfg, tick, d);
  }

  /** With a minimum share of zero the guard is lost: a bucket refilled to exactly zero wakes the
      group, and the next bufferevent_rate_limit_group_decrement_read takes it below zero without
      suspending it. */
  method ZeroShareLosesTheGuard() returns (r: RateLimits)
    ensures |r.groups| == 1 && !r.groups[0].bucket.overflowed
    ensures r.groups[0].bucket.limit.r == -5 && !r.groups[0].suspended.r
  {
    hide RateLimits.Valid, Missed, Bit;
    r := new RateLimits();
    r.NewGroup(Cfg(0, Both(10, 10), Both(10, 10)), 0);
    var _ := r.SetMinShare(0, 0);
    r.GroupDecrement(0, Reading, 20, {}, 0);
    r.GroupRefill(0, 1, Both({}, {}), Both(0, 0));
    r.GroupDecrement(0, Reading, 5, {}, 0);
  }
}
