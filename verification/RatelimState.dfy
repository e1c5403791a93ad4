/** Bufferevents and rate-limit groups as values, and what holds of them between operations: a
    bufferevent that bandwidth has put to sleep always has something that will wake it. */
module RatelimState {
  import opened Basics
  import opened Queues
  import opened Buckets

  /** The BEV_SUSPEND_* bits. */
  datatype Reason = WM | BW | BW_GROUP | LOOKUP | FILT_READ

  /** `running` is what the backend was last told; `timer` says that refill_bucket_event is
      pending. */
  datatype Bev = Bev(
    enabled: Both<bool>, running: Both<bool>, suspended: Both<set<Reason>>, maxSingle: Both<nat>,
    limiting: bool, cfg: Option<Cfg>, bucket: Bucket, timer: bool, group: Option<nat>)

  /** `everZeroShare` is history: the minimum share has at some time been set to zero. */
  datatype Group = Group(
    cfg: Cfg, bucket: Bucket, suspended: Both<bool>, pending: Both<bool>,
    members: seq<nat>, nMembers: int, minShare: int, configured: int, everZeroShare: bool)

  /** bufferevent_suspend_read_ and bufferevent_suspend_write_. */
  function Suspend(b: Bev, d: Dir, why: Reason): Bev {
    var b1 := if b.suspended.Get(d) == {} then b.(running := b.running.Set(d, false)) else b;
    b1.(suspended := b1.suspended.Set(d, b1.suspended.Get(d) + {why}))
  }

  /** bufferevent_unsuspend_read_ and bufferevent_unsuspend_write_. */
  function Unsuspend(b: Bev, d: Dir, why: Reason): Bev {
    var s := b.suspended.Get(d) - {why};
    var b1 := b.(suspended := b.suspended.Set(d, s));
    if s == {} && b.enabled.Get(d) then b1.(running := b1.running.Set(d, true)) else b1
  }

  /** The backend runs a direction exactly when it is enabled and nothing suspends it. */
  ghost predicate RunOk(running: Both<bool>, enabled: Both<bool>, suspended: Both<set<Reason>>, d: Dir) {
    running.Get(d) <==> enabled.Get(d) && suspended.Get(d) == {}
  }

  predicate Bit(suspended: Both<set<Reason>>, d: Dir, why: Reason) {
    why in suspended.Get(d)
  }

  lemma SuspendFacts(b: Bev, d: Dir, why: Reason)
    ensures var s := Suspend(b, d, why);
      && s == b.(running := s.running, suspended := s.suspended)
      && (forall e, w :: Bit(s.suspended, e, w) <==> Bit(b.suspended, e, w) || (e == d && w == why))
      && (RunOk(b.running, b.enabled, b.suspended, Reading) ==> RunOk(s.running, s.enabled, s.suspended, Reading))
      && (RunOk(b.running, b.enabled, b.suspended, Writing) ==> RunOk(s.running, s.enabled, s.suspended, Writing))
  {
  }

  lemma UnsuspendFacts(b: Bev, d: Dir, why: Reason)
    ensures var s := Unsuspend(b, d, why);
      && s == b.(running := s.running, suspended := s.suspended)
      && (forall e, w :: Bit(s.suspended, e, w) <==> Bit(b.suspended, e, w) && !(e == d && w == why))
      && (RunOk(b.running, b.enabled, b.suspended, Reading) ==> RunOk(s.running, s.enabled, s.suspended, Reading))
      && (RunOk(b.running, b.enabled, b.suspended, Writing) ==> RunOk(s.running, s.enabled, s.suspended, Writing))
  {
  }

  /** An empty bucket suspends; the refill timer is pending while the bucket does. */
  ghost predicate DirOk(b: Bev, d: Dir) {
    && RunOk(b.running, b.enabled, b.suspended, d)
    && (Bit(b.suspended, d, BW) ==> b.timer)
    && (b.cfg.Some? ==>
          && InRange(b.bucket.limit.Get(d))
          && (!b.bucket.overflowed && b.bucket.limit.Get(d) <= 0 ==> Bit(b.suspended, d, BW)))
  }

  ghost predicate BevOk(b: Bev) {
    && DirOk(b, Reading) && DirOk(b, Writing)
    && (b.timer ==> Bit(b.suspended, Reading, BW) || Bit(b.suspended, Writing, BW))
    && (b.timer ==> b.cfg.Some?)
    && (b.cfg.Some? ==> CfgOk(b.cfg.value))
    && (b.cfg.Some? || b.group.Some? ==> b.limiting)
  }

  ghost predicate GroupDirOk(g: Group, d: Dir) {
    && !(g.suspended.Get(d) && g.pending.Get(d))
    && g.minShare <= g.cfg.rate.Get(d)
    && InRange(g.bucket.limit.Get(d))
  }

  /** A group whose bucket is empty is suspended. */
  ghost predicate Asleep(g: Group, d: Dir) {
    !g.bucket.overflowed && !g.everZeroShare && g.bucket.limit.Get(d) <= 0 ==> g.suspended.Get(d)
  }

  ghost predicate AllAsleep(groups: seq<Group>) {
    forall k :: 0 <= k < |groups| ==> Asleep(groups[k], Reading) && Asleep(groups[k], Writing)
  }

  ghost predicate GroupOk(g: Group) {
    && CfgOk(g.cfg) && NoDup(g.members) && g.nMembers == |g.members|
    && GroupDirOk(g, Reading) && GroupDirOk(g, Writing)
    && 0 <= g.minShare && 0 <= g.configured <= SSIZE_MAX && (!g.everZeroShare ==> g.minShare > 0 && g.configured > 0)
  }

  /** The group will look after its members again: it is suspended, so a refill will release it,
      or it is released and still owes some member its release. */
  predicate Waking(g: Group, d: Dir) {
    g.suspended.Get(d) || g.pending.Get(d)
  }

  /** A bufferevent held by its group belongs to one that will wake it. */
  ghost predicate HeldOk(b: Bev, groups: seq<Group>, d: Dir) {
    Bit(b.suspended, d, BW_GROUP) ==> b.group.Some? && b.group.value < |groups| && Waking(groups[b.group.value], d)
  }

  ghost predicate BevIn(bevs: seq<Bev>, groups: seq<Group>, x: nat)
    requires x < |bevs|
  {
    var b := bevs[x];
    && BevOk(b)
    && (b.group.Some? ==> b.group.value < |groups| && x in groups[b.group.value].members)
    && HeldOk(b, groups, Reading) && HeldOk(b, groups, Writing)
  }

  ghost predicate GroupIn(bevs: seq<Bev>, groups: seq<Group>, k: nat)
    requires k < |groups|
  {
    GroupOk(groups[k]) && forall x :: x in groups[k].members ==> x < |bevs| && bevs[x].group == Some(k)
  }

  /** A bufferevent that is half-way into a group has seen flags that still are owed. */
  ghost predicate JoinOk(bevs: seq<Bev>, groups: seq<Group>, x: nat, seen: Both<bool>) {
    && x < |bevs| && bevs[x].group.Some? && bevs[x].group.value < |groups|
    && (seen.r ==> Waking(groups[bevs[x].group.value], Reading))
    && (seen.w ==> Waking(groups[bevs[x].group.value], Writing))
  }

  ghost predicate Consistent(bevs: seq<Bev>, groups: seq<Group>, joining: map<nat, Both<bool>>) {
    && (forall x {:trigger BevIn(bevs, groups, x)} :: 0 <= x < |bevs| ==> BevIn(bevs, groups, x))
    && (forall k {:trigger GroupIn(bevs, groups, k)} :: 0 <= k < |groups| ==> GroupIn(bevs, groups, k))
    && (forall x {:trigger joining[x]} :: x in joining ==> JoinOk(bevs, groups, x, joining[x]))
  }

  // ---- One bufferevent ----

  /** Suspending for another reason than the own bucket, and the own bucket with its timer. */
  lemma SuspendOk(b: Bev, d: Dir, why: Reason)
    requires BevOk(b) && (why == BW ==> b.timer)
    ensures BevOk(Suspend(b, d, why))
    ensures forall e :: Bit(Suspend(b, d, why).suspended, e, BW_GROUP) <==>
      Bit(b.suspended, e, BW_GROUP) || (why == BW_GROUP && e == d)
  {
    hide Suspend, Bit, RunOk, InRange, CfgOk;
    SuspendFacts(b, d, why);
  }

  lemma UnsuspendOk(b: Bev, d: Dir, why: Reason)
    requires BevOk(b) && why != BW
    ensures BevOk(Unsuspend(b, d, why))
    ensures forall e :: Bit(Unsuspend(b, d, why).suspended, e, BW_GROUP) <==>
      Bit(b.suspended, e, BW_GROUP) && !(why == BW_GROUP && e == d)
  {
    hide Unsuspend, Bit, RunOk, InRange, CfgOk;
    UnsuspendFacts(b, d, why);
  }

  lemma SameGroup(b: Bev, d: Dir, why: Reason)
    ensures Suspend(b, d, why).group == b.group && Unsuspend(b, d, why).group == b.group
  {
  }

  // ---- The whole ----

  /** Changing one bufferevent that stays where it is and gets no bit its group does not back. */
  lemma PutBev(bevs: seq<Bev>, groups: seq<Group>, joining: map<nat, Both<bool>>, x: nat, b: Bev)
    requires Consistent(bevs, groups, joining) && x < |bevs|
    requires BevOk(b) && b.group == bevs[x].group
    requires forall d :: Bit(b.suspended, d, BW_GROUP) ==>
      || Bit(bevs[x].suspended, d, BW_GROUP)
      || (b.group.Some? && b.group.value < |groups| && Waking(groups[b.group.value], d))
    ensures Consistent(bevs[x := b], groups, joining)
  {
    hide BevOk, GroupOk, Waking, Bit;
    var bevs1 := bevs[x := b];
    forall y | 0 <= y < |bevs1| ensures BevIn(bevs1, groups, y) { assert BevIn(bevs, groups, y); }
    forall k | 0 <= k < |groups| ensures GroupIn(bevs1, groups, k) { assert GroupIn(bevs, groups, k); }
  }

  /** Changing a group that keeps its members and what it owes them. */
  lemma PutGroup(bevs: seq<Bev>, groups: seq<Group>, joining: map<nat, Both<bool>>, k: nat, g: Group)
    requires Consistent(bevs, groups, joining) && k < |groups|
    requires GroupOk(g) && g.members == groups[k].members
    requires forall d :: Waking(groups[k], d) ==> Waking(g, d)
    ensures Consistent(bevs, groups[k := g], joining)
  {
    hide BevOk, GroupOk, Waking, Bit;
    var groups1 := groups[k := g];
    forall y | 0 <= y < |bevs| ensures BevIn(bevs, groups1, y) { assert BevIn(bevs, groups, y); }
    forall j | 0 <= j < |groups| ensures GroupIn(bevs, groups1, j) { assert GroupIn(bevs, groups, j); }
  }

  /** The bufferevents once every member whose lock could be had is held. */
  ghost predicate AllHeld(bevs: seq<Bev>, bevs1: seq<Bev>, members: seq<nat>, busy: set<nat>, d: Dir) {
    |bevs1| == |bevs| && forall x :: 0 <= x < |bevs| ==>
      bevs1[x] == if x in members && x !in busy then Suspend(bevs[x], d, BW_GROUP) else bevs[x]
  }

  ghost predicate AllReleased(bevs: seq<Bev>, bevs1: seq<Bev>, members: seq<nat>, busy: set<nat>, d: Dir) {
    |bevs1| == |bevs| && forall x :: 0 <= x < |bevs| ==>
      bevs1[x] == if x in members && x !in busy then Unsuspend(bevs[x], d, BW_GROUP) else bevs[x]
  }

  lemma GroupHeld(bevs: seq<Bev>, groups: seq<Group>, joining: map<nat, Both<bool>>, k: nat, bevs1: seq<Bev>, g: Group,
      d: Dir, busy: set<nat>)
    requires Consistent(bevs, groups, joining) && k < |groups|
    requires AllHeld(bevs, bevs1, groups[k].members, busy, d)
    requires GroupOk(g) && g.members == groups[k].members
    requires forall e :: Waking(groups[k], e) || e == d ==> Waking(g, e)
    ensures Consistent(bevs1, groups[k := g], joining)
  {
    hide BevOk, GroupOk, Waking, Bit, Suspend;
    var groups1 := groups[k := g];
    SuspendKeepsGroup(bevs, d);
    assert GroupIn(bevs, groups, k);
    forall y | 0 <= y < |bevs1| ensures BevIn(bevs1, groups1, y) {
      assert BevIn(bevs, groups, y);
      SuspendOk(bevs[y], d, BW_GROUP);
    }
    forall j | 0 <= j < |groups| ensures GroupIn(bevs1, groups1, j) { assert GroupIn(bevs, groups, j); }
  }

  lemma SuspendKeepsGroup(bevs: seq<Bev>, d: Dir)
    ensures forall x :: 0 <= x < |bevs| ==> Suspend(bevs[x], d, BW_GROUP).group == bevs[x].group
    ensures forall x :: 0 <= x < |bevs| ==> Unsuspend(bevs[x], d, BW_GROUP).group == bevs[x].group
  {
  }

  /** Doing it again changes nothing. */
  lemma SuspendTwice(bevs: seq<Bev>, d: Dir)
    ensures forall x :: 0 <= x < |bevs| ==>
      Suspend(Suspend(bevs[x], d, BW_GROUP), d, BW_GROUP) == Suspend(bevs[x], d, BW_GROUP)
    ensures forall x :: 0 <= x < |bevs| ==>
      Unsuspend(Unsuspend(bevs[x], d, BW_GROUP), d, BW_GROUP) == Unsuspend(bevs[x], d, BW_GROUP)
  {
    forall x | 0 <= x < |bevs|
      ensures Suspend(Suspend(bevs[x], d, BW_GROUP), d, BW_GROUP) == Suspend(bevs[x], d, BW_GROUP)
      ensures Unsuspend(Unsuspend(bevs[x], d, BW_GROUP), d, BW_GROUP) == Unsuspend(bevs[x], d, BW_GROUP)
    {
      var s := bevs[x].suspended.Get(d);
      assert s + {BW_GROUP} + {BW_GROUP} == s + {BW_GROUP} && s - {BW_GROUP} - {BW_GROUP} == s - {BW_GROUP};
    }
  }

  /** Some member could not be locked. */
  ghost predicate Missed(members: seq<nat>, busy: set<nat>) {
    exists x :: x in members && x in busy
  }

  lemma ReleasedNone(bevs: seq<Bev>, busy: set<nat>, d: Dir)
    ensures AllReleased(bevs, bevs, [], busy, d) && !Missed([], busy)
  {
  }

  lemma ReleaseStep(bevs0: seq<Bev>, bevs: seq<Bev>, done: seq<nat>, x: nat, busy: set<nat>, d: Dir)
    requires AllReleased(bevs0, bevs, done, busy, d) && x < |bevs|
    ensures var bevs1 := if x in busy then bevs else bevs[x := Unsuspend(bevs[x], d, BW_GROUP)];
      AllReleased(bevs0, bevs1, done + [x], busy, d)
    ensures Missed(done + [x], busy) <==> Missed(done, busy) || x in busy
  {
    hide Unsuspend;
    SuspendTwice(bevs0, d);
    assert forall y :: y in done + [x] <==> y in done || y == x;
    if Missed(done, busy) {
      var y :| y in done && y in busy;
      assert y in done + [x];
    }
  }

  lemma ReleasedSame(bevs0: seq<Bev>, bevs: seq<Bev>, order: seq<nat>, members: seq<nat>, busy: set<nat>, d: Dir)
    requires AllReleased(bevs0, bevs, order, busy, d) && forall x :: x in order <==> x in members
    ensures AllReleased(bevs0, bevs, members, busy, d) && (Missed(order, busy) <==> Missed(members, busy))
  {
    hide Unsuspend;
  }

  /** Releasing a group: it may forget about its members only when none was missed; a bufferevent
      half-way into the group holds its own lock, so it counts as missed. */
  lemma GroupReleased(bevs: seq<Bev>, groups: seq<Group>, joining: map<nat, Both<bool>>, k: nat, bevs1: seq<Bev>,
      g: Group, d: Dir, busy: set<nat>)
    requires Consistent(bevs, groups, joining) && k < |groups|
    requires AllReleased(bevs, bevs1, groups[k].members, busy, d) && joining.Keys <= busy
    requires GroupOk(g) && g.members == groups[k].members
    requires forall e :: e != d && Waking(groups[k], e) ==> Waking(g, e)
    requires Missed(g.members, busy) ==> Waking(g, d)
    ensures Consistent(bevs1, groups[k := g], joining)
    ensures forall x :: x in g.members && x !in busy ==> x < |bevs1| && !Bit(bevs1[x].suspended, d, BW_GROUP)
  {
    hide BevOk, GroupOk, Waking, Bit, Unsuspend;
    var groups1 := groups[k := g];
    SuspendKeepsGroup(bevs, d);
    assert GroupIn(bevs, groups, k);
    forall y | 0 <= y < |bevs1|
      ensures BevIn(bevs1, groups1, y) && (y in g.members && y !in busy ==> !Bit(bevs1[y].suspended, d, BW_GROUP))
    {
      assert BevIn(bevs, groups, y);
      UnsuspendOk(bevs[y], d, BW_GROUP);
    }
    forall j | 0 <= j < |groups| ensures GroupIn(bevs1, groups1, j) { assert GroupIn(bevs, groups, j); }
    forall x | x in joining ensures JoinOk(bevs1, groups1, x, joining[x]) {
      assert JoinOk(bevs, groups, x, joining[x]);
      assert BevIn(bevs, groups, x);
    }
  }

  // ---- Membership ----

  /** Linking a bufferevent that is in no group. */
  lemma Linked(bevs: seq<Bev>, groups: seq<Group>, joining: map<nat, Both<bool>>, x: nat, k: nat)
    requires Consistent(bevs, groups, joining) && x < |bevs| && k < |groups| && bevs[x].group == None
    requires bevs[x].limiting
    ensures var g := groups[k];
      var g1 := g.(members := [x] + g.members, nMembers := g.nMembers + 1);
      Consistent(bevs[x := bevs[x].(group := Some(k))], groups[k := g1], joining[x := g.suspended])
  {
    hide Waking, Bit, InRange, CfgOk;
    assert BevIn(bevs, groups, x) && GroupIn(bevs, groups, k);
    var g := groups[k];
    var g1 := g.(members := [x] + g.members, nMembers := g.nMembers + 1);
    var b := bevs[x].(group := Some(k));
    assert x !in g.members;
    assert GroupOk(g1);
    assert BevOk(b);
    LinkedRest(bevs, groups, joining, x, k, b, g1);
  }

  lemma LinkedRest(bevs: seq<Bev>, groups: seq<Group>, joining: map<nat, Both<bool>>, x: nat, k: nat, b: Bev, g1: Group)
    requires Consistent(bevs, groups, joining) && x < |bevs| && k < |groups| && bevs[x].group == None
    requires GroupOk(g1) && BevOk(b) && b == bevs[x].(group := Some(k))
    requires g1 == groups[k].(members := [x] + groups[k].members, nMembers := groups[k].nMembers + 1)
    ensures Consistent(bevs[x := b], groups[k := g1], joining[x := groups[k].suspended])
  {
    hide BevOk, GroupOk;
    var bevs1, groups1, joining1 := bevs[x := b], groups[k := g1], joining[x := groups[k].suspended];
    forall y | 0 <= y < |bevs1| ensures BevIn(bevs1, groups1, y) { assert BevIn(bevs, groups, y); }
    forall j | 0 <= j < |groups| ensures GroupIn(bevs1, groups1, j) { assert GroupIn(bevs, groups, j); }
    forall y | y in joining1 ensures JoinOk(bevs1, groups1, y, joining1[y]) {
      if y != x { assert JoinOk(bevs, groups, y, joining[y]); }
    }
  }

  /** Unlinking a bufferevent and taking the group's bits off it. */
  lemma Unlinked(bevs: seq<Bev>, groups: seq<Group>, joining: map<nat, Both<bool>>, x: nat, k: nat)
    requires Consistent(bevs, groups, joining) && x < |bevs| && bevs[x].group == Some(k) && k < |groups|
    requires x !in joining
    ensures var g := groups[k];
      var g1 := g.(members := Without(g.members, x), nMembers := g.nMembers - 1);
      var b1 := Unsuspend(Unsuspend(bevs[x].(group := None), Reading, BW_GROUP), Writing, BW_GROUP);
      Consistent(bevs[x := b1], groups[k := g1], joining)
  {
    hide Waking, Bit, InRange, CfgOk, Unsuspend;
    assert BevIn(bevs, groups, x) && GroupIn(bevs, groups, k);
    var g := groups[k];
    WithoutFacts(g.members, x);
    var b := bevs[x].(group := None);
    assert BevOk(b);
    UnsuspendOk(b, Reading, BW_GROUP);
    UnsuspendOk(Unsuspend(b, Reading, BW_GROUP), Writing, BW_GROUP);
    var g1 := g.(members := Without(g.members, x), nMembers := g.nMembers - 1);
    assert GroupOk(g1);
    UnsuspendGroup(b);
    UnlinkedRest(bevs, groups, joining, x, k, Unsuspend(Unsuspend(b, Reading, BW_GROUP), Writing, BW_GROUP), g1);
  }

  lemma UnsuspendGroup(b: Bev)
    ensures Unsuspend(Unsuspend(b, Reading, BW_GROUP), Writing, BW_GROUP).group == b.group
  {
  }

  lemma UnlinkedRest(bevs: seq<Bev>, groups: seq<Group>, joining: map<nat, Both<bool>>, x: nat, k: nat, b: Bev,
      g1: Group)
    requires Consistent(bevs, groups, joining) && x < |bevs| && bevs[x].group == Some(k) && k < |groups|
    requires x !in joining
    requires BevOk(b) && b.group == None && !Bit(b.suspended, Reading, BW_GROUP) && !Bit(b.suspended, Writing, BW_GROUP)
    requires GroupOk(g1) && g1 == groups[k].(members := g1.members, nMembers := g1.nMembers)
    requires forall y :: y in g1.members <==> y in groups[k].members && y != x
    ensures Consistent(bevs[x := b], groups[k := g1], joining)
  {
    hide BevOk, GroupOk, Bit;
    var bevs1, groups1 := bevs[x := b], groups[k := g1];
    assert GroupIn(bevs, groups, k);
    forall y | 0 <= y < |bevs1| ensures BevIn(bevs1, groups1, y) { assert BevIn(bevs, groups, y); }
    forall j | 0 <= j < |groups| ensures GroupIn(bevs1, groups1, j) { assert GroupIn(bevs, groups, j); }
    forall y | y in joining
      ensures JoinOk(bevs1, groups1, y, joining[y])
    {
      assert JoinOk(bevs, groups, y, joining[y]);
    }
  }

  /** The half-way bufferevent takes the bits it saw. */
  lemma Joined(bevs: seq<Bev>, groups: seq<Group>, joining: map<nat, Both<bool>>, x: nat, b: Bev)
    requires Consistent(bevs, groups, joining) && x in joining && x < |bevs|
    requires BevOk(b) && b.group == bevs[x].group
    requires forall d :: Bit(b.suspended, d, BW_GROUP) ==> Bit(bevs[x].suspended, d, BW_GROUP) || joining[x].Get(d)
    ensures Consistent(bevs[x := b], groups, joining - {x})
  {
    hide BevOk, GroupOk, Waking, Bit;
    assert JoinOk(bevs, groups, x, joining[x]);
    PutBev(bevs, groups, joining, x, b);
  }

  lemma BevGrown(bevs: seq<Bev>, groups: seq<Group>, joining: map<nat, Both<bool>>, b: Bev)
    requires Consistent(bevs, groups, joining) && BevOk(b) && b.group == None && b.suspended == Both({}, {})
    ensures Consistent(bevs + [b], groups, joining)
  {
    hide BevOk, GroupOk, Waking;
    var bevs1 := bevs + [b];
    forall y | 0 <= y < |bevs1| ensures BevIn(bevs1, groups, y) { if y < |bevs| { assert BevIn(bevs, groups, y); } }
    forall j | 0 <= j < |groups| ensures GroupIn(bevs1, groups, j) { assert GroupIn(bevs, groups, j); }
  }

  lemma GroupGrown(bevs: seq<Bev>, groups: seq<Group>, joining: map<nat, Both<bool>>, g: Group)
    requires Consistent(bevs, groups, joining) && GroupOk(g) && g.members == []
    ensures Consistent(bevs, groups + [g], joining)
  {
    hide BevOk, GroupOk, Waking;
    var groups1 := groups + [g];
    forall y | 0 <= y < |bevs| ensures BevIn(bevs, groups1, y) { assert BevIn(bevs, groups, y); }
    forall j | 0 <= j < |groups1|
      ensures GroupIn(bevs, groups1, j)
    {
      if j < |groups| { assert GroupIn(bevs, groups, j); }
    }
  }
}
