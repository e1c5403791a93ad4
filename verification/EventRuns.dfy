/** Whole runs of an event base: whatever is added, deleted, activated and processed, in whatever
    order and at whatever times, the books stay straight and the next sleep misses no deadline. */
module EventRuns {
  import opened Basics
  import opened Queues
  import opened Timevals
  import opened EventState
  import opened EventBases

  datatype Step =
    | Assign(io: bool, persist: bool, internal: bool, pri: nat)
    | InitCommon(duration: Timeval)
    | Add(id: nat, tv: Option<Timeval>, ioFails: bool)
    | Del(id: nat)
    | Activate(id: nat, byTimeout: bool)
    | ActivateLater(id: nat, byTimeout: bool)
    | PromoteLater
    | TimeoutsDue
    | Process(pri: nat, ioFails: bool)

  /** The containers an event's flags name are the containers it is in; ACTIVE excludes
      ACTIVE_LATER; a timed event is where its own deadline says. */
  ghost predicate InPlace(b: EventBase, x: nat)
    reads b
    requires x < |b.evs|
  {
    var e := b.evs[x];
    && !(e.active && e.later)
    && (forall p :: 0 <= p < |b.activeQueues| ==> (x in b.activeQueues[p] <==> e.active && e.pri == p))
    && (x in b.laterQueue <==> e.later)
    && (x in b.heap <==> e.timed && CommonIndex(e.deadline, |b.common|) == None)
    && (forall i :: 0 <= i < |b.common| ==>
          (x in b.common[i].queue <==> e.timed && CommonIndex(e.deadline, |b.common|) == Some(i)))
  }

  lemma ValidMeansInPlace(b: EventBase)
    requires b.Valid()
    ensures forall x :: 0 <= x < |b.evs| ==> InPlace(b, x)
    ensures b.eventCountActive == TotalLength(b.activeQueues) + |b.laterQueue|
    ensures b.eventCount == Memberships(b.evs)
  {
    hide Key, CommonIndex, Proper, Watched, TotalLength, Memberships, Sorted;
    forall x | 0 <= x < |b.evs| ensures InPlace(b, x) {
      FlagsInPlace(b, x);
      TimerInPlace(b, x);
    }
  }

  lemma FlagsInPlace(b: EventBase, x: nat)
    requires b.Valid() && x < |b.evs|
    ensures var e := b.evs[x];
      && !(e.active && e.later)
      && (forall p :: 0 <= p < |b.activeQueues| ==> (x in b.activeQueues[p] <==> e.active && e.pri == p))
      && (x in b.laterQueue <==> e.later)
  {
    hide TimersOk, ProxiesOk, Watched, TotalLength, Memberships;
    assert ActiveFlagsOk(x, b.evs[x], b.activeQueues, b.laterQueue);
    forall p | 0 <= p < |b.activeQueues| ensures x in b.activeQueues[p] <==> b.evs[x].active && b.evs[x].pri == p {
      assert QueueOk(b.evs, b.activeQueues, p);
    }
  }

  lemma TimerInPlace(b: EventBase, x: nat)
    requires b.Valid() && x < |b.evs|
    ensures var e := b.evs[x];
      && (x in b.heap <==> e.timed && CommonIndex(e.deadline, |b.common|) == None)
      && (forall i :: 0 <= i < |b.common| ==>
            (x in b.common[i].queue <==> e.timed && CommonIndex(e.deadline, |b.common|) == Some(i)))
  {
    hide ActiveOk, ProxiesOk, Watched, TotalLength, Memberships, Key, CommonIndex, Proper, Sorted;
    if b.evs[x].timed { assert TimerFlagOk(x, b.evs[x], b.heap, b.common); }
    forall i | 0 <= i < |b.common|
      ensures x in b.common[i].queue <==> b.evs[x].timed && CommonIndex(b.evs[x].deadline, |b.common|) == Some(i)
    {
      assert ListOk(b.evs, b.common, i);
    }
  }

  /** A step; what the library would refuse or what makes no sense changes nothing. */
  method Perform(b: EventBase, step: Step, now: Timeval)
    requires b.Valid() && IntervalsOk(b.evs, |b.common|) && now.usec < MILLION
    modifies b
    ensures b.Valid() && IntervalsOk(b.evs, |b.common|)
  {
    hide EventBase.Valid, Usable, IntervalsOk, Key;
    match step {
      case Assign(_, _, _, _) => Extend(b, step);
      case InitCommon(_) => Extend(b, step);
      case Add(id, tv, ioFails) => AddOne(b, id, tv, now, ioFails);
      case Del(id) =>
        var i := b.FindProxy(id);
        if id < |b.evs| && i == |b.common| { b.DelEvent(id); }
        IntervalsKept(old(b.evs), b.evs, |b.common|);
      case Activate(id, byTimeout) =>
        if id < |b.evs| { b.ActivateEvent(id, byTimeout); }
        IntervalsKept(old(b.evs), b.evs, |b.common|);
      case ActivateLater(id, byTimeout) =>
        if id < |b.evs| { b.ActivateLater(id, byTimeout); }
        IntervalsKept(old(b.evs), b.evs, |b.common|);
      case PromoteLater =>
        b.MakeLaterActive();
        IntervalsKept(old(b.evs), b.evs, |b.common|);
      case TimeoutsDue =>
        b.TimeoutProcess(now);
        IntervalsKept(old(b.evs), b.evs, |b.common|);
      case Process(pri, ioFails) =>
        if pri < |b.activeQueues| && b.activeQueues[pri] != [] { var _ := b.ProcessFirst(pri, now, ioFails); }
    }
  }

  method Extend(b: EventBase, step: Step)
    requires b.Valid() && IntervalsOk(b.evs, |b.common|) && (step.Assign? || step.InitCommon?)
    modifies b
    ensures b.Valid() && IntervalsOk(b.evs, |b.common|)
  {
    hide EventBase.Valid, Usable, Key, SameQueue;
    match step {
      case Assign(io, persist, internal, pri) =>
        if pri < |b.activeQueues| { var _ := b.NewEvent(io, persist, internal, pri); }
      case InitCommon(duration) =>
        if |b.activeQueues| > 0 {
          IntervalsGrow(b.evs, |b.common|);
          ghost var evs0 := b.evs;
          var _ := b.InitCommonTimeout(duration);
          assert forall x :: 0 <= x < |evs0| ==> b.evs[x] == evs0[x];
        }
    }
  }

  method AddOne(b: EventBase, id: nat, tv: Option<Timeval>, now: Timeval, ioFails: bool)
    requires b.Valid() && IntervalsOk(b.evs, |b.common|) && now.usec < MILLION
    modifies b
    ensures b.Valid() && IntervalsOk(b.evs, |b.common|)
  {
    hide EventBase.Valid, Usable, Key, SameQueue, CommonIndex, Proper, DeadlineFor, IsProxy;
    var i := b.FindProxy(id);
    if id < |b.evs| && i == |b.common| && (tv.Some? ==> Usable(tv.value, false, |b.common|)) {
      ghost var e, evs0 := b.evs[id], b.evs;
      if tv.Some? { DeadlineSameQueue(tv.value, now, |b.common|); }
      var res := b.Add(id, tv, false, now, ioFails);
      assert IntervalOk(e, |b.common|);
      assert IntervalOk(b.evs[id], |b.common|);
      IntervalsKept(evs0[id := b.evs[id]], b.evs, |b.common|);
    }
  }

  /** Every common-timeout queue is in the order of its deadlines, and its proxy is active or in the
      heap for no later than its head. */
  ghost predicate QueueGuarded(b: EventBase, i: nat)
    reads b
    requires i < |b.common|
  {
    var l := b.common[i];
    && (forall j :: 0 <= j < |l.queue| ==> l.queue[j] < |b.evs|)
    && (forall j, k :: 0 <= j < k < |l.queue| ==> Key(b.evs[l.queue[j]].deadline) <= Key(b.evs[l.queue[k]].deadline))
    && (l.queue != [] ==>
          && l.proxy < |b.evs|
          && var p := b.evs[l.proxy];
             p.active || (l.proxy in b.heap && Key(p.deadline) <= Key(b.evs[l.queue[0]].deadline)))
  }

  lemma ValidMeansGuarded(b: EventBase)
    requires b.Valid()
    ensures forall i :: 0 <= i < |b.common| ==> QueueGuarded(b, i)
  {
    hide Key, CommonIndex, Proper, TotalLength, Memberships, ActiveOk;
    forall i | 0 <= i < |b.common| ensures QueueGuarded(b, i) {
      var l := b.common[i];
      assert ListOk(b.evs, b.common, i);
      assert Watched(b.evs, b.common, i);
      assert ProxyOk(b.evs, b.common, i);
      if l.queue != [] && !b.evs[l.proxy].active { assert TimerFlagOk(l.proxy, b.evs[l.proxy], b.heap, b.common); }
    }
  }

  /** Any run from a new base: every event is where its flags say, both counters are right, queues
      are sorted and watched, and the wait before the next dispatch is zero, or exactly the time to
      the first pending timeout. */
  method Run(npriorities: nat, steps: seq<(Step, Timeval)>, now: Timeval) returns (b: EventBase, wait: Option<nat>)
    requires forall k :: 0 <= k < |steps| ==> steps[k].1.usec < MILLION
    ensures b.Valid() && IntervalsOk(b.evs, |b.common|)
    ensures forall x :: 0 <= x < |b.evs| ==> InPlace(b, x)
    ensures forall i :: 0 <= i < |b.common| ==> QueueGuarded(b, i)
    ensures b.eventCountActive == TotalLength(b.activeQueues) + |b.laterQueue| && b.eventCount == Memberships(b.evs)
    ensures WaitRight(b.evs, b.eventCountActive, now, wait)
  {
    hide EventBase.Valid, InPlace, QueueGuarded, Memberships, TotalLength, WaitRight;
    b := new EventBase(npriorities);
    for k := 0 to |steps|
      invariant b.Valid() && IntervalsOk(b.evs, |b.common|) && fresh(b)
    {
      Perform(b, steps[k].0, steps[k].1);
    }
    wait := b.LoopWait(now);
    ValidMeansInPlace(b);
    ValidMeansGuarded(b);
  }
}
