/** The event_base operations: adding, deleting and activating events, timeouts and common
    timeouts.  Every operation keeps the books straight, and no deadline is slept through. */
module EventBases {
  import opened Basics
  import opened Queues
  import opened Timevals
  import opened EventState

  const MAX_COMMON_TIMEOUTS := 256

  /** The event that stands for a common-timeout queue: internal, and itself never common. */
  ghost predicate ProxyOk(evs: seq<Event>, common: seq<CommonList>, i: nat)
    requires i < |common|
  {
    var x := common[i].proxy;
    && CommonIndex(common[i].duration, |common|) == Some(i)
    && x < |evs| && evs[x].internal && !evs[x].io && !evs[x].inserted && evs[x].interval == NO_INTERVAL
    && (evs[x].timed ==> CommonIndex(evs[x].deadline, |common|) == None)
    && forall j :: 0 <= j < |common| && j != i ==> common[j].proxy != x
  }

  ghost predicate ProxiesOk(evs: seq<Event>, common: seq<CommonList>) {
    && |common| <= MAX_COMMON_TIMEOUTS
    && forall i {:trigger ProxyOk(evs, common, i)} :: 0 <= i < |common| ==> ProxyOk(evs, common, i)
  }

  ghost predicate IsProxy(common: seq<CommonList>, x: nat) {
    exists i :: 0 <= i < |common| && common[i].proxy == x
  }

  /** A non-empty queue has its proxy about to run, or in the heap for no later than its head. */
  ghost predicate Watched(evs: seq<Event>, common: seq<CommonList>, i: nat)
    requires i < |common|
  {
    var l := common[i];
    l.queue != [] ==>
      && l.proxy < |evs| && l.queue[0] < |evs|
      && var p := evs[l.proxy];
         p.active || (p.timed && Key(p.deadline) <= Key(evs[l.queue[0]].deadline))
  }

  /** What an operation on event `id` keeps of the watch over the queues. */
  ghost predicate WatchKept(evs: seq<Event>, common: seq<CommonList>, evs1: seq<Event>, common1: seq<CommonList>,
      id: nat) {
    && SameProxies(common, common1)
    && forall i {:trigger Watched(evs1, common1, i)} :: 0 <= i < |common| ==>
         (common[i].proxy != id && Watched(evs, common, i) ==> Watched(evs1, common1, i))
  }

  ghost predicate SameProxies(common: seq<CommonList>, common1: seq<CommonList>) {
    && |common1| == |common|
    && forall i :: 0 <= i < |common| ==>
         common1[i].proxy == common[i].proxy && common1[i].duration == common[i].duration
  }

  /** Changes to `id` that leave its timer alone. */
  lemma WatchSame(evs: seq<Event>, common: seq<CommonList>, id: nat, e: Event)
    requires id < |evs| && e.deadline == evs[id].deadline
    ensures WatchKept(evs, common, evs[id := e], common, id)
  {
    hide Key;
    var evs1 := evs[id := e];
    forall i | 0 <= i < |common| && common[i].proxy != id && Watched(evs, common, i) ensures Watched(evs1, common, i) {
    }
  }

  lemma ProxiesSame(evs: seq<Event>, common: seq<CommonList>, id: nat, e: Event)
    requires ProxiesOk(evs, common) && id < |evs|
    requires e.internal == evs[id].internal && e.io == evs[id].io
    requires (IsProxy(common, id) ==> e.interval == evs[id].interval)
    requires IsProxy(common, id) ==> !e.inserted && (e.timed ==> CommonIndex(e.deadline, |common|) == None)
    ensures ProxiesOk(evs[id := e], common)
  {
    hide CommonIndex;
    var evs1 := evs[id := e];
    forall i | 0 <= i < |common| ensures ProxyOk(evs1, common, i) {
      assert ProxyOk(evs, common, i);
    }
  }

  /** The proxies stay when only the queues change. */
  lemma ProxiesSameQueues(evs: seq<Event>, common: seq<CommonList>, common1: seq<CommonList>)
    requires ProxiesOk(evs, common) && SameProxies(common, common1)
    ensures ProxiesOk(evs, common1)
  {
    hide CommonIndex;
    forall i | 0 <= i < |common1| ensures ProxyOk(evs, common1, i) {
      assert ProxyOk(evs, common, i);
    }
  }

  /** Taking an event out of a queue can only move the head to a later deadline. */
  lemma WatchAfterRemoval(evs: seq<Event>, common: seq<CommonList>, id: nat, e: Event, i: nat)
    requires id < |evs| && e.deadline == evs[id].deadline && i < |common| && id in common[i].queue
    requires Sorted(evs, common[i].queue)
    ensures WatchKept(evs, common, evs[id := e], common[i := common[i].(queue := Without(common[i].queue, id))], id)
  {
    hide Key, Without;
    var q := common[i].queue;
    var evs1, common1 := evs[id := e], common[i := common[i].(queue := Without(q, id))];
    SortedWithout(evs, evs1, q, id);
    forall j | 0 <= j < |common| && common[j].proxy != id && Watched(evs, common, j) ensures Watched(evs1, common1, j) {
    }
  }

  /** The common-timeout queues once event `id`, which was `e`, is out of its queue. */
  function QueuesWithout(common: seq<CommonList>, e: Event, id: nat): seq<CommonList> {
    match CommonIndex(e.deadline, |common|)
    case None => common
    case Some(i) =>
      if e.timed && i < |common| && id in common[i].queue
      then common[i := common[i].(queue := Without(common[i].queue, id))] else common
  }

  lemma HeapOnly(common: seq<CommonList>, e: Event, id: nat)
    ensures CommonIndex(e.deadline, |common|) == None ==> QueuesWithout(common, e, id) == common
  {
  }

  /** An event whose time has come: out of everything else, and active for EV_TIMEOUT. */
  function Expired(e: Event): Event {
    e.(inserted := false, active := true, later := false, timed := false, resTimeout := true)
  }

  /** Exactly the events of a queue that are due have left it and are active; of the others none but
      its proxy has changed. */
  ghost predicate DueTaken(evs: seq<Event>, evs1: seq<Event>, q: seq<nat>, q1: seq<nat>, proxy: nat, now: Timeval) {
    && |evs1| == |evs|
    && (forall x :: x in q1 ==> x in q)
    && (forall x :: x in q ==> x < |evs| && x != proxy && (x in q1 <==> Key(evs[x].deadline) > Key(now)))
    && forall x :: 0 <= x < |evs| && x != proxy ==>
         evs1[x] == if x in q && x !in q1 then Expired(evs[x]) else evs[x]
  }

  /** The wait before a dispatch: zero exactly if something is active or due, otherwise exactly the
      time to the first deadline, and for ever exactly if there is none. */
  ghost predicate WaitRight(evs: seq<Event>, active: int, now: Timeval, wait: Option<nat>) {
    if active > 0 then wait == Some(0)
    else
      && (wait == None <==> forall x :: 0 <= x < |evs| ==> !evs[x].timed)
      && (wait == Some(0) <==> exists x :: 0 <= x < |evs| && evs[x].timed && Key(evs[x].deadline) <= Key(now))
      && (wait.Some? && wait.value > 0 ==>
            && (exists x :: 0 <= x < |evs| && evs[x].timed && Key(now) + wait.value == Key(evs[x].deadline))
            && (forall x :: 0 <= x < |evs| && evs[x].timed ==> Key(now) + wait.value <= Key(evs[x].deadline)))
  }

  lemma HeapTimed(evs: seq<Event>, heap: set<nat>, common: seq<CommonList>)
    requires TimersOk(evs, heap, common)
    ensures forall x :: x in heap ==> x < |evs| && evs[x].timed
  {
    hide Key;
  }

  predicate IsHead(q: seq<nat>, id: nat) {
    q != [] && q[0] == id
  }

  /** Putting an event in keeps the watch, except over a queue it becomes the head of. */
  ghost predicate WatchButHead(evs: seq<Event>, common: seq<CommonList>, evs1: seq<Event>, common1: seq<CommonList>,
      id: nat) {
    && SameProxies(common, common1)
    && forall i {:trigger Watched(evs1, common1, i)} :: 0 <= i < |common| ==>
         (common[i].proxy != id && Watched(evs, common, i) && !IsHead(common1[i].queue, id) ==>
           Watched(evs1, common1, i))
  }

  lemma WatchAfterInsertion(evs: seq<Event>, common: seq<CommonList>, id: nat, e: Event, i: nat, pos: nat)
    requires id < |evs| && i < |common| && pos <= |common[i].queue|
    requires forall j :: 0 <= j < |common| ==> id !in common[j].queue
    ensures
      var q := common[i].queue;
      WatchButHead(evs, common, evs[id := e], common[i := common[i].(queue := q[..pos] + [id] + q[pos..])], id)
  {
    hide Key;
    var q := common[i].queue;
    var evs1, common1 := evs[id := e], common[i := common[i].(queue := q[..pos] + [id] + q[pos..])];
    forall j | 0 <= j < |common| && common[j].proxy != id && Watched(evs, common, j) && !IsHead(common1[j].queue, id)
      ensures Watched(evs1, common1, j)
    {
      if common[j].queue != [] { assert common[j].queue[0] in common[j].queue; }
    }
  }

  /** Putting an event in the heap. */
  lemma WatchAfterHeap(evs: seq<Event>, common: seq<CommonList>, id: nat, e: Event)
    requires id < |evs| && forall j :: 0 <= j < |common| ==> id !in common[j].queue
    ensures WatchButHead(evs, common, evs[id := e], common, id)
    ensures forall j :: 0 <= j < |common| && common[j].queue != [] ==> common[j].queue[0] != id
  {
    hide Key;
    var evs1 := evs[id := e];
    forall j | 0 <= j < |common| && common[j].queue != [] ensures common[j].queue[0] != id {
      assert common[j].queue[0] in common[j].queue;
    }
    forall j | 0 <= j < |common| && common[j].proxy != id && Watched(evs, common, j) ensures Watched(evs1, common, j) {
    }
  }

  lemma NotQueued(evs: seq<Event>, heap: set<nat>, common: seq<CommonList>, id: nat)
    requires TimersOk(evs, heap, common) && id < |evs| && !evs[id].timed
    ensures forall j :: 0 <= j < |common| ==> id !in common[j].queue
  {
    forall j | 0 <= j < |common| ensures id !in common[j].queue { assert ListOk(evs, common, j); }
  }

  lemma WatchTrans(evs: seq<Event>, common: seq<CommonList>, evs1: seq<Event>, common1: seq<CommonList>,
                   evs2: seq<Event>, common2: seq<CommonList>, id: nat)
    requires WatchKept(evs, common, evs1, common1, id)
    ensures WatchKept(evs1, common1, evs2, common2, id) ==> WatchKept(evs, common, evs2, common2, id)
    ensures WatchButHead(evs1, common1, evs2, common2, id) ==> WatchButHead(evs, common, evs2, common2, id)
  {
    hide Watched;
    assert forall i {:trigger Watched(evs2, common2, i)} ::
      0 <= i < |common2| && i < |common| && Watched(evs, common, i) && common[i].proxy != id ==>
      Watched(evs1, common1, i);
  }

  lemma SameIsProxy(common: seq<CommonList>, common1: seq<CommonList>, id: nat)
    requires SameProxies(common, common1)
    ensures IsProxy(common, id) <==> IsProxy(common1, id)
  {
  }

  lemma WatchRefl(evs: seq<Event>, common: seq<CommonList>, id: nat)
    ensures WatchKept(evs, common, evs, common, id)
  {
  }

  /** Every queue is watched still after an operation on an event that is no proxy, or that is an
      active proxy. */
  lemma WatchedAfter(evs: seq<Event>, common: seq<CommonList>, evs1: seq<Event>, common1: seq<CommonList>, id: nat)
    requires WatchKept(evs, common, evs1, common1, id)
    requires forall i {:trigger Watched(evs, common, i)} :: 0 <= i < |common| ==>
      Watched(evs, common, i) || common[i].proxy == id
    requires IsProxy(common, id) ==> id < |evs1| && evs1[id].active
    requires forall i :: 0 <= i < |common1| && common1[i].queue != [] ==> common1[i].queue[0] < |evs1|
    ensures forall i {:trigger Watched(evs1, common1, i)} :: 0 <= i < |common1| ==> Watched(evs1, common1, i)
  {
    hide Key;
  }

  lemma HeadsKnown(evs: seq<Event>, heap: set<nat>, common: seq<CommonList>)
    requires TimersOk(evs, heap, common)
    ensures forall i :: 0 <= i < |common| && common[i].queue != [] ==> common[i].queue[0] < |evs|
  {
    forall i | 0 <= i < |common| && common[i].queue != []
      ensures common[i].queue[0] < |evs|
    {
      assert ListOk(evs, common, i);
    }
  }

  /** A relative delay or an absolute time that event_add_nolock_ can take. */
  predicate Usable(tv: Timeval, absolute: bool, n: nat) {
    if absolute then Proper(tv, n)
    else if CommonIndex(tv, n).Some? then Micro(tv) <= MILLION
    else tv.usec < MILLION
  }

  /** ev_timeout as event_add_nolock_ computes it. */
  function DeadlineFor(tv: Timeval, absolute: bool, now: Timeval, n: nat): (r: Timeval)
    requires Usable(tv, absolute, n) && now.usec < MILLION
    ensures Proper(r, n) && CommonIndex(r, n) == CommonIndex(tv, n)
    ensures Key(r) == if absolute then Key(tv) else Key(now) + tv.sec * MILLION + Micro(tv)
  {
    if absolute then tv
    else
      match CommonIndex(tv, n)
      case Some(i) =>
        IndexSmall(tv, n);
        var t := TimerAdd(now, tv.sec, Micro(tv));
        WithIndex(t.sec, t.usec, i)
      case None =>
        PlainIndex(tv, n);
        var t := TimerAdd(now, tv.sec, tv.usec);
        PlainIndex(t, n);
        t
  }

  // ---- Persistent timeouts ----

  /** What event_persist_closure asserts of an event with an interval, and what it needs. */
  predicate IntervalOk(e: Event, n: nat) {
    e.interval == NO_INTERVAL ||
    (e.persist && Usable(e.interval, false, n) && SameQueue(e.deadline, e.interval) && Micro(e.deadline) < MILLION)
  }

  ghost predicate IntervalsOk(evs: seq<Event>, n: nat) {
    forall x :: 0 <= x < |evs| ==> IntervalOk(evs[x], n)
  }

  /** No interval has changed, and only events without one have another deadline. */
  ghost predicate SameIntervals(evs: seq<Event>, evs1: seq<Event>) {
    |evs1| == |evs| && forall x :: 0 <= x < |evs| ==> SameInterval(evs[x], evs1[x])
  }

  ghost predicate SameInterval(e: Event, e1: Event) {
    e1.interval == e.interval && e1.persist == e.persist && (e1.deadline == e.deadline || e1.interval == NO_INTERVAL)
  }

  lemma IntervalsKept(evs: seq<Event>, evs1: seq<Event>, n: nat)
    requires IntervalsOk(evs, n) && SameIntervals(evs, evs1)
    ensures IntervalsOk(evs1, n)
  {
    hide Usable, SameQueue;
    forall x | 0 <= x < |evs1|
      ensures IntervalOk(evs1[x], n)
    {
      assert IntervalOk(evs[x], n) && SameInterval(evs[x], evs1[x]);
    }
  }

  lemma IntervalsGrow(evs: seq<Event>, n: nat)
    requires IntervalsOk(evs, n)
    ensures IntervalsOk(evs, n + 1)
  {
    forall x | 0 <= x < |evs| ensures IntervalOk(evs[x], n + 1) {
      assert IntervalOk(evs[x], n);
      if evs[x].interval != NO_INTERVAL { UsableGrows(evs[x].interval, n); }
    }
  }

  lemma UsableGrows(tv: Timeval, n: nat)
    requires Usable(tv, false, n)
    ensures Usable(tv, false, n + 1)
  {
    if CommonIndex(tv, n) == None {
      PlainIndex(tv, n + 1);
    } else {
      IndexGrows(tv, n);
    }
  }

  /** run_at: an interval after the time it was scheduled for if that is why it ran, otherwise, or if
      that is past, an interval from now. */
  function RunAt(e: Event, now: Timeval, n: nat): (r: Timeval)
    requires IntervalOk(e, n) && e.interval != NO_INTERVAL && now.usec < MILLION
    ensures Proper(r, n) && SameQueue(r, e.interval)
    ensures var step := e.interval.sec * MILLION + Micro(e.interval);
      var at := Key(if e.resTimeout then e.deadline else now) + step;
      Key(r) == if at < Key(now) then Key(now) + step else at
  {
    var micro := Micro(e.interval);
    IntervalMicro(e, n);
    PlainIndex(now, n);
    var base := if e.resTimeout then Timeval(e.deadline.sec, Micro(e.deadline)) else now;
    PlainIndex(base, n);
    var at := TimerAdd(base, e.interval.sec, micro);
    var t := if Key(at) < Key(now) then TimerAdd(now, e.interval.sec, micro) else at;
    PlainIndex(t, n);
    match CommonIndex(e.interval, n)
    case Some(i) =>
      IndexSmall(e.interval, n);
      UsecOf(e.interval, n);
      WithIndex(t.sec, t.usec, i)
    case None => t
  }

  lemma IntervalMicro(e: Event, n: nat)
    requires IntervalOk(e, n) && e.interval != NO_INTERVAL
    ensures Micro(e.interval) <= MILLION
    ensures (CommonIndex(e.interval, n) == None ==> e.interval.usec == Micro(e.interval))
  {
    if CommonIndex(e.interval, n) == None { PlainIndex(e.interval, n); }
  }

  /** A relative delay and the deadline it makes name the same queue. */
  lemma DeadlineSameQueue(tv: Timeval, now: Timeval, n: nat)
    requires Usable(tv, false, n) && now.usec < MILLION
    ensures var d := DeadlineFor(tv, false, now, n); SameQueue(d, tv) && Micro(d) < MILLION
  {
    var d := DeadlineFor(tv, false, now, n);
    if CommonIndex(tv, n).Some? {
      UsecOf(tv, n);
      UsecOf(d, n);
    } else {
      PlainIndex(tv, n);
      if d.usec < MILLION { PlainIndex(d, n); }
    }
  }

  /** A persistent event, out of the active queue, after event_persist_closure has added it again. */
  function Rescheduled(e: Event, now: Timeval, n: nat, ioFails: bool): Event
    requires IntervalOk(e, n) && e.interval != NO_INTERVAL && now.usec < MILLION && !e.active
  {
    var wants := e.io && !e.inserted && !e.later;
    if wants && ioFails then e
    else e.(inserted := e.inserted || wants, timed := true, deadline := RunAt(e, now, n))
  }

  /** An event after its callback has been taken off its queue. */
  ghost function Processed(e: Event, now: Timeval, n: nat, ioFails: bool): Event {
    if !e.persist then e.(inserted := false, active := false, later := false, timed := false)
    else if e.interval == NO_INTERVAL || !IntervalOk(e, n) || now.usec >= MILLION then e.(active := false)
    else Rescheduled(e.(active := false), now, n, ioFails)
  }

  lemma RescheduledOk(e: Event, e1: Event, at: Timeval, n: nat)
    requires IntervalOk(e, n) && e1.interval == e.interval && e1.persist == e.persist
    requires (e1.deadline == e.deadline || e1.deadline == at)
    requires SameQueue(at, e.interval) && Micro(at) < MILLION
    ensures IntervalOk(e1, n)
  {
  }

  lemma ProperMicro(tv: Timeval, n: nat)
    requires Proper(tv, n)
    ensures Micro(tv) < MILLION && Usable(tv, true, n)
  {
  }

  lemma IndexSmall(tv: Timeval, n: nat)
    requires CommonIndex(tv, n).Some?
    ensures CommonIndex(tv, n).value < 256 && CommonIndex(tv, n).value < n
  {
  }

  class EventBase {
    /** The events the base knows, by number. */
    var evs: seq<Event>
    var activeQueues: seq<seq<nat>>
    var laterQueue: seq<nat>
    /** The min-heap, as the set of events in it. */
    var heap: set<nat>
    var common: seq<CommonList>
    var eventCount: int
    var eventCountActive: int

    /** The books are straight. */
    ghost predicate Sound()
      reads this
    {
      && ActiveOk(evs, activeQueues, laterQueue)
      && TimersOk(evs, heap, common)
      && ProxiesOk(evs, common)
      && eventCountActive == TotalLength(activeQueues) + |laterQueue|
      && eventCount == Memberships(evs)
    }

    ghost predicate WatchedAll()
      reads this
    {
      forall i {:trigger Watched(evs, common, i)} :: 0 <= i < |common| ==> Watched(evs, common, i)
    }

    /** What holds between operations. */
    ghost predicate Valid()
      reads this
    {
      Sound() && WatchedAll()
    }

    constructor (npriorities: nat)
      ensures Valid() && evs == [] && common == []
    {
      evs, laterQueue, heap, common := [], [], {}, [];
      activeQueues := seq(npriorities, _ => []);
      eventCount, eventCountActive := 0, 0;
      new;
      NothingQueued(activeQueues);
      assert forall p :: 0 <= p < |activeQueues| ==> activeQueues[p] == [];
    }

    // ---- The event_queue_* functions ----

    /** event_queue_remove_active. */
    method RemoveActive(id: nat)
      requires Sound() && id < |evs| && evs[id].active
      modifies this`evs, this`activeQueues, this`eventCount, this`eventCountActive
      ensures Sound() && evs == old(evs)[id := old(evs)[id].(active := false)]
      ensures WatchKept(old(evs), common, evs, common, id)
      ensures var p := old(evs)[id].pri;
        p < |old(activeQueues)| && activeQueues == old(activeQueues)[p := Without(old(activeQueues)[p], id)]
    {
      hide ActiveOk, TimersOk, ProxiesOk, TotalLength, Memberships, WatchKept, Without;
      var e := evs[id].(active := false);
      ActiveRemoved(evs, activeQueues, laterQueue, id);
      TimersKept(evs, heap, common, id, e);
      ProxyFlags(evs, common, id);
      ProxiesSame(evs, common, id, e);
      MembershipsUpdate(evs, id, e);
      WatchSame(evs, common, id, e);
      eventCount := eventCount - Bit(!e.internal);
      eventCountActive := eventCountActive - 1;
      activeQueues := activeQueues[e.pri := Without(activeQueues[e.pri], id)];
      evs := evs[id := e];
    }

    /** event_queue_insert_active. */
    method InsertActive(id: nat)
      requires Sound() && id < |evs| && !evs[id].active && !evs[id].later
      modifies this`evs, this`activeQueues, this`eventCount, this`eventCountActive
      ensures Sound() && evs == old(evs)[id := old(evs)[id].(active := true)]
      ensures WatchKept(old(evs), common, evs, common, id)
      ensures var p := old(evs)[id].pri;
        p < |old(activeQueues)| && activeQueues == old(activeQueues)[p := old(activeQueues)[p] + [id]]
    {
      hide ActiveOk, TimersOk, ProxiesOk, TotalLength, Memberships, WatchKept;
      var e := evs[id].(active := true);
      ActiveInserted(evs, activeQueues, laterQueue, id);
      TimersKept(evs, heap, common, id, e);
      ProxyFlags(evs, common, id);
      ProxiesSame(evs, common, id, e);
      MembershipsUpdate(evs, id, e);
      WatchSame(evs, common, id, e);
      eventCount := eventCount + Bit(!e.internal);
      eventCountActive := eventCountActive + 1;
      activeQueues := activeQueues[e.pri := activeQueues[e.pri] + [id]];
      evs := evs[id := e];
    }

    /** event_queue_remove_active_later. */
    method RemoveLater(id: nat)
      requires Sound() && id < |evs| && evs[id].later
      modifies this`evs, this`laterQueue, this`eventCount, this`eventCountActive
      ensures Sound() && evs == old(evs)[id := old(evs)[id].(later := false)]
      ensures WatchKept(old(evs), common, evs, common, id)
      ensures laterQueue == Without(old(laterQueue), id)
    {
      hide ActiveOk, TimersOk, ProxiesOk, TotalLength, Memberships, WatchKept, Without;
      var e := evs[id].(later := false);
      LaterRemoved(evs, activeQueues, laterQueue, id);
      TimersKept(evs, heap, common, id, e);
      ProxyFlags(evs, common, id);
      ProxiesSame(evs, common, id, e);
      MembershipsUpdate(evs, id, e);
      WatchSame(evs, common, id, e);
      eventCount := eventCount - Bit(!e.internal);
      eventCountActive := eventCountActive - 1;
      laterQueue := Without(laterQueue, id);
      evs := evs[id := e];
    }

    /** event_queue_insert_active_later. */
    method InsertLater(id: nat)
      requires Sound() && id < |evs| && !evs[id].active && !evs[id].later
      modifies this`evs, this`laterQueue, this`eventCount, this`eventCountActive
      ensures Sound() && evs == old(evs)[id := old(evs)[id].(later := true)]
      ensures WatchKept(old(evs), common, evs, common, id)
      ensures laterQueue == old(laterQueue) + [id]
    {
      hide ActiveOk, TimersOk, ProxiesOk, TotalLength, Memberships, WatchKept;
      var e := evs[id].(later := true);
      LaterInserted(evs, activeQueues, laterQueue, id);
      TimersKept(evs, heap, common, id, e);
      ProxyFlags(evs, common, id);
      ProxiesSame(evs, common, id, e);
      MembershipsUpdate(evs, id, e);
      WatchSame(evs, common, id, e);
      eventCount := eventCount + Bit(!e.internal);
      eventCountActive := eventCountActive + 1;
      laterQueue := laterQueue + [id];
      evs := evs[id := e];
    }

    /** event_queue_insert_inserted and event_queue_remove_inserted. */
    method SetInserted(id: nat, inserted: bool)
      requires Sound() && id < |evs| && evs[id].inserted != inserted && evs[id].io
      modifies this`evs, this`eventCount
      ensures Sound() && evs == old(evs)[id := old(evs)[id].(inserted := inserted)]
      ensures WatchKept(old(evs), common, evs, common, id)
    {
      hide ActiveOk, TimersOk, ProxiesOk, TotalLength, Memberships, WatchKept;
      var e := evs[id].(inserted := inserted);
      ActiveKept(evs, activeQueues, laterQueue, id, e);
      TimersKept(evs, heap, common, id, e);
      ProxyFlags(evs, common, id);
      ProxiesSame(evs, common, id, e);
      MembershipsUpdate(evs, id, e);
      WatchSame(evs, common, id, e);
      eventCount := if inserted then eventCount + Bit(!e.internal) else eventCount - Bit(!e.internal);
      evs := evs[id := e];
    }

    /** Note in ev_res whether the event is active because of a timeout. */
    method SetResult(id: nat, resTimeout: bool)
      requires Sound() && id < |evs|
      modifies this`evs
      ensures Sound() && evs == old(evs)[id := old(evs)[id].(resTimeout := resTimeout)]
      ensures WatchKept(old(evs), common, evs, common, id)
      ensures old(WatchedAll()) ==> WatchedAll()
    {
      hide ActiveOk, TimersOk, ProxiesOk, TotalLength, Memberships, Key;
      var e := evs[id].(resTimeout := resTimeout);
      ActiveKept(evs, activeQueues, laterQueue, id, e);
      TimersKept(evs, heap, common, id, e);
      ProxyFlags(evs, common, id);
      ProxiesSame(evs, common, id, e);
      MembershipsUpdate(evs, id, e);
      WatchSame(evs, common, id, e);
      evs := evs[id := e];
      forall i | 0 <= i < |common| && Watched(old(evs), common, i) ensures Watched(evs, common, i) { }
    }

    /** event_queue_remove_timeout. */
    method RemoveTimeout(id: nat)
      requires Sound() && id < |evs| && evs[id].timed
      modifies this`evs, this`heap, this`common, this`eventCount
      ensures Sound() && evs == old(evs)[id := old(evs)[id].(timed := false)]
      ensures WatchKept(old(evs), old(common), evs, common, id) && SameProxies(old(common), common)
      ensures heap == old(heap) - {id}
      ensures common == QueuesWithout(old(common), old(evs)[id], id)
    {
      hide ActiveOk, ProxiesOk, TotalLength, Memberships, WatchKept, Without, Sorted;
      var e := evs[id].(timed := false);
      ActiveKept(evs, activeQueues, laterQueue, id, e);
      ProxyFlags(evs, common, id);
      ProxiesSame(evs, common, id, e);
      MembershipsUpdate(evs, id, e);
      eventCount := eventCount - Bit(!e.internal);
      match CommonIndex(e.deadline, |common|) {
        case Some(i) =>
          ListRemoved(evs, heap, common, id, i);
          assert ListOk(evs, common, i);
          WatchAfterRemoval(evs, common, id, e, i);
          ghost var was := common;
          common := common[i := common[i].(queue := Without(common[i].queue, id))];
          evs := evs[id := e];
          ProxiesSameQueues(evs, was, common);
        case None =>
          HeapRemoved(evs, heap, common, id);
          WatchSame(evs, common, id, e);
          heap := heap - {id};
          evs := evs[id := e];
      }
    }

    /** event_queue_insert_timeout, with the deadline that event_add_nolock_ has set. */
    method InsertTimeout(id: nat, tv: Timeval)
      requires Sound() && id < |evs| && !evs[id].timed && Proper(tv, |common|)
      requires IsProxy(common, id) ==> CommonIndex(tv, |common|) == None
      modifies this`evs, this`heap, this`common, this`eventCount
      ensures Sound() && evs == old(evs)[id := old(evs)[id].(timed := true, deadline := tv)]
      ensures WatchButHead(old(evs), old(common), evs, common, id) && SameProxies(old(common), common)
      ensures CommonIndex(tv, |common|) == None ==> common == old(common)
      ensures heap == if CommonIndex(tv, |common|) == None then old(heap) + {id} else old(heap)
      ensures forall i :: 0 <= i < |common| && IsHead(common[i].queue, id) ==> CommonIndex(tv, |common|) == Some(i)
    {
      hide ActiveOk, ProxiesOk, TotalLength, Memberships, WatchButHead, Sorted, Key, CommonIndex, Proper;
      var e := evs[id].(timed := true, deadline := tv);
      ActiveKept(evs, activeQueues, laterQueue, id, e);
      ProxyFlags(evs, common, id);
      ProxiesSame(evs, common, id, e);
      MembershipsUpdate(evs, id, e);
      NotQueued(evs, heap, common, id);
      eventCount := eventCount + Bit(!e.internal);
      match CommonIndex(tv, |common|) {
        case Some(i) =>
          IndexBelow(tv, |common|);
          var pos := InorderPosition(i, tv);
          ListInserted(evs, heap, common, id, tv, i, pos);
          WatchAfterInsertion(evs, common, id, e, i, pos);
          ghost var was := common;
          var q := common[i].queue;
          forall j | 0 <= j < |was| && j != i && was[j].queue != []
            ensures was[j].queue[0] != id
          {
            assert was[j].queue[0] in was[j].queue;
          }
          common := common[i := common[i].(queue := q[..pos] + [id] + q[pos..])];
          evs := evs[id := e];
          ProxiesSameQueues(evs, was, common);
        case None =>
          HeapInserted(evs, heap, common, id, tv);
          WatchAfterHeap(evs, common, id, e);
          heap := heap + {id};
          evs := evs[id := e];
      }
    }

    /** insert_common_timeout_inorder: search from the end for an event due no later. */
    method InorderPosition(i: nat, tv: Timeval) returns (pos: nat)
      requires TimersOk(evs, heap, common) && i < |common| && Proper(tv, |common|)
      requires CommonIndex(tv, |common|) == Some(i)
      ensures InsertionPoint(evs, common[i].queue, pos, tv)
    {
      hide Key, CommonIndex, Proper, TimerLe;
      var q := common[i].queue;
      assert ListOk(evs, common, i);
      pos := |q|;
      while pos > 0
        invariant pos <= |q|
        invariant forall j :: pos <= j < |q| ==> Key(tv) < Key(evs[q[j]].deadline)
      {
        var x := q[pos - 1];
        assert x in q;
        assert TimerFlagOk(x, evs[x], heap, common);
        TimerLeIsKeyLe(evs[x].deadline, tv, |common|);
        if TimerLe(evs[x].deadline, tv) { return; }
        pos := pos - 1;
      }
    }

    // ---- Operations ----

    /** event_del_nolock_. */
    method Del(id: nat)
      requires Sound() && id < |evs|
      modifies this`evs, this`activeQueues, this`laterQueue, this`heap
      modifies this`common, this`eventCount, this`eventCountActive
      ensures Sound()
      ensures evs == old(evs)[id := old(evs)[id].(inserted := false, active := false, later := false, timed := false)]
      ensures WatchKept(old(evs), old(common), evs, common, id) && SameProxies(old(common), common)
      ensures heap == if old(evs)[id].timed then old(heap) - {id} else old(heap)
      ensures common == QueuesWithout(old(common), old(evs)[id], id)
    {
      hide ActiveOk, TimersOk, ProxiesOk, TotalLength, Memberships, WatchKept;
      ghost var evs0, common0 := evs, common;
      WatchRefl(evs, common, id);
      if evs[id].timed { RemoveTimeout(id); }
      ghost var evs1 := evs;
      DelActive(id);
      WatchTrans(evs0, common0, evs1, common, evs, common, id);
      ghost var evs2 := evs;
      ExclusiveFlags(evs, activeQueues, laterQueue, id);
      if evs[id].inserted {
        SetInserted(id, false);
        WatchTrans(evs0, common0, evs2, common, evs, common, id);
      }
    }

    /** The middle of event_del_nolock_: out of the active or the later queue. */
    method DelActive(id: nat)
      requires Sound() && id < |evs|
      modifies this`evs, this`activeQueues, this`laterQueue, this`eventCount, this`eventCountActive
      ensures Sound() && evs == old(evs)[id := old(evs)[id].(active := false, later := false)]
      ensures WatchKept(old(evs), common, evs, common, id)
    {
      hide ActiveOk, TimersOk, ProxiesOk, TotalLength, Memberships, WatchKept;
      WatchRefl(evs, common, id);
      ExclusiveFlags(evs, activeQueues, laterQueue, id);
      if evs[id].active {
        RemoveActive(id);
      } else if evs[id].later {
        RemoveLater(id);
      }
    }

    /** event_active_nolock_ and event_callback_activate_nolock_, for EV_TIMEOUT or not. */
    method Activate(id: nat, byTimeout: bool)
      requires Sound() && id < |evs|
      modifies this`evs, this`activeQueues, this`laterQueue, this`eventCount, this`eventCountActive
      ensures Sound()
      ensures var e := old(evs)[id];
        evs == old(evs)[id := e.(
          active := true, later := false, resTimeout := byTimeout || ((e.active || e.later) && e.resTimeout))]
      ensures WatchKept(old(evs), common, evs, common, id)
    {
      hide ActiveOk, TimersOk, ProxiesOk, TotalLength, Memberships, WatchKept;
      ghost var evs0 := evs;
      ExclusiveFlags(evs, activeQueues, laterQueue, id);
      SetResult(id, byTimeout || ((evs[id].active || evs[id].later) && evs[id].resTimeout));
      if evs[id].active { return; }
      ghost var evs1 := evs;
      if evs[id].later {
        RemoveLater(id);
        WatchTrans(evs0, common, evs1, common, evs, common, id);
      }
      ghost var evs2 := evs;
      InsertActive(id);
      WatchTrans(evs0, common, evs2, common, evs, common, id);
    }

    /** event_active_later_nolock_. */
    method ActivateLater(id: nat, byTimeout: bool)
      requires Valid() && id < |evs|
      modifies this`evs, this`laterQueue, this`eventCount, this`eventCountActive
      ensures Valid()
      ensures var e := old(evs)[id];
        evs == old(evs)[id := e.(
          later := !e.active, resTimeout := byTimeout || ((e.active || e.later) && e.resTimeout))]
    {
      hide ActiveOk, TimersOk, ProxiesOk, TotalLength, Memberships, Key;
      ExclusiveFlags(evs, activeQueues, laterQueue, id);
      SetResult(id, byTimeout || ((evs[id].active || evs[id].later) && evs[id].resTimeout));
      if evs[id].active || evs[id].later { return; }
      ghost var evs1 := evs;
      InsertLater(id);
      forall i | 0 <= i < |common| ensures Watched(evs, common, i) { assert Watched(evs1, common, i); }
    }

    /** The timeout part of event_add_nolock_: out of the old place, out of the active queue if a
        timeout had put it there, and into the container of the new deadline. */
    method SetTimer(id: nat, tv: Timeval)
      requires Sound() && id < |evs| && Proper(tv, |common|)
      requires IsProxy(common, id) ==> CommonIndex(tv, |common|) == None
      modifies this`evs, this`activeQueues, this`heap, this`common, this`eventCount, this`eventCountActive
      ensures Sound()
      ensures var e := old(evs)[id];
        evs == old(evs)[id := e.(timed := true, deadline := tv, active := e.active && !e.resTimeout)]
      ensures WatchButHead(old(evs), old(common), evs, common, id) && SameProxies(old(common), common)
      ensures forall i :: 0 <= i < |common| && IsHead(common[i].queue, id) ==> CommonIndex(tv, |common|) == Some(i)
      ensures CommonIndex(tv, |common|) == None && !old(evs)[id].timed ==> common == old(common)
      ensures IsProxy(old(common), id) ==> common == old(common)
    {
      hide ActiveOk, TimersOk, ProxiesOk, TotalLength, Memberships, WatchKept, WatchButHead, CommonIndex, Proper,
          IsProxy;
      ghost var evs0, common0 := evs, common;
      ClearTimer(id);
      SameIsProxy(common0, common, id);
      ghost var evs2, common2 := evs, common;
      InsertTimeout(id, tv);
      WatchTrans(evs0, common0, evs2, common2, evs, common, id);
    }

    /** Out of the old container, and out of the active queue if a timeout had put it there. */
    method ClearTimer(id: nat)
      requires Sound() && id < |evs|
      modifies this`evs, this`activeQueues, this`heap, this`common, this`eventCount, this`eventCountActive
      ensures Sound()
      ensures var e := old(evs)[id]; evs == old(evs)[id := e.(timed := false, active := e.active && !e.resTimeout)]
      ensures WatchKept(old(evs), old(common), evs, common, id) && SameProxies(old(common), common)
      ensures !old(evs)[id].timed || IsProxy(old(common), id) ==> common == old(common)
    {
      hide ActiveOk, TimersOk, ProxiesOk, TotalLength, Memberships, WatchKept, CommonIndex, IsProxy;
      ghost var evs0, common0 := evs, common;
      WatchRefl(evs, common, id);
      ProxyFlags(evs, common, id);
      if evs[id].timed {
        RemoveTimeout(id);
        HeapOnly(common0, evs0[id], id);
      }
      ghost var evs1, common1 := evs, common;
      if evs[id].active && evs[id].resTimeout {
        RemoveActive(id);
        WatchTrans(evs0, common0, evs1, common1, evs, common, id);
      }
    }

    /** common_timeout_schedule: put the proxy of queue `i` in the heap for the queue's head. */
    method Schedule(i: nat)
      requires Sound() && i < |common| && common[i].queue != []
      modifies this`evs, this`activeQueues, this`heap, this`common, this`eventCount, this`eventCountActive
      ensures Sound() && common == old(common) && Watched(evs, common, i)
      ensures WatchKept(old(evs), common, evs, common, common[i].proxy)
      ensures |evs| == |old(evs)| && forall x :: 0 <= x < |evs| && x != common[i].proxy ==> evs[x] == old(evs)[x]
      ensures var p, h := common[i].proxy, common[i].queue[0];
        p < |evs| && h < |evs| && evs[p].timed && Key(evs[p].deadline) == Key(evs[h].deadline)
      ensures SameIntervals(old(evs), evs)
    {
      hide ActiveOk, ProxiesOk, TotalLength, Memberships, CommonIndex, Proper, Key;
      assert ListOk(evs, common, i);
      var h := common[i].queue[0];
      assert h in common[i].queue;
      var p := common[i].proxy;
      ProxyKnown(evs, common, i);
      assert IsProxy(common, p);
      ProxyFlags(evs, common, p);
      var due := evs[h].deadline;
      assert TimerFlagOk(h, evs[h], heap, common);
      Masked(due, |common|);
      SetTimer(p, Timeval(due.sec, Micro(due)));
      forall j | 0 <= j < |common| && IsHead(common[j].queue, p) ensures false { }
    }

    /** event_add_nolock_.  `ioFails` says whether the backend refuses the event. */
    method Add(id: nat, tv: Option<Timeval>, absolute: bool, now: Timeval, ioFails: bool) returns (res: int)
      requires Valid() && id < |evs| && !IsProxy(common, id) && now.usec < MILLION
      requires tv.Some? ==> Usable(tv.value, absolute, |common|)
      modifies this`evs, this`activeQueues, this`heap, this`common, this`eventCount, this`eventCountActive
      ensures Valid() && SameProxies(old(common), common) && |evs| == |old(evs)|
      ensures var e := old(evs)[id];
        var wants := e.io && !e.inserted && !e.active && !e.later;
        && res == (if wants && ioFails then -1 else 0)
        && evs[id] == (
          if res == -1 then e
          else
            var e1 := e.(inserted := e.inserted || wants);
            if tv == None then e1
            else e1.(
              timed := true, deadline := DeadlineFor(tv.value, absolute, now, |old(common)|),
              active := e.active && !e.resTimeout,
              interval := if e.persist && !absolute then tv.value else e.interval))
      ensures forall x :: 0 <= x < |evs| && x != id && !IsProxy(common, x) ==> evs[x] == old(evs)[x]
      ensures SameIntervals(old(evs)[id := evs[id]], evs)
    {
      hide ActiveOk, TimersOk, ProxiesOk, TotalLength, Memberships, CommonIndex, Proper, Key, WatchKept, Watched,
          IsProxy;
      res := 0;
      ghost var evs0, common0 := evs, common;
      if evs[id].io && !evs[id].inserted && !evs[id].active && !evs[id].later {
        if ioFails { return -1; }
        SetInserted(id, true);
        HeadsKnown(evs, heap, common);
        WatchedAfter(evs0, common, evs, common, id);
      }
      if tv == None { return; }
      if evs[id].persist && !absolute { SetInterval(id, tv.value); }
      AddTimer(id, DeadlineFor(tv.value, absolute, now, |common|));
      SameIsProxyAll(common0, common);
    }

    /** Remember the interval of a persistent event. */
    method SetInterval(id: nat, tv: Timeval)
      requires Valid() && id < |evs| && !IsProxy(common, id)
      modifies this`evs
      ensures Valid() && evs == old(evs)[id := old(evs)[id].(interval := tv)]
    {
      hide ActiveOk, TimersOk, ProxiesOk, TotalLength, Memberships, Key;
      var e := evs[id].(interval := tv);
      ActiveKept(evs, activeQueues, laterQueue, id, e);
      TimersKept(evs, heap, common, id, e);
      ProxiesSame(evs, common, id, e);
      MembershipsUpdate(evs, id, e);
      evs := evs[id := e];
      forall i | 0 <= i < |common| && Watched(old(evs), common, i) ensures Watched(evs, common, i) { }
    }

    /** Set the timer, and wake the proxy when the event became the head of its queue. */
    method AddTimer(id: nat, due: Timeval)
      requires Valid() && id < |evs| && !IsProxy(common, id) && Proper(due, |common|)
      modifies this`evs, this`activeQueues, this`heap, this`common, this`eventCount, this`eventCountActive
      ensures Valid() && SameProxies(old(common), common) && |evs| == |old(evs)|
      ensures var e := old(evs)[id];
        evs[id] == e.(timed := true, deadline := due, active := e.active && !e.resTimeout)
      ensures forall x :: 0 <= x < |evs| && x != id && !IsProxy(common, x) ==> evs[x] == old(evs)[x]
      ensures SameIntervals(old(evs)[id := evs[id]], evs)
    {
      hide ActiveOk, ProxiesOk, TotalLength, Memberships, Proper, Key, Watched, ListOk, TimersOk;
      ghost var evs0, common0 := evs, common;
      SetTimer(id, due);
      SameIsProxy(common0, common, id);
      match CommonIndex(due, |common|) {
        case None =>
          forall i | 0 <= i < |common| ensures Watched(evs, common, i) { assert Watched(evs0, common0, i); }
        case Some(i) =>
          IndexBelow(due, |common|);
          if IsHead(common[i].queue, id) {
            ghost var evs1 := evs;
            forall j | 0 <= j < |common| && j != i
              ensures Watched(evs1, common, j)
            {
              assert Watched(evs0, common0, j);
            }
            Schedule(i);
            ProxyDistinct(evs, common, i);
            forall j | 0 <= j < |common| ensures Watched(evs, common, j) { assert j != i ==> Watched(evs1, common, j); }
          } else {
            forall j | 0 <= j < |common| ensures Watched(evs, common, j) { assert Watched(evs0, common0, j); }
          }
      }
    }

    /** event_del, from outside. */
    method DelEvent(id: nat)
      requires Valid() && id < |evs| && !IsProxy(common, id)
      modifies this`evs, this`activeQueues, this`laterQueue, this`heap
      modifies this`common, this`eventCount, this`eventCountActive
      ensures Valid() && SameProxies(old(common), common)
      ensures evs == old(evs)[id := old(evs)[id].(inserted := false, active := false, later := false, timed := false)]
    {
      hide ActiveOk, TimersOk, ProxiesOk, TotalLength, Memberships, Key, Watched, WatchKept;
      ghost var evs0, common0 := evs, common;
      Del(id);
      HeadsKnown(evs, heap, common);
      WatchedAfter(evs0, common0, evs, common, id);
    }

    /** event_active, from outside. */
    method ActivateEvent(id: nat, byTimeout: bool)
      requires Valid() && id < |evs|
      modifies this`evs, this`activeQueues, this`laterQueue, this`eventCount, this`eventCountActive
      ensures Valid()
      ensures var e := old(evs)[id];
        evs == old(evs)[id := e.(
          active := true, later := false, resTimeout := byTimeout || ((e.active || e.later) && e.resTimeout))]
    {
      hide ActiveOk, TimersOk, ProxiesOk, TotalLength, Memberships, Key, Watched, WatchKept;
      ghost var evs0 := evs;
      Activate(id, byTimeout);
      HeadsKnown(evs, heap, common);
      WatchedAfter(evs0, common, evs, common, id);
    }

    /** The step of timeout_process and common_timeout_callback: the event is due. */
    method Expire(id: nat)
      requires Sound() && id < |evs|
      modifies this`evs, this`activeQueues, this`laterQueue, this`heap
      modifies this`common, this`eventCount, this`eventCountActive
      ensures Sound() && SameProxies(old(common), common)
      ensures evs == old(evs)[id := Expired(old(evs)[id])]
      ensures WatchKept(old(evs), old(common), evs, common, id)
      ensures heap == if old(evs)[id].timed then old(heap) - {id} else old(heap)
      ensures common == QueuesWithout(old(common), old(evs)[id], id)
    {
      hide ActiveOk, TimersOk, ProxiesOk, TotalLength, Memberships, Key, Watched, WatchKept, QueuesWithout;
      ghost var evs0, common0 := evs, common;
      Del(id);
      ghost var evs1, common1 := evs, common;
      Activate(id, true);
      WatchTrans(evs0, common0, evs1, common1, evs, common, id);
    }

    /** min_heap_top_. */
    method HeapTop() returns (top: nat)
      requires Sound() && heap != {}
      ensures top in heap && top < |evs| && forall y :: y in heap ==>
        y < |evs| && Key(evs[top].deadline) <= Key(evs[y].deadline)
    {
      hide Key, ActiveOk, ProxiesOk, Memberships, TotalLength;
      EarliestExists(evs, heap);
      top :| top in heap && forall y :: y in heap ==> y < |evs| && Key(evs[top].deadline) <= Key(evs[y].deadline);
    }

    /** timeout_process: every event in the heap that is due is taken out and made active. */
    method TimeoutProcess(now: Timeval)
      requires Valid()
      modifies this`evs, this`activeQueues, this`laterQueue, this`heap
      modifies this`common, this`eventCount, this`eventCountActive
      ensures Valid() && SameProxies(old(common), common) && |evs| == |old(evs)|
      ensures heap == set x | x in old(heap) && x < |old(evs)| && Key(old(evs)[x].deadline) > Key(now)
      ensures forall x :: 0 <= x < |evs| ==>
        evs[x] == if x in old(heap) && x !in heap
                  then Expired(old(evs)[x])
                  else old(evs)[x]
    {
      hide ActiveOk, ProxiesOk, TotalLength, Memberships, Key, Watched, WatchKept, QueuesWithout;
      ghost var evs0, heap0 := evs, heap;
      while heap != {}
        invariant Valid() && SameProxies(old(common), common) && |evs| == |evs0| && heap <= heap0
        invariant forall x :: x in heap0 && x !in heap ==> x < |evs0| && Key(evs0[x].deadline) <= Key(now)
        invariant forall x :: 0 <= x < |evs| ==>
          evs[x] == if x in heap0 && x !in heap
                    then Expired(evs0[x])
                    else evs0[x]
        decreases heap
      {
        var top := HeapTop();
        if Key(evs[top].deadline) > Key(now) { break; }
        ghost var evs1, common1 := evs, common;
        Expire(top);
        HeadsKnown(evs, heap, common);
        WatchedAfter(evs1, common1, evs, common, top);
      }
    }

    /** common_timeout_callback: make the due events of queue `i` active, and reschedule the
        proxy for the first that is not due. */
    method CommonTimeoutCallback(i: nat, now: Timeval)
      requires Sound() && i < |common|
      requires forall j {:trigger Watched(evs, common, j)} :: 0 <= j < |common| && j != i ==> Watched(evs, common, j)
      modifies this`evs, this`activeQueues, this`laterQueue, this`heap
      modifies this`common, this`eventCount, this`eventCountActive
      ensures Valid() && SameProxies(old(common), common)
      ensures DueTaken(old(evs), evs, old(common)[i].queue, common[i].queue, common[i].proxy, now)
      ensures SameIntervals(old(evs), evs)
    {
      hide ActiveOk, ProxiesOk, TotalLength, Memberships, Key, Watched, WatchKept, Without;
      HeadsKnown(evs, heap, common);
      ProxyNotQueued(evs, heap, common, i);
      ghost var evs0, q0 := evs, common[i].queue;
      while common[i].queue != [] && Key(evs[common[i].queue[0]].deadline) <= Key(now)
        invariant Sound() && SameProxies(old(common), common)
        invariant forall j {:trigger Watched(evs, common, j)} :: 0 <= j < |common| && j != i ==> Watched(evs, common, j)
        invariant common[i].queue != [] ==> common[i].queue[0] < |evs|
        invariant |evs| == |evs0| && forall x :: x in common[i].queue ==> x in q0
        invariant forall x :: 0 <= x < |evs| ==>
          evs[x] == if x in q0 && x !in common[i].queue then Expired(evs0[x]) else evs0[x]
        invariant forall x :: x in q0 && x !in common[i].queue ==> x < |evs0| && Key(evs0[x].deadline) <= Key(now)
        decreases |common[i].queue|
      {
        var x := common[i].queue[0];
        QueuedEvent(evs, heap, common, i);
        ghost var evs1, common1 := evs, common;
        WithoutFacts(common[i].queue, x);
        Expire(x);
        HeadsKnown(evs, heap, common);
        forall j | 0 <= j < |common| && j != i ensures Watched(evs, common, j) {
          assert Watched(evs1, common1, j);
          StillWatched(evs1, common1, evs, common, x, j);
        }
      }
      ghost var evs2 := evs;
      if common[i].queue != [] {
        Schedule(i);
        ProxyDistinct(evs, common, i);
        HeadsKnown(evs, heap, common);
        forall j | 0 <= j < |common| ensures Watched(evs, common, j) {
          assert j != i ==> Watched(evs2, common, j);
          if j != i { StillWatched(evs2, common, evs, common, common[i].proxy, j); }
        }
        DueIsBehindHead(evs2, evs, heap, common, i, now);
      } else {
        EmptyWatched(evs, common, i);
      }
    }

    /** event_queue_make_later_events_active. */
    method MakeLaterActive()
      requires Valid()
      modifies this`evs, this`activeQueues, this`laterQueue, this`eventCount, this`eventCountActive
      ensures Valid() && laterQueue == [] && |evs| == |old(evs)|
      ensures eventCountActive == old(eventCountActive) && eventCount == old(eventCount)
      ensures forall x :: 0 <= x < |evs| ==>
        evs[x] == old(evs)[x].(active := old(evs)[x].active || old(evs)[x].later, later := false)
    {
      hide TimersOk, ProxiesOk, TotalLength, Memberships, Key, Watched, WatchKept, QueueOk;
      ghost var evs0 := evs;
      while laterQueue != []
        invariant Valid() && |evs| == |evs0|
        invariant eventCountActive == old(eventCountActive) && eventCount == old(eventCount)
        invariant forall x :: 0 <= x < |evs| ==>
          (evs[x] == evs0[x] || (evs0[x].later && evs[x] == evs0[x].(active := true, later := false)))
        decreases |laterQueue|
      {
        var id := laterQueue[0];
        assert id in laterQueue;
        assert ActiveFlagsOk(id, evs[id], activeQueues, laterQueue);
        ghost var evs1 := evs;
        WithoutFacts(laterQueue, id);
        PromoteLater(id);
        HeadsKnown(evs, heap, common);
        WatchedAfter(evs1, common, evs, common, id);
      }
      forall x | 0 <= x < |evs| ensures !evs[x].later { assert ActiveFlagsOk(x, evs[x], activeQueues, laterQueue); }
    }

    method PromoteLater(id: nat)
      requires Sound() && id < |evs| && evs[id].later && id in laterQueue && !evs[id].active
      modifies this`evs, this`activeQueues, this`laterQueue, this`eventCount, this`eventCountActive
      ensures Sound() && evs == old(evs)[id := old(evs)[id].(active := true, later := false)]
      ensures laterQueue == Without(old(laterQueue), id)
      ensures eventCountActive == old(eventCountActive) && eventCount == old(eventCount)
      ensures WatchKept(old(evs), common, evs, common, id)
      ensures var p := old(evs)[id].pri;
        p < |old(activeQueues)| && activeQueues == old(activeQueues)[p := old(activeQueues)[p] + [id]]
    {
      hide ActiveOk, TimersOk, ProxiesOk, TotalLength, Memberships, Key, Watched, WatchKept, Without;
      ghost var evs1 := evs[id := evs[id].(later := false)];
      var e := evs[id].(active := true, later := false);
      LaterRemoved(evs, activeQueues, laterQueue, id);
      ActiveInserted(evs1, activeQueues, Without(laterQueue, id), id);
      assert evs1[id := evs1[id].(active := true)] == evs[id := e];
      TimersKept(evs, heap, common, id, e);
      ProxyFlags(evs, common, id);
      ProxiesSame(evs, common, id, e);
      MembershipsUpdate(evs, id, e);
      WatchSame(evs, common, id, e);
      laterQueue := Without(laterQueue, id);
      evs := evs[id := e];
      activeQueues := activeQueues[e.pri := activeQueues[e.pri] + [id]];
    }

    /** timeout_next: the time to the earliest event in the heap, None to wait for ever. */
    method TimeoutNext(now: Timeval) returns (wait: Option<nat>)
      requires Sound()
      ensures wait == None <==> heap == {}
      ensures wait == Some(0) <==> exists x :: x in heap && x < |evs| && Key(evs[x].deadline) <= Key(now)
      ensures wait.Some? && wait.value > 0 ==>
        && (exists x :: x in heap && x < |evs| && Key(now) + wait.value == Key(evs[x].deadline))
        && (forall x :: x in heap ==> x < |evs| && Key(now) + wait.value <= Key(evs[x].deadline))
    {
      hide ActiveOk, ProxiesOk, TotalLength, Memberships, Key;
      if heap == {} { return None; }
      var top := HeapTop();
      if Key(evs[top].deadline) <= Key(now) { return Some(0); }
      wait := Some(Key(evs[top].deadline) - Key(now));
    }

    /** How long event_base_loop sleeps: not at all while callbacks are active, otherwise up to the
        first deadline of any event, in the heap or in a common-timeout queue, or of a proxy. */
    method LoopWait(now: Timeval) returns (wait: Option<nat>)
      requires Valid()
      ensures WaitRight(evs, eventCountActive, now, wait)
    {
      hide Key, Memberships, TotalLength;
      if eventCountActive > 0 { return Some(0); }
      wait := TimeoutNext(now);
      forall x | 0 <= x < |evs| && evs[x].timed
        ensures wait.Some? && (wait.value == 0 || Key(now) + wait.value <= Key(evs[x].deadline))
      {
        var y := HeapGuards(this, x);
      }
      HeapTimed(evs, heap, common);
    }

    /** One turn of event_process_active_single_queue: the first callback of a queue leaves it, and
        is deleted unless it is persistent; a persistent one with an interval is added again, as in
        event_persist_closure.  A proxy runs common_timeout_callback; what a user's callback does
        are further operations. */
    method ProcessFirst(p: nat, now: Timeval, ioFails: bool) returns (id: nat)
      requires Valid() && IntervalsOk(evs, |common|) && p < |activeQueues| && activeQueues[p] != []
      requires now.usec < MILLION
      modifies this`evs, this`activeQueues, this`laterQueue, this`heap
      modifies this`common, this`eventCount, this`eventCountActive
      ensures Valid() && IntervalsOk(evs, |common|) && SameProxies(old(common), common) && |evs| == |old(evs)|
      ensures id == old(activeQueues)[p][0] && id < |old(evs)|
      ensures forall i :: 0 <= i < |common| && common[i].proxy == id ==>
        DueTaken(old(evs), evs, old(common)[i].queue, common[i].queue, id, now)
      ensures !IsProxy(old(common), id) ==>
        && (forall x :: 0 <= x < |evs| && x != id && !IsProxy(common, x) ==> evs[x] == old(evs)[x])
        && evs[id] == Processed(old(evs)[id], now, |old(common)|, ioFails)
    {
      hide TimersOk, ProxiesOk, TotalLength, Memberships, Key, Watched, WatchKept, Without, LaterOk, RunAt, IntervalOk,
          DueTaken;
      id := activeQueues[p][0];
      assert QueueOk(evs, activeQueues, p);
      assert id in activeQueues[p];
      ActiveFlag(evs, activeQueues, laterQueue, id);
      var i := FindProxy(id);
      ghost var evs0, common0 := evs, common;
      if i < |common| { ProxyDistinct(evs, common, i); }
      TakeFirst(id, i, now);
      IntervalsKept(evs0, evs, |common|);
      SameIsProxyAll(common0, common);
      if evs[id].persist && evs[id].interval != NO_INTERVAL && i == |common| {
        assert IntervalOk(evs[id], |common|);
        Reschedule(id, now, ioFails);
      }
    }

    /** Out of the queue, and for a proxy its callback. */
    method TakeFirst(id: nat, i: nat, now: Timeval)
      requires Valid() && id < |evs| && evs[id].active && i <= |common|
      requires (i < |common| ==> common[i].proxy == id) && (i == |common| <==> !IsProxy(common, id))
      modifies this`evs, this`activeQueues, this`laterQueue, this`heap
      modifies this`common, this`eventCount, this`eventCountActive
      ensures Valid() && SameProxies(old(common), common) && SameIntervals(old(evs), evs)
      ensures i < |common| ==> DueTaken(old(evs), evs, old(common)[i].queue, common[i].queue, id, now)
      ensures i == |common| ==>
        var e := old(evs)[id];
        evs == old(evs)[id :=
          if e.persist then e.(active := false)
          else e.(inserted := false, active := false, later := false, timed := false)]
    {
      hide ActiveOk, TimersOk, ProxiesOk, TotalLength, Memberships, Key, Watched, WatchKept, Without;
      ghost var evs0, common0 := evs, common;
      if evs[id].persist { RemoveActive(id); } else { Del(id); }
      HeadsKnown(evs, heap, common);
      if i < |common| {
        ProxyFlags(evs0, common0, id);
        assert common == common0;
        ProxyDistinct(evs, common, i);
        forall j | 0 <= j < |common| && j != i ensures Watched(evs, common, j) {
          assert Watched(evs0, common0, j);
          StillWatched(evs0, common0, evs, common, id, j);
        }
        CommonTimeoutCallback(i, now);
      } else {
        WatchedAfter(evs0, common0, evs, common, id);
      }
    }

    /** The first half of event_persist_closure. */
    method Reschedule(id: nat, now: Timeval, ioFails: bool)
      requires Valid() && IntervalsOk(evs, |common|) && id < |evs| && !IsProxy(common, id) && now.usec < MILLION
      requires evs[id].interval != NO_INTERVAL && IntervalOk(evs[id], |common|) && !evs[id].active
      modifies this`evs, this`activeQueues, this`heap, this`common, this`eventCount, this`eventCountActive
      ensures Valid() && IntervalsOk(evs, |common|) && SameProxies(old(common), common) && |evs| == |old(evs)|
      ensures evs[id] == Rescheduled(old(evs)[id], now, |old(common)|, ioFails)
      ensures forall x :: 0 <= x < |evs| && x != id && !IsProxy(common, x) ==> evs[x] == old(evs)[x]
    {
      hide ActiveOk, TimersOk, ProxiesOk, TotalLength, Memberships, Key, Watched, WatchKept, RunAt, SameQueue,
          CommonIndex, Proper, IsProxy;
      ghost var evs0 := evs;
      var at := RunAt(evs[id], now, |common|);
      var _ := Add(id, Some(at), true, now, ioFails);
      assert IntervalsOk(evs0[id := evs[id]], |common|) by {
        ProperMicro(at, |common|);
        hide IntervalOk;
        assert IntervalOk(evs[id], |common|) by { RescheduledOk(evs0[id], evs[id], at, |common|); }
      }
      IntervalsKept(evs0[id := evs[id]], evs, |common|);
    }

    /** Which queue an event is the proxy of; the number of queues if none. */
    method FindProxy(id: nat) returns (i: nat)
      ensures i <= |common| && (i < |common| ==> common[i].proxy == id)
      ensures i == |common| <==> !IsProxy(common, id)
    {
      i := 0;
      while i < |common|
        invariant i <= |common| && forall j :: 0 <= j < i ==> common[j].proxy != id
      {
        if common[i].proxy == id { return; }
        i := i + 1;
      }
    }

    /** event_assign: a new event, in no container. */
    method NewEvent(io: bool, persist: bool, internal: bool, pri: nat) returns (id: nat)
      requires Valid() && pri < |activeQueues|
      modifies this`evs
      ensures Valid() && id == |old(evs)|
      ensures evs == old(evs) +
        [Event(false, false, false, false, internal, pri, io, persist, false, Timeval(0, 0), NO_INTERVAL)]
    {
      hide ActiveOk, TimersOk, ProxiesOk, TotalLength, Memberships, Key;
      id := |evs|;
      var e := Event(false, false, false, false, internal, pri, io, persist, false, Timeval(0, 0), NO_INTERVAL);
      ActiveGrown(evs, activeQueues, laterQueue, e);
      TimersGrown(evs, heap, common, e);
      ProxiesGrown(evs, common, e);
      MembershipsSnoc(evs, e);
      ghost var evs0 := evs;
      evs := evs + [e];
      forall i | 0 <= i < |common| ensures Watched(evs, common, i) { assert Watched(evs0, common, i); }
    }

    /** event_base_init_common_timeout: the timeval that names the queue of a duration, made if
        need be; None when all names are taken. */
    method InitCommonTimeout(given: Timeval) returns (tv: Option<Timeval>)
      requires Valid() && |activeQueues| > 0
      modifies this`evs, this`common
      ensures Valid() && |common| >= |old(common)|
      ensures tv == None ==> common == old(common) && evs == old(evs)
      ensures tv == None <==>
        var d := PlainDuration(given, |old(common)|);
        && |old(common)| == MAX_COMMON_TIMEOUTS
        && forall i :: 0 <= i < |old(common)| ==> !SameDuration(old(common)[i].duration, d)
      ensures evs == old(evs) ||
        (|evs| == |old(evs)| + 1 && evs[..|old(evs)|] == old(evs) && evs[|old(evs)|].interval == NO_INTERVAL)
      ensures |common| <= |old(common)| + 1
      ensures tv.Some? ==>
        var d := PlainDuration(given, |old(common)|);
        && tv.value.sec == d.sec && Micro(tv.value) == d.usec
        && CommonIndex(tv.value, |common|).Some? && CommonIndex(tv.value, |common|).value < |common|
        && common[CommonIndex(tv.value, |common|).value].duration == tv.value
    {
      hide ActiveOk, TimersOk, TotalLength, Memberships, Key, CommonIndex;
      var d := PlainDuration(given, |common|);
      var i := 0;
      while i < |common|
        invariant 0 <= i <= |common| && forall j :: 0 <= j < i ==> !SameDuration(common[j].duration, d)
      {
        assert ProxyOk(evs, common, i);
        var named := common[i].duration;
        if SameDuration(named, d) { return Some(named); }
        i := i + 1;
      }
      if |common| == MAX_COMMON_TIMEOUTS { return None; }
      var named := WithIndex(d.sec, d.usec, |common|);
      ghost var evs0 := evs;
      var p := NewEvent(false, false, true, 0);
      ghost var common0 := common;
      var l := CommonList(named, [], p);
      CommonGrown(evs, heap, common, l);
      DeadlinesProper(evs, heap, common);
      ProxyAdded(evs0, evs, common, l);
      common := common + [l];
      forall j | 0 <= j < |common| ensures Watched(evs, common, j) {
        if j < |common0| { assert Watched(evs, common0, j); }
      }
      tv := Some(named);
    }
  }

  predicate SameDuration(named: Timeval, d: Timeval) {
    named.sec == d.sec && Micro(named) == d.usec
  }

  /** The duration with at most a million microseconds, its queue number masked off. */
  function PlainDuration(d: Timeval, n: nat): (r: Timeval)
    ensures r.usec <= MILLION
  {
    if d.usec > MILLION then
      var u := if CommonIndex(d, n).Some? then Micro(d) else d.usec;
      Timeval(d.sec + u / MILLION, u % MILLION)
    else d
  }

  lemma DeadlinesProper(evs: seq<Event>, heap: set<nat>, common: seq<CommonList>)
    requires TimersOk(evs, heap, common)
    ensures forall x :: 0 <= x < |evs| && evs[x].timed ==> Proper(evs[x].deadline, |common|)
  {
    forall x | 0 <= x < |evs| && evs[x].timed
      ensures Proper(evs[x].deadline, |common|)
    {
      assert TimerFlagOk(x, evs[x], heap, common);
    }
  }

  lemma ProxiesGrown(evs: seq<Event>, common: seq<CommonList>, e: Event)
    requires ProxiesOk(evs, common)
    ensures ProxiesOk(evs + [e], common)
  {
    hide CommonIndex;
    var evs1 := evs + [e];
    forall i | 0 <= i < |common| ensures ProxyOk(evs1, common, i) {
      assert ProxyOk(evs, common, i);
    }
  }

  lemma ProxyAdded(evs: seq<Event>, evs1: seq<Event>, common: seq<CommonList>, l: CommonList)
    requires ProxiesOk(evs, common) && ProxiesOk(evs1, common) && |evs1| == |evs| + 1 && l.proxy == |evs|
    requires |common| < MAX_COMMON_TIMEOUTS && CommonIndex(l.duration, |common| + 1) == Some(|common|)
    requires var e := evs1[l.proxy]; e.internal && !e.io && !e.inserted && !e.timed && e.interval == NO_INTERVAL
    requires forall x :: 0 <= x < |evs1| && evs1[x].timed ==> Proper(evs1[x].deadline, |common|)
    ensures ProxiesOk(evs1, common + [l])
  {
    hide CommonIndex, Proper;
    var common1 := common + [l];
    forall i | 0 <= i < |common| ensures common[i].proxy < |evs| { assert ProxyOk(evs, common, i); }
    forall i | 0 <= i < |common1| ensures ProxyOk(evs1, common1, i) {
      if i < |common| {
        assert ProxyOk(evs1, common, i);
        var x := common[i].proxy;
        IndexGrows(common[i].duration, |common|);
        if evs1[x].timed { ProperGrows(evs1[x].deadline, |common|); }
      }
    }
  }

  lemma IndexGrows(tv: Timeval, n: nat)
    requires CommonIndex(tv, n).Some?
    ensures CommonIndex(tv, n + 1) == CommonIndex(tv, n)
  {
  }

  lemma ActiveFlag(evs: seq<Event>, qs: seq<seq<nat>>, later: seq<nat>, id: nat)
    requires ActiveOk(evs, qs, later) && id < |evs| && exists p :: 0 <= p < |qs| && id in qs[p]
    ensures evs[id].active
  {
    var p :| 0 <= p < |qs| && id in qs[p];
    assert QueueOk(evs, qs, p);
  }

  lemma ExclusiveFlags(evs: seq<Event>, qs: seq<seq<nat>>, later: seq<nat>, id: nat)
    requires ActiveOk(evs, qs, later) && id < |evs|
    ensures !(evs[id].active && evs[id].later) && (evs[id].inserted ==> evs[id].io)
  {
    assert ActiveFlagsOk(id, evs[id], qs, later);
  }

  lemma {:induction false} EarliestExists(evs: seq<Event>, h: set<nat>)
    requires h != {} && forall x :: x in h ==> x < |evs|
    ensures exists top :: top in h && forall y :: y in h ==> y < |evs| && Key(evs[top].deadline) <= Key(evs[y].deadline)
    decreases h
  {
    var x :| x in h;
    if h == {x} {
      assert forall y :: y in h ==> y == x;
    } else {
      var rest := h - {x};
      EarliestExists(evs, rest);
      var t :| t in rest && forall y :: y in rest ==> y < |evs| && Key(evs[t].deadline) <= Key(evs[y].deadline);
      var top := if Key(evs[x].deadline) < Key(evs[t].deadline) then x else t;
      assert forall y :: y in h ==> y == x || y in rest;
      assert top in h && forall y :: y in h ==> y < |evs| && Key(evs[top].deadline) <= Key(evs[y].deadline);
    }
  }

  lemma QueuedEvent(evs: seq<Event>, heap: set<nat>, common: seq<CommonList>, i: nat)
    requires TimersOk(evs, heap, common) && i < |common| && common[i].queue != []
    ensures var x := common[i].queue[0];
      x < |evs| && x in common[i].queue && NoDup(common[i].queue)
      && evs[x].timed && CommonIndex(evs[x].deadline, |common|) == Some(i)
      && QueuesWithout(common, evs[x], x) == common[i := common[i].(queue := Without(common[i].queue, x))]
  {
    hide Key;
    assert ListOk(evs, common, i);
    assert common[i].queue[0] in common[i].queue;
  }

  /** A queue stays watched when another event is worked on, or its own proxy became active. */
  lemma StillWatched(evs: seq<Event>, common: seq<CommonList>, evs1: seq<Event>, common1: seq<CommonList>, id: nat,
      j: nat)
    requires WatchKept(evs, common, evs1, common1, id) && j < |common| && Watched(evs, common, j)
    requires common[j].proxy == id ==> id < |evs1| && evs1[id].active
    requires common1[j].queue != [] ==> common1[j].queue[0] < |evs1|
    ensures Watched(evs1, common1, j)
  {
    hide Key;
  }

  lemma EmptyWatched(evs: seq<Event>, common: seq<CommonList>, i: nat)
    requires i < |common| && common[i].queue == []
    ensures Watched(evs, common, i)
  {
  }

  lemma DueIsBehindHead(evs: seq<Event>, evs1: seq<Event>, heap: set<nat>, common: seq<CommonList>, i: nat,
      now: Timeval)
    requires TimersOk(evs1, heap, common) && i < |common| && common[i].queue != [] && |evs1| == |evs|
    requires ProxiesOk(evs1, common)
    requires common[i].queue[0] < |evs| && Key(evs[common[i].queue[0]].deadline) > Key(now)
    requires forall x :: 0 <= x < |evs| && x != common[i].proxy ==> evs1[x] == evs[x]
    ensures forall x :: x in common[i].queue ==> x < |evs1| && Key(evs1[x].deadline) > Key(now)
  {
    hide Key;
    assert ListOk(evs1, common, i);
    assert ProxyOk(evs1, common, i);
    var q := common[i].queue;
    assert q[0] in q;
    assert q[0] != common[i].proxy;
    forall x | x in q ensures Key(evs1[x].deadline) > Key(now) {
      var k :| 0 <= k < |q| && q[k] == x;
    }
  }

  lemma ActiveMeansCounted(evs: seq<Event>, qs: seq<seq<nat>>, later: seq<nat>, x: nat)
    requires ActiveOk(evs, qs, later) && x < |evs| && evs[x].active
    ensures TotalLength(qs) > 0
  {
    hide TotalLength;
    assert ActiveFlagsOk(x, evs[x], qs, later);
    TotalLengthAtLeast(qs, evs[x].pri);
  }

  lemma {:induction false} TotalLengthAtLeast(qs: seq<seq<nat>>, p: nat)
    requires p < |qs|
    ensures TotalLength(qs) >= |qs[p]|
  {
    if p > 0 { TotalLengthAtLeast(qs[1..], p - 1); }
  }

  /** With nothing active, every timed event has an event in the heap due no later. */
  lemma HeapGuards(b: EventBase, x: nat) returns (y: nat)
    requires b.Valid() && b.eventCountActive <= 0 && x < |b.evs| && b.evs[x].timed
    ensures y in b.heap && y < |b.evs| && Key(b.evs[y].deadline) <= Key(b.evs[x].deadline)
  {
    hide Key, Memberships, TotalLength;
    assert TimerFlagOk(x, b.evs[x], b.heap, b.common);
    match CommonIndex(b.evs[x].deadline, |b.common|) {
      case None => y := x;
      case Some(i) =>
        var l := b.common[i];
        assert ListOk(b.evs, b.common, i);
        assert Watched(b.evs, b.common, i);
        assert ProxyOk(b.evs, b.common, i);
        y := l.proxy;
        var k :| 0 <= k < |l.queue| && l.queue[k] == x;
        if b.evs[y].active { ActiveMeansCounted(b.evs, b.activeQueues, b.laterQueue, y); }
        assert TimerFlagOk(y, b.evs[y], b.heap, b.common);
    }
  }

  lemma ProxyDistinct(evs: seq<Event>, common: seq<CommonList>, i: nat)
    requires ProxiesOk(evs, common) && i < |common|
    ensures forall j :: 0 <= j < |common| && j != i ==> common[j].proxy != common[i].proxy
  {
    assert ProxyOk(evs, common, i);
  }

  /** A proxy is in no queue. */
  lemma ProxyNotQueued(evs: seq<Event>, heap: set<nat>, common: seq<CommonList>, i: nat)
    requires TimersOk(evs, heap, common) && ProxiesOk(evs, common) && i < |common|
    ensures common[i].proxy !in common[i].queue
    ensures forall x :: x in common[i].queue ==> x < |evs|
  {
    hide CommonIndex;
    assert ListOk(evs, common, i) && ProxyOk(evs, common, i);
  }

  lemma ProxyKnown(evs: seq<Event>, common: seq<CommonList>, i: nat)
    requires ProxiesOk(evs, common) && i < |common|
    ensures common[i].proxy < |evs| && IsProxy(common, common[i].proxy)
  {
    assert ProxyOk(evs, common, i);
  }

  lemma SameIsProxyAll(common: seq<CommonList>, common1: seq<CommonList>)
    requires SameProxies(common, common1)
    ensures forall x :: IsProxy(common, x) <==> IsProxy(common1, x)
  {
  }

  /** The deadline with its queue number masked off names the same instant. */
  lemma Masked(tv: Timeval, n: nat)
    requires Proper(tv, n)
    ensures var m := Timeval(tv.sec, Micro(tv)); Proper(m, n) && CommonIndex(m, n) == None && Key(m) == Key(tv)
  {
    PlainIndex(Timeval(tv.sec, Micro(tv)), n);
  }

  lemma IndexBelow(tv: Timeval, n: nat)
    requires CommonIndex(tv, n).Some?
    ensures CommonIndex(tv, n).value < n
  {
  }

  lemma {:induction false} NothingQueued(qs: seq<seq<nat>>)
    requires forall p :: 0 <= p < |qs| ==> qs[p] == []
    ensures TotalLength(qs) == 0
  {
    if qs != [] { NothingQueued(qs[1..]); }
  }

  lemma ProxyFlags(evs: seq<Event>, common: seq<CommonList>, id: nat)
    requires ProxiesOk(evs, common) && id < |evs|
    ensures IsProxy(common, id) ==>
      && evs[id].internal && !evs[id].io && !evs[id].inserted && evs[id].interval == NO_INTERVAL
      && (evs[id].timed ==> CommonIndex(evs[id].deadline, |common|) == None)
  {
    if IsProxy(common, id) {
      var i :| 0 <= i < |common| && common[i].proxy == id;
      assert ProxyOk(evs, common, i);
    }
  }
}
