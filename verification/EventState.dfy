/** What an event_base keeps: events with membership flags, the queues of active callbacks, the
    timer heap and the common-timeout queues; and the facts about these containers. */
module EventState {
  import opened Basics
  import opened Queues
  import opened Timevals

  /** struct event: the EVLIST_* membership flags, and what the queues depend on. */
  datatype Event = Event(
    inserted: bool, active: bool, later: bool, timed: bool, internal: bool,
    pri: nat, io: bool, persist: bool, resTimeout: bool, deadline: Timeval, interval: Timeval)

  /** ev_io_timeout of an event without one. */
  const NO_INTERVAL := Timeval(0, 0)

  /** struct common_timeout_list: a queue of events with one duration, and the event in the heap
      that stands for its head. */
  datatype CommonList = CommonList(duration: Timeval, queue: seq<nat>, proxy: nat)

  // ---- Counting ----

  function Bit(b: bool): nat {
    if b then 1 else 0
  }

  /** How many containers an event is counted in: none when it is internal. */
  function Counted(e: Event): nat {
    if e.internal then 0 else Bit(e.inserted) + Bit(e.active) + Bit(e.later) + Bit(e.timed)
  }

  ghost function Memberships(evs: seq<Event>): nat {
    if evs == [] then 0 else Counted(evs[0]) + Memberships(evs[1..])
  }

  lemma {:induction false} MembershipsUpdate(evs: seq<Event>, i: nat, e: Event)
    requires i < |evs|
    ensures Memberships(evs[i := e]) == Memberships(evs) - Counted(evs[i]) + Counted(e)
  {
    if i == 0 {
      assert evs[0 := e][1..] == evs[1..];
    } else {
      MembershipsUpdate(evs[1..], i - 1, e);
      assert evs[i := e][1..] == evs[1..][i - 1 := e];
    }
  }

  lemma {:induction false} MembershipsSnoc(evs: seq<Event>, e: Event)
    ensures Memberships(evs + [e]) == Memberships(evs) + Counted(e)
  {
    if evs == [] {
      assert [] + [e] == [e] && [e][1..] == [];
    } else {
      MembershipsSnoc(evs[1..], e);
      assert (evs + [e])[1..] == evs[1..] + [e];
    }
  }

  // ---- The active queues ----

  /** An event is in the active queue of its priority, or in the later queue, as its flags say. */
  ghost predicate ActiveFlagsOk(x: nat, e: Event, qs: seq<seq<nat>>, later: seq<nat>) {
    && e.pri < |qs|
    && !(e.active && e.later)
    && (e.inserted ==> e.io)
    && (e.active ==> x in qs[e.pri])
    && (e.later ==> x in later)
  }

  ghost predicate QueueOk(evs: seq<Event>, qs: seq<seq<nat>>, p: nat)
    requires p < |qs|
  {
    && NoDup(qs[p])
    && forall x :: x in qs[p] ==> x < |evs| && evs[x].active && evs[x].pri == p
  }

  ghost predicate LaterOk(evs: seq<Event>, later: seq<nat>) {
    && NoDup(later)
    && forall x :: x in later ==> x < |evs| && evs[x].later
  }

  ghost predicate ActiveOk(evs: seq<Event>, qs: seq<seq<nat>>, later: seq<nat>) {
    && (forall x {:trigger ActiveFlagsOk(x, evs[x], qs, later)} :: 0 <= x < |evs| ==>
          ActiveFlagsOk(x, evs[x], qs, later))
    && (forall p {:trigger QueueOk(evs, qs, p)} :: 0 <= p < |qs| ==> QueueOk(evs, qs, p))
    && LaterOk(evs, later)
  }

  /** Out of the active queue. */
  lemma ActiveRemoved(evs: seq<Event>, qs: seq<seq<nat>>, later: seq<nat>, id: nat)
    requires ActiveOk(evs, qs, later) && id < |evs| && evs[id].active
    ensures ActiveFlagsOk(id, evs[id], qs, later)
    ensures var p := evs[id].pri;
      var qs1 := qs[p := Without(qs[p], id)];
      ActiveOk(evs[id := evs[id].(active := false)], qs1, later) && TotalLength(qs1) == TotalLength(qs) - 1
  {
    hide Without, TotalLength;
    assert ActiveFlagsOk(id, evs[id], qs, later);
    var p := evs[id].pri;
    assert QueueOk(evs, qs, p);
    WithoutFacts(qs[p], id);
    TotalLengthUpdate(qs, p, Without(qs[p], id));
    var evs1, qs1 := evs[id := evs[id].(active := false)], qs[p := Without(qs[p], id)];
    forall x | 0 <= x < |evs1| ensures ActiveFlagsOk(x, evs1[x], qs1, later) {
      assert ActiveFlagsOk(x, evs[x], qs, later);
    }
    forall r | 0 <= r < |qs1| ensures QueueOk(evs1, qs1, r) {
      assert QueueOk(evs, qs, r);
    }
  }

  /** Into the active queue. */
  lemma ActiveInserted(evs: seq<Event>, qs: seq<seq<nat>>, later: seq<nat>, id: nat)
    requires ActiveOk(evs, qs, later) && id < |evs| && !evs[id].active && !evs[id].later
    ensures ActiveFlagsOk(id, evs[id], qs, later)
    ensures var p := evs[id].pri;
      var qs1 := qs[p := qs[p] + [id]];
      ActiveOk(evs[id := evs[id].(active := true)], qs1, later) && TotalLength(qs1) == TotalLength(qs) + 1
  {
    hide TotalLength;
    assert ActiveFlagsOk(id, evs[id], qs, later);
    var p := evs[id].pri;
    assert QueueOk(evs, qs, p);
    SnocFacts(qs[p], id);
    TotalLengthUpdate(qs, p, qs[p] + [id]);
    var evs1, qs1 := evs[id := evs[id].(active := true)], qs[p := qs[p] + [id]];
    forall x | 0 <= x < |evs1| ensures ActiveFlagsOk(x, evs1[x], qs1, later) {
      assert ActiveFlagsOk(x, evs[x], qs, later);
    }
    forall r | 0 <= r < |qs1| ensures QueueOk(evs1, qs1, r) {
      assert QueueOk(evs, qs, r);
    }
  }

  lemma LaterRemoved(evs: seq<Event>, qs: seq<seq<nat>>, later: seq<nat>, id: nat)
    requires ActiveOk(evs, qs, later) && id < |evs| && evs[id].later
    ensures id in later && |Without(later, id)| == |later| - 1
    ensures ActiveOk(evs[id := evs[id].(later := false)], qs, Without(later, id))
  {
    hide Without;
    assert ActiveFlagsOk(id, evs[id], qs, later);
    WithoutFacts(later, id);
    var evs1, later1 := evs[id := evs[id].(later := false)], Without(later, id);
    forall x | 0 <= x < |evs1| ensures ActiveFlagsOk(x, evs1[x], qs, later1) {
      assert ActiveFlagsOk(x, evs[x], qs, later);
    }
    forall r | 0 <= r < |qs| ensures QueueOk(evs1, qs, r) {
      assert QueueOk(evs, qs, r);
    }
  }

  lemma LaterInserted(evs: seq<Event>, qs: seq<seq<nat>>, later: seq<nat>, id: nat)
    requires ActiveOk(evs, qs, later) && id < |evs| && !evs[id].active && !evs[id].later
    ensures ActiveOk(evs[id := evs[id].(later := true)], qs, later + [id])
  {
    assert ActiveFlagsOk(id, evs[id], qs, later);
    SnocFacts(later, id);
    var evs1, later1 := evs[id := evs[id].(later := true)], later + [id];
    forall x | 0 <= x < |evs1| ensures ActiveFlagsOk(x, evs1[x], qs, later1) {
      assert ActiveFlagsOk(x, evs[x], qs, later);
    }
    forall r | 0 <= r < |qs| ensures QueueOk(evs1, qs, r) {
      assert QueueOk(evs, qs, r);
    }
  }

  /** Changes to other fields. */
  lemma ActiveKept(evs: seq<Event>, qs: seq<seq<nat>>, later: seq<nat>, id: nat, e: Event)
    requires ActiveOk(evs, qs, later) && id < |evs|
    requires e.active == evs[id].active && e.later == evs[id].later && e.pri == evs[id].pri
    requires e.io == evs[id].io && (e.inserted ==> evs[id].inserted || e.io)
    ensures ActiveOk(evs[id := e], qs, later)
  {
    var evs1 := evs[id := e];
    forall x | 0 <= x < |evs1| ensures ActiveFlagsOk(x, evs1[x], qs, later) {
      assert ActiveFlagsOk(x, evs[x], qs, later);
    }
    forall r | 0 <= r < |qs| ensures QueueOk(evs1, qs, r) {
      assert QueueOk(evs, qs, r);
    }
  }

  /** A new event, in no container. */
  lemma ActiveGrown(evs: seq<Event>, qs: seq<seq<nat>>, later: seq<nat>, e: Event)
    requires ActiveOk(evs, qs, later) && !e.active && !e.later && !e.inserted && e.pri < |qs|
    ensures ActiveOk(evs + [e], qs, later)
  {
    var evs1 := evs + [e];
    forall x | 0 <= x < |evs1| ensures ActiveFlagsOk(x, evs1[x], qs, later) {
      if x < |evs| { assert ActiveFlagsOk(x, evs[x], qs, later); }
    }
    forall r | 0 <= r < |qs| ensures QueueOk(evs1, qs, r) {
      assert QueueOk(evs, qs, r);
    }
  }

  // ---- The timers ----

  ghost predicate Sorted(evs: seq<Event>, q: seq<nat>) {
    && (forall j :: 0 <= j < |q| ==> q[j] < |evs|)
    && forall j, k :: 0 <= j < k < |q| ==> Key(evs[q[j]].deadline) <= Key(evs[q[k]].deadline)
  }

  /** A timed event is in the container its deadline selects. */
  ghost predicate TimerFlagOk(x: nat, e: Event, heap: set<nat>, common: seq<CommonList>) {
    e.timed ==>
      && Proper(e.deadline, |common|)
      && match CommonIndex(e.deadline, |common|)
         case None => x in heap
         case Some(i) => i < |common| && x in common[i].queue
  }

  ghost predicate HeapOk(evs: seq<Event>, heap: set<nat>, n: nat) {
    forall x :: x in heap ==> x < |evs| && evs[x].timed && CommonIndex(evs[x].deadline, n) == None
  }

  /** A common-timeout queue holds its own events, in the order of their deadlines. */
  ghost predicate ListOk(evs: seq<Event>, common: seq<CommonList>, i: nat)
    requires i < |common|
  {
    && NoDup(common[i].queue)
    && Sorted(evs, common[i].queue)
    && forall x :: x in common[i].queue ==>
         x < |evs| && evs[x].timed && CommonIndex(evs[x].deadline, |common|) == Some(i)
  }

  ghost predicate TimersOk(evs: seq<Event>, heap: set<nat>, common: seq<CommonList>) {
    && (forall x {:trigger TimerFlagOk(x, evs[x], heap, common)} :: 0 <= x < |evs| ==>
          TimerFlagOk(x, evs[x], heap, common))
    && HeapOk(evs, heap, |common|)
    && (forall i {:trigger ListOk(evs, common, i)} :: 0 <= i < |common| ==> ListOk(evs, common, i))
  }

  /** Out of the heap. */
  lemma HeapRemoved(evs: seq<Event>, heap: set<nat>, common: seq<CommonList>, id: nat)
    requires TimersOk(evs, heap, common) && id < |evs| && evs[id].timed
    requires CommonIndex(evs[id].deadline, |common|) == None
    ensures id in heap && TimersOk(evs[id := evs[id].(timed := false)], heap - {id}, common)
  {
    hide CommonIndex, Key;
    assert TimerFlagOk(id, evs[id], heap, common);
    var evs1, heap1 := evs[id := evs[id].(timed := false)], heap - {id};
    forall x | 0 <= x < |evs1| ensures TimerFlagOk(x, evs1[x], heap1, common) {
      assert TimerFlagOk(x, evs[x], heap, common);
    }
    forall i | 0 <= i < |common| ensures ListOk(evs1, common, i) {
      assert ListOk(evs, common, i);
    }
  }

  /** Out of its common-timeout queue. */
  lemma ListRemoved(evs: seq<Event>, heap: set<nat>, common: seq<CommonList>, id: nat, i: nat)
    requires TimersOk(evs, heap, common) && id < |evs| && evs[id].timed
    requires CommonIndex(evs[id].deadline, |common|) == Some(i)
    ensures i < |common| && id in common[i].queue
    ensures var common1 := common[i := common[i].(queue := Without(common[i].queue, id))];
      TimersOk(evs[id := evs[id].(timed := false)], heap, common1)
  {
    hide CommonIndex, Key, Without;
    assert TimerFlagOk(id, evs[id], heap, common);
    assert ListOk(evs, common, i);
    var q := common[i].queue;
    WithoutFacts(q, id);
    var evs1, common1 := evs[id := evs[id].(timed := false)], common[i := common[i].(queue := Without(q, id))];
    SortedWithout(evs, evs1, q, id);
    forall x | 0 <= x < |evs1| ensures TimerFlagOk(x, evs1[x], heap, common1) {
      assert TimerFlagOk(x, evs[x], heap, common);
    }
    forall j | 0 <= j < |common1| ensures ListOk(evs1, common1, j) {
      assert ListOk(evs, common, j);
    }
  }

  lemma SortedWithout(evs: seq<Event>, evs1: seq<Event>, q: seq<nat>, id: nat)
    requires id in q && Sorted(evs, q) && |evs1| == |evs|
    requires forall x :: 0 <= x < |evs| ==> evs1[x].deadline == evs[x].deadline
    ensures Sorted(evs1, Without(q, id))
    ensures Without(q, id) != [] && q[0] != id ==> Without(q, id)[0] == q[0]
    ensures Without(q, id) != [] ==> Key(evs[q[0]].deadline) <= Key(evs[Without(q, id)[0]].deadline)
  {
    hide Key, Without, IndexOf;
    WithoutIs(q, id);
    var n := IndexOf(q, id);
    var r := Without(q, id);
    forall j, k | 0 <= j < k < |r| ensures Key(evs1[r[j]].deadline) <= Key(evs1[r[k]].deadline) {
      var a, b := if j < n then j else j + 1, if k < n then k else k + 1;
      assert r[j] == q[a] && r[k] == q[b];
    }
  }

  /** Into the heap. */
  lemma HeapInserted(evs: seq<Event>, heap: set<nat>, common: seq<CommonList>, id: nat, tv: Timeval)
    requires TimersOk(evs, heap, common) && id < |evs| && !evs[id].timed
    requires Proper(tv, |common|) && CommonIndex(tv, |common|) == None
    ensures TimersOk(evs[id := evs[id].(timed := true, deadline := tv)], heap + {id}, common)
  {
    hide CommonIndex, Key, Proper;
    var evs1, heap1 := evs[id := evs[id].(timed := true, deadline := tv)], heap + {id};
    forall x | 0 <= x < |evs1| ensures TimerFlagOk(x, evs1[x], heap1, common) {
      assert TimerFlagOk(x, evs[x], heap, common);
    }
    forall i | 0 <= i < |common| ensures ListOk(evs1, common, i) {
      assert ListOk(evs, common, i);
      SortedElsewhere(evs, evs1, common[i].queue, id);
    }
  }

  lemma SortedElsewhere(evs: seq<Event>, evs1: seq<Event>, q: seq<nat>, id: nat)
    requires Sorted(evs, q) && id !in q && |evs1| == |evs|
    requires forall x :: 0 <= x < |evs| && x != id ==> evs1[x].deadline == evs[x].deadline
    ensures Sorted(evs1, q)
  {
    hide Key;
    forall j | 0 <= j < |q| ensures q[j] != id { assert q[j] in q; }
  }

  /** Where insert_common_timeout_inorder puts an event: behind every event due no later. */
  ghost predicate InsertionPoint(evs: seq<Event>, q: seq<nat>, pos: nat, tv: Timeval) {
    && pos <= |q|
    && (forall j :: 0 <= j < |q| ==> q[j] < |evs|)
    && (forall j :: 0 <= j < pos ==> Key(evs[q[j]].deadline) <= Key(tv))
    && (forall j :: pos <= j < |q| ==> Key(tv) < Key(evs[q[j]].deadline))
  }

  lemma SortedInsert(evs: seq<Event>, q: seq<nat>, pos: nat, id: nat, e: Event)
    requires Sorted(evs, q) && NoDup(q) && id < |evs| && id !in q && InsertionPoint(evs, q, pos, e.deadline)
    ensures var r := q[..pos] + [id] + q[pos..]; Sorted(evs[id := e], r) && NoDup(r)
    ensures forall y :: y in q[..pos] + [id] + q[pos..] <==> y in q || y == id
  {
    hide Key, NoDup;
    var r, evs1 := q[..pos] + [id] + q[pos..], evs[id := e];
    InsertedAt(q, pos, id);
    forall j, k | 0 <= j < k < |r| ensures Key(evs1[r[j]].deadline) <= Key(evs1[r[k]].deadline) {
      assert j < pos ==> r[j] == q[j];
      assert j > pos ==> r[j] == q[j - 1];
      assert k < pos ==> r[k] == q[k];
      assert k > pos ==> r[k] == q[k - 1];
    }
  }

  lemma InsertedAt(q: seq<nat>, pos: nat, id: nat)
    requires NoDup(q) && id !in q && pos <= |q|
    ensures NoDup(q[..pos] + [id] + q[pos..])
    ensures forall y :: y in q[..pos] + [id] + q[pos..] <==> y in q || y == id
    ensures forall j :: 0 <= j < |q| ==> q[j] != id
  {
    var r := q[..pos] + [id] + q[pos..];
    forall j | 0 <= j < |q| ensures q[j] != id { assert q[j] in q; }
    forall y | y in q ensures y in r {
      var k :| 0 <= k < |q| && q[k] == y;
      if k < pos { assert r[k] == y; } else { assert r[k + 1] == y; }
    }
  }

  /** Into a common-timeout queue. */
  lemma ListInserted(evs: seq<Event>, heap: set<nat>, common: seq<CommonList>, id: nat, tv: Timeval, i: nat, pos: nat)
    requires TimersOk(evs, heap, common) && id < |evs| && !evs[id].timed && i < |common|
    requires Proper(tv, |common|) && CommonIndex(tv, |common|) == Some(i)
    requires InsertionPoint(evs, common[i].queue, pos, tv)
    ensures
      var q := common[i].queue;
      var common1 := common[i := common[i].(queue := q[..pos] + [id] + q[pos..])];
      TimersOk(evs[id := evs[id].(timed := true, deadline := tv)], heap, common1)
  {
    hide CommonIndex, Key, Proper;
    var q := common[i].queue;
    var e := evs[id].(timed := true, deadline := tv);
    assert ListOk(evs, common, i);
    SortedInsert(evs, q, pos, id, e);
    var evs1, common1 := evs[id := e], common[i := common[i].(queue := q[..pos] + [id] + q[pos..])];
    forall x | 0 <= x < |evs1| ensures TimerFlagOk(x, evs1[x], heap, common1) {
      assert TimerFlagOk(x, evs[x], heap, common);
    }
    forall j | 0 <= j < |common1| ensures ListOk(evs1, common1, j) {
      assert ListOk(evs, common, j);
      if j != i { SortedElsewhere(evs, evs1, common[j].queue, id); }
    }
  }

  /** Changes to other fields. */
  lemma TimersKept(evs: seq<Event>, heap: set<nat>, common: seq<CommonList>, id: nat, e: Event)
    requires TimersOk(evs, heap, common) && id < |evs| && e.timed == evs[id].timed && e.deadline == evs[id].deadline
    ensures TimersOk(evs[id := e], heap, common)
  {
    hide CommonIndex, Key, Proper;
    var evs1 := evs[id := e];
    forall x | 0 <= x < |evs1| ensures TimerFlagOk(x, evs1[x], heap, common) {
      assert TimerFlagOk(x, evs[x], heap, common);
    }
    forall i | 0 <= i < |common| ensures ListOk(evs1, common, i) {
      assert ListOk(evs, common, i);
    }
  }

  /** A new event, not timed. */
  lemma TimersGrown(evs: seq<Event>, heap: set<nat>, common: seq<CommonList>, e: Event)
    requires TimersOk(evs, heap, common) && !e.timed
    ensures TimersOk(evs + [e], heap, common)
  {
    hide CommonIndex, Key, Proper;
    var evs1 := evs + [e];
    forall x | 0 <= x < |evs1| ensures TimerFlagOk(x, evs1[x], heap, common) {
      if x < |evs| { assert TimerFlagOk(x, evs[x], heap, common); }
    }
    forall i | 0 <= i < |common| ensures ListOk(evs1, common, i) {
      assert ListOk(evs, common, i);
    }
  }

  /** A new common-timeout queue, empty. */
  lemma CommonGrown(evs: seq<Event>, heap: set<nat>, common: seq<CommonList>, l: CommonList)
    requires TimersOk(evs, heap, common) && l.queue == []
    ensures TimersOk(evs, heap, common + [l])
  {
    hide CommonIndex, Key, Proper;
    var common1 := common + [l];
    forall x | 0 <= x < |evs| ensures TimerFlagOk(x, evs[x], heap, common1) {
      assert TimerFlagOk(x, evs[x], heap, common);
      if evs[x].timed { ProperGrows(evs[x].deadline, |common|); }
    }
    forall x | x in heap ensures CommonIndex(evs[x].deadline, |common1|) == None {
      assert TimerFlagOk(x, evs[x], heap, common);
      ProperGrows(evs[x].deadline, |common|);
    }
    forall i | 0 <= i < |common1| ensures ListOk(evs, common1, i) {
      if i < |common| {
        assert ListOk(evs, common, i);
        forall x | x in common[i].queue ensures CommonIndex(evs[x].deadline, |common1|) == Some(i) {
          assert TimerFlagOk(x, evs[x], heap, common);
          ProperGrows(evs[x].deadline, |common|);
        }
      }
    }
  }
}
