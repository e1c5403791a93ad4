/** The array heap beside the event base: kept in step, it is the set of timed events that the base
    works with, and its top is the event that the base takes for the earliest. */
module TimerHeaps {
  import opened Basics
  import opened Queues
  import opened Timevals
  import opened EventState
  import opened EventBases
  import opened MinHeaps

  /** The deadlines of a base's events, as the heap compares them. */
  function KeysOf(evs: seq<Event>): Keys {
    (x: nat) => if x < |evs| then Key(evs[x].deadline) else 0
  }

  /** The heap holds exactly the events of base.timeheap, in heap order of their deadlines. */
  ghost predicate InStep(h: MinHeap, b: EventBase)
    reads h, b
  {
    h.Valid(KeysOf(b.evs)) && h.idx.Keys == b.heap
  }

  /** Only the deadlines of the events in the heap matter to it. */
  lemma OnlyItsKeys(h: MinHeap, k1: Keys, k2: Keys)
    requires h.Valid(k1) && forall x :: x in h.idx ==> k1(x) == k2(x)
    ensures h.Valid(k2)
  {
    var v := h.p[..h.n];
    forall i | 0 < i < |v| ensures InOrder(v, k2, i) {
      assert InOrder(v, k1, i);
      assert v[i] in h.idx && v[Parent(i)] in h.idx;
    }
  }

  /** min_heap_elem_greater compares the raw fields; on what the heap holds that is comparing the
      instants. */
  lemma RawComparison(b: EventBase, x: nat, y: nat)
    requires b.Sound() && x in b.heap && y in b.heap
    ensures x < |b.evs| && y < |b.evs|
    ensures TimerLe(b.evs[x].deadline, b.evs[y].deadline) <==> Key(b.evs[x].deadline) <= Key(b.evs[y].deadline)
  {
    hide ActiveOk, ProxiesOk, TotalLength, Memberships, Key;
    HeapTimed(b.evs, b.heap, b.common);
    assert TimerFlagOk(x, b.evs[x], b.heap, b.common) && TimerFlagOk(y, b.evs[y], b.heap, b.common);
    TimerLeIsKeyLe(b.evs[x].deadline, b.evs[y].deadline, |b.common|);
  }

  /** The top of the heap is what EventBase.HeapTop promises. */
  method Top(h: MinHeap, b: EventBase) returns (top: nat)
    requires InStep(h, b) && b.Sound() && b.heap != {}
    ensures top in b.heap && top < |b.evs|
    ensures forall y :: y in b.heap ==> y < |b.evs| && Key(b.evs[top].deadline) <= Key(b.evs[y].deadline)
  {
    hide ActiveOk, ProxiesOk, TotalLength, Memberships, Key, MinHeap.Valid;
    HeapTimed(b.evs, b.heap, b.common);
    var r := h.Top(KeysOf(b.evs));
    assert r.Some?;
    top := r.value;
    assert forall y :: y in b.heap ==> y in h.idx;
  }

  /** event_queue_insert_timeout on both. */
  method Insert(h: MinHeap, b: EventBase, id: nat, tv: Timeval)
    requires InStep(h, b) && b.Sound() && id < |b.evs| && !b.evs[id].timed && Proper(tv, |b.common|)
    requires IsProxy(b.common, id) ==> CommonIndex(tv, |b.common|) == None
    modifies h, b
    ensures InStep(h, b) && b.Sound()
    ensures b.evs == old(b.evs)[id := old(b.evs)[id].(timed := true, deadline := tv)]
  {
    hide ActiveOk, ProxiesOk, TotalLength, Memberships, Key, WatchButHead, Proper, CommonIndex, MinHeap.Valid;
    HeapTimed(b.evs, b.heap, b.common);
    ghost var before := KeysOf(b.evs);
    b.InsertTimeout(id, tv);
    var after := KeysOf(b.evs);
    assert id !in h.idx;
    OnlyItsKeys(h, before, after);
    if CommonIndex(tv, |b.common|) == None { h.Push(id, after); }
  }

  /** event_queue_remove_timeout on both; erasing an event of a common-timeout queue does nothing. */
  method Remove(h: MinHeap, b: EventBase, id: nat)
    requires InStep(h, b) && b.Sound() && id < |b.evs| && b.evs[id].timed
    modifies h, b
    ensures InStep(h, b) && b.Sound()
    ensures b.evs == old(b.evs)[id := old(b.evs)[id].(timed := false)]
  {
    hide ActiveOk, ProxiesOk, TotalLength, Memberships, Key, WatchKept, CommonIndex, QueuesWithout, MinHeap.Valid;
    ghost var before := KeysOf(b.evs);
    b.RemoveTimeout(id);
    var after := KeysOf(b.evs);
    OnlyItsKeys(h, before, after);
    var _ := h.Erase(id, after);
  }
}
