/** The timer heap: an array in heap order whose elements know their places.  To its users it is a
    set of events with an earliest one. */
module MinHeaps {
  import opened Basics
  import opened Queues

  /** Deadlines, by event. */
  type Keys = nat -> int

  function Parent(i: nat): nat
    requires i > 0
  {
    (i - 1) / 2
  }

  ghost predicate InOrder(v: seq<nat>, key: Keys, i: nat)
    requires 0 < i < |v|
  {
    key(v[Parent(i)]) <= key(v[i])
  }

  ghost predicate HeapOk(v: seq<nat>, key: Keys) {
    forall i {:trigger InOrder(v, key, i)} :: 0 < i < |v| ==> InOrder(v, key, i)
  }

  /** What is under hole `h` is no earlier than what is over it. */
  ghost predicate Spans(v: seq<nat>, key: Keys, h: nat, i: nat)
    requires 0 < i < |v| && h < |v|
  {
    Parent(i) == h && h > 0 ==> key(v[Parent(h)]) <= key(v[i])
  }

  /** In order, but for the event at the hole `h`, which may be too low. */
  ghost predicate UpOk(v: seq<nat>, key: Keys, h: nat) {
    && h < |v|
    && (forall i {:trigger InOrder(v, key, i)} :: 0 < i < |v| && i != h ==> InOrder(v, key, i))
    && (forall i {:trigger Spans(v, key, h, i)} :: 0 < i < |v| ==> Spans(v, key, h, i))
  }

  /** In order, but for the event at the hole `h`, which may be too high. */
  ghost predicate DownOk(v: seq<nat>, key: Keys, h: nat) {
    && h < |v|
    && (forall i {:trigger InOrder(v, key, i)} :: 0 < i < |v| && Parent(i) != h ==> InOrder(v, key, i))
    && (forall i {:trigger Spans(v, key, h, i)} :: 0 < i < |v| ==> Spans(v, key, h, i))
  }

  /** Every event but the one at the hole knows its place, and the places are known of no others. */
  ghost predicate PlacesBut(v: seq<nat>, idx: map<nat, nat>, h: nat) {
    && h < |v|
    && (forall i {:trigger v[i]} :: 0 <= i < |v| && i != h ==> v[i] in idx && idx[v[i]] == i)
    && (forall x {:trigger idx[x]} :: x in idx && x != v[h] ==> idx[x] < |v| && v[idx[x]] == x)
  }

  ghost predicate Places(v: seq<nat>, idx: map<nat, nat>) {
    && (forall i {:trigger v[i]} :: 0 <= i < |v| ==> v[i] in idx && idx[v[i]] == i)
    && (forall x {:trigger idx[x]} :: x in idx ==> idx[x] < |v| && v[idx[x]] == x)
  }

  lemma PlacesStep(v: seq<nat>, idx: map<nat, nat>, h: nat, j: nat)
    requires PlacesBut(v, idx, h) && NoDup(v) && j < |v| && j != h
    ensures PlacesBut(Swapped(v, h, j), idx[v[j] := h], j)
  {
  }

  lemma PlacesDone(v: seq<nat>, idx: map<nat, nat>, h: nat)
    requires PlacesBut(v, idx, h) && NoDup(v)
    ensures Places(v, idx[v[h] := h])
  {
  }

  function Swapped(v: seq<nat>, i: nat, j: nat): seq<nat>
    requires i < |v| && j < |v|
  {
    v[i := v[j]][j := v[i]]
  }

  /** The same events in another order. */
  ghost predicate Same(v: seq<nat>, w: seq<nat>) {
    |v| == |w| && (NoDup(v) ==> NoDup(w)) && forall x :: x in v <==> x in w
  }

  lemma SwapSame(v: seq<nat>, i: nat, j: nat)
    requires i < |v| && j < |v|
    ensures Same(v, Swapped(v, i, j))
  {
    var w := Swapped(v, i, j);
    forall x | x in v ensures x in w {
      var k :| 0 <= k < |v| && v[k] == x;
      assert w[if k == i then j else if k == j then i else k] == x;
    }
  }

  /** Going up: the parent is later, so it comes down into the hole. */
  lemma UpStep(v: seq<nat>, key: Keys, h: nat)
    requires UpOk(v, key, h) && h > 0 && key(v[Parent(h)]) > key(v[h])
    ensures UpOk(Swapped(v, h, Parent(h)), key, Parent(h))
  {
    var p, w := Parent(h), Swapped(v, h, Parent(h));
    forall i | 0 < i < |w| && i != p ensures InOrder(w, key, i) {
      if i != h { assert InOrder(v, key, i); }
      assert Spans(v, key, h, i);
    }
    forall i | 0 < i < |w| ensures Spans(w, key, p, i) {
      if p > 0 { assert InOrder(v, key, p); }
      if i != h { assert InOrder(v, key, i); }
    }
  }

  lemma UpDone(v: seq<nat>, key: Keys, h: nat)
    requires UpOk(v, key, h) && (h > 0 ==> key(v[Parent(h)]) <= key(v[h]))
    ensures HeapOk(v, key)
  {
    if h > 0 { assert InOrder(v, key, h); }
  }

  /** Going down: the lesser child is earlier, so it comes up into the hole. */
  lemma DownStep(v: seq<nat>, key: Keys, h: nat, c: nat)
    requires DownOk(v, key, h) && 0 < c < |v| && Parent(c) == h && key(v[h]) > key(v[c])
    requires forall i :: 0 < i < |v| && Parent(i) == h ==> key(v[c]) <= key(v[i])
    ensures DownOk(Swapped(v, h, c), key, c)
  {
    var w := Swapped(v, h, c);
    forall i | 0 < i < |w| && Parent(i) != c ensures InOrder(w, key, i) {
      if Parent(i) != h { assert InOrder(v, key, i); }
      if i == h { assert Spans(v, key, h, c); }
    }
    forall i | 0 < i < |w| ensures Spans(w, key, c, i) {
      if Parent(i) == c { assert InOrder(v, key, i); }
    }
  }

  lemma DownDone(v: seq<nat>, key: Keys, h: nat)
    requires DownOk(v, key, h) && forall i :: 0 < i < |v| && Parent(i) == h ==> key(v[h]) <= key(v[i])
    ensures HeapOk(v, key)
  {
    forall i | 0 < i < |v| ensures InOrder(v, key, i) { }
  }

  /** The top is the earliest of all. */
  lemma {:induction false} TopEarliest(v: seq<nat>, key: Keys, i: nat)
    requires HeapOk(v, key) && i < |v|
    ensures key(v[0]) <= key(v[i])
  {
    if i > 0 {
      assert InOrder(v, key, i);
      TopEarliest(v, key, Parent(i));
    }
  }

  /** struct min_heap: the first `n` of `p` are the heap.  `idx` is min_heap_idx of each event; an
      event not in it has EV_SIZE_MAX. */
  class MinHeap {
    var p: seq<nat>
    var n: nat
    var idx: map<nat, nat>

    ghost predicate Valid(key: Keys)
      reads this
    {
      n <= |p| && NoDup(p[..n]) && HeapOk(p[..n], key) && Places(p[..n], idx)
    }

    constructor ()
      ensures forall key: Keys :: Valid(key)
      ensures idx == map[]
    {
      p, n, idx := [], 0, map[];
    }

    /** min_heap_top_. */
    method Top(key: Keys) returns (top: Option<nat>)
      requires Valid(key)
      ensures top == None <==> idx == map[]
      ensures top.Some? ==> top.value in idx && forall x :: x in idx ==> key(top.value) <= key(x)
    {
      if n == 0 {
        NoPlaces(p[..n], idx);
        return None;
      }
      assert p[..n][0] in idx;
      forall x | x in idx ensures key(p[0]) <= key(x) { TopEarliest(p[..n], key, idx[x]); }
      top := Some(p[0]);
    }

    /** What a shift starts from: `e` as if it were in the hole. */
    ghost function With(h: nat, e: nat): seq<nat>
      reads this
      requires h < n <= |p|
    {
      p[..n][h := e]
    }

    /** min_heap_shift_up_. */
    method ShiftUp(hole: nat, e: nat, key: Keys)
      requires hole < n <= |p| && UpOk(With(hole, e), key, hole) && NoDup(With(hole, e))
      requires PlacesBut(With(hole, e), idx, hole)
      modifies this`p, this`idx
      ensures Valid(key) && Same(old(With(hole, e)), p[..n])
    {
      hide UpOk, PlacesBut, HeapOk, Places, NoDup, Same;
      var h: nat := hole;
      SameSelf(With(h, e));
      while h > 0 && key(p[Parent(h)]) > key(e)
        invariant h < n <= |p| && UpOk(With(h, e), key, h) && Same(old(With(hole, e)), With(h, e)) && NoDup(With(h, e))
        invariant PlacesBut(With(h, e), idx, h)
        decreases h
      {
        ghost var v := With(h, e);
        UpStep(v, key, h);
        Moved(v, idx, h, Parent(h), old(With(hole, e)));
        Virtual(p[..n], h, Parent(h), e);
        p, idx := p[h := p[Parent(h)]], idx[p[Parent(h)] := h];
        h := Parent(h);
        assert With(h, e) == p[..n][h := e];
      }
      UpDone(With(h, e), key, h);
      PlacesDone(With(h, e), idx, h);
      p, idx := p[h := e], idx[e := h];
    }

    /** min_heap_shift_up_unconditional_: the first step needs no test. */
    method ShiftUpUnconditional(hole: nat, e: nat, key: Keys)
      requires 0 < hole < n <= |p| && UpOk(With(hole, e), key, hole) && NoDup(With(hole, e))
      requires PlacesBut(With(hole, e), idx, hole)
      requires key(p[Parent(hole)]) > key(e)
      modifies this`p, this`idx
      ensures Valid(key) && Same(old(With(hole, e)), p[..n])
    {
      hide UpOk, PlacesBut, HeapOk, Places, NoDup, Same;
      ghost var v := With(hole, e);
      SameSelf(v);
      UpStep(v, key, hole);
      Moved(v, idx, hole, Parent(hole), v);
      Virtual(p[..n], hole, Parent(hole), e);
      p, idx := p[hole := p[Parent(hole)]], idx[p[Parent(hole)] := hole];
      assert With(Parent(hole), e) == p[..n][Parent(hole) := e];
      ghost var w := With(Parent(hole), e);
      ShiftUp(Parent(hole), e, key);
      SameTrans(v, w, p[..n]);
    }

    /** min_heap_shift_down_.  With the hole just past the end there is nothing to shift. */
    method ShiftDown(hole: nat, e: nat, key: Keys)
      requires hole <= n <= |p| && hole < |p|
      requires hole < n ==>
        DownOk(With(hole, e), key, hole) && NoDup(With(hole, e)) && PlacesBut(With(hole, e), idx, hole)
      modifies this`p, this`idx
      ensures hole < n ==> Valid(key) && Same(old(With(hole, e)), p[..n])
      ensures hole == n ==> |p| == |old(p)| && p[..n] == old(p[..n]) && idx == old(idx)[e := hole]
    {
      hide DownOk, PlacesBut, HeapOk, Places, NoDup, Same;
      if hole == n {
        p, idx := p[hole := e], idx[e := hole];
        return;
      }
      var h: nat := hole;
      SameSelf(With(h, e));
      var minChild := 2 * (h + 1);
      while minChild <= n
        invariant h < n <= |p| && minChild == 2 * (h + 1)
        invariant DownOk(With(h, e), key, h) && Same(old(With(hole, e)), With(h, e)) && NoDup(With(h, e))
        invariant PlacesBut(With(h, e), idx, h)
        decreases n - h
      {
        var c := if minChild == n || key(p[minChild]) > key(p[minChild - 1]) then minChild - 1 else minChild;
        ghost var v := With(h, e);
        Children(v, key, h, c);
        if !(key(e) > key(p[c])) { break; }
        DownStep(v, key, h, c);
        Moved(v, idx, h, c, old(With(hole, e)));
        Virtual(p[..n], h, c, e);
        p, idx := p[h := p[c]], idx[p[c] := h];
        h := c;
        assert With(h, e) == p[..n][h := e];
        minChild := 2 * (h + 1);
      }
      DownDone(With(h, e), key, h);
      PlacesDone(With(h, e), idx, h);
      p, idx := p[h := e], idx[e := h];
    }

    /** min_heap_push_. */
    method Push(e: nat, key: Keys)
      requires Valid(key) && e !in idx
      modifies this
      ensures Valid(key) && idx.Keys == old(idx).Keys + {e}
    {
      hide HeapOk, Places, UpOk, PlacesBut, NoDup;
      ghost var v := p[..n];
      if |p| == n { p := p + [0]; }
      PushReady(v, idx, key, e);
      n := n + 1;
      assert With(n - 1, e) == v + [e];
      ShiftUp(n - 1, e, key);
      KeysAre(p[..n], idx);
      assert forall x :: x in idx.Keys <==> x in v + [e];
    }

    /** min_heap_pop_. */
    method Pop(key: Keys) returns (top: Option<nat>)
      requires Valid(key)
      modifies this
      ensures Valid(key)
      ensures top == None <==> old(idx) == map[]
      ensures top == None ==> idx == old(idx)
      ensures top.Some? ==>
        && top.value in old(idx) && idx.Keys == old(idx).Keys - {top.value}
        && forall x :: x in old(idx) ==> key(top.value) <= key(x)
    {
      hide HeapOk, Places, NoDup;
      top := Top(key);
      if top == None { return; }
      RemoveAt(top.value, key);
    }

    /** min_heap_erase_. */
    method Erase(e: nat, key: Keys) returns (r: int)
      requires Valid(key)
      modifies this
      ensures Valid(key) && idx.Keys == old(idx).Keys - {e}
      ensures r == if e in old(idx) then 0 else -1
    {
      hide HeapOk, Places, NoDup;
      if e !in idx { return -1; }
      RemoveAt(e, key);
      r := 0;
    }

    /** The last event takes the place of `e`, and then finds its own.  (When `e` is the last, the
        shift notes its old place again, so that goes again at the end.) */
    method RemoveAt(e: nat, key: Keys)
      requires Valid(key) && e in idx
      modifies this
      ensures Valid(key) && idx.Keys == old(idx).Keys - {e}
    {
      hide HeapOk, Places, DownOk, UpOk, PlacesBut, NoDup;
      ghost var q, idx0 := p[..n], idx;
      RemoveReady(q, idx, key, e);
      var h := idx[e];
      var last := p[n - 1];
      n := n - 1;
      idx := idx - {e};
      assert h < n ==> With(h, last) == q[..n][h := last];
      assert p[..n] == q[..n];
      StandIn(h, last, key);
      ghost var idx1 := idx;
      idx := idx - {e};
      if h == n {
        assert idx == idx0 - {e};
      } else {
        KeysAre(p[..n], idx1);
        assert idx == idx1;
      }
      KeysAre(p[..n], idx);
      assert h == n ==> forall x :: x in idx <==> x in idx0 && x != e;
    }

    /** Up or down from the hole; it cannot need both. */
    method StandIn(h: nat, last: nat, key: Keys)
      requires h <= n <= |p| && h < |p|
      requires h == n ==> (h > 0 ==> key(p[Parent(h)]) <= key(last))
      requires h < n ==>
        && NoDup(With(h, last)) && PlacesBut(With(h, last), idx, h)
        && (if h > 0 && key(p[Parent(h)]) > key(last) then UpOk(With(h, last), key, h)
            else DownOk(With(h, last), key, h))
      modifies this`p, this`idx
      ensures h < n ==> Valid(key) && Same(old(With(h, last)), p[..n])
      ensures h == n ==> |p| == |old(p)| && p[..n] == old(p[..n]) && idx == old(idx)[last := h]
    {
      hide HeapOk, Places, DownOk, UpOk, PlacesBut, NoDup, Same;
      if h > 0 && key(p[Parent(h)]) > key(last) {
        ShiftUpUnconditional(h, last, key);
      } else {
        ShiftDown(h, last, key);
      }
    }
  }

  lemma NoPlaces(v: seq<nat>, idx: map<nat, nat>)
    requires Places(v, idx)
    ensures v == [] ==> forall x :: x !in idx
  {
  }

  lemma SameTrans(u: seq<nat>, v: seq<nat>, w: seq<nat>)
    requires Same(u, v) && Same(v, w)
    ensures Same(u, w)
  {
  }

  /** The lesser of the children, found as the code finds it, is the least. */
  lemma Children(v: seq<nat>, key: Keys, h: nat, c: nat)
    requires h < |v| && 2 * (h + 1) <= |v|
    requires c ==
      if 2 * (h + 1) == |v| || key(v[2 * (h + 1)]) > key(v[2 * (h + 1) - 1]) then 2 * (h + 1) - 1 else 2 * (h + 1)
    ensures 0 < c < |v| && c != h && Parent(c) == h
    ensures forall i :: 0 < i < |v| && Parent(i) == h ==> key(v[c]) <= key(v[i])
  {
  }

  lemma KeysAre(v: seq<nat>, idx: map<nat, nat>)
    requires Places(v, idx)
    ensures forall x :: x in idx.Keys <==> x in v
  {
    forall x | x in v ensures x in idx {
      var i :| 0 <= i < |v| && v[i] == x;
    }
    forall x | x in idx ensures x in v { assert v[idx[x]] == x; }
  }

  lemma PushReady(v: seq<nat>, idx: map<nat, nat>, key: Keys, e: nat)
    requires NoDup(v) && HeapOk(v, key) && Places(v, idx) && e !in idx
    ensures var w := v + [e];
      NoDup(w) && UpOk(w, key, |v|) && PlacesBut(w, idx, |v|) && forall x :: x in w <==> x in idx || x == e
  {
    KeysAre(v, idx);
    var w := v + [e];
    forall i | 0 < i < |w| && i != |v| ensures InOrder(w, key, i) { assert InOrder(v, key, i); }
  }

  /** The heap without its last event, which stands in for `e`. */
  lemma RemoveReady(q: seq<nat>, idx: map<nat, nat>, key: Keys, e: nat)
    requires NoDup(q) && HeapOk(q, key) && Places(q, idx) && e in idx
    ensures idx[e] < |q| && q[idx[e]] == e
    ensures var h, n := idx[e], |q| - 1;
      var last := q[n];
      && (h == n ==>
            && (h > 0 ==> key(q[Parent(h)]) <= key(last))
            && NoDup(q[..n]) && HeapOk(q[..n], key) && Places(q[..n], idx - {e}))
      && (h < n ==>
            var v := q[..n][h := last];
            && NoDup(v) && PlacesBut(v, idx - {e}, h) && (forall x :: x in v <==> x in idx && x != e)
            && (if h > 0 && key(q[Parent(h)]) > key(last) then UpOk(v, key, h) else DownOk(v, key, h)))
  {
    var h, n := idx[e], |q| - 1;
    if h == n {
      if h > 0 { assert InOrder(q, key, h); }
      var w := q[..n];
      forall i | 0 < i < |w| ensures InOrder(w, key, i) { assert InOrder(q, key, i); }
    } else {
      ReplacedPlaces(q, idx, e);
      ReplacedOrder(q, key, h);
    }
  }

  lemma ReplacedPlaces(q: seq<nat>, idx: map<nat, nat>, e: nat)
    requires NoDup(q) && Places(q, idx) && e in idx && idx[e] < |q| - 1
    ensures var v := q[..|q| - 1][idx[e] := q[|q| - 1]];
      NoDup(v) && PlacesBut(v, idx - {e}, idx[e]) && forall x :: x in v <==> x in idx && x != e
  {
    var h, n := idx[e], |q| - 1;
    var v := q[..n][h := q[n]];
    forall x ensures x in v <==> x in idx && x != e {
      if x in idx && x != e { assert v[if idx[x] == n then h else idx[x]] == x; }
      if x in v {
        var k :| 0 <= k < |v| && v[k] == x;
        assert x == q[if k == h then n else k];
      }
    }
  }

  lemma ReplacedOrder(q: seq<nat>, key: Keys, h: nat)
    requires HeapOk(q, key) && h < |q| - 1
    ensures var n := |q| - 1;
      var v := q[..n][h := q[n]];
      if h > 0 && key(q[Parent(h)]) > key(q[n]) then UpOk(v, key, h) else DownOk(v, key, h)
  {
    var n := |q| - 1;
    var v := q[..n][h := q[n]];
    if h > 0 { assert InOrder(q, key, h); }
    forall i | 0 < i < |v| ensures Spans(v, key, h, i) { assert InOrder(q, key, i); }
    if h > 0 && key(q[Parent(h)]) > key(q[n]) {
      forall i | 0 < i < |v| && i != h ensures InOrder(v, key, i) { assert InOrder(q, key, i); }
    } else {
      forall i | 0 < i < |v| && Parent(i) != h ensures InOrder(v, key, i) { assert InOrder(q, key, i); }
    }
  }

  lemma SameSelf(v: seq<nat>)
    ensures Same(v, v)
  {
  }

  /** A step keeps the events and their places. */
  lemma Moved(v: seq<nat>, idx: map<nat, nat>, h: nat, j: nat, v0: seq<nat>)
    requires PlacesBut(v, idx, h) && NoDup(v) && j < |v| && j != h && Same(v0, v)
    ensures h < |v|
    ensures PlacesBut(Swapped(v, h, j), idx[v[j] := h], j) && NoDup(Swapped(v, h, j)) && Same(v0, Swapped(v, h, j))
  {
    PlacesStep(v, idx, h, j);
    SwapSame(v, h, j);
  }

  /** Moving the hole is swapping, with `e` as if it were there. */
  lemma Virtual(q: seq<nat>, h: nat, j: nat, e: nat)
    requires h < |q| && j < |q| && j != h
    ensures q[h := q[j]][j := e] == Swapped(q[h := e], h, j)
    ensures q[h := e][j] == q[j]
  {
  }
}
