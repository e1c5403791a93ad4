/** Per-fd interest counts, the changelist that coalesces their changes, and its application to
    the kernel at dispatch: the kernel ends up where applying every change at once puts it. */
module Changelist {
  import opened EpollTable

  const MAX_COUNT := 0xffff

  /** An event on an fd, with the conditions it waits for. */
  datatype Event = Event(id: nat, want: Mask)

  /** struct evmap_io and the changelist fdinfo behind it. */
  datatype Slot = Slot(events: seq<Event>, nread: nat, nwrite: nat, nclose: nat, idxplus1: nat)

  const NEW_SLOT := Slot([], 0, 0, 0, 0)

  ghost function CountRead(es: seq<Event>): nat {
    if es == [] then 0 else Bit(es[0].want.read) + CountRead(es[1..])
  }

  ghost function CountWrite(es: seq<Event>): nat {
    if es == [] then 0 else Bit(es[0].want.write) + CountWrite(es[1..])
  }

  ghost function CountClose(es: seq<Event>): nat {
    if es == [] then 0 else Bit(es[0].want.close) + CountClose(es[1..])
  }

  /** evmap_io_check_integrity_fn: the counts count the list, and every event waits for something. */
  ghost predicate SlotOk(s: Slot) {
    && s.nread == CountRead(s.events) <= MAX_COUNT
    && s.nwrite == CountWrite(s.events) <= MAX_COUNT
    && s.nclose == CountClose(s.events) <= MAX_COUNT
    && forall i :: 0 <= i < |s.events| ==> !s.events[i].want.IsEmpty()
  }

  /** The conditions somebody waits for. */
  function Wanted(s: Slot): Mask {
    Mask(s.nread > 0, s.nwrite > 0, s.nclose > 0)
  }

  /** evmap_io_add_: the slot with `ev` at the head of its list. */
  function WithEvent(s: Slot, ev: Event): Slot {
    Slot([ev] + s.events,
      s.nread + Bit(ev.want.read), s.nwrite + Bit(ev.want.write), s.nclose + Bit(ev.want.close), s.idxplus1)
  }

  predicate CountsFit(s: Slot) {
    s.nread <= MAX_COUNT && s.nwrite <= MAX_COUNT && s.nclose <= MAX_COUNT
  }

  /** evmap_io_del_: the slot without its event `j`. */
  function WithoutEvent(s: Slot, j: nat): Slot
    requires j < |s.events| && SlotOk(s)
  {
    var w := s.events[j].want;
    CountsSplit(s.events, j);
    Slot(s.events[..j] + s.events[j + 1..],
      s.nread - Bit(w.read), s.nwrite - Bit(w.write), s.nclose - Bit(w.close), s.idxplus1)
  }

  lemma {:induction false} CountsSplit(es: seq<Event>, j: nat)
    requires j < |es|
    ensures CountRead(es[..j] + es[j + 1..]) == CountRead(es) - Bit(es[j].want.read)
    ensures CountWrite(es[..j] + es[j + 1..]) == CountWrite(es) - Bit(es[j].want.write)
    ensures CountClose(es[..j] + es[j + 1..]) == CountClose(es) - Bit(es[j].want.close)
  {
    if j == 0 {
      assert es[..0] + es[1..] == es[1..];
    } else {
      CountsSplit(es[1..], j - 1);
      assert (es[..j] + es[j + 1..])[1..] == es[1..][..j - 1] + es[1..][j..];
    }
  }

  lemma WithEventOk(s: Slot, ev: Event)
    requires SlotOk(s) && !ev.want.IsEmpty() && CountsFit(WithEvent(s, ev))
    ensures SlotOk(WithEvent(s, ev)) && Wanted(WithEvent(s, ev)) == Plus(Wanted(s), ev.want)
  {
    assert ([ev] + s.events)[1..] == s.events;
  }

  lemma WithoutEventOk(s: Slot, j: nat)
    requires j < |s.events| && SlotOk(s)
    ensures SlotOk(WithoutEvent(s, j))
  {
    CountsSplit(s.events, j);
  }

  type Kernel = map<int, Mask>

  /** The interest set the kernel keeps for an fd. */
  function Interest(k: Kernel, fd: int): Mask {
    if fd in k then k[fd] else NO_INTEREST
  }

  // ---- epoll_ctl ----

  datatype Errno = Ok | EExist | ENoEnt

  /** epoll_ctl as the kernel answers it. */
  function EpollCtl(k: Kernel, ctl: Ctl, fd: int, events: Mask): (Errno, Kernel) {
    match ctl
    case Nothing => (Ok, k)
    case CtlAdd => if fd in k then (EExist, k) else (Ok, k[fd := events])
    case CtlMod => if fd in k then (Ok, k[fd := events]) else (ENoEnt, k)
    case CtlDel => if fd in k then (Ok, k - {fd}) else (ENoEnt, k)
  }

  /** epoll_apply_one_change: look the call up, make it, retry MOD as ADD and ADD as MOD. */
  function ApplyOneChange(k: Kernel, c: Change): Kernel {
    var o := Lookup(c);
    if o.events.IsEmpty() then k
    else
      var (e, k1) := EpollCtl(k, o.ctl, c.fd, o.events);
      if e == Ok then k1
      else if o.ctl == CtlMod && e == ENoEnt then EpollCtl(k, CtlAdd, c.fd, o.events).1
      else if o.ctl == CtlAdd && e == EExist then EpollCtl(k, CtlMod, c.fd, o.events).1
      else k
  }

  /** No registration without interest. */
  ghost predicate KernelOk(k: Kernel) {
    forall fd :: fd in k ==> !k[fd].IsEmpty()
  }

  /** A change made to the interest it was computed from yields that interest less the deletes
      plus the adds, and touches no other fd. */
  lemma ApplyOneChangeRight(k: Kernel, c: Change)
    requires KernelOk(k) && Interest(k, c.fd) == c.was
    ensures KernelOk(ApplyOneChange(k, c))
    ensures Interest(ApplyOneChange(k, c), c.fd) == After(c)
    ensures forall fd :: fd != c.fd ==> Interest(ApplyOneChange(k, c), fd) == Interest(k, fd)
    ensures forall fd :: fd != c.fd && fd !in k ==> fd !in ApplyOneChange(k, c)
  {
    hide Lookup;
    TableRight(c);
  }

  // ---- The changelist entry of an fd ----

  /** event_changelist_add_ on the entry. */
  function NoteAdd(c: Change, m: Mask): Change {
    c.(read := if m.read then Add else c.read,
       write := if m.write then Add else c.write,
       close := if m.close then Add else c.close)
  }

  /** event_changelist_del_ on the entry: a delete of what the kernel never had is a no-op. */
  function NoteDel(c: Change, m: Mask): Change {
    c.(read := if m.read then (if c.was.read then Del else Keep) else c.read,
       write := if m.write then (if c.was.write then Del else Keep) else c.write,
       close := if m.close then (if c.was.close then Del else Keep) else c.close)
  }

  function Plus(a: Mask, b: Mask): Mask {
    Mask(a.read || b.read, a.write || b.write, a.close || b.close)
  }

  function Minus(a: Mask, b: Mask): Mask {
    Mask(a.read && !b.read, a.write && !b.write, a.close && !b.close)
  }

  lemma NoteAddAfter(c: Change, m: Mask)
    ensures After(NoteAdd(c, m)) == Plus(After(c), m) && NoteAdd(c, m).fd == c.fd && NoteAdd(c, m).was == c.was
  {
  }

  lemma NoteDelAfter(c: Change, m: Mask)
    ensures After(NoteDel(c, m)) == Minus(After(c), m) && NoteDel(c, m).fd == c.fd && NoteDel(c, m).was == c.was
  {
  }

  /** Entry `i` belongs to an fd that points back at it. */
  ghost predicate Backed(io: map<int, Slot>, changes: seq<Change>, i: int) {
    0 <= i < |changes| ==> changes[i].fd in io && io[changes[i].fd].idxplus1 == i + 1
  }

  /** Half of the bijection between entries and fds with an entry; FdOk has the other. */
  ghost predicate IndexOk(io: map<int, Slot>, changes: seq<Change>) {
    forall i {:trigger Backed(io, changes, i)} :: Backed(io, changes, i)
  }

  /** An fd without an entry is up to date; an entry is its fd's, starts from what the kernel has
      and leads to what is wanted. */
  ghost predicate FdOk(fd: int, s: Slot, changes: seq<Change>, has: Mask) {
    if s.idxplus1 == 0 then has == Wanted(s)
    else
      && s.idxplus1 <= |changes|
      && changes[s.idxplus1 - 1].fd == fd
      && changes[s.idxplus1 - 1].was == has
      && After(changes[s.idxplus1 - 1]) == Wanted(s)
  }

  ghost predicate SlotsOk(io: map<int, Slot>) {
    forall fd :: fd in io ==> fd >= 0 && SlotOk(io[fd])
  }

  ghost predicate UpToDate(io: map<int, Slot>, changes: seq<Change>, k: Kernel) {
    forall fd {:trigger FdOk(fd, io[fd], changes, Interest(k, fd))} :: fd in io ==>
      FdOk(fd, io[fd], changes, Interest(k, fd))
  }

  /** The kernel has exactly the interest that is wanted. */
  ghost predicate Mirrors(io: map<int, Slot>, k: Kernel) {
    forall fd :: fd in io ==> Interest(k, fd) == Wanted(io[fd])
  }

  ghost predicate OnlyKnown(io: map<int, Slot>, k: Kernel) {
    KernelOk(k) && forall fd :: fd in k ==> fd in io
  }

  /** A new entry that changes nothing yet. */
  lemma EntryAdded(io: map<int, Slot>, changes: seq<Change>, k: Kernel, fd: int)
    requires IndexOk(io, changes) && UpToDate(io, changes, k) && fd in io && io[fd].idxplus1 == 0
    ensures
      var io1 := io[fd := io[fd].(idxplus1 := |changes| + 1)];
      var changes1 := changes + [Change(fd, Wanted(io[fd]), Keep, Keep, Keep)];
      IndexOk(io1, changes1) && UpToDate(io1, changes1, k)
  {
    var c := Change(fd, Wanted(io[fd]), Keep, Keep, Keep);
    var io1, changes1 := io[fd := io[fd].(idxplus1 := |changes| + 1)], changes + [c];
    forall i ensures Backed(io1, changes1, i) {
      assert Backed(io, changes, i);
    }
    forall g | g in io1 ensures FdOk(g, io1[g], changes1, Interest(k, g)) {
      assert FdOk(g, io[g], changes, Interest(k, g));
    }
  }

  /** Recording a change on the entry of `fd` together with what is now wanted there. */
  lemma EntryUpdated(io: map<int, Slot>, changes: seq<Change>, k: Kernel, fd: int, s: Slot, c: Change)
    requires IndexOk(io, changes) && UpToDate(io, changes, k) && fd in io && 0 < io[fd].idxplus1 <= |changes|
    requires s.idxplus1 == io[fd].idxplus1
    requires c.fd == fd && c.was == changes[s.idxplus1 - 1].was && After(c) == Wanted(s)
    ensures IndexOk(io[fd := s], changes[s.idxplus1 - 1 := c])
    ensures UpToDate(io[fd := s], changes[s.idxplus1 - 1 := c], k)
  {
    hide After;
    var io1, changes1 := io[fd := s], changes[s.idxplus1 - 1 := c];
    assert FdOk(fd, io[fd], changes, Interest(k, fd));
    forall i ensures Backed(io1, changes1, i) {
      assert Backed(io, changes, i);
    }
    forall g | g in io1 ensures FdOk(g, io1[g], changes1, Interest(k, g)) {
      assert FdOk(g, io[g], changes, Interest(k, g));
    }
  }

  /** A slot whose wanted interest stays the same. */
  lemma SlotUpdated(io: map<int, Slot>, changes: seq<Change>, k: Kernel, fd: int, s: Slot)
    requires IndexOk(io, changes) && UpToDate(io, changes, k) && fd in io
    requires s.idxplus1 == io[fd].idxplus1 && Wanted(s) == Wanted(io[fd])
    ensures IndexOk(io[fd := s], changes) && UpToDate(io[fd := s], changes, k)
  {
    hide After;
    var io1 := io[fd := s];
    forall i ensures Backed(io1, changes, i) {
      assert Backed(io, changes, i);
    }
    forall g | g in io1 ensures FdOk(g, io1[g], changes, Interest(k, g)) {
      assert FdOk(g, io[g], changes, Interest(k, g));
    }
  }

  /** A new slot. */
  lemma SlotAdded(io: map<int, Slot>, changes: seq<Change>, k: Kernel, fd: int)
    requires IndexOk(io, changes) && UpToDate(io, changes, k) && OnlyKnown(io, k) && fd !in io
    ensures IndexOk(io[fd := NEW_SLOT], changes) && UpToDate(io[fd := NEW_SLOT], changes, k)
    ensures OnlyKnown(io[fd := NEW_SLOT], k)
  {
    hide After;
    var io1 := io[fd := NEW_SLOT];
    assert Interest(k, fd) == NO_INTEREST;
    forall i ensures Backed(io1, changes, i) {
      assert Backed(io, changes, i);
    }
    forall g | g in io1 ensures FdOk(g, io1[g], changes, Interest(k, g)) {
      if g != fd { assert FdOk(g, io[g], changes, Interest(k, g)); }
    }
  }

  /** What applying a change at once does to a kernel that mirrors what is wanted. */
  lemma MirrorUpdated(io: map<int, Slot>, k: Kernel, fd: int, s: Slot, c: Change)
    requires Mirrors(io, k) && OnlyKnown(io, k) && fd in io
    requires c.fd == fd && c.was == Wanted(io[fd]) && After(c) == Wanted(s)
    ensures Mirrors(io[fd := s], ApplyOneChange(k, c)) && OnlyKnown(io[fd := s], ApplyOneChange(k, c))
  {
    hide ApplyOneChange;
    ApplyOneChangeRight(k, c);
    forall g | g in ApplyOneChange(k, c) ensures g in io[fd := s] {
      assert g == fd || g in k;
    }
  }

  lemma MirrorAdded(io: map<int, Slot>, k: Kernel, fd: int)
    requires Mirrors(io, k) && OnlyKnown(io, k) && fd !in io
    ensures Mirrors(io[fd := NEW_SLOT], k) && OnlyKnown(io[fd := NEW_SLOT], k)
  {
    assert Interest(k, fd) == NO_INTEREST;
  }

  /** A slot whose wanted interest stays the same. */
  lemma MirrorKept(io: map<int, Slot>, k: Kernel, fd: int, s: Slot)
    requires Mirrors(io, k) && OnlyKnown(io, k) && fd in io && Wanted(s) == Wanted(io[fd])
    ensures Mirrors(io[fd := s], k) && OnlyKnown(io[fd := s], k)
  {
  }

  class IoBase {
    var io: map<int, Slot>
    var changes: seq<Change>
    var kernel: Kernel
    /** The kernel as it would be had every change been applied at once, as with epoll_nochangelist_add and del. */
    ghost var immediate: Kernel

    ghost predicate Valid()
      reads this
    {
      && SlotsOk(io) && IndexOk(io, changes) && UpToDate(io, changes, kernel) && OnlyKnown(io, kernel)
      && Mirrors(io, immediate) && OnlyKnown(io, immediate)
    }

    constructor ()
      ensures Valid() && io == map[] && changes == []
    {
      io, changes, kernel, immediate := map[], [], map[], map[];
    }

    /** The slot of `fd`, made if there is none: GET_IO_SLOT_AND_CTOR. */
    method GetSlot(fd: int)
      requires Valid() && fd >= 0
      modifies this`io
      ensures Valid() && fd in io && io == if fd in old(io) then old(io) else old(io)[fd := NEW_SLOT]
    {
      hide IndexOk, UpToDate, OnlyKnown;
      if fd !in io {
        SlotAdded(io, changes, kernel, fd);
        MirrorAdded(io, immediate, fd);
        io := io[fd := NEW_SLOT];
      }
    }

    /** The changelist entry of `fd`, made if there is none: event_changelist_get_or_construct. */
    method GetOrConstruct(fd: int) returns (i: nat)
      requires Valid() && fd in io
      modifies this`io, this`changes
      ensures Valid() && i < |changes| && changes[i].fd == fd && After(changes[i]) == Wanted(old(io)[fd])
      ensures io == old(io)[fd := old(io)[fd].(idxplus1 := i + 1)]
    {
      hide IndexOk, Mirrors, OnlyKnown, Interest;
      assert FdOk(fd, io[fd], changes, Interest(kernel, fd));
      if io[fd].idxplus1 == 0 {
        var s := io[fd].(idxplus1 := |changes| + 1);
        EntryAdded(io, changes, kernel, fd);
        SameSlot(io[fd], |changes| + 1);
        MirrorKept(io, immediate, fd, s);
        OnlyKnownKept(io, kernel, fd, s);
        i := |changes|;
        changes := changes + [Change(fd, Wanted(io[fd]), Keep, Keep, Keep)];
        io := io[fd := io[fd].(idxplus1 := i + 1)];
      } else {
        i := io[fd].idxplus1 - 1;
        assert io == io[fd := io[fd].(idxplus1 := i + 1)];
      }
    }

    /** evmap_io_add_: count the event in, and note a change when a count leaves zero. */
    method IoAdd(fd: int, ev: Event) returns (r: int)
      requires Valid() && !ev.want.IsEmpty()
      modifies this
      ensures Valid() && kernel == old(kernel)
      ensures fd < 0 ==> r == 0 && io == old(io) && changes == old(changes)
      ensures fd >= 0 ==>
        var s := if fd in old(io) then old(io)[fd] else NEW_SLOT;
        && fd in io && io.Keys == old(io).Keys + {fd}
        && (r == -1 <==> !CountsFit(WithEvent(s, ev)))
        && io[fd] == (if r == -1 then s else WithEvent(s, ev)).(idxplus1 := io[fd].idxplus1)
        && forall g :: g in old(io) && g != fd ==> io[g] == old(io)[g]
    {
      hide IndexOk, UpToDate, Mirrors, OnlyKnown, SlotOk;
      if fd < 0 { return 0; }
      GetSlot(fd);
      var s := io[fd];
      var s1 := WithEvent(s, ev);
      if !CountsFit(s1) { return -1; }
      WithEventOk(s, ev);
      var res := Minus(ev.want, Wanted(s));
      if res.IsEmpty() {
        r := 0;
        SetSlot(fd, s1);
      } else {
        r := 1;
        ghost var once := NoteAdd(Change(fd, Wanted(s), Keep, Keep, Keep), res);
        var i := GetOrConstruct(fd);
        NoteAddAfter(changes[i], res);
        SameSlot(s1, i + 1);
        Record(fd, i, s1.(idxplus1 := i + 1), NoteAdd(changes[i], res), once);
      }
    }

    /** Replace a slot without a change of what is wanted. */
    method SetSlot(fd: int, s: Slot)
      requires Valid() && fd in io && SlotOk(s) && s.idxplus1 == io[fd].idxplus1 && Wanted(s) == Wanted(io[fd])
      modifies this`io
      ensures Valid() && io == old(io)[fd := s]
    {
      hide IndexOk, UpToDate, Mirrors, OnlyKnown, SlotOk;
      SlotUpdated(io, changes, kernel, fd, s);
      MirrorKept(io, immediate, fd, s);
      OnlyKnownKept(io, kernel, fd, s);
      io := io[fd := s];
    }

    /** Replace a slot and record the change on its entry; `once` is the same change applied at once. */
    method Record(fd: int, i: nat, s: Slot, c: Change, ghost once: Change)
      requires Valid() && fd in io && SlotOk(s) && s.idxplus1 == io[fd].idxplus1 == i + 1 <= |changes|
      requires c.fd == fd && c.was == changes[i].was && After(c) == Wanted(s)
      requires once.fd == fd && once.was == Wanted(io[fd]) && After(once) == Wanted(s)
      modifies this`io, this`changes, this`immediate
      ensures Valid() && io == old(io)[fd := s] && changes == old(changes)[i := c]
    {
      hide IndexOk, UpToDate, Mirrors, OnlyKnown, SlotOk, After, ApplyOneChange;
      EntryUpdated(io, changes, kernel, fd, s, c);
      MirrorUpdated(io, immediate, fd, s, once);
      OnlyKnownKept(io, kernel, fd, s);
      immediate := ApplyOneChange(immediate, once);
      io := io[fd := s];
      changes := changes[i := c];
    }

    /** evmap_io_del_: count the event out, and note a change when a count reaches zero. */
    method IoDel(fd: int, j: nat) returns (r: int)
      requires Valid()
      requires fd >= 0 ==> fd in io && j < |io[fd].events|
      modifies this
      ensures Valid() && kernel == old(kernel)
      ensures fd < 0 ==> r == 0 && io == old(io) && changes == old(changes)
      ensures fd >= 0 ==>
        && io.Keys == old(io).Keys
        && SlotOk(old(io)[fd]) && io[fd] == WithoutEvent(old(io)[fd], j).(idxplus1 := io[fd].idxplus1)
        && forall g :: g in old(io) && g != fd ==> io[g] == old(io)[g]
    {
      hide IndexOk, UpToDate, Mirrors, OnlyKnown, SlotOk;
      if fd < 0 { return 0; }
      var s := io[fd];
      var s1 := WithoutEvent(s, j);
      WithoutEventOk(s, j);
      var res := Minus(Wanted(s), Wanted(s1));
      if res.IsEmpty() {
        r := 0;
        SetSlot(fd, s1);
      } else {
        r := 1;
        ghost var once := NoteDel(Change(fd, Wanted(s), Keep, Keep, Keep), res);
        var i := GetOrConstruct(fd);
        NoteDelAfter(changes[i], res);
        SameSlot(s1, i + 1);
        Record(fd, i, s1.(idxplus1 := i + 1), NoteDel(changes[i], res), once);
      }
    }

    /** epoll_apply_changes and event_changelist_remove_all_, as epoll_dispatch calls them. */
    method Dispatch()
      requires Valid()
      modifies this`io, this`changes, this`kernel
      ensures Valid() && changes == [] && kernel == immediate && Mirrors(io, kernel)
      ensures io.Keys == old(io).Keys
      ensures forall fd :: fd in io ==> io[fd] == old(io)[fd].(idxplus1 := 0)
    {
      hide SlotOk, OnlyKnown, ApplyOneChange, KernelOk;
      UpToDateOwned(io, changes, kernel);
      ApplyChanges();
      RemoveAll();
      SameKernels(io, kernel, immediate);
    }

    /** epoll_apply_changes. */
    method ApplyChanges()
      requires Valid()
      modifies this`kernel
      ensures OnlyKnown(io, kernel) && Mirrors(io, kernel)
    {
      hide SlotOk, ApplyOneChange, After, KernelOk;
      ghost var before := kernel;
      var i := 0;
      while i < |changes|
        invariant 0 <= i <= |changes| && OnlyKnown(io, kernel)
        invariant Applied(io, changes, before, kernel, i)
        modifies this`kernel
      {
        ApplyNext(io, changes, before, kernel, i);
        kernel := ApplyOneChange(kernel, changes[i]);
        i := i + 1;
      }
      AllApplied(io, changes, before, kernel);
    }

    /** event_changelist_remove_all_. */
    method RemoveAll()
      requires SlotsOk(io) && IndexOk(io, changes) && OnlyKnown(io, kernel) && Mirrors(io, kernel)
      requires Mirrors(io, immediate) && OnlyKnown(io, immediate)
      requires Owned(io, changes)
      modifies this`io, this`changes
      ensures Valid() && changes == [] && Mirrors(io, kernel) && io.Keys == old(io).Keys
      ensures forall fd :: fd in io ==> io[fd] == old(io)[fd].(idxplus1 := 0)
    {
      hide SlotOk, OnlyKnown, Mirrors;
      ghost var was := io;
      var i := 0;
      while i < |changes|
        invariant 0 <= i <= |changes| && io.Keys == was.Keys
        invariant forall fd :: fd in was ==>
          io[fd] == if was[fd].idxplus1 <= i then was[fd].(idxplus1 := 0) else was[fd]
        modifies this`io
      {
        var fd := changes[i].fd;
        assert Backed(was, changes, i);
        io := io[fd := io[fd].(idxplus1 := 0)];
        forall g | g in was && was[g].idxplus1 == i + 1 ensures g == fd { assert Owns(g, was[g], changes); }
        i := i + 1;
      }
      forall fd | fd in was ensures io[fd] == was[fd].(idxplus1 := 0) { assert Owns(fd, was[fd], changes); }
      changes := [];
      Emptied(was, io, kernel, immediate);
    }
  }

  /** The first `n` entries have been applied. */
  ghost predicate Applied(io: map<int, Slot>, changes: seq<Change>, before: Kernel, k: Kernel, n: nat)
    requires n <= |changes|
  {
    forall fd {:trigger Interest(k, fd)} :: fd in io ==>
      Interest(k, fd) ==
        if 0 < io[fd].idxplus1 <= n then After(changes[io[fd].idxplus1 - 1]) else Interest(before, fd)
  }

  /** The entry an fd points at is its own. */
  ghost predicate Owns(fd: int, s: Slot, changes: seq<Change>) {
    s.idxplus1 > 0 ==> s.idxplus1 <= |changes| && changes[s.idxplus1 - 1].fd == fd
  }

  ghost predicate Owned(io: map<int, Slot>, changes: seq<Change>) {
    forall fd {:trigger Owns(fd, io[fd], changes)} :: fd in io ==> Owns(fd, io[fd], changes)
  }

  lemma UpToDateOwned(io: map<int, Slot>, changes: seq<Change>, k: Kernel)
    requires UpToDate(io, changes, k)
    ensures Owned(io, changes)
  {
    forall fd | fd in io ensures Owns(fd, io[fd], changes) { assert FdOk(fd, io[fd], changes, Interest(k, fd)); }
  }

  lemma ApplyNext(io: map<int, Slot>, changes: seq<Change>, before: Kernel, k: Kernel, n: nat)
    requires n < |changes| && IndexOk(io, changes) && UpToDate(io, changes, before)
    requires Applied(io, changes, before, k, n) && OnlyKnown(io, k)
    ensures Applied(io, changes, before, ApplyOneChange(k, changes[n]), n + 1)
    ensures OnlyKnown(io, ApplyOneChange(k, changes[n]))
  {
    hide ApplyOneChange, After;
    var c := changes[n];
    var k1 := ApplyOneChange(k, c);
    assert Backed(io, changes, n);
    assert FdOk(c.fd, io[c.fd], changes, Interest(before, c.fd));
    assert Interest(k, c.fd) == c.was;
    ApplyOneChangeRight(k, c);
    forall fd | fd in io
      ensures Interest(k1, fd) ==
        if 0 < io[fd].idxplus1 <= n + 1 then After(changes[io[fd].idxplus1 - 1]) else Interest(before, fd)
    {
      assert FdOk(fd, io[fd], changes, Interest(before, fd));
      assert fd != c.fd ==> Interest(k1, fd) == Interest(k, fd);
    }
    forall g | g in k1 ensures g in io { assert g == c.fd || g in k; }
  }

  lemma AllApplied(io: map<int, Slot>, changes: seq<Change>, before: Kernel, k: Kernel)
    requires UpToDate(io, changes, before) && Applied(io, changes, before, k, |changes|)
    ensures Mirrors(io, k)
  {
    hide After;
    forall fd | fd in io ensures Interest(k, fd) == Wanted(io[fd]) {
      assert FdOk(fd, io[fd], changes, Interest(before, fd));
    }
  }

  /** An empty changelist over a kernel that mirrors what is wanted. */
  lemma Emptied(was: map<int, Slot>, io: map<int, Slot>, k: Kernel, m: Kernel)
    requires io.Keys == was.Keys && forall fd :: fd in io ==> io[fd] == was[fd].(idxplus1 := 0)
    requires SlotsOk(was) && Mirrors(was, k) && OnlyKnown(was, k) && Mirrors(was, m) && OnlyKnown(was, m)
    ensures SlotsOk(io) && IndexOk(io, []) && UpToDate(io, [], k) && OnlyKnown(io, k) && Mirrors(io, k)
    ensures Mirrors(io, m) && OnlyKnown(io, m)
  {
    hide CountRead, CountWrite, CountClose, KernelOk;
  }

  /** Two kernels that mirror the same wants are the same. */
  lemma SameKernels(io: map<int, Slot>, k: Kernel, m: Kernel)
    requires Mirrors(io, k) && OnlyKnown(io, k) && Mirrors(io, m) && OnlyKnown(io, m)
    ensures k == m
  {
    forall fd ensures fd in k <==> fd in m {
      if fd in io { assert Interest(k, fd) == Interest(m, fd); }
    }
    forall fd | fd in k ensures k[fd] == m[fd] { assert Interest(k, fd) == Interest(m, fd); }
  }

  lemma OnlyKnownKept(io: map<int, Slot>, k: Kernel, fd: int, s: Slot)
    requires OnlyKnown(io, k)
    ensures OnlyKnown(io[fd := s], k)
  {
  }

  lemma SameSlot(s: Slot, i: nat)
    requires SlotOk(s)
    ensures SlotOk(s.(idxplus1 := i)) && Wanted(s.(idxplus1 := i)) == Wanted(s)
  {
  }

  /** idxplus1 is a bijection between the fds with a pending change and the changes. */
  lemma PendingBijection(b: IoBase)
    requires b.Valid()
    ensures forall i, j :: 0 <= i < j < |b.changes| ==> b.changes[i].fd != b.changes[j].fd
    ensures forall i :: 0 <= i < |b.changes| ==> b.changes[i].fd in b.io && b.io[b.changes[i].fd].idxplus1 == i + 1
    ensures forall fd :: fd in b.io && b.io[fd].idxplus1 > 0 ==>
      b.io[fd].idxplus1 <= |b.changes| && b.changes[b.io[fd].idxplus1 - 1].fd == fd
  {
    hide SlotOk, OnlyKnown, Mirrors;
    UpToDateOwned(b.io, b.changes, b.kernel);
    forall i | 0 <= i < |b.changes|
      ensures b.changes[i].fd in b.io && b.io[b.changes[i].fd].idxplus1 == i + 1
    {
      assert Backed(b.io, b.changes, i);
    }
    forall fd | fd in b.io && b.io[fd].idxplus1 > 0
      ensures b.io[fd].idxplus1 <= |b.changes| && b.changes[b.io[fd].idxplus1 - 1].fd == fd
    {
      assert Owns(fd, b.io[fd], b.changes);
    }
  }

  /** What a user of the base may do: add an event, delete one that is there, dispatch. */
  datatype Step = AddEvent(fd: int, ev: Event) | DelEvent(fd: int, j: nat) | DispatchAll

  /** Any run, ended by a dispatch: the kernel is what applying every change at once would have
      made it, and holds exactly the conditions somebody waits for. */
  method Run(steps: seq<Step>) returns (b: IoBase)
    requires forall i :: 0 <= i < |steps| && steps[i].AddEvent? ==> !steps[i].ev.want.IsEmpty()
    ensures b.Valid() && b.changes == [] && b.kernel == b.immediate
    ensures forall fd :: fd in b.io ==> Interest(b.kernel, fd) == Wanted(b.io[fd])
    ensures forall fd :: fd !in b.io ==> Interest(b.kernel, fd) == NO_INTEREST
  {
    hide SlotsOk, IndexOk, UpToDate;
    b := new IoBase();
    for i := 0 to |steps|
      invariant b.Valid() && fresh(b)
    {
      match steps[i] {
        case AddEvent(fd, ev) => var _ := b.IoAdd(fd, ev);
        case DelEvent(fd, j) =>
          if fd in b.io && j < |b.io[fd].events| { var _ := b.IoDel(fd, j); }
        case DispatchAll => b.Dispatch();
      }
    }
    b.Dispatch();
  }
}
