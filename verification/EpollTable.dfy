/** The table that tells epoll_apply_one_change which epoll_ctl call a coalesced change needs. */
module EpollTable {

  /** EV_READ, EV_WRITE and EV_CLOSED, or EPOLLIN, EPOLLOUT and EPOLLRDHUP. */
  datatype Mask = Mask(read: bool, write: bool, close: bool) {
    predicate IsEmpty() {
      !read && !write && !close
    }
  }

  const NO_INTEREST := Mask(false, false, false)

  /** One of read_change, write_change, close_change: 0, EV_CHANGE_ADD or EV_CHANGE_DEL. */
  datatype Delta = Keep | Add | Del

  /** struct event_change for an fd: what the kernel had, and what to change. */
  datatype Change = Change(fd: int, was: Mask, read: Delta, write: Delta, close: Delta)

  datatype Ctl = Nothing | CtlAdd | CtlDel | CtlMod

  /** An epoll_ctl call: the operation and the events. */
  datatype Operation = Operation(ctl: Ctl, events: Mask)

  function DeltaCode(d: Delta): nat {
    match d case Keep => 0 case Add => 1 case Del => 2
  }

  function Bit(b: bool): nat {
    if b then 1 else 0
  }

  /** EPOLL_OP_TABLE_INDEX in two parts: old events and write change pick the row, read and
      close change the place in it. */
  function Row(c: Change): nat {
    DeltaCode(c.write) + 4 * Bit(c.was.read) + 8 * Bit(c.was.write) + 16 * Bit(c.was.close)
  }

  function Column(c: Change): nat {
    DeltaCode(c.close) + 4 * DeltaCode(c.read)
  }

  /** epoll_op_table, sixteen entries to a row.  The last digit of an entry is its events (1 for
      EPOLLIN, 2 for EPOLLOUT, 4 for EPOLLRDHUP); the digit before is 1 for EPOLL_CTL_ADD, 2 for
      EPOLL_CTL_DEL, 3 for EPOLL_CTL_MOD, and 9 where a change would both add and delete. */
  function TableRow(row: nat): (r: seq<nat>)
    ensures |r| == 16
  {
    match row
    case 0 => [0, 14, 24, 90, 11, 15, 11, 90, 21, 14, 25, 90, 90, 90, 90, 90]
    case 1 => [12, 16, 12, 90, 13, 17, 13, 90, 12, 16, 12, 90, 90, 90, 90, 90]
    case 2 => [22, 14, 26, 90, 11, 15, 11, 90, 23, 14, 27, 90, 90, 90, 90, 90]
    case 3 => [90, 90, 90, 90, 90, 90, 90, 90, 90, 90, 90, 90, 90, 90, 90, 90]
    case 4 => [0, 35, 31, 90, 31, 35, 31, 90, 21, 34, 25, 90, 90, 90, 90, 90]
    case 5 => [33, 37, 33, 90, 33, 37, 33, 90, 32, 36, 32, 90, 90, 90, 90, 90]
    case 6 => [31, 35, 31, 90, 31, 35, 31, 90, 23, 34, 27, 90, 90, 90, 90, 90]
    case 7 => [90, 90, 90, 90, 90, 90, 90, 90, 90, 90, 90, 90, 90, 90, 90, 90]
    case 8 => [0, 36, 32, 90, 33, 37, 33, 90, 32, 36, 32, 90, 90, 90, 90, 90]
    case 9 => [32, 36, 32, 90, 33, 37, 33, 90, 32, 36, 32, 90, 90, 90, 90, 90]
    case 10 => [22, 34, 26, 90, 31, 35, 31, 90, 23, 34, 27, 90, 90, 90, 90, 90]
    case 11 => [90, 90, 90, 90, 90, 90, 90, 90, 90, 90, 90, 90, 90, 90, 90, 90]
    case 12 => [0, 37, 33, 90, 33, 37, 33, 90, 32, 36, 32, 90, 90, 90, 90, 90]
    case 13 => [33, 37, 33, 90, 33, 37, 33, 90, 32, 36, 32, 90, 90, 90, 90, 90]
    case 14 => [31, 35, 31, 90, 31, 35, 31, 90, 23, 34, 27, 90, 90, 90, 90, 90]
    case 15 => [90, 90, 90, 90, 90, 90, 90, 90, 90, 90, 90, 90, 90, 90, 90, 90]
    case 16 => [0, 34, 24, 90, 35, 35, 31, 90, 34, 34, 25, 90, 90, 90, 90, 90]
    case 17 => [36, 36, 32, 90, 37, 37, 33, 90, 36, 36, 32, 90, 90, 90, 90, 90]
    case 18 => [34, 34, 26, 90, 35, 35, 31, 90, 34, 34, 27, 90, 90, 90, 90, 90]
    case 19 => [90, 90, 90, 90, 90, 90, 90, 90, 90, 90, 90, 90, 90, 90, 90, 90]
    case 20 => [0, 35, 31, 90, 35, 35, 31, 90, 34, 34, 25, 90, 90, 90, 90, 90]
    case 21 => [37, 37, 33, 90, 37, 37, 33, 90, 36, 36, 32, 90, 90, 90, 90, 90]
    case 22 => [35, 35, 31, 90, 35, 35, 31, 90, 34, 34, 27, 90, 90, 90, 90, 90]
    case 23 => [90, 90, 90, 90, 90, 90, 90, 90, 90, 90, 90, 90, 90, 90, 90, 90]
    case 24 => [0, 36, 32, 90, 37, 37, 33, 90, 36, 36, 32, 90, 90, 90, 90, 90]
    case 25 => [36, 36, 32, 90, 37, 37, 33, 90, 36, 36, 32, 90, 90, 90, 90, 90]
    case 26 => [34, 34, 26, 90, 35, 35, 31, 90, 34, 34, 27, 90, 90, 90, 90, 90]
    case 27 => [90, 90, 90, 90, 90, 90, 90, 90, 90, 90, 90, 90, 90, 90, 90, 90]
    case 28 => [0, 37, 33, 90, 37, 37, 33, 90, 36, 36, 32, 90, 90, 90, 90, 90]
    case 29 => [37, 37, 33, 90, 37, 37, 33, 90, 36, 36, 32, 90, 90, 90, 90, 90]
    case 30 => [35, 35, 31, 90, 35, 35, 31, 90, 34, 34, 27, 90, 90, 90, 90, 90]
    case _ => [90, 90, 90, 90, 90, 90, 90, 90, 90, 90, 90, 90, 90, 90, 90, 90]
  }

  function DecodeMask(bits: nat): Mask {
    Mask(bits % 2 == 1, bits / 2 % 2 == 1, bits / 4 % 2 == 1)
  }

  function DecodeEntry(e: nat): Operation {
    Operation(
      if e / 10 == 1 then CtlAdd else if e / 10 == 2 then CtlDel else if e / 10 == 3 then CtlMod else Nothing,
      DecodeMask(e % 10))
  }

  /** The table lookup. */
  function Lookup(c: Change): Operation {
    DecodeEntry(TableRow(Row(c))[Column(c)])
  }

  /** What is wanted once the change is made: the old interest, less the deletes, plus the adds. */
  function After(c: Change): Mask {
    Mask(Kept(c.was.read, c.read), Kept(c.was.write, c.write), Kept(c.was.close, c.close))
  }

  function Kept(was: bool, d: Delta): bool {
    d == Add || (d == Keep && was)
  }

  predicate Changes(c: Change) {
    c.read != Keep || c.write != Keep || c.close != Keep
  }

  /** What the table must say: nothing for no change; otherwise register what is wanted, with MOD
      over an old registration and ADD without one, or drop the registration when nothing is wanted. */
  ghost predicate RightCall(c: Change, o: Operation) {
    if !Changes(c) then o == Operation(Nothing, NO_INTEREST)
    else if After(c).IsEmpty() then o.ctl == CtlDel && !o.events.IsEmpty()
    else o == Operation(if c.was.IsEmpty() then CtlAdd else CtlMod, After(c))
  }

  // The rows of the table, one lemma to each set of old events.

  lemma RowsWithNothing(c: Change)
    requires c.was == Mask(false, false, false)
    ensures RightCall(c, Lookup(c))
  {
    match c.write {
      case Keep => assert TableRow(0)[Column(c)] == TableRow(Row(c))[Column(c)];
      case Add => assert TableRow(1)[Column(c)] == TableRow(Row(c))[Column(c)];
      case Del => assert TableRow(2)[Column(c)] == TableRow(Row(c))[Column(c)];
    }
  }

  lemma RowsWithRead(c: Change)
    requires c.was == Mask(true, false, false)
    ensures RightCall(c, Lookup(c))
  {
    match c.write {
      case Keep => assert TableRow(4)[Column(c)] == TableRow(Row(c))[Column(c)];
      case Add => assert TableRow(5)[Column(c)] == TableRow(Row(c))[Column(c)];
      case Del => assert TableRow(6)[Column(c)] == TableRow(Row(c))[Column(c)];
    }
  }

  lemma RowsWithWrite(c: Change)
    requires c.was == Mask(false, true, false)
    ensures RightCall(c, Lookup(c))
  {
    match c.write {
      case Keep => assert TableRow(8)[Column(c)] == TableRow(Row(c))[Column(c)];
      case Add => assert TableRow(9)[Column(c)] == TableRow(Row(c))[Column(c)];
      case Del => assert TableRow(10)[Column(c)] == TableRow(Row(c))[Column(c)];
    }
  }

  lemma RowsWithReadWrite(c: Change)
    requires c.was == Mask(true, true, false)
    ensures RightCall(c, Lookup(c))
  {
    match c.write {
      case Keep => assert TableRow(12)[Column(c)] == TableRow(Row(c))[Column(c)];
      case Add => assert TableRow(13)[Column(c)] == TableRow(Row(c))[Column(c)];
      case Del => assert TableRow(14)[Column(c)] == TableRow(Row(c))[Column(c)];
    }
  }

  lemma RowsWithClose(c: Change)
    requires c.was == Mask(false, false, true)
    ensures RightCall(c, Lookup(c))
  {
    match c.write {
      case Keep => assert TableRow(16)[Column(c)] == TableRow(Row(c))[Column(c)];
      case Add => assert TableRow(17)[Column(c)] == TableRow(Row(c))[Column(c)];
      case Del => assert TableRow(18)[Column(c)] == TableRow(Row(c))[Column(c)];
    }
  }

  lemma RowsWithReadClose(c: Change)
    requires c.was == Mask(true, false, true)
    ensures RightCall(c, Lookup(c))
  {
    match c.write {
      case Keep => assert TableRow(20)[Column(c)] == TableRow(Row(c))[Column(c)];
      case Add => assert TableRow(21)[Column(c)] == TableRow(Row(c))[Column(c)];
      case Del => assert TableRow(22)[Column(c)] == TableRow(Row(c))[Column(c)];
    }
  }

  lemma RowsWithWriteClose(c: Change)
    requires c.was == Mask(false, true, true)
    ensures RightCall(c, Lookup(c))
  {
    match c.write {
      case Keep => assert TableRow(24)[Column(c)] == TableRow(Row(c))[Column(c)];
      case Add => assert TableRow(25)[Column(c)] == TableRow(Row(c))[Column(c)];
      case Del => assert TableRow(26)[Column(c)] == TableRow(Row(c))[Column(c)];
    }
  }

  lemma RowsWithReadWriteClose(c: Change)
    requires c.was == Mask(true, true, true)
    ensures RightCall(c, Lookup(c))
  {
    match c.write {
      case Keep => assert TableRow(28)[Column(c)] == TableRow(Row(c))[Column(c)];
      case Add => assert TableRow(29)[Column(c)] == TableRow(Row(c))[Column(c)];
      case Del => assert TableRow(30)[Column(c)] == TableRow(Row(c))[Column(c)];
    }
  }

  /** Every entry of the table that a change can select makes the right call. */
  lemma TableRight(c: Change)
    ensures RightCall(c, Lookup(c))
  {
    hide RightCall, Lookup;
    match c.was {
      case Mask(false, false, false) => RowsWithNothing(c);
      case Mask(true, false, false) => RowsWithRead(c);
      case Mask(false, true, false) => RowsWithWrite(c);
      case Mask(true, true, false) => RowsWithReadWrite(c);
      case Mask(false, false, true) => RowsWithClose(c);
      case Mask(true, false, true) => RowsWithReadClose(c);
      case Mask(false, true, true) => RowsWithWriteClose(c);
      case Mask(true, true, true) => RowsWithReadWriteClose(c);
    }
  }
}
