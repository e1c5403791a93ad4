/** A bufferevent pair: what one side writes reaches the other side's input.  Over every run of
    the operations no byte is lost, copied or reordered, and none is left waiting while both
    sides are ready. */
module BuffereventPair {
  import opened Basics
  import opened Chains
  import opened Evbuffers

  /** The BEV_SUSPEND_* reasons. */
  datatype Reason = Watermark | Bandwidth | BandwidthGroup | Lookup | FilterRead

  /** One side.  bufferevent_pair_new freezes the front of the output and the end of the input. */
  class Endpoint {
    const input: Evbuffer
    const output: Evbuffer
    var enabledRead: bool
    var enabledWrite: bool
    /** wm_read.high; 0 for none. */
    var wmHigh: nat
    var readSuspended: set<Reason>
    var writeSuspended: set<Reason>
    /** Every byte bufferevent_write accepted here, and every byte bufferevent_read handed out here. */
    ghost var written: seq<byte>
    ghost var taken: seq<byte>

    constructor ()
      ensures fresh(input) && fresh(output) && input != output
      ensures input.Valid() && output.Valid() && input.Contents() == [] && output.Contents() == []
      ensures !input.freezeStart && input.freezeEnd && output.freezeStart && !output.freezeEnd
      ensures !enabledRead && enabledWrite && wmHigh == 0 && readSuspended == {} && writeSuspended == {}
      ensures written == [] && taken == []
    {
      var i := new Evbuffer();
      var o := new Evbuffer();
      i.SetFreeze(false, true);
      o.SetFreeze(true, true);
      input, output := i, o;
      enabledRead, enabledWrite, wmHigh, readSuspended, writeSuspended := false, true, 0, {}, {};
      written, taken := [], [];
    }
  }

  ghost predicate Frozen(e: Endpoint)
    reads e.input, e.output
  {
    && e.input.Valid() && !e.input.freezeStart && e.input.freezeEnd
    && e.output.Valid() && e.output.freezeStart && !e.output.freezeEnd
  }

  /** First in, first out: nothing written is missing, out of place or there twice. */
  ghost predicate Fifo(src: Endpoint, dst: Endpoint)
    reads src`written, dst`taken, src.output, dst.input
  {
    dst.taken + dst.input.Contents() + src.output.Contents() == src.written
  }

  /** The bytes on their way fit a size_t. */
  ghost predicate Fits(src: Endpoint, dst: Endpoint)
    reads src.output, dst.input
  {
    |dst.input.Contents()| + |src.output.Contents()| <= SIZE_MAX
  }

  ghost predicate Wired(a: Endpoint, b: Endpoint)
    reads a`written, b`written, a`taken, b`taken, a.input, a.output, b.input, b.output
  {
    && a != b && a.input != a.output && b.input != b.output
    && a.input != b.input && a.input != b.output && a.output != b.input && a.output != b.output
    && Frozen(a) && Frozen(b)
    && Fifo(a, b) && Fifo(b, a) && Fits(a, b) && Fits(b, a)
  }

  /** The watermark reason is set exactly while the input is at or above a non-zero mark. */
  ghost predicate WatermarkOk(e: Endpoint)
    reads e`readSuspended, e`wmHigh, e.input
  {
    Watermark in e.readSuspended <==> 0 < e.wmHigh <= |e.input.Contents()|
  }

  /** Bytes wait although both sides are enabled and nothing is suspended. */
  ghost predicate Stuck(src: Endpoint, dst: Endpoint)
    reads src, dst, src.output
  {
    && src.enabledWrite && src.writeSuspended == {}
    && dst.enabledRead && dst.readSuspended == {}
    && src.output.Contents() != []
  }

  /** Nothing waits while the two are ready to talk. */
  ghost predicate Quiet(src: Endpoint, dst: Endpoint)
    reads src, dst, src.output
  {
    src.enabledWrite && dst.enabledRead && dst.readSuspended == {} ==> src.output.Contents() == []
  }

  /** What holds between operations. */
  ghost predicate AtRest(a: Endpoint, b: Endpoint)
    reads a, b, a.input, a.output, b.input, b.output
  {
    Wired(a, b) && WatermarkOk(a) && WatermarkOk(b) && !Stuck(a, b) && !Stuck(b, a)
  }

  /** bufferevent_pair_new. */
  method NewPair() returns (a: Endpoint, b: Endpoint)
    ensures fresh(a) && fresh(b) && AtRest(a, b)
    ensures fresh(a.input) && fresh(a.output) && fresh(b.input) && fresh(b.output)
    ensures a.written == b.written == a.taken == b.taken == []
    ensures !a.enabledRead && !b.enabledRead && a.enabledWrite && b.enabledWrite && a.wmHigh == b.wmHigh == 0
    ensures a.readSuspended == b.readSuspended == a.writeSuspended == b.writeSuspended == {}
    ensures a.input.Contents() == a.output.Contents() == b.input.Contents() == b.output.Contents() == []
  {
    hide Flat, WellFormed, Chain.Data;
    a := new Endpoint();
    b := new Endpoint();
  }

  /** be_pair_wants_to_talk. */
  predicate WantsToTalk(src: Endpoint, dst: Endpoint)
    reads src, dst, src.output
  {
    src.enabledWrite && dst.enabledRead && dst.readSuspended == {} && src.output.totalLen > 0
  }

  /** The bytes be_pair_transfer moves. */
  ghost function Amount(output: nat, input: nat, high: nat, ignoreWm: bool): nat {
    if high == 0 then output
    else if input < high then Min(output, high - input)
    else if ignoreWm then output else 0
  }

  /** The buffer part of be_pair_transfer: unfreeze, move bytes, freeze. */
  method MoveBytes(output: Evbuffer, input: Evbuffer, high: nat, ignoreWm: bool) returns (moved: nat)
    requires output != input && output.Valid() && input.Valid()
    requires output.freezeStart && !output.freezeEnd && !input.freezeStart && input.freezeEnd
    requires |output.Contents()| + |input.Contents()| <= SIZE_MAX
    modifies output, input
    ensures output.Valid() && input.Valid()
    ensures output.freezeStart && !output.freezeEnd && !input.freezeStart && input.freezeEnd
    ensures moved == Amount(|old(output.Contents())|, |old(input.Contents())|, high, ignoreWm)
    ensures moved <= |old(output.Contents())|
    ensures input.Contents() == old(input.Contents()) + old(output.Contents())[..moved]
    ensures output.Contents() == old(output.Contents())[moved..]
  {
    hide Flat, WellFormed;
    TotalIsLength(output);
    TotalIsLength(input);
    output.SetFreeze(true, false);
    input.SetFreeze(false, false);
    if high > 0 && input.totalLen < high {
      moved := Min(output.totalLen, high - input.totalLen);
      var _ := output.RemoveBuffer(input, high - input.totalLen);
    } else if high > 0 && !ignoreWm {
      moved := 0;
    } else {
      moved := output.totalLen;
      var _ := input.AddBuffer(output);
    }
    output.SetFreeze(true, true);
    input.SetFreeze(false, true);
  }

  /** Moving bytes from the front of what waits to the end of what has arrived keeps the order. */
  lemma MovedInOrder(taken: seq<byte>, arrived: seq<byte>, queued: seq<byte>, moved: nat)
    requires moved <= |queued|
    ensures taken + (arrived + queued[..moved]) + queued[moved..] == taken + arrived + queued
  {
    assert queued == queued[..moved] + queued[moved..];
  }

  /** be_pair_transfer, with the watermark callback that the arriving bytes run.  Short of a
      flush it never lifts the input above a high watermark. */
  method Transfer(src: Endpoint, dst: Endpoint, ignoreWm: bool)
    requires Wired(src, dst) && WatermarkOk(dst)
    modifies src.output, dst.input, dst`readSuspended
    ensures Wired(src, dst) && WatermarkOk(dst) && Quiet(src, dst)
    ensures !ignoreWm && dst.wmHigh > 0 ==>
      |dst.input.Contents()| <= dst.wmHigh || dst.input.Contents() == old(dst.input.Contents())
    ensures var n := Amount(|old(src.output.Contents())|, |old(dst.input.Contents())|, dst.wmHigh, ignoreWm);
      && n <= |old(src.output.Contents())|
      && dst.input.Contents() == old(dst.input.Contents()) + old(src.output.Contents())[..n]
      && src.output.Contents() == old(src.output.Contents())[n..]
    decreases |src.output.Contents()|, 0
  {
    hide Flat, WellFormed;
    ghost var queued, arrived := src.output.Contents(), dst.input.Contents();
    var moved := MoveBytes(src.output, dst.input, dst.wmHigh, ignoreWm);
    MovedInOrder(dst.taken, arrived, queued, moved);
    if moved > 0 && dst.wmHigh > 0 { InputChanged(src, dst); }
  }

  /** bufferevent_inbuf_wm_cb, which runs on every change of the input while there is a mark. */
  method InputChanged(src: Endpoint, dst: Endpoint)
    requires Wired(src, dst) && dst.wmHigh > 0
    modifies src.output, dst.input, dst`readSuspended
    ensures Wired(src, dst) && WatermarkOk(dst) && Quiet(src, dst)
    ensures |dst.input.Contents()| <= dst.wmHigh || dst.input.Contents() == old(dst.input.Contents())
    ensures old(src.output.Contents()) == [] || dst.wmHigh <= |old(dst.input.Contents())| ==>
      src.output.Contents() == old(src.output.Contents()) && dst.input.Contents() == old(dst.input.Contents())
    decreases |src.output.Contents()|, 3
  {
    hide Flat, WellFormed, Frozen, Fifo, Fits;
    LengthIsTotal(dst);
    if dst.input.totalLen >= dst.wmHigh {
      dst.readSuspended := dst.readSuspended + {Watermark};
    } else {
      ClearReadSuspension(src, dst, Watermark);
    }
  }

  lemma LengthIsTotal(e: Endpoint)
    requires Frozen(e)
    ensures e.input.totalLen == |e.input.Contents()| && e.output.totalLen == |e.output.Contents()|
  {
    TotalIsLength(e.input);
    TotalIsLength(e.output);
  }

  /** bufferevent_unsuspend_read_. */
  method ClearReadSuspension(src: Endpoint, dst: Endpoint, why: Reason)
    requires Wired(src, dst)
    requires if why == Watermark then !(0 < dst.wmHigh <= |dst.input.Contents()|) else WatermarkOk(dst)
    modifies src.output, dst.input, dst`readSuspended
    ensures Wired(src, dst) && WatermarkOk(dst) && Quiet(src, dst)
    ensures dst.wmHigh > 0 ==>
      |dst.input.Contents()| <= dst.wmHigh || dst.input.Contents() == old(dst.input.Contents())
    ensures old(src.output.Contents()) == [] ==>
      src.output.Contents() == old(src.output.Contents()) && dst.input.Contents() == old(dst.input.Contents())
    decreases |src.output.Contents()|, 2
  {
    hide Flat, WellFormed, Frozen, Fifo, Fits;
    dst.readSuspended := dst.readSuspended - {why};
    if dst.readSuspended == {} && dst.enabledRead { Talk(src, dst); }
  }

  /** One direction of be_pair_enable. */
  method Talk(src: Endpoint, dst: Endpoint)
    requires Wired(src, dst) && WatermarkOk(dst)
    modifies src.output, dst.input, dst`readSuspended
    ensures Wired(src, dst) && WatermarkOk(dst) && Quiet(src, dst)
    ensures dst.wmHigh > 0 ==>
      |dst.input.Contents()| <= dst.wmHigh || dst.input.Contents() == old(dst.input.Contents())
    ensures !(src.enabledWrite && dst.enabledRead) || old(src.output.Contents()) == [] ==>
      && src.output.Contents() == old(src.output.Contents()) && dst.input.Contents() == old(dst.input.Contents())
      && dst.readSuspended == old(dst.readSuspended)
    decreases |src.output.Contents()|, 1
  {
    hide Flat, WellFormed, Frozen, Fifo, Fits;
    LengthIsTotal(src);
    if WantsToTalk(src, dst) { Transfer(src, dst, false); }
  }

  /** bufferevent_write on a pair, with be_pair_outbuf_cb. */
  method Write(src: Endpoint, dst: Endpoint, data: seq<byte>) returns (r: int)
    requires AtRest(src, dst)
    requires |dst.input.Contents()| + |src.output.Contents()| + |data| <= SIZE_MAX
    modifies src.output, dst.input, dst`readSuspended, src`written
    ensures AtRest(src, dst)
    ensures r == if |data| > CHAIN_LIMIT then -1 else 0
    ensures src.written == if r == 0 then old(src.written) + data else old(src.written)
    ensures (r == 0 && data != []) || old(Quiet(src, dst)) ==> Quiet(src, dst)
    ensures !(src.enabledWrite && dst.enabledRead) && r == 0 ==>
      && src.output.Contents() == old(src.output.Contents()) + data && dst.input.Contents() == old(dst.input.Contents())
      && dst.readSuspended == old(dst.readSuspended)
  {
    hide Flat, WellFormed;
    LengthIsTotal(src);
    r := src.output.Add(data);
    if r != 0 { return; }
    src.written := src.written + data;
    if data != [] { Talk(src, dst); }
  }

  /** bufferevent_read on a pair: may make room for more. */
  method Read(dst: Endpoint, src: Endpoint, n: nat) returns (data: seq<byte>)
    requires AtRest(src, dst)
    modifies src.output, dst.input, dst`readSuspended, dst`taken
    ensures AtRest(src, dst)
    ensures old(Quiet(src, dst)) ==> Quiet(src, dst)
    ensures dst.taken == old(dst.taken) + data
    ensures data == old(dst.input.Contents())[..Min(n, |old(dst.input.Contents())|)]
  {
    hide Flat, WellFormed;
    LengthIsTotal(dst);
    ghost var was := dst.input.Contents();
    var k;
    k, data := dst.input.Remove(n);
    dst.taken := dst.taken + data;
    assert was == data + dst.input.Contents();
    if data != [] && dst.wmHigh > 0 { InputChanged(src, dst); }
  }

  /** bufferevent_enable. */
  method Enable(e: Endpoint, partner: Endpoint, read: bool, write: bool)
    requires AtRest(e, partner)
    modifies e`enabledRead, e`enabledWrite, e`readSuspended, partner`readSuspended
    modifies e.input, e.output, partner.input, partner.output
    ensures AtRest(e, partner)
    ensures e.enabledRead == (read || old(e.enabledRead)) && e.enabledWrite == (write || old(e.enabledWrite))
    ensures Quiet(e, partner) <==>
      !(&& e.enabledWrite && old(e.writeSuspended) != {} && old(e.output.Contents()) != []
        && partner.enabledRead && old(partner.readSuspended) == {})
    ensures Quiet(partner, e) <==> read || old(Quiet(partner, e))
    ensures !write || old(e.writeSuspended) != {} ==>
      && e.output.Contents() == old(e.output.Contents()) && partner.input.Contents() == old(partner.input.Contents())
      && partner.readSuspended == old(partner.readSuspended)
    ensures !read || old(partner.output.Contents()) == [] ==>
      && partner.output.Contents() == old(partner.output.Contents()) && e.input.Contents() == old(e.input.Contents())
      && e.readSuspended == old(e.readSuspended)
  {
    hide Flat, WellFormed, Frozen, Fifo, Fits;
    var implRead := read && e.readSuspended == {};
    var implWrite := write && e.writeSuspended == {};
    e.enabledRead := e.enabledRead || read;
    e.enabledWrite := e.enabledWrite || write;
    if implRead { Talk(partner, e); }
    if implWrite { Talk(e, partner); }
  }

  /** bufferevent_disable. */
  method Disable(e: Endpoint, partner: Endpoint, read: bool, write: bool)
    requires AtRest(e, partner)
    modifies e`enabledRead, e`enabledWrite
    ensures AtRest(e, partner)
    ensures e.enabledRead == (old(e.enabledRead) && !read) && e.enabledWrite == (old(e.enabledWrite) && !write)
    ensures (old(Quiet(e, partner)) ==> Quiet(e, partner)) && (old(Quiet(partner, e)) ==> Quiet(partner, e))
  {
    hide Flat, WellFormed, Frozen, Fifo, Fits;
    if read { e.enabledRead := false; }
    if write { e.enabledWrite := false; }
  }

  /** bufferevent_setwatermark for reading. */
  method SetWatermark(dst: Endpoint, src: Endpoint, high: nat)
    requires AtRest(src, dst)
    modifies src.output, dst.input, dst`readSuspended, dst`wmHigh
    ensures AtRest(src, dst) && dst.wmHigh == high && Quiet(src, dst)
    ensures old(src.output.Contents()) == [] ==>
      src.output.Contents() == [] && dst.input.Contents() == old(dst.input.Contents())
  {
    hide Flat, WellFormed, Frozen, Fifo, Fits;
    LengthIsTotal(dst);
    dst.wmHigh := high;
    if high > 0 && dst.input.totalLen >= high {
      dst.readSuspended := dst.readSuspended + {Watermark};
    } else {
      ClearReadSuspension(src, dst, Watermark);
    }
  }

  /** bufferevent_suspend_read_ and bufferevent_suspend_write_, for the reasons other than the watermark. */
  method Suspend(e: Endpoint, partner: Endpoint, why: Reason, reading: bool)
    requires AtRest(e, partner) && why != Watermark
    modifies e`readSuspended, e`writeSuspended
    ensures AtRest(e, partner)
    ensures e.readSuspended == (if reading then old(e.readSuspended) + {why} else old(e.readSuspended))
    ensures e.writeSuspended == (if reading then old(e.writeSuspended) else old(e.writeSuspended) + {why})
    ensures (old(Quiet(e, partner)) ==> Quiet(e, partner)) && (old(Quiet(partner, e)) ==> Quiet(partner, e))
  {
    hide Flat, WellFormed, Frozen, Fifo, Fits;
    if reading { e.readSuspended := e.readSuspended + {why}; } else { e.writeSuspended := e.writeSuspended + {why}; }
  }

  /** bufferevent_unsuspend_read_ and bufferevent_unsuspend_write_. */
  method Unsuspend(e: Endpoint, partner: Endpoint, why: Reason, reading: bool)
    requires AtRest(e, partner) && why != Watermark
    modifies e`readSuspended, e`writeSuspended, partner`readSuspended
    modifies e.input, e.output, partner.input, partner.output
    ensures AtRest(e, partner)
    ensures (old(Quiet(e, partner)) ==> Quiet(e, partner)) && (old(Quiet(partner, e)) ==> Quiet(partner, e))
  {
    hide Flat, WellFormed, Frozen, Fifo, Fits;
    if reading {
      ClearReadSuspension(partner, e, why);
    } else {
      e.writeSuspended := e.writeSuspended - {why};
      if e.writeSuspended == {} && e.enabledWrite { Talk(e, partner); }
    }
  }

  /** be_pair_flush in a mode other than BEV_NORMAL.  It looks at the high watermark when the input
      is below it, and only then. */
  method Flush(e: Endpoint, partner: Endpoint, read: bool, write: bool)
    requires AtRest(e, partner)
    modifies e`readSuspended, partner`readSuspended
    modifies e.input, e.output, partner.input, partner.output
    ensures AtRest(e, partner)
    ensures Flushed(old(partner.output.Contents()), old(e.input.Contents()),
      partner.output.Contents(), e.input.Contents(), e.wmHigh, read)
    ensures Flushed(old(e.output.Contents()), old(partner.input.Contents()),
      e.output.Contents(), partner.input.Contents(), partner.wmHigh, write)
    ensures (write || old(Quiet(e, partner)) ==> Quiet(e, partner))
    ensures (read || old(Quiet(partner, e)) ==> Quiet(partner, e))
  {
    hide Flat, WellFormed, Frozen, Fifo, Fits;
    if read { Transfer(partner, e, true); }
    if write { Transfer(e, partner, true); }
  }

  /** One direction of a flush: how much of the output went to the input. */
  ghost predicate Flushed(output: seq<byte>, input: seq<byte>, output1: seq<byte>, input1: seq<byte>, high: nat,
      did: bool) {
    var n := if did then Amount(|output|, |input|, high, true) else 0;
    n <= |output| && output1 == output[n..] && input1 == input + output[..n]
  }

  /** A flush empties the output exactly when there is no mark, or the input is at it already, or all
      fits below it. */
  lemma FlushEmptiesIff(output: seq<byte>, input: seq<byte>, output1: seq<byte>, input1: seq<byte>, high: nat)
    requires Flushed(output, input, output1, input1, high, true)
    ensures output1 == [] <==> high == 0 || |input| >= high || |output| <= high - |input|
  {
  }

  /** A flush of ten bytes to a reader with the mark at five leaves five behind. */
  method FlushLeavesBehind() returns (a: Endpoint, b: Endpoint)
    ensures AtRest(a, b) && |a.output.Contents()| == 5 && |b.input.Contents()| == 5 && b.wmHigh == 5
  {
    hide Flat, WellFormed, Frozen, Fifo, Fits, WatermarkOk, Stuck, Quiet;
    a, b := NewPair();
    SetWatermark(b, a, 5);
    SwapRest(a, b);
    var _ := Write(a, b, [1, 2, 3, 4, 5, 6, 7, 8, 9, 10]);
    Flush(a, b, false, true);
  }

  lemma SwapRest(a: Endpoint, b: Endpoint)
    requires AtRest(a, b) || AtRest(b, a)
    ensures AtRest(a, b) && AtRest(b, a)
  {
    hide Flat, WellFormed, Frozen, Fifo, Fits, WatermarkOk, Stuck;
  }

  /** Data queued while writing was disabled stays behind when writing is enabled during a write
      suspension, although the other side is ready. */
  method EnableLeavesBehind() returns (a: Endpoint, b: Endpoint)
    ensures AtRest(a, b) && a.enabledWrite && b.enabledRead && b.readSuspended == {} && a.output.Contents() == [1]
  {
    hide Flat, WellFormed, Frozen, Fifo, Fits, WatermarkOk, Stuck;
    a, b := NewPair();
    Disable(a, b, false, true);
    Suspend(a, b, Bandwidth, false);
    SwapRest(a, b);
    Enable(b, a, true, false);
    SwapRest(a, b);
    var _ := Write(a, b, [1]);
    Enable(a, b, false, true);
  }

  datatype Op =
    | Writes(data: seq<byte>)
    | Reads(n: nat)
    | Enables(read: bool, write: bool)
    | Disables(read: bool, write: bool)
    | SetsWatermark(high: nat)
    | Suspends(why: Reason, reading: bool)
    | Unsuspends(why: Reason, reading: bool)
    | Flushes(read: bool, write: bool)

  /** A step: which side acts, and how.  The watermark reason belongs to the watermark code. */
  datatype Step = Step(first: bool, op: Op)

  predicate Allowed(op: Op) {
    op.Suspends? || op.Unsuspends? ==> op.why != Watermark
  }

  /** One step.  A write that would not fit in memory is not made. */
  method Perform(e: Endpoint, partner: Endpoint, op: Op) returns (got: seq<byte>)
    requires AtRest(e, partner) && Allowed(op)
    modifies e, partner, e.input, e.output, partner.input, partner.output
    ensures AtRest(e, partner)
    ensures e.taken == old(e.taken) + got && partner.taken == old(partner.taken)
    ensures partner.written == old(partner.written) && old(e.written) <= e.written
    ensures
      && !(op.Enables? && e.enabledWrite && old(e.writeSuspended) != {})
      && old(Quiet(e, partner) && Quiet(partner, e)) ==>
      Quiet(e, partner) && Quiet(partner, e)
  {
    hide Flat, WellFormed, Frozen, Fifo, WatermarkOk, Stuck;
    got := [];
    match op {
      case Writes(data) =>
        LengthsKnown(e, partner);
        if partner.input.totalLen + e.output.totalLen + |data| <= SIZE_MAX {
          var _ := Write(e, partner, data);
        }
      case Reads(n) => got := Read(e, partner, n);
      case Enables(r, w) => Enable(e, partner, r, w);
      case Disables(r, w) => Disable(e, partner, r, w);
      case SetsWatermark(h) => SetWatermark(e, partner, h);
      case Suspends(why, r) => Suspend(e, partner, why, r);
      case Unsuspends(why, r) => Unsuspend(e, partner, why, r);
      case Flushes(r, w) => Flush(e, partner, r, w);
    }
  }

  lemma LengthsKnown(e: Endpoint, partner: Endpoint)
    requires AtRest(e, partner)
    ensures partner.input.totalLen == |partner.input.Contents()| && e.output.totalLen == |e.output.Contents()|
  {
    LengthIsTotal(e);
    LengthIsTotal(partner);
  }

  /** Every run of a new pair: each side has been handed a prefix of what the other wrote, the
      rest is in the two buffers in order, and nothing waits that could move. */
  method Run(steps: seq<Step>) returns (a: Endpoint, b: Endpoint, gotA: seq<byte>, gotB: seq<byte>)
    requires forall i :: 0 <= i < |steps| ==> Allowed(steps[i].op)
    ensures AtRest(a, b)
    ensures gotA + a.input.Contents() + b.output.Contents() == b.written
    ensures gotB + b.input.Contents() + a.output.Contents() == a.written
  {
    hide Flat, WellFormed, Frozen, WatermarkOk, Stuck;
    a, b := NewPair();
    gotA, gotB := [], [];
    for i := 0 to |steps|
      invariant AtRest(a, b) && a.taken == gotA && b.taken == gotB
      invariant fresh(a) && fresh(b) && fresh(a.input) && fresh(a.output) && fresh(b.input) && fresh(b.output)
    {
      if steps[i].first {
        var got := Perform(a, b, steps[i].op);
        gotA := gotA + got;
      } else {
        var got := Perform(b, a, steps[i].op);
        gotB := gotB + got;
      }
    }
  }
}
