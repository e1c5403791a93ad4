/** Whole runs: any list of operations on two buffers gives what the same list gives on two
    flat byte sequences, bytes handed out included. */
module EvbufferRuns {
  import opened Basics
  import opened Chains
  import opened Evbuffers

  datatype Op =
    | Add(data: seq<byte>)
    | AddReference(data: seq<byte>)
    | Prepend(data: seq<byte>)
    | Drain(len: nat)
    | CopyOut(len: nat)
    | Remove(len: nat)
    | AddBuffer
    | PrependBuffer
    | RemoveBuffer(len: nat)
    | Pullup(size: int)
    | Expand(len: nat)

  /** The two flat sequences: the one operated on and the other one. */
  datatype Flats = Flats(self: seq<byte>, other: seq<byte>)

  /** What each operation means on flat sequences. */
  function FlatStep(op: Op, s: Flats): Flats {
    match op
    case Add(d) => s.(self := s.self + d)
    case AddReference(d) => s.(self := s.self + d)
    case Prepend(d) => s.(self := d + s.self)
    case Drain(n) => s.(self := s.self[Min(n, |s.self|)..])
    case CopyOut(n) => s
    case Remove(n) => s.(self := s.self[Min(n, |s.self|)..])
    case AddBuffer => Flats(s.self + s.other, [])
    case PrependBuffer => Flats(s.other + s.self, [])
    case RemoveBuffer(n) => Flats(s.self[Min(n, |s.self|)..], s.other + s.self[..Min(n, |s.self|)])
    case Pullup(_) => s
    case Expand(_) => s
  }

  /** The bytes an operation hands to the caller. */
  function FlatOutput(op: Op, s: Flats): seq<byte> {
    match op
    case CopyOut(n) => s.self[..Min(n, |s.self|)]
    case Remove(n) => s.self[..Min(n, |s.self|)]
    case Pullup(size) =>
      var n := if size < 0 then |s.self| else size;
      if n <= |s.self| && n <= CHAIN_LIMIT then s.self[..n] else []
    case _ => []
  }

  function Swap(second: bool, s: Flats): Flats {
    if second then Flats(s.other, s.self) else s
  }

  /** A step names its operation and which of the two buffers it is called on. */
  datatype Call = Call(op: Op, second: bool)

  function FlatCall(c: Call, s: Flats): Flats {
    Swap(c.second, FlatStep(c.op, Swap(c.second, s)))
  }

  function FlatRun(calls: seq<Call>, s: Flats): Flats {
    if calls == [] then s else FlatCall(calls[|calls| - 1], FlatRun(calls[..|calls| - 1], s))
  }

  function FlatOutputs(calls: seq<Call>, s: Flats): seq<seq<byte>> {
    if calls == [] then []
    else
      var c, before := calls[|calls| - 1], FlatRun(calls[..|calls| - 1], s);
      FlatOutputs(calls[..|calls| - 1], s) + [FlatOutput(c.op, Swap(c.second, before))]
  }

  /** The memory a call is given is no larger than one allocation can be. */
  predicate Allocatable(op: Op) {
    (op.Add? || op.AddReference? || op.Prepend?) ==> |op.data| <= CHAIN_LIMIT
  }

  /** At every point of the run the bytes held fit a size_t. */
  ghost predicate Fits(calls: seq<Call>, s: Flats) {
    && (forall i :: 0 <= i < |calls| ==> Allocatable(calls[i].op))
    && (forall i :: 0 <= i <= |calls| ==> var t := FlatRun(calls[..i], s); |t.self| + |t.other| <= SIZE_MAX)
  }

  ghost predicate Ready(b: Evbuffer)
    reads b
  {
    b.Valid() && !b.freezeStart && !b.freezeEnd
  }

  /** One operation, on unfrozen buffers. */
  method Perform(op: Op, self: Evbuffer, other: Evbuffer) returns (got: seq<byte>)
    requires self != other && Ready(self) && Ready(other) && Allocatable(op)
    requires |self.Contents()| + |other.Contents()| <= SIZE_MAX
    requires op.Add? || op.Prepend? ==> |self.Contents()| + |op.data| <= SIZE_MAX
    modifies self, other
    ensures Ready(self) && Ready(other)
    ensures Flats(self.Contents(), other.Contents()) == FlatStep(op, Flats(old(self.Contents()), old(other.Contents())))
    ensures got == FlatOutput(op, Flats(old(self.Contents()), old(other.Contents())))
  {
    hide Flat, LwdOk, Chain.Ok;
    if op.Add? || op.AddReference? || op.Prepend? {
      Insert(op, self);
      got := [];
    } else if op.AddBuffer? || op.PrependBuffer? || op.RemoveBuffer? {
      Move(op, self, other);
      got := [];
    } else {
      got := Extract(op, self);
    }
  }

  method Insert(op: Op, self: Evbuffer)
    requires Ready(self) && Allocatable(op) && (op.Add? || op.AddReference? || op.Prepend?)
    requires op.Add? || op.Prepend? ==> |self.Contents()| + |op.data| <= SIZE_MAX
    modifies self
    ensures Ready(self)
    ensures forall o :: Flats(self.Contents(), o) == FlatStep(op, Flats(old(self.Contents()), o))
  {
    hide Flat, LwdOk, Chain.Ok;
    match op {
      case Add(d) => var _ := self.Add(d);
      case AddReference(d) => var _ := self.AddReference(d);
      case Prepend(d) =>
        assert d[0..] == d;
        var _, _ := self.Prepend(d, false);
    }
  }

  method Extract(op: Op, self: Evbuffer) returns (got: seq<byte>)
    requires Ready(self)
    requires op.Drain? || op.CopyOut? || op.Remove? || op.Pullup? || op.Expand?
    modifies self
    ensures Ready(self)
    ensures forall o :: Flats(self.Contents(), o) == FlatStep(op, Flats(old(self.Contents()), o))
    ensures forall o :: got == FlatOutput(op, Flats(old(self.Contents()), o))
  {
    hide Flat, WellFormed, Chain.Ok;
    TotalIsLength(self);
    got := [];
    match op {
      case Drain(n) => var _ := self.Drain(n);
      case CopyOut(n) => var _, d := self.CopyOut(n); got := d;
      case Remove(n) => var _, d := self.Remove(n); got := d;
      case Pullup(size) =>
        var r := self.Pullup(size);
        if r.Some? { got := r.value[..if size < 0 then self.totalLen else size]; }
      case Expand(n) => var _ := self.Expand(n);
    }
  }

  method Move(op: Op, self: Evbuffer, other: Evbuffer)
    requires self != other && Ready(self) && Ready(other)
    requires op.AddBuffer? || op.PrependBuffer? || op.RemoveBuffer?
    requires |self.Contents()| + |other.Contents()| <= SIZE_MAX
    modifies self, other
    ensures Ready(self) && Ready(other)
    ensures Flats(self.Contents(), other.Contents()) == FlatStep(op, Flats(old(self.Contents()), old(other.Contents())))
  {
    hide Flat, LwdOk, Chain.Ok;
    match op {
      case AddBuffer => var _ := self.AddBuffer(other);
      case PrependBuffer => var _ := self.PrependBuffer(other);
      case RemoveBuffer(n) => var _ := self.RemoveBuffer(other, n);
    }
  }

  /** The refinement over whole runs. */
  method Run(calls: seq<Call>, a: Evbuffer, b: Evbuffer) returns (outputs: seq<seq<byte>>)
    requires a != b && Ready(a) && Ready(b)
    requires Fits(calls, Flats(a.Contents(), b.Contents()))
    modifies a, b
    ensures Ready(a) && Ready(b)
    ensures Flats(a.Contents(), b.Contents()) == FlatRun(calls, Flats(old(a.Contents()), old(b.Contents())))
    ensures outputs == FlatOutputs(calls, Flats(old(a.Contents()), old(b.Contents())))
  {
    hide Evbuffer.Valid, FlatStep, FlatOutput;
    ghost var s := Flats(a.Contents(), b.Contents());
    outputs := [];
    for i := 0 to |calls|
      invariant Ready(a) && Ready(b)
      invariant Flats(a.Contents(), b.Contents()) == FlatRun(calls[..i], s)
      invariant outputs == FlatOutputs(calls[..i], s)
    {
      assert calls[..i + 1][..i] == calls[..i];
      var c := calls[i];
      if c.op.Add? || c.op.Prepend? { GrowsByData(c, FlatRun(calls[..i], s)); }
      var self, other := if c.second then b else a, if c.second then a else b;
      var got := Perform(c.op, self, other);
      outputs := outputs + [got];
    }
    assert calls[..|calls|] == calls;
  }

  lemma GrowsByData(c: Call, s: Flats)
    requires c.op.Add? || c.op.Prepend?
    ensures var t := FlatCall(c, s); |t.self| + |t.other| == |s.self| + |s.other| + |c.op.data|
  {
  }
}
