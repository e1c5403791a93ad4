/** Bytes and evbuffer chains.  A buffer is a list of chains, each an allocation with
    data somewhere inside it; laid end to end, the data are the flat contents. */
module Chains {
  import opened Basics

  /** EV_SIZE_MAX on a 64-bit platform. */
  const SIZE_MAX: nat := 0xffff_ffff_ffff_ffff
  /** EV_SSIZE_MAX on a 64-bit platform. */
  const SSIZE_MAX: nat := 0x7fff_ffff_ffff_ffff
  /** sizeof(struct evbuffer_chain), six words. */
  const CHAIN_SIZE: nat := 48
  /** Largest payload evbuffer_chain_new accepts: EVBUFFER_CHAIN_MAX - EVBUFFER_CHAIN_SIZE. */
  const CHAIN_LIMIT: nat := SSIZE_MAX - CHAIN_SIZE
  /** MIN_BUFFER_SIZE on a 64-bit platform. */
  const MIN_BUFFER_SIZE := 1024
  const MAX_TO_REALIGN_IN_EXPAND := 2048

  /** struct evbuffer_chain.  `buffer` is the whole allocation (buffer_len is its length);
      only the `off` bytes from `misalign` on are data. */
  datatype Chain = Chain(buffer: seq<byte>, misalign: nat, off: nat, immutable: bool) {

    /** In bounds, and a read-only chain has no free space after its data. */
    predicate Ok() {
      && misalign + off <= |buffer| <= CHAIN_LIMIT
      && (immutable ==> misalign + off == |buffer|)
    }

    function Data(): (s: seq<byte>)
      ensures Ok() ==> |s| == off
    {
      if misalign + off <= |buffer| then buffer[misalign..misalign + off] else []
    }

    /** CHAIN_SPACE_LEN. */
    function SpaceLen(): nat
      requires Ok()
    {
      if immutable then 0 else |buffer| - (misalign + off)
    }

    /** Write after the data. */
    function Append(s: seq<byte>): (c: Chain)
      requires Ok() && |s| <= SpaceLen()
      ensures c.Ok() && c.Data() == Data() + s && c.misalign == misalign && c.off == off + |s|
      ensures |c.buffer| == |buffer| && c.immutable == immutable
    {
      var c := Chain(Overwrite(buffer, misalign + off, s), misalign, off + |s|, immutable);
      assert c.buffer[misalign..misalign + off] == c.buffer[..misalign + off][misalign..];
      assert c.Data() == Data() + s;
      c
    }

    /** Write in front of the data, into the misalignment. */
    function PutBefore(s: seq<byte>): (c: Chain)
      requires Ok() && !immutable && |s| <= misalign
      ensures c.Ok() && c.Data() == s + Data() && c.misalign == misalign - |s|
      ensures |c.buffer| == |buffer| && c.immutable == immutable
    {
      var c := Chain(Overwrite(buffer, misalign - |s|, s), misalign - |s|, off + |s|, immutable);
      assert c.buffer[misalign..misalign + off] == c.buffer[misalign..][..off];
      assert c.Data() == s + Data();
      c
    }

    /** An empty chain is as well empty at the front as at the end. */
    function MisalignFully(): (c: Chain)
      requires Ok() && !immutable && off == 0
      ensures c.Ok() && c.Data() == [] && c.misalign == |buffer| == |c.buffer| && !c.immutable
    {
      Chain(buffer, |buffer|, 0, immutable)
    }

    /** evbuffer_chain_align. */
    function Align(): (c: Chain)
      requires Ok() && !immutable
      ensures c.Ok() && c.Data() == Data() && c.misalign == 0
      ensures |c.buffer| == |buffer| && c.immutable == immutable
    {
      Chain(Overwrite(buffer, 0, buffer[misalign..misalign + off]), 0, off, immutable)
    }

    /** Drop the first `n` bytes by moving the misalignment. */
    function DropFront(n: nat): (c: Chain)
      requires Ok() && n <= off
      ensures c.Ok() && c.Data() == Data()[n..] && c.misalign == misalign + n && c.off == off - n
      ensures |c.buffer| == |buffer| && c.immutable == immutable
    {
      Chain(buffer, misalign + n, off - n, immutable)
    }

    /** evbuffer_chain_should_realign. */
    predicate ShouldRealign(datlen: nat) {
      && |buffer| - off >= datlen
      && off < |buffer| / 2
      && off <= MAX_TO_REALIGN_IN_EXPAND
    }
  }

  /** evbuffer_chain_new. */
  function NewChain(capacity: nat): (c: Chain)
    requires capacity <= CHAIN_LIMIT
    ensures c.Ok() && c.Data() == [] && c.SpaceLen() == capacity == |c.buffer|
    ensures !c.immutable && c.misalign == 0 && c.off == 0
  {
    Chain(seq(capacity, _ => 0), 0, 0, false)
  }

  /** evbuffer_chain_new_membuf: the smallest power-of-two allocation that fits, or nothing. */
  method NewMembuf(size: nat) returns (r: Option<Chain>)
    ensures r == None <==> size > CHAIN_LIMIT
    ensures r.Some? ==>
      var c := r.value;
      c.Ok() && c.Data() == [] && !c.immutable && c.misalign == c.off == 0 && size <= |c.buffer|
  {
    if size > CHAIN_LIMIT { return None; }
    var want := size + CHAIN_SIZE;
    var toAlloc := want;
    if want < SSIZE_MAX / 2 {
      toAlloc := MIN_BUFFER_SIZE;
      while toAlloc < want
        invariant 0 < toAlloc && (toAlloc == MIN_BUFFER_SIZE || toAlloc < 2 * want)
      {
        toAlloc := 2 * toAlloc;
      }
    }
    r := Some(NewChain(toAlloc - CHAIN_SIZE));
  }

  /** The flat contents. */
  ghost function Flat(v: seq<Chain>): seq<byte> {
    if v == [] then [] else v[0].Data() + Flat(v[1..])
  }

  ghost predicate AllEmpty(v: seq<Chain>) {
    forall k :: 0 <= k < |v| ==> v[k].Data() == []
  }

  /** last_with_datap: slot 0 is &buf->first, slot k is the next pointer of chain k-1.
      It is the slot of the last chain with data, or slot 0 when no chain has any. */
  ghost predicate LwdOk(v: seq<Chain>, lwd: nat) {
    if v == [] then lwd == 0
    else
      && lwd < |v|
      && (forall k :: lwd < k < |v| ==> v[k].Data() == [])
      && (v[lwd].Data() == [] ==> lwd == 0)
  }

  /** The buffer invariant on the value view. */
  ghost predicate WellFormed(v: seq<Chain>, lwd: nat, total: nat) {
    && (forall k :: 0 <= k < |v| ==> v[k].Ok())
    && LwdOk(v, lwd)
    && total == |Flat(v)|
  }

  lemma {:induction false} FlatConcat(a: seq<Chain>, b: seq<Chain>)
    ensures Flat(a + b) == Flat(a) + Flat(b)
  {
    hide Chain.Data;
    if a == [] {
      assert a + b == b;
    } else {
      assert (a + b)[1..] == a[1..] + b;
      FlatConcat(a[1..], b);
    }
  }

  lemma {:induction false} FlatOne(c: Chain)
    ensures Flat([c]) == c.Data()
  {
    hide Chain.Data;
    assert [c][1..] == [];
  }

  lemma {:induction false} FlatSplit(v: seq<Chain>, i: nat)
    requires i <= |v|
    ensures Flat(v) == Flat(v[..i]) + Flat(v[i..])
  {
    hide Chain.Data;
    assert v == v[..i] + v[i..];
    FlatConcat(v[..i], v[i..]);
  }

  /** One chain, and what stands before and after it. */
  lemma {:induction false} FlatAround(v: seq<Chain>, i: nat)
    requires i < |v|
    ensures Flat(v) == Flat(v[..i]) + v[i].Data() + Flat(v[i + 1..])
    ensures Flat(v[..i + 1]) == Flat(v[..i]) + v[i].Data()
    ensures Flat(v[i..]) == v[i].Data() + Flat(v[i + 1..])
  {
    hide Chain.Data;
    FlatSplit(v, i);
    assert v[i..][1..] == v[i + 1..];
    assert v[..i + 1] == v[..i] + [v[i]];
    FlatConcat(v[..i], [v[i]]);
    FlatOne(v[i]);
  }

  lemma {:induction false} FlatUpdate(v: seq<Chain>, i: nat, c: Chain)
    requires i < |v|
    ensures Flat(v[i := c]) == Flat(v[..i]) + c.Data() + Flat(v[i + 1..])
  {
    hide Chain.Data;
    var w := v[i := c];
    FlatAround(w, i);
    assert w[..i] == v[..i] && w[i + 1..] == v[i + 1..];
  }

  lemma FirstWithin(v: seq<Chain>)
    ensures v != [] && v[0].Ok() ==> v[0].off <= |Flat(v)|
  {
  }

  lemma {:induction false} FlatEmpty(v: seq<Chain>)
    requires AllEmpty(v)
    ensures Flat(v) == []
  {
    hide Chain.Data;
    if v != [] { FlatEmpty(v[1..]); }
  }

  lemma {:induction false} FlatEmptyConverse(v: seq<Chain>)
    requires Flat(v) == []
    ensures AllEmpty(v)
  {
    hide Chain.Data;
    if v != [] {
      FlatEmptyConverse(v[1..]);
      forall k | 0 <= k < |v| ensures v[k].Data() == [] {
        if k > 0 { assert v[k] == v[1..][k - 1]; }
      }
    }
  }

  /** Everything is at or before the last_with_data chain. */
  lemma {:induction false} FlatUpToLwd(v: seq<Chain>, lwd: nat)
    requires LwdOk(v, lwd) && v != []
    ensures Flat(v) == Flat(v[..lwd]) + v[lwd].Data() == Flat(v[..lwd + 1])
    ensures Flat(v[lwd + 1..]) == []
    ensures v[lwd].Data() == [] <==> Flat(v) == []
  {
    hide Flat, Chain.Data;
    FlatAround(v, lwd);
    FlatEmpty(v[lwd + 1..]);
  }

  /** Dropping the chains from `k` on loses nothing once they are empty. */
  lemma {:induction false} FlatTrim(v: seq<Chain>, k: nat)
    requires k <= |v| && AllEmpty(v[k..])
    ensures Flat(v[..k]) == Flat(v)
  {
    hide Chain.Data;
    FlatSplit(v, k);
    FlatEmpty(v[k..]);
  }

  /** Growing or shrinking the last_with_data chain, while data remains in it. */
  lemma {:induction false} UpdateAtLwd(v: seq<Chain>, lwd: nat, total: nat, c: Chain)
    requires WellFormed(v, lwd, total) && v != [] && c.Ok()
    requires c.Data() == [] ==> v[lwd].Data() == []
    ensures Flat(v[lwd := c]) == Flat(v[..lwd]) + c.Data()
    ensures WellFormed(v[lwd := c], lwd, |Flat(v[..lwd])| + |c.Data()|)
    ensures total == |Flat(v[..lwd])| + |v[lwd].Data()|
  {
    hide Flat, Chain.Data;
    FlatUpToLwd(v, lwd);
    FlatUpdate(v, lwd, c);
  }

  /** A prefix holds no more than the whole. */
  lemma {:induction false} FlatPrefixLength(v: seq<Chain>, i: nat)
    requires i <= |v|
    ensures |Flat(v[..i])| <= |Flat(v)|
  {
    hide Chain.Data;
    FlatSplit(v, i);
  }

  /** Where a new last chain may go: behind the last chain with data, over the empty ones. */
  ghost predicate EndSlot(v: seq<Chain>, lwd: nat, k: nat) {
    && lwd <= k <= |v| && k <= lwd + 1
    && (lwd < k ==> v[lwd].Data() != [])
    && (lwd == k ==> lwd == 0)
    && AllEmpty(v[k..])
  }

  lemma {:induction false} InsertAtEnd(v: seq<Chain>, lwd: nat, total: nat, k: nat, c: Chain)
    requires WellFormed(v, lwd, total) && c.Ok() && EndSlot(v, lwd, k)
    ensures Flat(v[..k] + [c]) == Flat(v) + c.Data()
    ensures WellFormed(v[..k] + [c], if c.Data() != [] then k else lwd, total + |c.Data()|)
  {
    hide Flat, Chain.Data;
    FlatTrim(v, k);
    FlatConcat(v[..k], [c]);
    FlatOne(c);
  }

  /** A proper prefix of the contents ends at or before the last_with_data chain. */
  lemma {:induction false} PrefixBeforeLwd(v: seq<Chain>, lwd: nat, i: nat)
    requires LwdOk(v, lwd) && i <= |v| && |Flat(v[..i])| < |Flat(v)|
    ensures i <= lwd && i < |v|
  {
    hide Flat, Chain.Data;
    assert v[..|v|] == v;
    if lwd < i { FlatTrim(v, i); }
  }

  /** Cutting `rem` bytes into chain `i` removes exactly the bytes before that point. */
  lemma {:induction false} CutFront(v: seq<Chain>, lwd: nat, total: nat, i: nat, rem: nat)
    requires WellFormed(v, lwd, total) && i < |v| && rem < v[i].off
    ensures i <= lwd
    ensures |Flat(v[..i])| + rem < total
    ensures Flat([v[i].DropFront(rem)] + v[i + 1..]) == Flat(v)[|Flat(v[..i])| + rem..]
    ensures Flat(v)[..|Flat(v[..i])| + rem] == Flat(v[..i]) + v[i].Data()[..rem]
    ensures WellFormed([v[i].DropFront(rem)] + v[i + 1..], lwd - i, total - |Flat(v[..i])| - rem)
  {
    hide Flat, Chain.Data, Chain.DropFront;
    FlatAround(v, i);
    PrefixBeforeLwd(v, lwd, i);
    var c := v[i].DropFront(rem);
    assert c.Ok();
    FlatOne(c);
    FlatConcat([c], v[i + 1..]);
    assert |c.Data()| > 0;
  }

  /** A chain put in front. */
  lemma {:induction false} PutInFront(v: seq<Chain>, lwd: nat, total: nat, c: Chain)
    requires WellFormed(v, lwd, total) && c.Ok() && c.Data() != []
    ensures Flat([c] + v) == c.Data() + Flat(v)
    ensures WellFormed([c] + v, if v == [] || v[lwd].Data() == [] then 0 else lwd + 1, total + |c.Data()|)
  {
    hide Flat, Chain.Data;
    FlatOne(c);
    FlatConcat([c], v);
  }

  /** More data at the front of the first chain. */
  lemma {:induction false} UpdateFirst(v: seq<Chain>, lwd: nat, total: nat, c: Chain)
    requires WellFormed(v, lwd, total) && v != [] && c.Ok()
    requires c.Data() == [] ==> v[0].Data() == []
    ensures Flat(v[0 := c]) == c.Data() + Flat(v[1..])
    ensures Flat(v) == v[0].Data() + Flat(v[1..])
    ensures WellFormed(v[0 := c], lwd, |c.Data()| + |Flat(v[1..])|)
    ensures c.Data() != [] ==> (v[0 := c])[lwd].Data() != []
  {
    hide Flat, Chain.Data;
    FlatAround(v, 0);
    FlatUpdate(v, 0, c);
  }

  /** The list of one buffer behind that of another. */
  lemma {:induction false} AppendLists(v: seq<Chain>, lwd: nat, total: nat, k: nat, w: seq<Chain>, lwd2: nat,
      total2: nat)
    requires WellFormed(v, lwd, total) && EndSlot(v, lwd, k) && WellFormed(w, lwd2, total2) && total2 > 0
    ensures Flat(v[..k] + w) == Flat(v) + Flat(w)
    ensures WellFormed(v[..k] + w, k + lwd2, total + total2)
  {
    hide Flat, Chain.Data;
    FlatTrim(v, k);
    FlatConcat(v[..k], w);
    FlatEmpty([]);
    FlatUpToLwd(w, lwd2);
  }

  lemma {:induction false} PrependLists(v: seq<Chain>, lwd: nat, total: nat, w: seq<Chain>, lwd2: nat, total2: nat)
    requires WellFormed(v, lwd, total) && WellFormed(w, lwd2, total2) && total > 0
    ensures Flat(w + v) == Flat(w) + Flat(v)
    ensures WellFormed(w + v, |w| + lwd, total + total2)
  {
    hide Flat, Chain.Data;
    FlatConcat(w, v);
    FlatEmpty([]);
    FlatUpToLwd(v, lwd);
  }

  /** A chain that took over the front of the list. */
  lemma {:induction false} PulledUp(v: seq<Chain>, lwd: nat, total: nat, tmp: Chain, i: nat, rem: nat)
    requires WellFormed(v, lwd, total) && tmp.Ok() && i < |v| && rem < v[i].off
    requires tmp.Data() == Flat(v[..i]) + v[i].Data()[..rem] && tmp.Data() != []
    ensures i <= lwd
    ensures Flat([tmp] + ([v[i].DropFront(rem)] + v[i + 1..])) == Flat(v)
    ensures WellFormed([tmp] + ([v[i].DropFront(rem)] + v[i + 1..]), lwd - i + 1, total)
  {
    hide Flat, Chain.Data, Chain.DropFront;
    CutFront(v, lwd, total, i, rem);
    var c := v[i].DropFront(rem);
    var w := [c] + v[i + 1..];
    assert |c.Data()| > 0;
    FlatUpToLwd(w, lwd - i);
    PutInFront(w, lwd - i, total - |Flat(v[..i])| - rem, tmp);
  }
}
