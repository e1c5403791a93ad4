/** The evbuffer: methods that change a list of chains in place, proved to act on the
    concatenation of the chains' data as a flat byte sequence. */
module Evbuffers {
  import opened Basics
  import opened Chains

  const CHAIN_MAX_AUTO_SIZE := 4096
  const MAX_TO_COPY_IN_EXPAND := 4096

  function Min(a: int, b: int): int {
    if a < b then a else b
  }

  /** The last_with_datap slot once evbuffer_pullup has put one chain in place of the first `i`. */
  function SlotAfterPullup(lwd: nat, i: nat, removedLwd: bool, removedLwdp: bool, nextHasData: bool): nat {
    if removedLwd then 0
    else if removedLwdp then (if nextHasData then 1 else 0)
    else if lwd == 0 then 0
    else if lwd <= i then 1  // the next pointer of a first chain that stayed
    else lwd - i + 1
  }

  /** What evbuffer_prepend can put in front of a chain's data. */
  function FrontRoom(c: Chain): nat {
    if c.immutable then 0 else if c.off == 0 then |c.buffer| else c.misalign
  }

  /** How many bytes evbuffer_prepend puts in front, from the end of the data. */
  function PrependKept(v: seq<Chain>, n: nat, total: nat, frozen: bool, refused: bool): (kept: nat)
    ensures kept <= n
  {
    if frozen || n > SIZE_MAX - total then 0
    else
      var room := if v == [] then 0 else Min(FrontRoom(v[0]), n);
      if room < n && (refused || n - room > CHAIN_LIMIT) then room else n
  }

  /** Some of the data is put in front and some is not, exactly when the first chain has room for
      some and not for all, and there is no second chain for the rest. */
  lemma PartialPrependIff(v: seq<Chain>, n: nat, total: nat, frozen: bool, refused: bool)
    ensures 0 < PrependKept(v, n, total, frozen, refused) < n <==>
      && !frozen && n <= SIZE_MAX - total && v != [] && 0 < FrontRoom(v[0]) < n
      && (refused || n - FrontRoom(v[0]) > CHAIN_LIMIT)
  {
  }

  /** One chain with `off` bytes in it from its start on. */
  predicate Untouched(v: seq<Chain>, off: nat) {
    |v| == 1 && !v[0].immutable && v[0].misalign == 0 && v[0].off == off
  }

  class Evbuffer {
    /** The chains from `first` along `next`. */
    var chains: seq<Chain>
    /** Index of `last`, -1 for NULL. */
    var last: int
    /** Which next pointer last_with_datap points at: 0 is &first, k is that of chain k - 1. */
    var lwd: nat
    var totalLen: nat
    var freezeStart: bool
    var freezeEnd: bool

    /** The flat byte sequence the buffer stands for. */
    ghost function Contents(): seq<byte>
      reads this
    {
      Flat(chains)
    }

    ghost predicate Valid()
      reads this
    {
      last == |chains| - 1 && WellFormed(chains, lwd, totalLen)
    }

    /** evbuffer_new. */
    constructor ()
      ensures Valid() && Contents() == [] && chains == [] && !freezeStart && !freezeEnd
    {
      chains, last, lwd, totalLen := [], -1, 0, 0;
      freezeStart, freezeEnd := false, false;
    }

    /** evbuffer_free_trailing_empty_chains: unlink the empty chains at the end; `last` is
        left to the caller.  The result is the slot where a new chain will go. */
    method FreeTrailingEmpty() returns (k: nat)
      requires Valid()
      modifies this`chains
      ensures EndSlot(old(chains), lwd, k) && chains == old(chains)[..k]
    {
      hide Flat, Chain.Data;
      k := lwd;
      while k < |chains| && chains[k].off != 0
        invariant lwd <= k <= |chains| && k <= lwd + 1
        invariant forall i :: lwd <= i < k ==> chains[i].Data() != []
      {
        assert |chains[k].Data()| != 0;
        k := k + 1;
      }
      if k < |chains| { assert |chains[k].Data()| == 0; }
      chains := chains[..k];
    }

    /** evbuffer_chain_insert. */
    method ChainInsert(chain: Chain)
      requires Valid() && chain.Ok()
      modifies this`chains, this`last, this`lwd, this`totalLen
      ensures Valid() && Contents() == old(Contents()) + chain.Data()
      ensures chains != [] && chains[last] == chain && lwd <= last <= lwd + 1
      ensures old(chains) == [] ==> chains == [chain] && lwd == 0
    {
      hide Flat, Chain.Data;
      if lwd == |chains| {
        InsertAtEnd(chains, lwd, totalLen, 0, chain);
        assert chains[..0] + [chain] == [chain];
        chains, last := [chain], 0;
      } else {
        ghost var v := chains;
        var k := FreeTrailingEmpty();
        InsertAtEnd(v, lwd, totalLen, k, chain);
        chains := chains + [chain];
        if chain.off != 0 { lwd := k; }
        last := k;
      }
      totalLen := totalLen + chain.off;
    }

    /** evbuffer_chain_insert_new. */
    method ChainInsertNew(datlen: nat) returns (ok: bool)
      requires Valid()
      modifies this`chains, this`last, this`lwd, this`totalLen
      ensures Valid() && Contents() == old(Contents()) && totalLen == old(totalLen)
      ensures ok <==> datlen <= CHAIN_LIMIT
      ensures !ok ==> chains == old(chains)
      ensures ok ==>
        chains != [] && lwd <= last <= lwd + 1 && chains[last].SpaceLen() >= datlen && chains[last].Data() == []
      ensures ok && old(chains) == [] ==> Untouched(chains, 0) && lwd == 0
    {
      hide Flat, Chain.Data;
      var c := NewMembuf(datlen);
      if c == None { return false; }
      ghost var e := c.value.Data();
      assert Contents() + e == Contents();
      ChainInsert(c.value);
      ok := true;
    }

    /** evbuffer_add. */
    method Add(data: seq<byte>) returns (r: int)
      requires Valid()
      modifies this`chains, this`last, this`lwd, this`totalLen
      ensures Valid()
      ensures r == if freezeEnd || |data| > SIZE_MAX - old(totalLen) || |data| > CHAIN_LIMIT then -1 else 0
      ensures Contents() == if r == 0 then old(Contents()) + data else old(Contents())
      ensures r == 0 && old(chains) == [] ==> Untouched(chains, |data|)
    {
      hide Flat, Chain.Data;
      if freezeEnd { return -1; }
      if |data| > SIZE_MAX - totalLen { return -1; }
      if chains == [] {
        var ok := ChainInsertNew(|data|);
        if !ok { return -1; }
      }
      r := AddToLastData(data);
    }

    /** Fill the last_with_data chain, realigning it when that pays, and put the rest in a new chain. */
    method AddToLastData(data: seq<byte>) returns (r: int)
      requires Valid() && chains != []
      modifies this`chains, this`last, this`lwd, this`totalLen
      ensures Valid()
      ensures r == if |data| > CHAIN_LIMIT then -1 else 0
      ensures Contents() == if r == 0 then old(Contents()) + data else old(Contents())
      ensures var c := old(chains[lwd]);
        !c.immutable && c.SpaceLen() >= |data| ==> chains == old(chains)[old(lwd) := c.Append(data)]
    {
      hide Flat, Chain.Data, Chain.Append, Chain.Align;
      var chain := chains[lwd];
      var remain := 0;
      if !chain.immutable {
        remain := |chain.buffer| - chain.misalign - chain.off;
        if remain >= |data| {
          AddInPlace(chain.Append(data));
          return 0;
        } else if chain.ShouldRealign(|data|) {
          AddInPlace(chain.Align().Append(data));
          return 0;
        }
      }
      var toAlloc := |chain.buffer|;
      if toAlloc <= CHAIN_MAX_AUTO_SIZE / 2 { toAlloc := 2 * toAlloc; }
      if |data| > toAlloc { toAlloc := |data|; }
      var tmp := NewMembuf(toAlloc);
      if tmp == None { return -1; }
      if remain > 0 { AddInPlace(chain.Append(data[..remain])); }
      assert data == data[..remain] + data[remain..];
      ChainInsert(tmp.value.Append(data[remain..]));
      r := 0;
    }

    /** Give the last_with_data chain more data. */
    method AddInPlace(c: Chain)
      requires Valid() && chains != [] && c.Ok()
      requires |c.Data()| >= |chains[lwd].Data()| && c.Data()[..|chains[lwd].Data()|] == chains[lwd].Data()
      modifies this`chains, this`totalLen
      ensures Valid() && Contents() == old(Contents()) + c.Data()[|old(chains)[lwd].Data()|..]
      ensures chains == old(chains)[lwd := c]
    {
      hide Flat, Chain.Data;
      UpdateAtLwd(chains, lwd, totalLen, c);
      FlatUpToLwd(chains, lwd);
      totalLen := totalLen - chains[lwd].off + c.off;
      chains := chains[lwd := c];
    }

    /** evbuffer_add_reference. */
    method AddReference(data: seq<byte>) returns (r: int)
      requires Valid() && |data| <= CHAIN_LIMIT
      modifies this`chains, this`last, this`lwd, this`totalLen
      ensures Valid()
      ensures r == if freezeEnd then -1 else 0
      ensures Contents() == if r == 0 then old(Contents()) + data else old(Contents())
    {
      if freezeEnd { return -1; }
      var c := Chain(data, 0, |data|, true);
      assert c.Data() == data;
      ChainInsert(c);
      r := 0;
    }

    /** evbuffer_prepend; `refused` says that malloc gives no new chain.  The `kept` bytes that fit in
        front of the first chain's data stay even then. */
    method Prepend(data: seq<byte>, refused: bool) returns (r: int, ghost kept: nat)
      requires Valid()
      modifies this`chains, this`last, this`lwd, this`totalLen
      ensures Valid() && kept == PrependKept(old(chains), |data|, old(totalLen), freezeStart, refused) <= |data|
      ensures Contents() == data[|data| - kept..] + old(Contents())
      ensures r == if kept == |data| then 0 else -1
    {
      hide Flat, Chain.Data;
      kept := 0;
      if data == [] { return 0, 0; }
      if freezeStart { return -1, 0; }
      if |data| > SIZE_MAX - totalLen { return -1, 0; }
      if chains == [] {
        if refused { return -1, 0; }
        var ok := ChainInsertNew(|data|);
        if !ok { return -1, 0; }
      }
      var room := PrependInFirst(data);
      kept := room;
      if room == |data| { return 0, room; }
      if refused { return -1, room; }
      assert data[0..] == data == data[..|data| - room] + data[|data| - room..];
      r := PrependChain(data[..|data| - room]);
      if r == 0 { kept := |data|; }
    }

    /** Put as much of the end of `data` as there is room for in front of the first chain's data. */
    method PrependInFirst(data: seq<byte>) returns (room: nat)
      requires Valid() && chains != []
      modifies this`chains, this`totalLen
      ensures Valid() && chains != [] && room == Min(FrontRoom(old(chains)[0]), |data|)
      ensures Contents() == data[|data| - room..] + old(Contents())
    {
      hide Flat, LwdOk, Chain.Data, Chain.PutBefore, Chain.MisalignFully;
      var chain := chains[0];
      if chain.immutable { return 0; }
      if chain.off == 0 {
        assert |chain.Data()| == 0;
        chain := chain.MisalignFully();
      }
      room := if chain.misalign >= |data| then |data| else chain.misalign;
      var c := chain.PutBefore(data[|data| - room..]);
      assert |c.Data()| == c.off;
      UpdateFirst(chains, lwd, totalLen, c);
      totalLen := totalLen + room;
      chains := chains[0 := c];
    }

    /** Put `data` in a new chain in front of the others. */
    method PrependChain(data: seq<byte>) returns (r: int)
      requires Valid() && data != [] && chains != []
      modifies this`chains, this`last, this`lwd, this`totalLen
      ensures Valid()
      ensures r == if |data| > CHAIN_LIMIT then -1 else 0
      ensures Contents() == if r == 0 then data + old(Contents()) else old(Contents())
    {
      hide Flat, Chain.Data, Chain.PutBefore, Chain.MisalignFully;
      var tmp := NewMembuf(|data|);
      if tmp == None { return -1; }
      var c := tmp.value.MisalignFully().PutBefore(data);
      PutInFront(chains, lwd, totalLen, c);
      assert chains[lwd].Data() == [] <==> chains[lwd].off == 0;
      // &first becomes &tmp->next when the old first chain holds the last data; any other slot moves with its chain
      if lwd > 0 || chains[0].off != 0 { lwd := lwd + 1; }
      chains := [c] + chains;
      last := last + 1;
      totalLen := totalLen + |data|;
      r := 0;
    }

    /** ZERO_CHAIN. */
    method ZeroChain()
      modifies this`chains, this`last, this`lwd, this`totalLen
      ensures Valid() && Contents() == []
    {
      chains, last, lwd, totalLen := [], -1, 0, 0;
    }

    /** evbuffer_drain. */
    method Drain(len: nat) returns (r: int)
      requires Valid()
      modifies this`chains, this`last, this`lwd, this`totalLen
      ensures Valid()
      ensures r == if old(totalLen) > 0 && freezeStart then -1 else 0
      ensures Contents() == if r == 0 then old(Contents())[Min(len, old(totalLen))..] else old(Contents())
      ensures r == 0 && old(chains) != [] && len < old(chains)[0].off ==>
        chains == [old(chains)[0].DropFront(len)] + old(chains)[1..]
    {
      hide Flat, Chain.Data, Chain.DropFront;
      FirstWithin(chains);
      if totalLen == 0 { return 0; }
      if freezeStart { return -1; }
      if len >= totalLen {
        ZeroChain();
        return 0;
      }
      FlatEmpty(chains[..0]);
      PrefixBeforeLwd(chains, lwd, 0);
      var i, remaining, slot := 0, len, lwd;
      while remaining >= chains[i].off
        invariant i <= lwd && i < |chains|
        invariant |Flat(chains[..i])| + remaining == len && remaining >= 0
        invariant slot == if 0 < i == lwd then 0 else lwd
        invariant len < chains[0].off ==> i == 0 && remaining == len
        modifies {}
        decreases |chains| - i
      {
        FlatAround(chains, i);
        remaining := remaining - chains[i].off;
        PrefixBeforeLwd(chains, lwd, i + 1);
        if i == slot { slot := 0; }
        if slot == i + 1 { slot := 0; }
        i := i + 1;
      }
      CutFront(chains, lwd, totalLen, i, remaining);
      totalLen := totalLen - len;
      chains := [chains[i].DropFront(remaining)] + chains[i + 1..];
      last := last - i;
      lwd := if slot == 0 then 0 else slot - i;
      r := 0;
    }

    /** evbuffer_copyout. */
    method CopyOut(datlen: nat) returns (n: int, data: seq<byte>)
      requires Valid()
      ensures n == if Min(datlen, totalLen) > 0 && freezeStart then -1 else Min(datlen, totalLen)
      ensures data == if n < 0 then [] else Contents()[..n]
    {
      hide Flat, Chain.Data;
      var left := Min(datlen, totalLen);
      if left == 0 { return 0, []; }
      if freezeStart { return -1, []; }
      n := left;
      data := [];
      var i := 0;
      FlatEmpty(chains[..0]);
      while left > 0 && i < |chains| && left >= chains[i].off
        invariant i <= |chains| && data == Flat(chains[..i]) && left == n - |data| >= 0
      {
        FlatAround(chains, i);
        data := data + chains[i].Data();
        left := left - chains[i].off;
        i := i + 1;
      }
      assert chains[..|chains|] == chains;
      FlatSplit(chains, i);
      if left > 0 {
        FlatAround(chains, i);
        data := data + chains[i].Data()[..left];
      }
    }

    /** evbuffer_remove. */
    method Remove(datlen: nat) returns (n: int, data: seq<byte>)
      requires Valid()
      modifies this`chains, this`last, this`lwd, this`totalLen
      ensures Valid()
      ensures n == if Min(datlen, old(totalLen)) > 0 && freezeStart then -1 else Min(datlen, old(totalLen))
      ensures data == if n < 0 then [] else old(Contents())[..n]
      ensures Contents() == if n < 0 then old(Contents()) else old(Contents())[n..]
    {
      hide Flat;
      n, data := CopyOut(datlen);
      if n > 0 {
        var r := Drain(n);
      }
    }

    /** evbuffer_add_buffer: move all of `inbuf` to the end. */
    method AddBuffer(inbuf: Evbuffer) returns (r: int)
      requires Valid() && inbuf.Valid()
      modifies this`chains, this`last, this`lwd, this`totalLen
      modifies inbuf`chains, inbuf`last, inbuf`lwd, inbuf`totalLen
      ensures Valid() && inbuf.Valid()
      ensures r == if old(inbuf.totalLen) > 0 && inbuf != this && (freezeEnd || inbuf.freezeStart) then -1 else 0
      ensures r == 0 && inbuf != this ==>
        Contents() == old(Contents()) + old(inbuf.Contents()) && inbuf.Contents() == []
      ensures r == -1 || inbuf == this ==> Contents() == old(Contents()) && inbuf.Contents() == old(inbuf.Contents())
    {
      hide Flat, Chain.Data;
      FlatEmpty([]);
      if inbuf.totalLen == 0 || this == inbuf { return 0; }
      if freezeEnd || inbuf.freezeStart { return -1; }
      if totalLen == 0 {
        CopyChain(inbuf);
      } else {
        ghost var v := chains;
        var k := FreeTrailingEmpty();
        AppendLists(v, lwd, totalLen, k, inbuf.chains, inbuf.lwd, inbuf.totalLen);
        chains := chains + inbuf.chains;
        lwd := if inbuf.lwd == 0 then k else k + inbuf.lwd;
        last := k + inbuf.last;
        totalLen := totalLen + inbuf.totalLen;
      }
      inbuf.ZeroChain();
      r := 0;
    }

    /** COPY_CHAIN. */
    method CopyChain(src: Evbuffer)
      requires src.Valid()
      modifies this`chains, this`last, this`lwd, this`totalLen
      ensures Valid() && Contents() == old(src.Contents())
    {
      chains, last, lwd, totalLen := src.chains, src.last, src.lwd, src.totalLen;
    }

    /** evbuffer_prepend_buffer: move all of `inbuf` to the front. */
    method PrependBuffer(inbuf: Evbuffer) returns (r: int)
      requires Valid() && inbuf.Valid()
      modifies this`chains, this`last, this`lwd, this`totalLen
      modifies inbuf`chains, inbuf`last, inbuf`lwd, inbuf`totalLen
      ensures Valid() && inbuf.Valid()
      ensures r == if old(inbuf.totalLen) > 0 && inbuf != this && (freezeStart || inbuf.freezeStart) then -1 else 0
      ensures r == 0 && inbuf != this ==>
        Contents() == old(inbuf.Contents()) + old(Contents()) && inbuf.Contents() == []
      ensures r == -1 || inbuf == this ==> Contents() == old(Contents()) && inbuf.Contents() == old(inbuf.Contents())
    {
      hide Flat, Chain.Data;
      FlatEmpty([]);
      if inbuf.totalLen == 0 || this == inbuf { return 0; }
      if freezeStart || inbuf.freezeStart { return -1; }
      if totalLen == 0 {
        CopyChain(inbuf);
      } else {
        PrependLists(chains, lwd, totalLen, inbuf.chains, inbuf.lwd, inbuf.totalLen);
        // slot 0 becomes the next pointer of inbuf's last chain; the others move with their chains
        lwd := if lwd == 0 then |inbuf.chains| else |inbuf.chains| + lwd;
        chains := inbuf.chains + chains;
        last := last + |inbuf.chains|;
        totalLen := totalLen + inbuf.totalLen;
      }
      inbuf.ZeroChain();
      r := 0;
    }

    /** advance_last_with_data: move last_with_datap to the last chain with data. */
    method AdvanceLastWithData()
      requires forall k :: 0 <= k < |chains| ==> chains[k].Ok()
      requires if chains == [] then lwd == 0 else lwd < |chains|
      requires chains != [] && chains[lwd].off == 0 ==> lwd == 0
      modifies this`lwd
      ensures LwdOk(chains, lwd)
    {
      hide Flat, Chain.Data;
      if lwd == |chains| { return; }
      var k := lwd;
      while k + 1 < |chains|
        invariant lwd <= k < |chains|
        invariant forall i :: lwd < i <= k ==> chains[i].off == 0
        invariant chains[lwd].off == 0 ==> lwd == 0
      {
        k := k + 1;
        if chains[k].off != 0 { lwd := k; }
      }
      assert forall i :: 0 <= i < |chains| ==> |chains[i].Data()| == chains[i].off;
    }

    /** evbuffer_remove_buffer: move the first `datlen` bytes to the end of `dst`, whole
        chains where possible.  The bytes of both buffers together fit a size_t. */
    method RemoveBuffer(dst: Evbuffer, datlen: nat) returns (r: int)
      requires Valid() && dst.Valid()
      modifies this`chains, this`last, this`lwd, this`totalLen
      modifies dst`chains, dst`last, dst`lwd, dst`totalLen
      ensures Valid() && dst.Valid()
      ensures datlen == 0 || dst == this ==> r == 0
      ensures datlen > 0 && dst != this ==>
        r == if dst.freezeEnd || freezeStart then -1 else Min(datlen, old(totalLen))
      ensures r >= 0 && dst != this && old(totalLen) + old(dst.totalLen) <= SIZE_MAX ==>
        && Contents() == old(Contents())[r..]
        && dst.Contents() == old(dst.Contents()) + old(Contents())[..r]
      ensures r < 0 || dst == this ==> Contents() == old(Contents()) && dst.Contents() == old(dst.Contents())
    {
      hide Flat, Chain.Data, Chain.DropFront;
      if datlen == 0 || dst == this { return 0; }
      if dst.freezeEnd || freezeStart { return -1; }
      if datlen >= totalLen {
        r := totalLen;
        var s := dst.AddBuffer(this);
        return;
      }
      RemovePart(dst, datlen);
      r := datlen;
    }

    /** The case of evbuffer_remove_buffer where something stays behind. */
    method RemovePart(dst: Evbuffer, datlen: nat)
      requires Valid() && dst.Valid() && dst != this && datlen < totalLen && !dst.freezeEnd
      modifies this`chains, this`last, this`lwd, this`totalLen
      modifies dst`chains, dst`last, dst`lwd, dst`totalLen
      ensures Valid() && dst.Valid() && datlen <= |old(Contents())| && Contents() == old(Contents())[datlen..]
      ensures old(totalLen) + old(dst.totalLen) <= SIZE_MAX ==>
        dst.Contents() == old(dst.Contents()) + old(Contents())[..datlen]
    {
      hide Flat, Chain.Data, Chain.DropFront;
      ghost var v, l, t := chains, lwd, totalLen;
      var i, left := SkipWholeChains(datlen);
      CutFront(v, l, t, i, left);
      var nread := datlen - left;
      MoveFront(dst, i, nread);
      var piece := chains[0].Data()[..left];
      var s := dst.Add(piece);
      assert chains[0 := chains[0].DropFront(left)] == [v[i].DropFront(left)] + v[i + 1..];
      chains := chains[0 := chains[0].DropFront(left)];
      totalLen := totalLen - datlen;
    }

    /** How many whole chains `datlen` bytes cover, and the bytes left over. */
    method SkipWholeChains(datlen: nat) returns (i: nat, left: nat)
      requires Valid() && datlen < totalLen
      ensures i <= lwd && i < |chains| && left < chains[i].off
      ensures |Flat(chains[..i])| + left == datlen
    {
      hide Flat, Chain.Data;
      FlatEmpty(chains[..0]);
      PrefixBeforeLwd(chains, lwd, 0);
      i, left := 0, datlen;
      while chains[i].off <= left
        invariant i <= lwd && i < |chains| && |Flat(chains[..i])| + left == datlen
        decreases |chains| - i
      {
        FlatAround(chains, i);
        left := left - chains[i].off;
        PrefixBeforeLwd(chains, lwd, i + 1);
        i := i + 1;
      }
    }

    /** Relink the first `i` chains, holding `nread` bytes, to the end of `dst`.  totalLen
        still counts them here. */
    method MoveFront(dst: Evbuffer, i: nat, nread: nat)
      requires Valid() && dst.Valid() && dst != this
      requires i <= lwd && i < |chains| && chains[i].off > 0 && nread == |Flat(chains[..i])|
      modifies this`chains, this`last, this`lwd
      modifies dst`chains, dst`last, dst`lwd, dst`totalLen
      ensures dst.Valid() && dst.Contents() == old(dst.Contents()) + Flat(old(chains)[..i])
      ensures dst.totalLen == old(dst.totalLen) + nread
      ensures chains == old(chains)[i..] && lwd == old(lwd) - i && last == |chains| - 1
    {
      hide Flat, Chain.Data;
      if i > 0 {
        ghost var v := dst.chains;
        var k := dst.FreeTrailingEmpty();
        FlatTrim(v, k);
        FlatConcat(v[..k], chains[..i]);
        dst.chains := dst.chains + chains[..i];
        dst.last := k + i - 1;
        assert dst.lwd < k ==> |v[dst.lwd].Data()| == v[dst.lwd].off;
        dst.AdvanceLastWithData();
        dst.totalLen := dst.totalLen + nread;
        chains := chains[i..];
        lwd := lwd - i;
        last := last - i;
      } else {
        FlatEmpty(chains[..0]);
        assert chains[0..] == chains && dst.Contents() + [] == dst.Contents();
      }
    }

    /** evbuffer_pullup: make the first `size` bytes contiguous (all of them for a negative
        size).  The result is the memory at the start of the first chain. */
    method Pullup(size: int) returns (r: Option<seq<byte>>)
      requires Valid()
      modifies this`chains, this`last, this`lwd
      ensures Valid() && Contents() == old(Contents()) && totalLen == old(totalLen)
      ensures var n := if size < 0 then totalLen else size;
        && (r.Some? <==> 0 < n <= totalLen && n <= CHAIN_LIMIT)
        && (r.Some? ==>
              chains != [] && r.value == chains[0].Data() && |r.value| >= n && r.value[..n] == Contents()[..n])
    {
      hide Flat, Chain.Data, Chain.Append;
      var n := if size < 0 then totalLen else size;
      if n == 0 || n > totalLen { return None; }
      FlatEmpty([]);
      FlatAround(chains, 0);
      FlatEmpty(chains[..0]);
      if chains[0].off >= n { return Some(chains[0].Data()); }
      var start, tmp := 0, chains[0];
      if |tmp.buffer| - tmp.misalign >= n {
        start := 1;
        assert chains[..1] == [chains[0]] && !tmp.immutable;
        FlatOne(chains[0]);
      } else {
        var m := NewMembuf(n);
        if m == None { return None; }
        tmp := m.value;
      }
      assert tmp.Data() == Flat(chains[..start]);
      PullupInto(n, start, tmp);
      r := Some(chains[0].Data());
    }

    /** The copying part of evbuffer_pullup: `tmp0` holds the data of the first `start` chains
        and has room for `n` bytes. */
    method PullupInto(n: nat, start: nat, tmp0: Chain)
      requires Valid() && chains != [] && chains[0].off < n <= totalLen
      requires start <= 1 && tmp0.Ok() && !tmp0.immutable && tmp0.off + tmp0.SpaceLen() >= n > tmp0.off
      requires tmp0.Data() == Flat(chains[..start])
      modifies this`chains, this`last, this`lwd
      ensures Valid() && Contents() == old(Contents())
      ensures chains != [] && |chains[0].Data()| == n && chains[0].Data() == Contents()[..n]
    {
      hide Flat, Chain.Data, Chain.Append, Chain.DropFront;
      var tmp, i, left, removedLwd, removedLwdp := CopyWholeChains(n, start, tmp0);
      assert chains[..|chains|] == chains;
      if i < |chains| {
        tmp := tmp.Append(chains[i].Data()[..left]);
        assert |tmp.Data()| == n;
        PulledUp(chains, lwd, totalLen, tmp, i, left);
        CutFront(chains, lwd, totalLen, i, left);
        last := last - i + 1;
        var rest := [chains[i].DropFront(left)] + chains[i + 1..];
        lwd := SlotAfterPullup(lwd, i, removedLwd, removedLwdp, rest[0].off > 0);
        chains := [tmp] + rest;
        assert Flat(chains)[..n] == tmp.Data();
      } else {
        assert |tmp.Data()| == tmp.off;
        FlatOne(tmp);
        lwd := SlotAfterPullup(lwd, i, removedLwd, removedLwdp, false);
        chains, last := [tmp], 0;
      }
    }

    /** Copy every chain that goes entirely into `tmp`; note whether the last_with_data chain,
        or the chain whose next pointer last_with_datap is, goes with them. */
    method CopyWholeChains(n: nat, start: nat, tmp0: Chain)
      returns (tmp: Chain, i: nat, left: nat, removedLwd: bool, removedLwdp: bool)
      requires Valid() && chains != [] && chains[0].off < n <= totalLen
      requires start <= 1 && tmp0.Ok() && !tmp0.immutable && tmp0.off + tmp0.SpaceLen() >= n > tmp0.off
      requires tmp0.Data() == Flat(chains[..start])
      ensures start <= i <= |chains| && (i < |chains| ==> left < chains[i].off)
      ensures tmp.Ok() && !tmp.immutable && tmp.Data() == Flat(chains[..i])
      ensures tmp.off + left == n && tmp.SpaceLen() >= left
      ensures removedLwd <==> start <= lwd < i
      ensures removedLwdp <==> start <= lwd - 1 < i
      ensures lwd >= 1
    {
      hide Flat, Chain.Data, Chain.Append;
      FlatUpToLwd(chains, lwd);
      FlatEmpty(chains[..0]);
      tmp, i, left, removedLwd, removedLwdp := tmp0, start, n - tmp0.off, false, false;
      while i < |chains| && left >= chains[i].off
        invariant start <= i <= |chains|
        invariant tmp.Ok() && !tmp.immutable && tmp.Data() == Flat(chains[..i])
        invariant tmp.off + left == n && tmp.SpaceLen() >= left
        invariant removedLwd <==> start <= lwd < i
        invariant removedLwdp <==> start <= lwd - 1 < i
      {
        FlatAround(chains, i);
        tmp := tmp.Append(chains[i].Data());
        left := left - chains[i].off;
        if i == lwd { removedLwd := true; }
        if i + 1 == lwd { removedLwdp := true; }
        i := i + 1;
      }
    }

    /** evbuffer_expand_singlechain, and so evbuffer_expand: leave a chain, at or right behind
        the last data, with room for `datlen` bytes. */
    method Expand(datlen: nat) returns (r: Option<nat>)
      requires Valid()
      modifies this`chains, this`last, this`lwd, this`totalLen
      ensures Valid() && Contents() == old(Contents()) && totalLen == old(totalLen)
      ensures r == None ==>
        chains == old(chains) && datlen + (if chains == [] then 0 else chains[lwd].off) > CHAIN_LIMIT
      ensures r.Some? ==> r.value < |chains| && lwd <= r.value <= lwd + 1 && chains[r.value].SpaceLen() >= datlen
    {
      hide Flat, Chain.Data;
      var k := lwd;
      if k < |chains| && chains[k].SpaceLen() == 0 { k := k + 1; }
      if k < |chains| && !chains[k].immutable {
        var chain := chains[k];
        if chain.SpaceLen() >= datlen { return Some(k); }
        if chain.off != 0 {
          assert |chain.Data()| != 0;
          var refused;
          r, refused := ExpandInPlace(datlen);
          if r.Some? || refused { return; }
        }
      }
      var ok := ChainInsertNew(datlen);
      r := if ok then Some(last) else None;
    }

    /** Realign, resize or pass over the last_with_data chain, which has data and some room; None
        asks for a new chain, unless the resize itself was refused. */
    method ExpandInPlace(datlen: nat) returns (r: Option<nat>, refused: bool)
      requires Valid() && chains != [] && chains[lwd].off > 0 && !chains[lwd].immutable
      modifies this`chains
      ensures Valid() && Contents() == old(Contents())
      ensures r == None ==> chains == old(chains)
      ensures r.Some? ==> r.value < |chains| && lwd <= r.value <= lwd + 1 && chains[r.value].SpaceLen() >= datlen
      ensures refused ==> r == None && datlen + chains[lwd].off > CHAIN_LIMIT
    {
      hide Flat, Chain.Data, Chain.Align, Chain.Append;
      refused := false;
      var chain := chains[lwd];
      UpdateAtLwd(chains, lwd, totalLen, chain);
      FlatUpToLwd(chains, lwd);
      if chain.ShouldRealign(datlen) {
        UpdateAtLwd(chains, lwd, totalLen, chain.Align());
        chains := chains[lwd := chain.Align()];
        return Some(lwd), false;
      }
      if chain.SpaceLen() < |chain.buffer| / 8 || chain.off > MAX_TO_COPY_IN_EXPAND || datlen >= SSIZE_MAX - chain.off {
        if lwd + 1 < |chains| && chains[lwd + 1].SpaceLen() >= datlen { return Some(lwd + 1), false; }
        return None, false;
      }
      var tmp := NewMembuf(chain.off + datlen);
      if tmp == None { return None, true; }
      var c := tmp.value.Append(chain.Data());
      UpdateAtLwd(chains, lwd, totalLen, c);
      chains := chains[lwd := c];
      r := Some(lwd);
    }

    /** evbuffer_freeze and evbuffer_unfreeze. */
    method SetFreeze(start: bool, frozen: bool)
      requires Valid()
      modifies this`freezeStart, this`freezeEnd
      ensures Valid() && Contents() == old(Contents())
      ensures freezeStart == (if start then frozen else old(freezeStart))
      ensures freezeEnd == (if start then old(freezeEnd) else frozen)
    {
      if start { freezeStart := frozen; } else { freezeEnd := frozen; }
    }
  }

  /** total_len counts the contents. */
  lemma TotalIsLength(b: Evbuffer)
    requires b.Valid()
    ensures b.totalLen == |b.Contents()|
  {
  }

  /** Two bytes added and one drained leave room for one in front: of three more, malloc refusing a
      second chain, that one is there and the answer is -1. */
  method PrependLeavesPart() returns (b: Evbuffer, r: int)
    ensures b.Valid() && b.Contents() == [3, 7] && r == -1
  {
    hide Flat, Evbuffer.Valid;
    b := new Evbuffer();
    TotalIsLength(b);
    var _ := b.Add([0, 7]);
    TotalIsLength(b);
    var _ := b.Drain(1);
    TotalIsLength(b);
    ghost var kept;
    r, kept := b.Prepend([1, 2, 3], true);
    assert [1, 2, 3][2..] == [3] && [0, 7][1..] == [7];
  }
}
