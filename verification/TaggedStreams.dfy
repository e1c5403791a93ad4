/** Whole tagged streams: marshalling a list of items and unmarshalling until the buffer is
    empty gives the list back. */
module TaggedStreams {
  import opened Basics
  import opened Chains
  import opened Evbuffers
  import opened Tagging

  datatype Item = Item(tag: nat, payload: seq<byte>)

  /** A 32-bit tag, and a payload whose length fits the int that unmarshalling returns. */
  predicate Sendable(it: Item) {
    it.tag <= UINT32_MAX && |it.payload| <= INT32_MAX
  }

  ghost function LengthCodeSize(n: nat): nat {
    (|Digits(n)| + 2) / 2
  }

  ghost function ItemSize(it: Item): nat {
    |TagCode(it.tag)| + LengthCodeSize(|it.payload|) + |it.payload|
  }

  /** `s` starts with the item: its tag, the length of its payload, its payload. */
  ghost predicate StartsWith(s: seq<byte>, it: Item) {
    var t, l := |TagCode(it.tag)|, LengthCodeSize(|it.payload|);
    && ItemSize(it) <= |s|
    && s[..t] == TagCode(it.tag)
    && CodesInt(s[t..t + l], |it.payload|)
    && s[t + l..ItemSize(it)] == it.payload
  }

  /** `s` is the items one after the other. */
  ghost predicate IsStream(s: seq<byte>, items: seq<Item>) {
    if items == [] then s == []
    else StartsWith(s, items[0]) && IsStream(s[ItemSize(items[0])..], items[1..])
  }

  lemma StartsWithPrefix(s: seq<byte>, rest: seq<byte>, it: Item)
    requires StartsWith(s, it)
    ensures StartsWith(s + rest, it)
    ensures (s + rest)[ItemSize(it)..] == s[ItemSize(it)..] + rest
  {
    var t, l := |TagCode(it.tag)|, LengthCodeSize(|it.payload|);
    assert (s + rest)[t..t + l] == s[t..t + l];
    assert (s + rest)[t + l..ItemSize(it)] == s[t + l..ItemSize(it)];
  }

  lemma {:induction false} StreamSnoc(s: seq<byte>, items: seq<Item>, code: seq<byte>, it: Item)
    requires IsStream(s, items) && StartsWith(code, it) && |code| == ItemSize(it)
    ensures IsStream(s + code, items + [it])
  {
    hide StartsWith;
    if items == [] {
      assert s + code == code && items + [it] == [it] && code[|code|..] == [];
      assert [it][1..] == [];
    } else {
      var first := items[0];
      StartsWithPrefix(s, code, first);
      StreamSnoc(s[ItemSize(first)..], items[1..], code, it);
      assert (items + [it])[1..] == items[1..] + [it];
    }
  }

  /** evtag_marshal. */
  method Marshal(b: Evbuffer, tag: nat, data: seq<byte>)
    requires b.Valid() && !b.freezeEnd && tag <= UINT32_MAX && |data| <= UINT32_MAX
    requires b.totalLen + ItemSize(Item(tag, data)) <= SIZE_MAX
    modifies b`chains, b`last, b`lwd, b`totalLen
    ensures b.Valid() && old(b.Contents()) <= b.Contents()
    ensures var code := b.Contents()[|old(b.Contents())|..];
      |code| == ItemSize(Item(tag, data)) && StartsWith(code, Item(tag, data))
  {
    hide Flat, WellFormed, TagCode, CodesInt, Digits;
    ghost var was := b.Contents();
    TotalIsLength(b);
    TagCodeLength(tag);
    DigitsOfUint32(|data|);
    var t := EncodeTag(tag);
    var _ := b.Add(t);
    TotalIsLength(b);
    var l := EncodeInt(|data|);
    var _ := b.Add(l);
    TotalIsLength(b);
    var _ := b.Add(data);
    assert b.Contents()[|was|..] == t + l + data;
    assert (t + l + data)[|t|..|t| + |l|] == l;
  }

  datatype Header = Header(result: int, tag: nat, rest: seq<byte>)

  /** (int) of a 32-bit length. */
  function ToInt32(n: nat): int {
    var m := n % 0x1_0000_0000;
    if m <= INT32_MAX then m else m - 0x1_0000_0000
  }

  /** evtag_unmarshal_header on flat bytes: the length or -1, the tag, and what is left to read. */
  ghost function FlatHeader(s: seq<byte>): Header {
    match DecodedTag(s, 0)
    case None => Header(-1, 0, s)
    case Some((t, n)) =>
      match DecodedInt(s[n..], 8)
      case None => Header(-1, t, s[n..])
      case Some((v, l)) =>
        var rest := s[n..][l..];
        Header(if |rest| < v then -1 else ToInt32(v), t, rest)
  }

  /** evtag_unmarshal_header. */
  method UnmarshalHeader(b: Evbuffer) returns (len: int, tag: nat)
    requires b.Valid() && !b.freezeStart
    modifies b`chains, b`last, b`lwd, b`totalLen
    ensures b.Valid()
    ensures var h := FlatHeader(old(b.Contents())); len == h.result && b.Contents() == h.rest
    ensures var h := FlatHeader(old(b.Contents())); DecodedTag(old(b.Contents()), 0).Some? ==> tag == h.tag
  {
    hide Flat, WellFormed, DecodedTag, Undigits, Stored;
    var count;
    TotalIsLength(b);
    tag, count := DecodeTagInternal(b);
    if count == -1 { return -1, tag; }
    var _ := b.Drain(count);
    TotalIsLength(b);
    ghost var s := b.Contents();
    assert s == old(b.Contents())[count..];
    assert s[0..] == s;
    var n, l := DecodeIntInternal(b, 0);
    if l == -1 { return -1, tag; }
    var _ := b.Drain(l);
    assert b.Contents() == s[l..];
    TotalIsLength(b);
    if b.totalLen < n { return -1, tag; }
    len := ToInt32(n);
  }

  /** evtag_unmarshal: the next payload goes to the end of `dst`. */
  method Unmarshal(src: Evbuffer, dst: Evbuffer) returns (len: int, tag: nat)
    requires src.Valid() && dst.Valid() && src != dst && !src.freezeStart && !dst.freezeEnd
    requires src.totalLen + dst.totalLen <= SIZE_MAX
    modifies src`chains, src`last, src`lwd, src`totalLen
    modifies dst`chains, dst`last, dst`lwd, dst`totalLen
    ensures src.Valid() && dst.Valid()
    ensures
      var h := FlatHeader(old(src.Contents()));
      if h.result < 0 then len == -1 && src.Contents() == h.rest && dst.Contents() == old(dst.Contents())
      else
        && len == h.result <= |h.rest|
        && tag == h.tag
        && src.Contents() == h.rest[len..]
        && dst.Contents() == old(dst.Contents()) + h.rest[..len]
  {
    hide Flat, WellFormed, DecodedTag, DecodedInt;
    HeaderFits(src.Contents());
    TotalIsLength(src);
    len, tag := UnmarshalHeader(src);
    if len == -1 { return; }
    TotalIsLength(src);
    // a length of 2^31 or more is a negative int here, and adding that many bytes is refused
    if len < 0 { return -1, tag; }
    var p := src.Pullup(len);
    TotalIsLength(src);
    assert p.None? ==> len == 0;
    var data := if p.Some? then p.value[..len] else [];
    var _ := dst.Add(data);
    var _ := src.Drain(len);
  }

  lemma HeaderFits(s: seq<byte>)
    ensures var h := FlatHeader(s); h.result <= |h.rest| <= |s| && (h.result >= 0 ==> DecodedTag(s, 0).Some?)
  {
  }

  /** The header of a coded item says what the item is. */
  lemma HeaderOf(s: seq<byte>, it: Item)
    requires StartsWith(s, it) && Sendable(it)
    ensures FlatHeader(s) == Header(|it.payload|, it.tag, s[ItemSize(it) - |it.payload|..])
  {
    hide DecodedTag, DecodedInt, CodesInt, TagCode, Digits;
    var t, l := |TagCode(it.tag)|, LengthCodeSize(|it.payload|);
    TagRoundTrip(it.tag, [], s[t..]);
    assert s == [] + TagCode(it.tag) + s[t..];
    CodesIntPrefix(s[t..t + l], s[t + l..], |it.payload|);
    assert s[t..] == s[t..t + l] + s[t + l..];
    IntRoundTrip(s[t..], |it.payload|);
    assert s[t..][l..] == s[t + l..];
  }

  /** Unmarshal the item the buffer starts with. */
  method UnmarshalOne(src: Evbuffer, ghost it: Item) returns (got: Item)
    requires src.Valid() && !src.freezeStart && src.totalLen <= SIZE_MAX
    requires StartsWith(src.Contents(), it) && Sendable(it)
    modifies src`chains, src`last, src`lwd, src`totalLen
    ensures src.Valid() && got == it && ItemSize(it) <= |old(src.Contents())|
    ensures src.Contents() == old(src.Contents())[ItemSize(it)..] && src.totalLen <= old(src.totalLen)
  {
    hide Flat, WellFormed, StartsWith, FlatHeader, ItemSize;
    TotalIsLength(src);
    HeaderOf(src.Contents(), it);
    PayloadOf(src.Contents(), it);
    var dst := new Evbuffer();
    TotalIsLength(dst);
    var n, tag := Unmarshal(src, dst);
    TotalIsLength(dst);
    TotalIsLength(src);
    assert dst.Contents() == it.payload;
    var _, payload := dst.Remove(n);
    got := Item(tag, payload);
  }

  /** Unmarshal the items of a stream, one after the other. */
  method UnmarshalAll(src: Evbuffer, ghost items: seq<Item>) returns (got: seq<Item>)
    requires src.Valid() && !src.freezeStart && IsStream(src.Contents(), items) && src.totalLen <= SIZE_MAX
    requires forall i :: 0 <= i < |items| ==> Sendable(items[i])
    modifies src`chains, src`last, src`lwd, src`totalLen
    ensures src.Valid() && got == items && src.Contents() == []
  {
    hide Flat, WellFormed, StartsWith, ItemSize, IsStream;
    got := [];
    ghost var left := items;
    while src.totalLen > 0
      invariant src.Valid() && IsStream(src.Contents(), left) && src.totalLen <= SIZE_MAX
      invariant got + left == items && forall i :: 0 <= i < |left| ==> Sendable(left[i])
      decreases |left|
    {
      TotalIsLength(src);
      NonEmptyStream(src.Contents(), left);
      var it := UnmarshalOne(src, left[0]);
      got := got + [it];
      left := left[1..];
    }
    TotalIsLength(src);
    if left != [] { EmptyStream(left); }
  }

  lemma NonEmptyStream(s: seq<byte>, items: seq<Item>)
    requires IsStream(s, items) && s != []
    ensures items != [] && StartsWith(s, items[0]) && ItemSize(items[0]) <= |s|
    ensures IsStream(s[ItemSize(items[0])..], items[1..])
  {
  }

  lemma EmptyStream(items: seq<Item>)
    requires items != []
    ensures !IsStream([], items)
  {
    assert ItemSize(items[0]) > 0;
  }

  lemma PayloadOf(s: seq<byte>, it: Item)
    requires StartsWith(s, it)
    ensures ItemSize(it) <= |s|
    ensures var rest := s[ItemSize(it) - |it.payload|..];
      rest[..|it.payload|] == it.payload && rest[|it.payload|..] == s[ItemSize(it)..]
  {
  }

  ghost function StreamSize(items: seq<Item>): nat {
    if items == [] then 0 else StreamSize(items[..|items| - 1]) + ItemSize(items[|items| - 1])
  }

  lemma {:induction false} StreamSizePrefix(items: seq<Item>, i: nat)
    requires i < |items|
    ensures StreamSize(items[..i]) + ItemSize(items[i]) <= StreamSize(items)
    decreases |items|
  {
    hide ItemSize;
    var n := |items| - 1;
    if i < n {
      StreamSizePrefix(items[..n], i);
      assert items[..n][..i] == items[..i];
    }
  }

  /** Marshal the items in turn. */
  method MarshalAll(b: Evbuffer, items: seq<Item>)
    requires b.Valid() && !b.freezeEnd && b.Contents() == []
    requires (forall i :: 0 <= i < |items| ==> Sendable(items[i])) && StreamSize(items) <= SIZE_MAX
    modifies b`chains, b`last, b`lwd, b`totalLen
    ensures b.Valid() && IsStream(b.Contents(), items) && b.totalLen == StreamSize(items)
  {
    hide Flat, WellFormed, StartsWith, ItemSize, IsStream;
    TotalIsLength(b);
    StreamStarts();
    for i := 0 to |items|
      invariant b.Valid() && IsStream(b.Contents(), items[..i]) && b.totalLen == StreamSize(items[..i])
    {
      assert items[..i + 1] == items[..i] + [items[i]];
      StreamSizePrefix(items, i);
      TotalIsLength(b);
      ghost var was := b.Contents();
      Marshal(b, items[i].tag, items[i].payload);
      TotalIsLength(b);
      ghost var code := b.Contents()[|was|..];
      StreamSnoc(was, items[..i], code, items[i]);
      assert b.Contents() == was + code;
    }
    assert items[..|items|] == items;
  }

  lemma StreamStarts()
    ensures IsStream([], [])
  {
  }

  /** The round trip. */
  method RoundTrip(items: seq<Item>) returns (got: seq<Item>)
    requires (forall i :: 0 <= i < |items| ==> Sendable(items[i])) && StreamSize(items) <= SIZE_MAX
    ensures got == items
  {
    var b := new Evbuffer();
    MarshalAll(b, items);
    got := UnmarshalAll(b, items);
  }

  /** A payload of 2^31 bytes or more marshals but does not come back. */
  lemma LongPayloadRefused(s: seq<byte>, it: Item)
    requires StartsWith(s, it) && it.tag <= UINT32_MAX && INT32_MAX < |it.payload| <= UINT32_MAX
    ensures FlatHeader(s).result < 0
  {
    hide DecodedTag, DecodedInt, CodesInt, TagCode, Digits;
    var t, l := |TagCode(it.tag)|, LengthCodeSize(|it.payload|);
    TagRoundTrip(it.tag, [], s[t..]);
    assert s == [] + TagCode(it.tag) + s[t..];
    CodesIntPrefix(s[t..t + l], s[t + l..], |it.payload|);
    assert s[t..] == s[t..t + l] + s[t + l..];
    IntRoundTrip(s[t..], |it.payload|);
    assert s[t..][l..] == s[t + l..];
  }
}
