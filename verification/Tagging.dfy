/** The tagged data format: variable-length tags and nibble-coded lengths.  What is marshalled
    into a buffer is what unmarshalling takes out of it. */
module Tagging {
  import opened Basics
  import opened Chains
  import opened Evbuffers

  const INT32_MAX := 0x7fff_ffff
  const UINT32_MAX := 0xffff_ffff

  type nibble = x: int | 0 <= x < 16

  // ---- Integers ----

  /** Nibble `i` of a byte string: even ones are high halves. */
  function Nib(s: seq<byte>, i: nat): nibble
    requires i / 2 < |s|
  {
    if i % 2 == 0 then s[i / 2] / 16 else s[i / 2] % 16
  }

  /** Write nibble `i`, keeping the other half of its byte. */
  function PutNib(s: seq<byte>, i: nat, x: nibble): (r: seq<byte>)
    requires i / 2 < |s|
    ensures |r| == |s| && Nib(r, i) == x
    ensures forall j: nat :: j / 2 < |s| && j != i ==> Nib(r, j) == Nib(s, j)
  {
    var b := s[i / 2];
    s[i / 2 := if i % 2 == 0 then 16 * x + b % 16 else b - b % 16 + x]
  }

  /** Base-16 digits, least significant first. */
  ghost function Digits(n: nat): seq<nibble> {
    if n == 0 then [] else [n % 16] + Digits(n / 16)
  }

  ghost function Undigits(ds: seq<nibble>): nat {
    if ds == [] then 0 else ds[0] + 16 * Undigits(ds[1..])
  }

  lemma {:induction false} UndigitsOfDigits(n: nat)
    ensures Undigits(Digits(n)) == n
  {
    if n != 0 {
      UndigitsOfDigits(n / 16);
      assert Digits(n)[1..] == Digits(n / 16);
    }
  }

  /** A number below 16^k has at most k digits. */
  lemma {:induction false} DigitsBound(n: nat, k: nat)
    requires n < Pow16(k)
    ensures |Digits(n)| <= k
    decreases k
  {
    if n != 0 { DigitsBound(n / 16, k - 1); }
  }

  ghost function Pow16(k: nat): nat {
    if k == 0 then 1 else 16 * Pow16(k - 1)
  }

  lemma DigitsOfUint32(n: nat)
    requires n <= UINT32_MAX
    ensures |Digits(n)| <= 8
  {
    assert Pow16(8) == 0x1_0000_0000 by {
      assert Pow16(2) == 0x100; assert Pow16(4) == 0x1_0000; assert Pow16(6) == 0x100_0000;
    }
    DigitsBound(n, 8);
  }

  /** `s` starts with the code of `n`: the digit count less one, then the digits. */
  ghost predicate CodesInt(s: seq<byte>, n: nat) {
    var ds := Digits(n);
    && (|ds| + 2) / 2 <= |s|
    && Nib(s, 0) == (if |ds| > 1 then |ds| - 1 else 0)
    && (forall i :: 1 <= i <= |ds| ==> Nib(s, i) == ds[i - 1])
    && (ds == [] ==> Nib(s, 1) == 0)
  }

  /** encode_int_internal. */
  method EncodeInt(number: nat) returns (code: seq<byte>)
    requires number <= UINT32_MAX
    ensures |code| == (|Digits(number)| + 2) / 2 && CodesInt(code, number)
  {
    DigitsOfUint32(number);
    var data: seq<byte> := [0, 0, 0, 0, 0];
    var n, off := number, 1;
    ghost var done: seq<nibble> := [];
    assert done + Digits(n) == Digits(number);
    while n != 0
      invariant 0 <= n && off == |done| + 1 && |data| == 5
      invariant done + Digits(n) == Digits(number)
      invariant forall i :: 1 <= i < off ==> Nib(data, i) == done[i - 1]
      invariant off == 1 ==> data == [0, 0, 0, 0, 0]
    {
      assert done + Digits(n) == (done + [n % 16]) + Digits(n / 16);
      data := PutNib(data, off, n % 16);
      done := done + [n % 16];
      n := n / 16;
      off := off + 1;
    }
    assert done == Digits(number);
    var count := if off > 2 then off - 2 else 0;
    data := PutNib(data, 0, count);
    code := data[..(off + 1) / 2];
    assert forall i: nat :: i / 2 < |code| ==> Nib(code, i) == Nib(data, i);
  }

  /** The digits stored at nibbles 1 to k. */
  ghost function Stored(s: seq<byte>, k: nat): (ds: seq<nibble>)
    requires k / 2 < |s|
    ensures |ds| == k && forall i :: 0 <= i < k ==> ds[i] == Nib(s, i + 1)
  {
    seq(k, i requires 0 <= i < k => Nib(s, i + 1))
  }

  /** What the bytes at the start of `s` decode to, with the code's length; None when they do
      not hold a whole number of at most `maxNibbles` digits. */
  ghost function DecodedInt(s: seq<byte>, maxNibbles: nat): Option<(nat, nat)> {
    if s == [] then None
    else
      var k := Nib(s, 0) + 1;
      if k > maxNibbles || k / 2 + 1 > |s| then None
      else Some((Undigits(Stored(s, k)), k / 2 + 1))
  }

  /** decode_int_internal: does not drain. */
  method DecodeIntInternal(b: Evbuffer, offset: nat) returns (number: nat, len: int)
    requires b.Valid() && offset <= b.totalLen && offset <= INT32_MAX
    modifies b`chains, b`last, b`lwd
    ensures b.Valid() && b.Contents() == old(b.Contents()) && b.totalLen == old(b.totalLen) == |b.Contents()|
    ensures match DecodedInt(b.Contents()[offset..], 8)
      case None => len == -1
      case Some((n, l)) => number == n && len == l
  {
    hide Flat, WellFormed, Undigits, Stored;
    TotalIsLength(b);
    ghost var s := b.Contents()[offset..];
    var left := b.totalLen - offset;
    if left <= 0 { return 0, -1; }
    var data := PullupAt(b, offset, 1);
    assert data[0] == s[0];
    var k := data[0] / 16 + 1;
    if k > 8 || k / 2 + 1 > left { return 0, -1; }
    len := k / 2 + 1;
    data := PullupAt(b, offset, len);
    assert data == s[..len];
    StoredPrefix(s, len, k);
    number := ReadDigits(data, k);
  }

  /** evbuffer_pullup of the bytes up to offset + n, and a look at the last n of them. */
  method PullupAt(b: Evbuffer, offset: nat, n: nat) returns (data: seq<byte>)
    requires b.Valid() && 0 < n <= 16 && offset + n <= b.totalLen && offset <= INT32_MAX
    modifies b`chains, b`last, b`lwd
    ensures b.Valid() && b.Contents() == old(b.Contents()) && b.totalLen == |b.Contents()|
    ensures data == b.Contents()[offset..offset + n]
  {
    hide Flat, WellFormed;
    var p := b.Pullup(offset + n);
    TotalIsLength(b);
    data := p.value[..offset + n][offset..];
  }

  lemma StoredPrefix(s: seq<byte>, len: nat, k: nat)
    requires k / 2 < len <= |s|
    ensures Stored(s[..len], k) == Stored(s, k)
  {
    assert forall i: nat :: i / 2 < len ==> Nib(s[..len], i) == Nib(s, i);
  }

  /** The digit loop of DECODE_INT_INTERNAL, most significant digit first. */
  method ReadDigits(data: seq<byte>, k: nat) returns (number: nat)
    requires k / 2 < |data|
    ensures number == Undigits(Stored(data, k))
  {
    var n := k;
    number := 0;
    ghost var ds := Stored(data, k);
    while n > 0
      invariant 0 <= n <= k && number == Undigits(ds[n..])
    {
      assert ds[n - 1..][1..] == ds[n..];
      number := number * 16 + Nib(data, n);
      n := n - 1;
    }
    assert ds[0..] == ds;
  }

  /** The integer code is self-delimiting and decodes to the number it codes. */
  lemma {:induction false} IntRoundTrip(s: seq<byte>, n: nat)
    requires n <= UINT32_MAX && CodesInt(s, n)
    ensures DecodedInt(s, 8) == Some((n, (|Digits(n)| + 2) / 2))
  {
    DigitsOfUint32(n);
    UndigitsOfDigits(n);
    var ds := Digits(n);
    if n == 0 {
      assert Stored(s, 1) == [0];
      assert Undigits([0]) == 0 + 16 * Undigits([0][1..]);
    } else {
      assert Stored(s, |ds|) == ds;
    }
  }

  lemma CodesIntPrefix(code: seq<byte>, rest: seq<byte>, n: nat)
    requires CodesInt(code, n)
    ensures CodesInt(code + rest, n)
  {
    assert forall i: nat :: i / 2 < |code| ==> Nib(code + rest, i) == Nib(code, i);
  }

  // ---- Tags ----

  /** The 7-bit groups of a tag, least significant first, all but the last with the high bit set. */
  ghost function TagCode(tag: nat): (code: seq<byte>)
    ensures code != []
  {
    if tag < 128 then [tag] else [128 + tag % 128] + TagCode(tag / 128)
  }

  lemma {:induction false} TagCodeLength(tag: nat)
    requires tag <= UINT32_MAX
    ensures |TagCode(tag)| <= 5
  {
    assert |TagCode(tag / 128 / 128 / 128 / 128)| == 1;
    assert |TagCode(tag / 128 / 128 / 128)| <= 2;
    assert |TagCode(tag / 128 / 128)| <= 3;
    assert |TagCode(tag / 128)| <= 4;
  }

  /** evtag_encode_tag. */
  method EncodeTag(tag: nat) returns (code: seq<byte>)
    requires tag <= UINT32_MAX
    ensures code == TagCode(tag)
  {
    code := [];
    var t, more := tag, true;
    while more
      invariant 0 <= t
      invariant if more then code + TagCode(t) == TagCode(tag) else code == TagCode(tag)
      decreases more, t
    {
      var lower := t % 128;
      var next := t / 128;
      if next != 0 {
        assert code + TagCode(t) == (code + [128 + lower]) + TagCode(next);
        code := code + [128 + lower];
      } else {
        code := code + [lower];
        more := false;
      }
      t := next;
    }
  }

  /** What the bytes of `s` from `i` on decode to as groups i, i+1, ... of a tag, with the number
      of bytes; None when they run out, or do not fit 32 bits. */
  ghost function DecodedTag(s: seq<byte>, i: nat): (r: Option<(nat, nat)>)
    ensures r.Some? ==> 1 <= r.value.1 && i + r.value.1 <= |s| && i + r.value.1 <= 5
    decreases 5 - i
  {
    if i >= |s| || i >= 5 || (i == 4 && s[i] % 128 > 15) then None
    else if s[i] < 128 then Some((s[i], 1))
    else
      match DecodedTag(s, i + 1)
      case None => None
      case Some((v, n)) => Some((s[i] % 128 + 128 * v, n + 1))
  }

  /** 1 << 7k. */
  function Pow128(k: nat): nat {
    if k == 0 then 1 else 128 * Pow128(k - 1)
  }

  /** decode_tag_internal without the drain.  The shifted groups never overlap, so or-ing them in adds. */
  method DecodeTagInternal(b: Evbuffer) returns (tag: nat, count: int)
    requires b.Valid()
    modifies b`chains, b`last, b`lwd
    ensures b.Valid() && b.Contents() == old(b.Contents()) && b.totalLen == old(b.totalLen)
    ensures match DecodedTag(b.Contents(), 0)
      case None => count == -1
      case Some((t, n)) => tag == t && count == n
  {
    hide Flat, WellFormed;
    TotalIsLength(b);
    var want := Min(b.totalLen, 5);
    var p := b.Pullup(want);
    if p == None { return 0, -1; }
    var data := p.value[..want];
    assert data == b.Contents()[..want];
    DecodedTagPrefix(b.Contents(), want, 0);
    tag, count := ReadGroups(data);
  }

  /** Only the first five bytes matter. */
  lemma {:induction false} DecodedTagPrefix(s: seq<byte>, n: nat, i: nat)
    requires n == Min(|s|, 5)
    ensures DecodedTag(s[..n], i) == DecodedTag(s, i)
    decreases 5 - i
  {
    if i < 5 { DecodedTagPrefix(s, n, i + 1); }
  }

  /** `tag` holds the first `count` groups: what remains, shifted above them, makes the whole. */
  ghost predicate TagSoFar(data: seq<byte>, tag: nat, count: nat) {
    match (DecodedTag(data, 0), DecodedTag(data, count))
    case (Some((t, n)), Some((v, m))) => t == tag + Pow128(count) * v && n == count + m
    case (a, b) => a == None && b == None
  }

  lemma TagStarts(data: seq<byte>)
    ensures TagSoFar(data, 0, 0)
  {
  }

  lemma TagAdvances(data: seq<byte>, tag: nat, count: nat)
    requires TagSoFar(data, tag, count) && count < |data| && count < 5
    requires count == 4 ==> data[count] % 128 <= 15
    ensures Pow128(count) * (data[count] % 128) >= 0
    ensures data[count] >= 128 ==> TagSoFar(data, tag + Pow128(count) * (data[count] % 128), count + 1)
    ensures data[count] < 128 ==> DecodedTag(data, 0) == Some((tag + Pow128(count) * (data[count] % 128), count + 1))
  {
    hide DecodedTag;
    TagUnfolds(data, count);
    var next := DecodedTag(data, count + 1);
    if data[count] >= 128 && next.Some? {
      Distribute(Pow128(count), data[count] % 128, next.value.0);
    }
  }

  lemma TagUnfolds(s: seq<byte>, i: nat)
    requires i < |s| && i < 5 && (i == 4 ==> s[i] % 128 <= 15)
    ensures s[i] < 128 ==> DecodedTag(s, i) == Some((s[i], 1))
    ensures s[i] >= 128 ==> match DecodedTag(s, i + 1)
      case None => DecodedTag(s, i) == None
      case Some((v, n)) => DecodedTag(s, i) == Some((s[i] % 128 + 128 * v, n + 1))
  {
  }

  lemma Distribute(p: nat, lower: nat, v: nat)
    ensures p * (lower + 128 * v) == p * lower + (128 * p) * v
  {
  }

  /** The loop of decode_tag_internal over the pulled-up bytes. */
  method ReadGroups(data: seq<byte>) returns (tag: nat, count: int)
    requires |data| <= 5
    ensures match DecodedTag(data, 0)
      case None => count == -1
      case Some((t, n)) => tag == t && count == n
  {
    hide TagSoFar, Pow128;
    tag, count := 0, 0;
    TagStarts(data);
    while count < |data|
      invariant 0 <= count <= |data| && TagSoFar(data, tag, count)
    {
      var lower := data[count];
      if count == 4 && lower % 128 > 15 {
        TagFails(data, tag, count);
        return 0, -1;
      }
      TagAdvances(data, tag, count);
      tag := tag + Pow128(count) * (lower % 128);
      count := count + 1;
      if lower < 128 { return; }
    }
    TagFails(data, tag, count);
    count := -1;
  }

  lemma TagFails(data: seq<byte>, tag: nat, count: nat)
    requires TagSoFar(data, tag, count) && DecodedTag(data, count) == None
    ensures DecodedTag(data, 0) == None
  {
  }

  /** What is left of a 32-bit tag after `i` groups. */
  ghost function GroupBound(i: nat): nat
    requires i <= 4
  {
    if i == 0 then 0x1_0000_0000
    else if i == 1 then 0x200_0000
    else if i == 2 then 0x4_0000
    else if i == 3 then 0x800
    else 0x10
  }

  /** The tag code is self-delimiting and decodes to the tag. */
  lemma {:induction false} TagRoundTrip(tag: nat, before: seq<byte>, rest: seq<byte>)
    requires |before| <= 4 && tag < GroupBound(|before|)
    ensures DecodedTag(before + TagCode(tag) + rest, |before|) == Some((tag, |TagCode(tag)|))
    decreases tag
  {
    hide DecodedTag;
    var s := before + TagCode(tag) + rest;
    var i := |before|;
    if tag < 128 {
      assert s[i] == tag;
    } else {
      var more := before + [128 + tag % 128];
      assert s == more + TagCode(tag / 128) + rest;
      assert s[i] == 128 + tag % 128;
      TagRoundTrip(tag / 128, more, rest);
    }
    TagUnfolds(s, i);
  }
}
