/** STUN messages: the header, and attributes appended and walked. */
module StunAttributes {
  import opened Basics

  const STUN_HEADER_LENGTH := 20
  const MAX_STUN_MESSAGE_SIZE := 65507
  const MAGIC_COOKIE: seq<byte> := [0x21, 0x12, 0xA4, 0x42]

  type u16 = x: int | 0 <= x < 0x1_0000

  /** Sixteen bits in network order. */
  function Get16(m: seq<byte>, i: nat): u16
    requires i + 2 <= |m|
  {
    (m[i] as int) * 256 + m[i + 1]
  }

  function Put16(x: u16): (b: seq<byte>)
    ensures |b| == 2 && Get16(b, 0) == x
  {
    [x / 256, x % 256]
  }

  /** Round up to four bytes. */
  function Padded(n: nat): (r: nat)
    ensures n <= r < n + 4 && r % 4 == 0
  {
    if n % 4 == 0 then n else n + (4 - n % 4)
  }

  /** stun_get_command_message_len_str: the length the header declares, if it is there. */
  function MessageLen(m: seq<byte>): (r: Option<nat>)
    ensures r.Some? ==> STUN_HEADER_LENGTH <= r.value <= |m|
  {
    if |m| < STUN_HEADER_LENGTH then None
    else
      var n := Get16(m, 2) + STUN_HEADER_LENGTH;
      if n > |m| then None else Some(n)
  }

  predicate ValidChannel(x: int) {
    0x4000 <= x <= 0x7FFF
  }

  /** stun_is_command_message_str. */
  predicate IsCommand(m: seq<byte>) {
    && |m| >= STUN_HEADER_LENGTH
    && !ValidChannel(Get16(m, 0))
    && m[0] / 64 == 0
    && m[4..8] == MAGIC_COOKIE
    && Get16(m, 2) % 4 == 0
    && Get16(m, 2) + STUN_HEADER_LENGTH == |m|
  }

  datatype Attr = Attr(attrType: u16, value: seq<byte>)

  // ---- Walking ----

  /** stun_attr_check_valid: the attribute at `at` ends within `remaining` bytes. */
  predicate CheckValid(m: seq<byte>, at: nat, remaining: int)
    requires at + remaining <= |m|
  {
    remaining >= 4 && Padded(Get16(m, at + 2)) <= remaining - 4
  }

  /** stun_attr_get_first_str. */
  function First(m: seq<byte>): (r: Option<nat>)
    ensures r.Some? ==> Inside(m, r.value)
  {
    match MessageLen(m)
    case None => None
    case Some(n) =>
      if n > STUN_HEADER_LENGTH && CheckValid(m, STUN_HEADER_LENGTH, n - STUN_HEADER_LENGTH)
      then Some(STUN_HEADER_LENGTH) else None
  }

  /** stun_attr_get_next_str, from an attribute. */
  function Next(m: seq<byte>, prev: nat): (r: Option<nat>)
    requires prev + 4 <= |m|
    ensures r.Some? ==> Inside(m, r.value) && r.value == prev + 4 + Padded(Get16(m, prev + 2))
  {
    match MessageLen(m)
    case None => None
    case Some(n) =>
      var len := Padded(Get16(m, prev + 2));
      if len < n - prev - 4 && CheckValid(m, prev + 4 + len, n - (prev + 4 + len)) then Some(prev + 4 + len) else None
  }

  /** The whole attribute, padding included, lies within the declared length. */
  predicate Inside(m: seq<byte>, at: nat) {
    && MessageLen(m).Some? && at + 4 <= MessageLen(m).value
    && at + 4 + Padded(Get16(m, at + 2)) <= MessageLen(m).value
  }

  function AttrAt(m: seq<byte>, at: nat): Attr
    requires Inside(m, at)
  {
    Attr(Get16(m, at), m[at + 4..at + 4 + Get16(m, at + 2)])
  }

  /** The attributes from one on, as First and Next find them.  Whatever the bytes, the walk ends
      and every attribute lies within the declared length. */
  function WalkFrom(m: seq<byte>, at: Option<nat>): seq<Attr>
    requires at.Some? ==> Inside(m, at.value)
    decreases if at.Some? then |m| - at.value + 1 else 0
  {
    match at
    case None => []
    case Some(i) => [AttrAt(m, i)] + WalkFrom(m, Next(m, i))
  }

  function Walk(m: seq<byte>): seq<Attr> {
    WalkFrom(m, First(m))
  }

  /** The walk, as a program does it: whatever the bytes, it stays within the declared length. */
  method WalkAll(m: seq<byte>) returns (attrs: seq<Attr>)
    ensures attrs == Walk(m)
    ensures MessageLen(m) == None ==> attrs == []
    ensures LaidOut(m, Places(m, First(m)), attrs)
    ensures MessageLen(m).Some? ==> STUN_HEADER_LENGTH + Size(attrs) <= MessageLen(m).value
  {
    hide LaidOut, Size, Next, AttrAt, Padded, Get16;
    attrs := [];
    var at := First(m);
    while at.Some?
      invariant at.Some? ==> Inside(m, at.value)
      invariant Walk(m) == attrs + WalkFrom(m, at)
      decreases if at.Some? then |m| - at.value + 1 else 0
    {
      attrs := attrs + [AttrAt(m, at.value)];
      at := Next(m, at.value);
    }
    WalkBounded(m);
  }

  /** stun_attr_get_first_by_type_str. */
  method FirstByType(m: seq<byte>, attrType: u16) returns (at: Option<nat>)
    ensures at == FirstOf(m, First(m), attrType) && IsFirst(Places(m, First(m)), Walk(m), attrType, at)
  {
    FirstOfIsFirst(m, First(m), attrType);
    at := First(m);
    while at.Some?
      invariant at.Some? ==> Inside(m, at.value)
      invariant FirstOf(m, at, attrType) == FirstOf(m, First(m), attrType)
      decreases if at.Some? then |m| - at.value + 1 else 0
    {
      if Get16(m, at.value) == attrType { return; }
      at := Next(m, at.value);
    }
  }

  /** Where the walk from `at` finds its attributes. */
  function Places(m: seq<byte>, at: Option<nat>): seq<nat>
    requires at.Some? ==> Inside(m, at.value)
    decreases if at.Some? then |m| - at.value + 1 else 0
  {
    match at
    case None => []
    case Some(i) => [i] + Places(m, Next(m, i))
  }

  /** What attributes take up, with headers and padding. */
  function Size(attrs: seq<Attr>): nat {
    if attrs == [] then 0 else 4 + Padded(|attrs[0].value|) + Size(attrs[1..])
  }

  lemma SizeCons(a: Attr, attrs: seq<Attr>)
    ensures Size([a] + attrs) == 4 + Padded(|a.value|) + Size(attrs)
  {
    hide Padded;
    assert ([a] + attrs)[1..] == attrs;
  }

  /** The attributes are those at the places, each whole within the declared length, and they follow
      one another without a gap. */
  ghost predicate LaidOut(m: seq<byte>, places: seq<nat>, attrs: seq<Attr>) {
    && |places| == |attrs|
    && (forall k :: 0 <= k < |places| ==> Inside(m, places[k]) && attrs[k] == AttrAt(m, places[k]))
    && (forall k :: 0 <= k < |places| - 1 ==> places[k + 1] == places[k] + 4 + Padded(|attrs[k].value|))
  }

  lemma LaidOutCons(m: seq<byte>, i: nat, places: seq<nat>, attrs: seq<Attr>)
    requires LaidOut(m, places, attrs) && Inside(m, i)
    requires places != [] ==> places[0] == i + 4 + Padded(|AttrAt(m, i).value|)
    ensures LaidOut(m, [i] + places, [AttrAt(m, i)] + attrs)
  {
    hide Inside, AttrAt, Padded;
    var ps, all := [i] + places, [AttrAt(m, i)] + attrs;
    forall k | 0 <= k < |ps| - 1 ensures ps[k + 1] == ps[k] + 4 + Padded(|all[k].value|) {
      if k > 0 { assert ps[k + 1] == places[k] && ps[k] == places[k - 1] && all[k] == attrs[k - 1]; }
    }
  }

  /** Whatever the bytes, so it is with the walk; and it ends by the declared length. */
  lemma {:induction false} WalkInside(m: seq<byte>, i: nat)
    requires Inside(m, i)
    ensures LaidOut(m, Places(m, Some(i)), WalkFrom(m, Some(i)))
    ensures Places(m, Some(i)) != [] && Places(m, Some(i))[0] == i
    ensures i + Size(WalkFrom(m, Some(i))) <= MessageLen(m).value
    decreases |m| - i
  {
    hide LaidOut, Padded, Size, Next;
    var next := Next(m, i);
    AttrSize(m, i);
    if next.Some? { WalkInside(m, next.value); } else { NoneLaidOut(m); }
    LaidOutCons(m, i, Places(m, next), WalkFrom(m, next));
    SizeCons(AttrAt(m, i), WalkFrom(m, next));
  }

  lemma AttrSize(m: seq<byte>, i: nat)
    requires Inside(m, i)
    ensures |AttrAt(m, i).value| == Get16(m, i + 2)
  {
    hide Get16;
  }

  lemma NoneLaidOut(m: seq<byte>)
    ensures LaidOut(m, [], []) && Size([]) == 0
  {
  }

  /** The walk as a whole starts behind the header and ends by the declared length. */
  lemma WalkBounded(m: seq<byte>)
    ensures First(m).Some? ==> First(m) == Some(STUN_HEADER_LENGTH)
    ensures MessageLen(m).Some? ==> STUN_HEADER_LENGTH + Size(Walk(m)) <= MessageLen(m).value
    ensures MessageLen(m) == None ==> Walk(m) == []
    ensures LaidOut(m, Places(m, First(m)), Walk(m))
  {
    if First(m).Some? { WalkInside(m, First(m).value); }
  }

  /** `r` is nothing if no attribute has the type, and else the place of the first that has. */
  ghost predicate IsFirst(places: seq<nat>, attrs: seq<Attr>, attrType: u16, r: Option<nat>) {
    && |places| == |attrs|
    && match r
       case None => forall k :: 0 <= k < |attrs| ==> attrs[k].attrType != attrType
       case Some(p) =>
         exists k :: 0 <= k < |attrs| && places[k] == p && IsLeast(attrs, attrType, k)
  }

  ghost predicate IsLeast(attrs: seq<Attr>, attrType: u16, k: nat) {
    k < |attrs| && attrs[k].attrType == attrType && forall j :: 0 <= j < k ==> attrs[j].attrType != attrType
  }

  lemma IsFirstCons(places: seq<nat>, attrs: seq<Attr>, attrType: u16, r: Option<nat>, i: nat, a: Attr)
    requires IsFirst(places, attrs, attrType, r)
    ensures IsFirst([i] + places, [a] + attrs, attrType, if a.attrType == attrType then Some(i) else r)
  {
    var ps, all := [i] + places, [a] + attrs;
    if a.attrType == attrType {
      assert IsLeast(all, attrType, 0) && ps[0] == i;
    } else if r.Some? {
      var k :| 0 <= k < |attrs| && places[k] == r.value && IsLeast(attrs, attrType, k);
      assert IsLeast(all, attrType, k + 1) && ps[k + 1] == r.value;
    }
  }

  /** Searching by type finds the first of the type in the walk. */
  lemma {:induction false} FirstOfIsFirst(m: seq<byte>, at: Option<nat>, attrType: u16)
    requires at.Some? ==> Inside(m, at.value)
    ensures IsFirst(Places(m, at), WalkFrom(m, at), attrType, FirstOf(m, at, attrType))
    decreases if at.Some? then |m| - at.value + 1 else 0
  {
    if at.Some? {
      hide IsFirst, Next, Inside;
      var i := at.value;
      var next := Next(m, i);
      FirstOfIsFirst(m, next, attrType);
      IsFirstCons(Places(m, next), WalkFrom(m, next), attrType, FirstOf(m, next, attrType), i, AttrAt(m, i));
    }
  }

  function FirstOf(m: seq<byte>, at: Option<nat>, attrType: u16): (r: Option<nat>)
    requires at.Some? ==> Inside(m, at.value)
    ensures r.Some? ==> Inside(m, r.value) && Get16(m, r.value) == attrType
    decreases if at.Some? then |m| - at.value + 1 else 0
  {
    match at
    case None => None
    case Some(i) => if Get16(m, i) == attrType then at else FirstOf(m, Next(m, i), attrType)
  }

  // ---- What a message says ----

  /** From `at` to its end the message holds exactly these attributes. */
  predicate Lists(m: seq<byte>, at: nat, attrs: seq<Attr>)
    decreases |attrs|
  {
    if attrs == [] then at == |m|
    else
      var a := attrs[0];
      var next := at + 4 + Padded(|a.value|);
      && next <= |m|
      && Get16(m, at) == a.attrType && Get16(m, at + 2) == |a.value|
      && m[at + 4..at + 4 + |a.value|] == a.value
      && Lists(m, next, attrs[1..])
  }

  /** A message with these attributes, of whole words, its length in its header. */
  predicate Holds(m: seq<byte>, attrs: seq<Attr>) {
    && |m| >= STUN_HEADER_LENGTH && |m| % 4 == 0
    && Get16(m, 2) + STUN_HEADER_LENGTH == |m|
    && Lists(m, STUN_HEADER_LENGTH, attrs)
  }

  /** The walk over such a message finds them all, in order. */
  lemma {:induction false} WalkFinds(m: seq<byte>, at: nat, attrs: seq<Attr>)
    requires MessageLen(m) == Some(|m|) && STUN_HEADER_LENGTH <= at && Lists(m, at, attrs)
    ensures attrs != [] ==> Inside(m, at) && WalkFrom(m, Some(at)) == attrs
    decreases |attrs|
  {
    if attrs != [] {
      var next := at + 4 + Padded(|attrs[0].value|);
      assert Inside(m, at);
      assert AttrAt(m, at) == attrs[0];
      WalkFinds(m, next, attrs[1..]);
      ListsNext(m, at, attrs);
      assert WalkFrom(m, Some(at)) == [AttrAt(m, at)] + WalkFrom(m, Next(m, at));
    }
  }

  lemma ListsNext(m: seq<byte>, at: nat, attrs: seq<Attr>)
    requires MessageLen(m) == Some(|m|) && STUN_HEADER_LENGTH <= at && Lists(m, at, attrs) && attrs != []
    ensures Next(m, at) == if attrs[1..] == [] then None else Some(at + 4 + Padded(|attrs[0].value|))
  {
    var next := at + 4 + Padded(|attrs[0].value|);
    if attrs[1..] != [] { assert Lists(m, next, attrs[1..]) && CheckValid(m, next, |m| - next); }
  }

  lemma HoldsWalk(m: seq<byte>, attrs: seq<Attr>)
    requires Holds(m, attrs)
    ensures Walk(m) == attrs
  {
    WalkFinds(m, STUN_HEADER_LENGTH, attrs);
    if attrs != [] { assert CheckValid(m, STUN_HEADER_LENGTH, |m| - STUN_HEADER_LENGTH); }
  }

  // ---- Appending ----

  /** The message with its length field set and an attribute put after it. */
  function Appended(m: seq<byte>, a: Attr, pad: seq<byte>): (r: seq<byte>)
    requires |m| >= STUN_HEADER_LENGTH && |m| + 4 + |a.value| + |pad| < STUN_HEADER_LENGTH + 0x1_0000
  {
    m[..2] + Put16(|m| + 4 + |a.value| + |pad| - STUN_HEADER_LENGTH) + m[4..]
    + Put16(a.attrType) + Put16(|a.value|) + a.value + pad
  }

  lemma AppendedAt(m: seq<byte>, a: Attr, pad: seq<byte>)
    requires |m| >= STUN_HEADER_LENGTH && |m| + 4 + |a.value| + |pad| < STUN_HEADER_LENGTH + 0x1_0000
    ensures var r := Appended(m, a, pad);
      && |r| == |m| + 4 + |a.value| + |pad|
      && r[..2] == m[..2] && r[4..|m|] == m[4..] && Get16(r, 2) == |r| - STUN_HEADER_LENGTH
      && Get16(r, |m|) == a.attrType && Get16(r, |m| + 2) == |a.value| && r[|m| + 4..|m| + 4 + |a.value|] == a.value
  {
    var r := Appended(m, a, pad);
    var n := Put16(|m| + 4 + |a.value| + |pad| - STUN_HEADER_LENGTH);
    var head := m[..2] + n + m[4..];
    assert r == head + (Put16(a.attrType) + Put16(|a.value|) + a.value + pad);
    assert r[..|m|] == head && head[4..] == m[4..] && head[..2] == m[..2];
    assert r[4..|m|] == r[..|m|][4..] && r[..2] == r[..|m|][..2];
    assert r[2] == n[0] && r[3] == n[1];
    var k := |m|;
    assert r[k] == Put16(a.attrType)[0] && r[k + 1] == Put16(a.attrType)[1];
    assert r[k + 2] == Put16(|a.value|)[0] && r[k + 3] == Put16(|a.value|)[1];
  }

  lemma {:induction false} ListsSnoc(m: seq<byte>, r: seq<byte>, at: nat, attrs: seq<Attr>, a: Attr)
    requires STUN_HEADER_LENGTH <= at && Lists(m, at, attrs) && STUN_HEADER_LENGTH <= |m| <= |r| && r[4..|m|] == m[4..]
    requires Lists(r, |m|, [a])
    ensures Lists(r, at, attrs + [a])
    decreases |attrs|
  {
    if attrs == [] {
      assert attrs + [a] == [a];
    } else {
      var next := at + 4 + Padded(|attrs[0].value|);
      assert forall i :: 4 <= i < |m| ==> r[i] == r[4..|m|][i - 4] == m[4..][i - 4] == m[i];
      assert r[at + 4..at + 4 + |attrs[0].value|] == m[at + 4..at + 4 + |attrs[0].value|];
      assert (attrs + [a])[1..] == attrs[1..] + [a];
      ListsSnoc(m, r, next, attrs[1..], a);
    }
  }

  /** What an append adds is exactly the attribute, at the end; type, cookie and transaction id stay,
      and a command message stays one. */
  lemma AppendHolds(m: seq<byte>, attrs: seq<Attr>, a: Attr, pad: seq<byte>)
    requires Holds(m, attrs) && |pad| == Padded(|a.value|) - |a.value|
    requires |m| + 4 + |a.value| + |pad| < STUN_HEADER_LENGTH + 0x1_0000
    ensures var r := Appended(m, a, pad);
      && Holds(r, attrs + [a])
      && r[..2] == m[..2] && r[4..STUN_HEADER_LENGTH] == m[4..STUN_HEADER_LENGTH]
      && (IsCommand(m) ==> IsCommand(r))
  {
    hide Appended, Lists, Get16;
    var r := Appended(m, a, pad);
    AppendedAt(m, a, pad);
    OneListed(r, |m|, a);
    ListsSnoc(m, r, STUN_HEADER_LENGTH, attrs, a);
    HeaderKept(m, r);
  }

  lemma OneListed(r: seq<byte>, at: nat, a: Attr)
    requires |r| == at + 4 + Padded(|a.value|)
    requires Get16(r, at) == a.attrType && Get16(r, at + 2) == |a.value| && r[at + 4..at + 4 + |a.value|] == a.value
    ensures Lists(r, at, [a])
  {
    hide Get16;
  }

  lemma HeaderKept(m: seq<byte>, r: seq<byte>)
    requires STUN_HEADER_LENGTH <= |m| <= |r| && r[..2] == m[..2] && r[4..|m|] == m[4..]
    requires |r| % 4 == 0 && Get16(r, 2) + STUN_HEADER_LENGTH == |r|
    ensures r[4..STUN_HEADER_LENGTH] == m[4..STUN_HEADER_LENGTH]
    ensures IsCommand(m) ==> IsCommand(r)
  {
    assert r[4..STUN_HEADER_LENGTH] == r[4..|m|][..STUN_HEADER_LENGTH - 4] == m[4..STUN_HEADER_LENGTH];
    assert r[4..8] == r[4..STUN_HEADER_LENGTH][..4] && m[4..8] == m[4..STUN_HEADER_LENGTH][..4];
    assert r[0] == r[..2][0] == m[0] && r[1] == r[..2][1] == m[1];
  }
}
