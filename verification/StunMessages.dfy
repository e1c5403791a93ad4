/** Building STUN messages in a buffer: types, attributes, fingerprints. */
module StunMessages {
  import opened Basics
  import opened StunAttributes
  import opened Crc32

  const STUN_ATTRIBUTE_FINGERPRINT := 0x8028
  const STUN_METHOD_BINDING := 1
  const FINGERPRINT_XOR: bv32 := 0x5354_554e
  const TID_SIZE := 12

  // ---- Message types ----

  datatype Class = Request | Indication | Success | Error

  /** stun_make_type: the twelve bits of a method, spread to leave room for the class. */
  function MakeType(m: u16): u16 {
    m % 16 + m / 16 % 8 * 32 + m / 128 % 8 * 512 + m / 1024 % 4 * 4096
  }

  /** The two bits of a class: the eighth of the type, and the fourth. */
  function HighBit(c: Class): nat {
    if c == Success || c == Error then 1 else 0
  }

  function LowBit(c: Class): nat {
    if c == Indication || c == Error then 1 else 0
  }

  /** stun_make_request and its siblings. */
  function TypeOf(m: u16, c: Class): nat {
    MakeType(m) + LowBit(c) * 0x10 + HighBit(c) * 0x100
  }

  /** stun_get_method_str. */
  function MethodOf(t: nat): u16 {
    t % 16 + t / 32 % 8 * 16 + t / 512 % 8 * 128 + t / 4096 % 4 * 1024
  }

  /** IS_STUN_REQUEST and its siblings, on the two class bits. */
  function ClassOf(t: nat): Class {
    if t / 256 % 2 == 0 then if t / 16 % 2 == 0 then Request else Indication
    else if t / 16 % 2 == 0 then Success else Error
  }

  /** Method and class survive the packing; a type never looks like a channel. */
  lemma TypeRoundTrip(m: u16, c: Class)
    ensures MethodOf(TypeOf(m, c)) == m % 4096 && ClassOf(TypeOf(m, c)) == c && TypeOf(m, c) < 0x4000
  {
    hide HighBit, LowBit;
    MethodFields(m);
    BitsOfClass(c);
    Fields(m % 16, m / 16 % 8, m / 128 % 8, m / 1024 % 4, LowBit(c), HighBit(c));
  }

  lemma BitsOfClass(c: Class)
    ensures LowBit(c) < 2 && HighBit(c) < 2
    ensures c ==
      if HighBit(c) == 0
      then if LowBit(c) == 0 then Request else Indication
      else if LowBit(c) == 0 then Success else Error
  {
  }

  lemma MethodFields(m: u16)
    ensures m % 4096 == m % 16 + m / 16 % 8 * 16 + m / 128 % 8 * 128 + m / 1024 % 4 * 1024
  {
    var q1 := m / 16;
    var q2 := q1 / 8;
    var q3 := q2 / 8;
    assert m == 16 * q1 + m % 16 && q1 == 8 * q2 + q1 % 8 && q2 == 8 * q3 + q2 % 8 && q3 == 4 * (q3 / 4) + q3 % 4;
    Divided(m, 128, q2, 16 * (q1 % 8) + m % 16);
    Divided(m, 1024, q3, 128 * (q2 % 8) + 16 * (q1 % 8) + m % 16);
    Divided(m, 4096, q3 / 4, 1024 * (q3 % 4) + 128 * (q2 % 8) + 16 * (q1 % 8) + m % 16);
  }

  lemma Multiple(n: nat, d: int)
    ensures d >= 1 ==> n * d >= n
    ensures d <= -1 ==> n * d <= -(n as int)
  {
  }

  lemma Divided(m: nat, n: nat, q: nat, r: nat)
    requires m == n * q + r && r < n
    ensures m / n == q && m % n == r
  {
    assert n * q + r - n * (m / n) == m % n;
    assert n * (q - m / n) == m % n - r;
    Multiple(n, q - m / n);
  }

  lemma Fields(a: nat, b: nat, d: nat, e: nat, c0: nat, c1: nat)
    requires a < 16 && b < 8 && d < 8 && e < 4 && c0 < 2 && c1 < 2
    ensures var t := a + c0 * 16 + b * 32 + c1 * 256 + d * 512 + e * 4096;
      t % 16 == a && t / 16 % 2 == c0 && t / 32 % 8 == b && t / 256 % 2 == c1 && t / 512 % 8 == d && t / 4096 % 4 == e
  {
    var t := a + c0 * 16 + b * 32 + c1 * 256 + d * 512 + e * 4096;
    assert t / 16 == c0 + b * 2 + c1 * 16 + d * 32 + e * 256;
    assert t / 32 == b + c1 * 8 + d * 16 + e * 128;
    assert t / 256 == c1 + d * 2 + e * 16;
    assert t / 512 == d + e * 8;
  }

  // ---- Building ----

  /** stun_init_command_str, with the transaction id the random generator gave. */
  function InitMessage(messageType: u16, tid: seq<byte>): seq<byte> {
    Put16(messageType % 0x4000) + [0, 0] + MAGIC_COOKIE + tid
  }

  method InitCommand(buf: array<byte>, messageType: u16, tid: seq<byte>) returns (len: nat)
    requires buf.Length >= STUN_HEADER_LENGTH && |tid| == TID_SIZE
    modifies buf
    ensures len == STUN_HEADER_LENGTH && buf[..len] == InitMessage(messageType, tid)
  {
    len := STUN_HEADER_LENGTH;
    Copy(buf, 0, seq(STUN_HEADER_LENGTH, _ => 0));
    Copy(buf, 0, Put16(messageType % 0x4000));
    Copy(buf, 2, [0, 0]);
    Copy(buf, 4, MAGIC_COOKIE);
    Copy(buf, 8, tid);
  }

  lemma InitHolds(messageType: u16, tid: seq<byte>)
    requires |tid| == TID_SIZE
    ensures var m := InitMessage(messageType, tid);
      Holds(m, []) && IsCommand(m) && Get16(m, 0) == messageType % 0x4000 && m[8..] == tid
  {
    var m := InitMessage(messageType, tid);
    assert m[0] == Put16(messageType % 0x4000)[0] && m[1] == Put16(messageType % 0x4000)[1];
    assert m[4..8] == MAGIC_COOKIE;
  }

  /** The length the header declares, -1 for none, as stun_get_command_message_len_str returns it. */
  function DeclaredLen(m: seq<byte>): int {
    match MessageLen(m)
    case None => -1
    case Some(n) => n
  }

  /** stun_attr_add_str: what the padding holds is what was in the buffer.  Without a declared length
      it writes in front of the buffer, unless the value is so long that it refuses. */
  method AttrAdd(buf: array<byte>, len: nat, a: Attr) returns (r: int, newLen: nat)
    requires buf.Length >= MAX_STUN_MESSAGE_SIZE && len <= buf.Length
    requires MessageLen(buf[..len]).Some? || Padded(3 + |a.value|) >= MAX_STUN_MESSAGE_SIZE
    modifies buf
    ensures var clen := DeclaredLen(old(buf[..len]));
      var total := Padded(clen + 4 + |a.value|);
      if total >= MAX_STUN_MESSAGE_SIZE then
        r == -1 && newLen == len && buf[..] == old(buf[..])
      else
        && r == 0 && newLen == total && clen >= STUN_HEADER_LENGTH
        && buf[..newLen] == Appended(old(buf[..clen]), a, old(buf[clen + 4 + |a.value|..total]))
  {
    hide Overwrite, Appended, Padded, Get16, Put16;
    var clen := DeclaredLen(buf[..len]);
    var total := Padded(clen + 4 + |a.value|);
    if total >= MAX_STUN_MESSAGE_SIZE { return -1, len; }
    ghost var was := buf[..];
    newLen := total;
    Copy(buf, 2, Put16(total - STUN_HEADER_LENGTH));
    Copy(buf, clen, Put16(a.attrType) + Put16(|a.value|) + a.value);
    Written(was, buf[..], clen, total, a);
    assert buf[..][..total] == buf[..total] && was[..clen] == old(buf[..clen]);
    assert was[clen + 4 + |a.value|..total] == old(buf[clen + 4 + |a.value|..total]);
    r := 0;
  }

  lemma OverwriteParts(a: seq<byte>, pos: nat, s: seq<byte>, k: nat)
    requires pos + |s| <= k <= |a|
    ensures Overwrite(a, pos, s)[..k] == a[..pos] + s + a[pos + |s|..k]
    ensures Overwrite(a, pos, s)[k..] == a[k..]
  {
  }

  lemma Written(was: seq<byte>, now: seq<byte>, clen: nat, total: nat, a: Attr)
    requires STUN_HEADER_LENGTH <= clen && clen + 4 + |a.value| <= total <= |was| && total < 0x1_0000
    requires now == Overwrite(
      Overwrite(was, 2, Put16(total - STUN_HEADER_LENGTH)), clen, Put16(a.attrType) + Put16(|a.value|) + a.value)
    ensures now[..total] == Appended(was[..clen], a, was[clen + 4 + |a.value|..total])
  {
    hide Overwrite, Put16;
    var n, body := Put16(total - STUN_HEADER_LENGTH), Put16(a.attrType) + Put16(|a.value|) + a.value;
    var s1 := Overwrite(was, 2, n);
    var end := clen + 4 + |a.value|;
    OverwriteParts(was, 2, n, clen);
    OverwriteParts(was, 2, n, end);
    OverwriteParts(s1, clen, body, end);
    assert now[..end] == s1[..clen] + body;
    assert now[end..total] == now[end..][..total - end] == was[end..][..total - end] == was[end..total];
    assert now[..total] == now[..end] + now[end..total];
    assert was[..clen][..2] == was[..2] && was[..clen][4..] == was[4..clen];
    assert s1[..clen] + body + was[end..total] ==
      was[..2] + n + was[4..clen] + Put16(a.attrType) + Put16(|a.value|) + a.value + was[end..total];
  }

  /** An append that has room: the message then holds one attribute more. */
  method AddTo(buf: array<byte>, len: nat, a: Attr, ghost attrs: seq<Attr>) returns (r: int, newLen: nat)
    requires buf.Length >= MAX_STUN_MESSAGE_SIZE && len < MAX_STUN_MESSAGE_SIZE && Holds(buf[..len], attrs)
    modifies buf
    ensures len >= STUN_HEADER_LENGTH
    ensures r == if len + 4 + Padded(|a.value|) < MAX_STUN_MESSAGE_SIZE then 0 else -1
    ensures r == -1 ==> newLen == len && buf[..] == old(buf[..])
    ensures r == 0 ==>
      && newLen == len + 4 + Padded(|a.value|) < MAX_STUN_MESSAGE_SIZE
      && Holds(buf[..newLen], attrs + [a])
      && buf[..2] == old(buf[..2]) && buf[4..STUN_HEADER_LENGTH] == old(buf[4..STUN_HEADER_LENGTH])
      && (IsCommand(old(buf[..len])) ==> IsCommand(buf[..newLen]))
  {
    hide Lists, Appended, IsCommand;
    ghost var m := buf[..len];
    HoldsLen(m, attrs);
    PaddedSum(len, |a.value|);
    ghost var end := len + 4 + Padded(|a.value|);
    ghost var pad := if end <= buf.Length then buf[len + 4 + |a.value|..end] else [];
    r, newLen := AttrAdd(buf, len, a);
    if r == 0 {
      AppendHolds(m, attrs, a, pad);
      HeaderIn(buf[..], newLen);
      HeaderIn(old(buf[..]), len);
      assert buf[..][..newLen] == buf[..newLen] && old(buf[..])[..len] == m;
    }
  }

  lemma HeaderIn(b: seq<byte>, n: nat)
    requires STUN_HEADER_LENGTH <= n <= |b|
    ensures b[..n][..2] == b[..2] && b[..n][4..STUN_HEADER_LENGTH] == b[4..STUN_HEADER_LENGTH]
  {
  }

  lemma HoldsLen(m: seq<byte>, attrs: seq<Attr>)
    requires Holds(m, attrs)
    ensures MessageLen(m) == Some(|m|) && |m| % 4 == 0 && |m| >= STUN_HEADER_LENGTH
  {
  }

  lemma PaddedSum(n: nat, k: nat)
    requires n % 4 == 0
    ensures Padded(n + 4 + k) == n + 4 + Padded(k)
  {
    var m := n / 4 + 1;
    assert n + 4 + k == 4 * m + k;
    Divided(n + 4 + k, 4, m + k / 4, k % 4);
  }

  /** Any attributes added in turn to a new message, those without room refused: the walk over the
      buffer finds exactly those that were taken, in order, under the type and transaction id. */
  method Build(buf: array<byte>, messageType: u16, tid: seq<byte>, attrs: seq<Attr>) returns (len: nat,
      taken: seq<Attr>)
    requires buf.Length >= MAX_STUN_MESSAGE_SIZE && |tid| == TID_SIZE
    modifies buf
    ensures STUN_HEADER_LENGTH <= len < MAX_STUN_MESSAGE_SIZE && Holds(buf[..len], taken) && Walk(buf[..len]) == taken
    ensures IsCommand(buf[..len]) && Get16(buf[..len], 0) == messageType % 0x4000 && buf[8..STUN_HEADER_LENGTH] == tid
    ensures taken == Taken(attrs, STUN_HEADER_LENGTH)
  {
    hide Holds, IsCommand, InitMessage, Walk, Padded;
    len := InitCommand(buf, messageType, tid);
    InitHolds(messageType, tid);
    ghost var m0 := buf[..len];
    taken := [];
    var i := 0;
    assert attrs[0..] == attrs;
    while i < |attrs|
      invariant 0 <= i <= |attrs| && STUN_HEADER_LENGTH <= len < MAX_STUN_MESSAGE_SIZE
      invariant Holds(buf[..len], taken) && IsCommand(buf[..len])
      invariant buf[..2] == m0[..2] && buf[4..STUN_HEADER_LENGTH] == m0[4..]
      invariant Taken(attrs, STUN_HEADER_LENGTH) == taken + Taken(attrs[i..], len)
    {
      var r, newLen := AddTo(buf, len, attrs[i], taken);
      TakenStep(attrs[i..], len);
      assert attrs[i..][1..] == attrs[i + 1..];
      if r == 0 { taken := taken + [attrs[i]]; }
      len := newLen;
      i := i + 1;
    }
    HoldsWalk(buf[..len], taken);
    assert buf[8..STUN_HEADER_LENGTH] == buf[4..STUN_HEADER_LENGTH][4..] == m0[8..];
    assert buf[..len][0] == buf[..2][0] && buf[..len][1] == buf[..2][1];
    assert m0[0] == m0[..2][0] && m0[1] == m0[..2][1];
  }

  /** The attributes a message of `len` bytes still takes. */
  function Taken(attrs: seq<Attr>, len: nat): seq<Attr> {
    if attrs == [] then []
    else if len + 4 + Padded(|attrs[0].value|) < MAX_STUN_MESSAGE_SIZE then
      [attrs[0]] + Taken(attrs[1..], len + 4 + Padded(|attrs[0].value|))
    else Taken(attrs[1..], len)
  }

  lemma TakenStep(attrs: seq<Attr>, len: nat)
    requires attrs != []
    ensures Taken(attrs, len) ==
      if len + 4 + Padded(|attrs[0].value|) < MAX_STUN_MESSAGE_SIZE then
        [attrs[0]] + Taken(attrs[1..], len + 4 + Padded(|attrs[0].value|))
      else Taken(attrs[1..], len)
  {
  }

  // ---- Fingerprints ----

  /** Thirty-two bits in network order. */
  function Put32(w: bv32): (b: seq<byte>)
    ensures |b| == 4
  {
    [((w >> 24) & 0xFF) as int, ((w >> 16) & 0xFF) as int, ((w >> 8) & 0xFF) as int, (w & 0xFF) as int]
  }

  /** The value of a FINGERPRINT attribute over these bytes. */
  function FingerprintOf(m: seq<byte>): (b: seq<byte>)
    ensures |b| == 4
  {
    Put32(Checksum(m) ^ FINGERPRINT_XOR)
  }

  /** The checksum of all but the last eight bytes goes into the last four. */
  method Seal(buf: array<byte>, len: nat)
    requires 8 <= len <= buf.Length
    modifies buf
    ensures buf[..len] == old(buf[..len - 4]) + FingerprintOf(old(buf[..len - 8]))
  {
    hide Checksum, Put32;
    var crc := NsCrc32(buf[..len - 8]);
    Copy(buf, len - 4, Put32(crc ^ FINGERPRINT_XOR));
  }

  /** stun_attr_add_fingerprint_str.  The result of the append is not looked at: in a message
      without room for the attribute, the last four bytes are overwritten instead. */
  method AddFingerprint(buf: array<byte>, len: nat, ghost attrs: seq<Attr>) returns (newLen: nat)
    requires buf.Length >= MAX_STUN_MESSAGE_SIZE && len < MAX_STUN_MESSAGE_SIZE && Holds(buf[..len], attrs)
    modifies buf
    ensures STUN_HEADER_LENGTH <= len
    ensures len + 8 < MAX_STUN_MESSAGE_SIZE ==>
      && newLen == len + 8
      && Holds(buf[..newLen], attrs + [Attr(STUN_ATTRIBUTE_FINGERPRINT, FingerprintOf(buf[..len]))])
      && buf[..2] == old(buf[..2]) && buf[4..STUN_HEADER_LENGTH] == old(buf[4..STUN_HEADER_LENGTH])
      && (IsCommand(old(buf[..len])) ==> IsCommand(buf[..newLen]))
    ensures len + 8 >= MAX_STUN_MESSAGE_SIZE ==>
      newLen == len && buf[..len] == old(buf[..len])[..len - 4] + FingerprintOf(old(buf[..len])[..len - 8])
  {
    hide Holds, IsCommand, FingerprintOf;
    HoldsLen(buf[..len], attrs);
    var r;
    r, newLen := AddTo(buf, len, Attr(STUN_ATTRIBUTE_FINGERPRINT, [0, 0, 0, 0]), attrs);
    ghost var m := buf[..newLen];
    assert buf[..newLen - 4] == m[..newLen - 4] && buf[..newLen - 8] == m[..newLen - 8];
    Seal(buf, newLen);
    Sealed(m, buf[..newLen], newLen);
    assert r == 0 ==> buf[..len] == buf[..newLen][..len];
    if r == 0 { LastValueSet(m, attrs, Attr(STUN_ATTRIBUTE_FINGERPRINT, [0, 0, 0, 0]), FingerprintOf(m[..len])); }
  }

  lemma Sealed(m: seq<byte>, s: seq<byte>, n: nat)
    requires n == |m| >= STUN_HEADER_LENGTH && s == m[..n - 4] + FingerprintOf(m[..n - 8])
    ensures s[..n - 8] == m[..n - 8]
    ensures (n >= STUN_HEADER_LENGTH + 4 ==> s[..2] == m[..2] && s[4..STUN_HEADER_LENGTH] == m[4..STUN_HEADER_LENGTH])
  {
  }

  /** Changing the four bytes of the last attribute's value changes just that. */
  lemma {:induction false} LastValueSet(m: seq<byte>, attrs: seq<Attr>, a: Attr, value: seq<byte>)
    requires Holds(m, attrs + [a]) && |a.value| == |value| == 4 && |m| >= STUN_HEADER_LENGTH + 8
    ensures var r := m[..|m| - 4] + value;
      && Holds(r, attrs + [a.(value := value)]) && r[..STUN_HEADER_LENGTH] == m[..STUN_HEADER_LENGTH]
      && (IsCommand(m) ==> IsCommand(r))
  {
    var r := m[..|m| - 4] + value;
    assert forall i :: 0 <= i < |m| - 4 ==> r[i] == m[i];
    ListsReplaced(m, STUN_HEADER_LENGTH, attrs, a, value);
    assert r[4..8] == m[4..8];
  }

  lemma {:induction false} ListsReplaced(m: seq<byte>, at: nat, attrs: seq<Attr>, a: Attr, value: seq<byte>)
    requires Lists(m, at, attrs + [a]) && |a.value| == |value| == 4 && |m| >= 4
    ensures |m| >= at + 8 && Lists(m[..|m| - 4] + value, at, attrs + [a.(value := value)])
    decreases |attrs|
  {
    var r := m[..|m| - 4] + value;
    var all, all1 := attrs + [a], attrs + [a.(value := value)];
    if attrs == [] {
      assert all1[1..] == [] && all[1..] == [];
    } else {
      var next := at + 4 + Padded(|attrs[0].value|);
      assert all[1..] == attrs[1..] + [a] && all1[1..] == attrs[1..] + [a.(value := value)];
      ListsReplaced(m, next, attrs[1..], a, value);
      assert r[at + 4..at + 4 + |attrs[0].value|] == m[at + 4..at + 4 + |attrs[0].value|];
    }
  }

  /** stun_is_command_message_full_check_str. */
  method FullCheck(m: seq<byte>, mustCheck: bool) returns (ok: bool)
    ensures ok == Accepted(m, mustCheck)
  {
    hide Checksum, Put32;
    if !IsCommand(m) { return false; }
    var at := FirstByType(m, STUN_ATTRIBUTE_FINGERPRINT);
    if at == None {
      if MethodOf(Get16(m, 0)) == STUN_METHOD_BINDING { return true; }
      return !mustCheck;
    }
    if Get16(m, at.value + 2) != 4 { return false; }
    var crc := NsCrc32(m[..at.value]);
    ok := m[at.value + 4..at.value + 8] == Put32(crc ^ FINGERPRINT_XOR);
  }

  predicate Accepted(m: seq<byte>, mustCheck: bool) {
    && IsCommand(m)
    && match FirstOf(m, First(m), STUN_ATTRIBUTE_FINGERPRINT)
       case None => MethodOf(Get16(m, 0)) == STUN_METHOD_BINDING || !mustCheck
       case Some(at) => Get16(m, at + 2) == 4 && m[at + 4..at + 8] == FingerprintOf(m[..at])
  }

  /** The first attribute of a type, when it is the last of all. */
  lemma {:induction false} FirstIsLast(m: seq<byte>, at: nat, attrs: seq<Attr>, a: Attr)
    requires MessageLen(m) == Some(|m|) && STUN_HEADER_LENGTH <= at && Lists(m, at, attrs + [a])
    requires forall i :: 0 <= i < |attrs| ==> attrs[i].attrType != a.attrType
    ensures |m| >= 4 + Padded(|a.value|) && Inside(m, at)
    ensures FirstOf(m, Some(at), a.attrType) == Some(|m| - 4 - Padded(|a.value|))
    decreases |attrs|
  {
    WalkFinds(m, at, attrs + [a]);
    if attrs == [] {
      assert (attrs + [a])[1..] == [];
    } else {
      ListsNext(m, at, attrs + [a]);
      assert (attrs + [a])[1..] == attrs[1..] + [a];
      FirstIsLast(m, at + 4 + Padded(|attrs[0].value|), attrs[1..], a);
    }
  }

  /** A command message without a fingerprint that gets one is accepted, checked or not. */
  lemma FingerprintAccepted(m: seq<byte>, attrs: seq<Attr>, mustCheck: bool)
    requires |m| >= STUN_HEADER_LENGTH + 8 && IsCommand(m)
    requires Holds(m, attrs + [Attr(STUN_ATTRIBUTE_FINGERPRINT, FingerprintOf(m[..|m| - 8]))])
    requires forall i :: 0 <= i < |attrs| ==> attrs[i].attrType != STUN_ATTRIBUTE_FINGERPRINT
    ensures Accepted(m, mustCheck)
  {
    hide FingerprintOf;
    var a := Attr(STUN_ATTRIBUTE_FINGERPRINT, FingerprintOf(m[..|m| - 8]));
    var all := attrs + [a];
    FirstIsLast(m, STUN_HEADER_LENGTH, attrs, a);
    HoldsWalk(m, all);
    LastListed(m, STUN_HEADER_LENGTH, attrs, a);
  }

  lemma {:induction false} LastListed(m: seq<byte>, at: nat, attrs: seq<Attr>, a: Attr)
    requires Lists(m, at, attrs + [a]) && |a.value| == 4
    ensures |m| >= at + 8 && Get16(m, |m| - 6) == 4 && m[|m| - 4..] == a.value
    decreases |attrs|
  {
    if attrs == [] {
      assert (attrs + [a])[1..] == [];
    } else {
      assert (attrs + [a])[1..] == attrs[1..] + [a];
      LastListed(m, at + 4 + Padded(|attrs[0].value|), attrs[1..], a);
    }
  }

  /** From end to end: a command message without a fingerprint, given one, passes the full check,
      when there is room for it. */
  method SignAndCheck(buf: array<byte>, len: nat, ghost attrs: seq<Attr>, mustCheck: bool) returns (newLen: nat,
      ok: bool)
    requires buf.Length >= MAX_STUN_MESSAGE_SIZE && len < MAX_STUN_MESSAGE_SIZE
    requires Holds(buf[..len], attrs) && IsCommand(buf[..len])
    requires forall i :: 0 <= i < |attrs| ==> attrs[i].attrType != STUN_ATTRIBUTE_FINGERPRINT
    modifies buf
    ensures len + 8 < MAX_STUN_MESSAGE_SIZE ==> ok && newLen == len + 8
  {
    hide Holds, IsCommand, Accepted, FingerprintOf;
    newLen := AddFingerprint(buf, len, attrs);
    ok := FullCheck(buf[..newLen], mustCheck);
    if len + 8 < MAX_STUN_MESSAGE_SIZE {
      assert buf[..newLen][..len] == buf[..len];
      FingerprintAccepted(buf[..newLen], attrs, mustCheck);
    }
  }
}
