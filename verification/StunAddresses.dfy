/** Transport addresses: the public/private table, the XOR coding and the address attributes. */
module StunAddresses {
  import opened Basics
  import opened StunAttributes
  import opened StunMessages

  datatype Family = Unspec | Inet | Inet6 | Foreign

  /** ioa_addr: port and address are bytes in network order; an address of no family is read as
      IPv4. */
  datatype Addr = Addr(family: Family, port: seq<byte>, ip: seq<byte>)

  predicate Proper(a: Addr) {
    |a.port| == 2 && |a.ip| == if a.family == Inet6 then 16 else 4
  }

  predicate Internet(a: Addr) {
    a.family == Inet || a.family == Inet6
  }

  /** addr_eq_no_port. */
  predicate SameHost(a: Addr, b: Addr) {
    a.family == b.family && Internet(a) && a.ip == b.ip
  }

  // ---- The public/private table ----

  /** addr_set_port with the port of another address. */
  function WithPort(a: Addr, b: Addr): Addr {
    if Internet(a) then a.(port := if Internet(b) then b.port else [0, 0]) else a
  }

  /** The two columns of the mapping table. */
  class AddressMap {
    var publics: seq<Addr>
    var privates: seq<Addr>

    ghost predicate Valid()
      reads this
    {
      |publics| == |privates| && TableOk(publics) && TableOk(privates)
    }

    constructor ()
      ensures Valid() && publics == [] && privates == []
    {
      publics, privates := [], [];
    }

    /** ioa_addr_add_mapping. */
    method Add(apub: Addr, apriv: Addr)
      requires Valid() && Proper(apub) && Internet(apub) && Proper(apriv) && Internet(apriv)
      modifies this
      ensures Valid() && publics == old(publics) + [apub] && privates == old(privates) + [apriv]
    {
      publics := publics + [apub];
      privates := privates + [apriv];
    }

    /** map_addr_from_public_to_private. */
    method ToPrivate(a: Addr) returns (r: Addr)
      requires Valid()
      ensures r == Mapped(a, publics, privates)
    {
      var i := 0;
      while i < |publics|
        invariant 0 <= i <= |publics| && forall j :: 0 <= j < i ==> !SameHost(a, publics[j])
      {
        if SameHost(a, publics[i]) {
          MatchAt(a, publics, i);
          return WithPort(privates[i], a);
        }
        i := i + 1;
      }
      MatchAt(a, publics, i);
      r := a;
    }

    /** map_addr_from_private_to_public. */
    method ToPublic(a: Addr) returns (r: Addr)
      requires Valid()
      ensures r == Mapped(a, privates, publics)
    {
      var i := 0;
      while i < |privates|
        invariant 0 <= i <= |privates| && forall j :: 0 <= j < i ==> !SameHost(a, privates[j])
      {
        if SameHost(a, privates[i]) {
          MatchAt(a, privates, i);
          return WithPort(publics[i], a);
        }
        i := i + 1;
      }
      MatchAt(a, privates, i);
      r := a;
    }
  }

  predicate TableOk(column: seq<Addr>) {
    forall i :: 0 <= i < |column| ==> Proper(column[i]) && Internet(column[i])
  }

  /** The first row of a column with this host; the length of the column if there is none. */
  function Match(a: Addr, column: seq<Addr>): (i: nat)
    ensures i <= |column|
    ensures i < |column| ==> SameHost(a, column[i])
    ensures forall j :: 0 <= j < i ==> !SameHost(a, column[j])
  {
    if column == [] || SameHost(a, column[0]) then 0
    else
      assert forall j :: 0 < j < |column| ==> column[j] == column[1..][j - 1];
      Match(a, column[1..]) + 1
  }

  lemma MatchAt(a: Addr, column: seq<Addr>, i: nat)
    requires i <= |column| && (i < |column| ==> SameHost(a, column[i]))
    requires forall j :: 0 <= j < i ==> !SameHost(a, column[j])
    ensures Match(a, column) == i
  {
    hide Match;
    assert Match(a, column) <= i;
  }

  /** From one column to the other. */
  function Mapped(a: Addr, source: seq<Addr>, dest: seq<Addr>): Addr
    requires |source| == |dest|
  {
    var i := Match(a, source);
    if i < |source| then WithPort(dest[i], a) else a
  }

  /** When the way to the public side and back ends where it began: the address is in neither
      column, or the first row with its public address is a row of its own. */
  predicate ComesBack(a: Addr, publics: seq<Addr>, privates: seq<Addr>)
    requires |publics| == |privates|
  {
    var i := Match(a, privates);
    if i == |privates| then Match(a, publics) == |publics|
    else
      var j := Match(publics[i], publics);
      j < |publics| && SameHost(privates[j], a)
  }

  lemma MapRoundTripIff(a: Addr, publics: seq<Addr>, privates: seq<Addr>)
    requires |publics| == |privates| && TableOk(publics) && TableOk(privates) && Proper(a) && Internet(a)
    ensures Mapped(Mapped(a, privates, publics), publics, privates) == a <==> ComesBack(a, publics, privates)
  {
    hide Match;
    var i := Match(a, privates);
    if i < |privates| {
      var p := WithPort(publics[i], a);
      SameMatch(p, publics[i], publics);
      var j := Match(publics[i], publics);
      assert j <= i;
    }
  }

  /** Which row is found does not depend on the port. */
  lemma SameMatch(p: Addr, q: Addr, column: seq<Addr>)
    requires p.family == q.family && p.ip == q.ip
    ensures Match(p, column) == Match(q, column)
  {
    hide Match;
    MatchAt(p, column, Match(q, column));
  }

  ghost predicate DuplicateFree(column: seq<Addr>) {
    forall i, j :: 0 <= i < j < |column| ==> !SameHost(column[i], column[j])
  }

  /** With no duplicates, every address that is mapped or not public comes back. */
  lemma DuplicateFreeComesBack(a: Addr, publics: seq<Addr>, privates: seq<Addr>)
    requires |publics| == |privates| && TableOk(publics) && DuplicateFree(publics)
    requires Match(a, privates) < |privates| || Match(a, publics) == |publics|
    ensures ComesBack(a, publics, privates)
  {
    hide Match;
    var i := Match(a, privates);
    if i < |privates| {
      var j := Match(publics[i], publics);
      assert SameHost(publics[i], publics[j]) && j <= i;
    }
  }

  // ---- The XOR coding ----

  function Pow2(n: nat): nat {
    if n == 0 then 1 else 2 * Pow2(n - 1)
  }

  /** Exclusive or of the n lowest bits. */
  function XorBits(x: nat, y: nat, n: nat): (r: nat)
    ensures r < Pow2(n)
  {
    if n == 0 then 0 else (x % 2 + y % 2) % 2 + 2 * XorBits(x / 2, y / 2, n - 1)
  }

  function XorByte(x: byte, y: byte): byte {
    assert Pow2(8) == 256 by { EightBits(); }
    XorBits(x, y, 8)
  }

  lemma EightBits()
    ensures Pow2(8) == 256
  {
    assert Pow2(4) == 16;
  }

  lemma {:induction false} XorBitsTwice(x: nat, y: nat, n: nat)
    requires x < Pow2(n)
    ensures XorBits(XorBits(x, y, n), y, n) == x
    decreases n
  {
    if n > 0 {
      hide XorBits;
      var q := XorBits(x / 2, y / 2, n - 1);
      var b := (x % 2 + y % 2) % 2;
      XorUnfolds(x, y, n);
      XorUnfolds(b + 2 * q, y, n);
      HalfOf(b, q);
      Parity(x % 2, y % 2);
      XorBitsTwice(x / 2, y / 2, n - 1);
    }
  }

  lemma XorUnfolds(x: nat, y: nat, n: nat)
    requires n > 0
    ensures XorBits(x, y, n) == (x % 2 + y % 2) % 2 + 2 * XorBits(x / 2, y / 2, n - 1)
  {
  }

  lemma Parity(a: nat, b: nat)
    requires a < 2 && b < 2
    ensures ((a + b) % 2 + b) % 2 == a
  {
  }

  lemma HalfOf(b: nat, q: nat)
    requires b < 2
    ensures (b + 2 * q) % 2 == b && (b + 2 * q) / 2 == q
  {
  }

  lemma XorByteTwice(x: byte, y: byte)
    ensures XorByte(XorByte(x, y), y) == x
  {
    EightBits();
    XorBitsTwice(x, y, 8);
  }

  /** Bytes with a key over them, when the attribute is XORed. */
  function Masked(s: seq<byte>, key: seq<byte>, xored: bool): (r: seq<byte>)
    requires |s| <= |key|
    ensures |r| == |s|
  {
    if xored then seq(|s|, i requires 0 <= i < |s| => XorByte(s[i], key[i])) else s
  }

  lemma MaskedTwice(s: seq<byte>, key: seq<byte>, xored: bool)
    requires |s| <= |key|
    ensures Masked(Masked(s, key, xored), key, xored) == s
  {
    forall i | 0 <= i < |s| ensures Masked(Masked(s, key, xored), key, xored)[i] == s[i] {
      XorByteTwice(s[i], key[i]);
    }
  }

  /** Cookie and transaction id make the key. */
  const KEY_SIZE := 16

  /** stun_addr_encode's result. */
  function Encoded(a: Addr, xored: bool, key: seq<byte>): Option<seq<byte>>
    requires Proper(a) && |key| == KEY_SIZE
  {
    match a.family
    case Foreign => None
    case Inet6 => Some([0, 2] + Masked(a.port, key, xored) + Masked(a.ip, key, xored))
    case _ => Some([0, 1] + Masked(a.port, key, xored) + Masked(a.ip, key, xored))
  }

  /** stun_addr_decode's result. */
  function Decoded(c: seq<byte>, xored: bool, key: seq<byte>): (r: Option<Addr>)
    requires |key| == KEY_SIZE
    ensures r.Some? ==> Proper(r.value) && Internet(r.value)
  {
    if |c| < 8 || c[0] != 0 then None
    else if c[1] == 1 then
      if |c| == 8 then Some(Addr(Inet, Masked(c[2..4], key, xored), Masked(c[4..8], key, xored))) else None
    else if c[1] == 2 then
      if |c| == 20 then Some(Addr(Inet6, Masked(c[2..4], key, xored), Masked(c[4..20], key, xored))) else None
    else None
  }

  /** One byte after the other, as the code does it. */
  method MaskBytes(s: seq<byte>, key: seq<byte>, xored: bool) returns (r: seq<byte>)
    requires |s| <= |key|
    ensures r == Masked(s, key, xored)
  {
    if !xored { return s; }
    r := [];
    var i := 0;
    while i < |s|
      invariant 0 <= i <= |s| && |r| == i && forall k :: 0 <= k < i ==> r[k] == XorByte(s[k], key[k])
    {
      r := r + [XorByte(s[i], key[i])];
      i := i + 1;
    }
  }

  /** stun_addr_encode. */
  method AddrEncode(a: Addr, xored: bool, cookie: seq<byte>, tid: seq<byte>) returns (r: Option<seq<byte>>)
    requires Proper(a) && |cookie| == 4 && |tid| == TID_SIZE
    ensures r == Encoded(a, xored, cookie + tid)
  {
    hide Masked;
    var key := cookie + tid;
    if a.family == Inet || a.family == Unspec {
      var port := MaskBytes(a.port, key, xored);
      var ip := MaskBytes(a.ip, key, xored);
      r := Some([0, 1] + port + ip);
    } else if a.family == Inet6 {
      var port := MaskBytes(a.port, key, xored);
      var ip := MaskBytes(a.ip, key, xored);
      r := Some([0, 2] + port + ip);
    } else {
      r := None;
    }
  }

  /** stun_addr_decode. */
  method AddrDecode(c: seq<byte>, xored: bool, cookie: seq<byte>, tid: seq<byte>) returns (r: Option<Addr>)
    requires |cookie| == 4 && |tid| == TID_SIZE
    ensures r == Decoded(c, xored, cookie + tid)
  {
    hide Masked;
    if |c| < 8 || c[0] != 0 { return None; }
    var family;
    if c[1] == 1 { family := Inet; } else if c[1] == 2 { family := Inet6; } else { return None; }
    if family == Inet && |c| != 8 { return None; }
    if family == Inet6 && |c| != 20 { return None; }
    var port := MaskBytes(c[2..4], cookie + tid, xored);
    var ip := MaskBytes(c[4..|c|], cookie + tid, xored);
    r := Some(Addr(family, port, ip));
  }

  /** Decoding undoes encoding exactly for internet addresses; one of no family comes back as IPv4. */
  lemma CodeRoundTripIff(a: Addr, xored: bool, key: seq<byte>)
    requires Proper(a) && |key| == KEY_SIZE
    ensures Encoded(a, xored, key).Some? && Decoded(Encoded(a, xored, key).value, xored, key) == Some(a) <==>
      Internet(a)
    ensures a.family == Unspec ==>
      Encoded(a, xored, key).Some? && Decoded(Encoded(a, xored, key).value, xored, key) == Some(a.(family := Inet))
  {
    hide Masked;
    if a.family != Foreign {
      MaskedTwice(a.port, key, xored);
      MaskedTwice(a.ip, key, xored);
      var c := Encoded(a, xored, key).value;
      assert c[2..4] == Masked(a.port, key, xored) && c[4..|c|] == Masked(a.ip, key, xored);
    }
  }

  // ---- Address attributes ----

  /** The attribute types whose addresses are XORed: mapped, peer and relayed. */
  predicate Xored(attrType: u16) {
    attrType == 0x0020 || attrType == 0x0012 || attrType == 0x0016
  }

  /** The key of a message: its cookie must be the magic one, its transaction id follows. */
  function KeyOf(m: seq<byte>): (k: seq<byte>)
    requires |m| >= STUN_HEADER_LENGTH
    ensures |k| == KEY_SIZE
  {
    MAGIC_COOKIE + m[8..STUN_HEADER_LENGTH]
  }

  /** stun_attr_add_addr_str. */
  method AddAddr(buf: array<byte>, len: nat, attrType: u16, a: Addr, table: AddressMap,
      ghost attrs: seq<Attr>) returns (r: int, newLen: nat)
    requires buf.Length >= MAX_STUN_MESSAGE_SIZE && len < MAX_STUN_MESSAGE_SIZE && Holds(buf[..len], attrs)
    requires table.Valid() && Proper(a)
    modifies buf
    ensures len >= STUN_HEADER_LENGTH
    ensures
      var code := Encoded(Mapped(a, table.privates, table.publics), Xored(attrType), KeyOf(old(buf[..len])));
      && r == (if code.Some? && len + 4 + Padded(|code.value|) < MAX_STUN_MESSAGE_SIZE then 0 else -1)
      && (r == -1 ==> newLen == len && buf[..] == old(buf[..]))
      && (r == 0 ==>
            && newLen == len + 4 + Padded(|code.value|) < MAX_STUN_MESSAGE_SIZE
            && Holds(buf[..newLen], attrs + [Attr(attrType, code.value)])
            && KeyOf(buf[..newLen]) == KeyOf(old(buf[..len])))
  {
    hide Encoded, Holds, Match, Padded;
    HoldsLen(buf[..len], attrs);
    var tid := buf[8..STUN_HEADER_LENGTH];
    assert tid == buf[..len][8..STUN_HEADER_LENGTH];
    var public := table.ToPublic(a);
    MappedProper(a, table.privates, table.publics);
    var code := AddrEncode(public, Xored(attrType), MAGIC_COOKIE, tid);
    if code == None { return -1, len; }
    r, newLen := AddTo(buf, len, Attr(attrType, code.value), attrs);
    if r == 0 {
      assert buf[8..STUN_HEADER_LENGTH] == buf[4..STUN_HEADER_LENGTH][4..] == tid;
      assert buf[..newLen][8..STUN_HEADER_LENGTH] == tid;
    }
  }

  lemma MappedProper(a: Addr, source: seq<Addr>, dest: seq<Addr>)
    requires |source| == |dest| && TableOk(dest) && Proper(a)
    ensures Proper(Mapped(a, source, dest))
  {
    hide Match;
  }

  /** addr_any_no_port. */
  predicate AnyHost(a: Addr) {
    Internet(a) ==> forall i :: 0 <= i < |a.ip| ==> a.ip[i] == 0
  }

  /** What stands in for an unspecified address: the default, if that is one, with the port kept. */
  function Defaulted(a: Addr, default: Option<Addr>): Addr {
    if default.Some? && AnyHost(a) && !AnyHost(default.value) then WithPort(default.value, a) else a
  }

  /** stun_attr_get_addr_str: the attribute at `at`. */
  method GetAddr(m: seq<byte>, at: nat, table: AddressMap, default: Option<Addr>) returns (r: Option<Addr>)
    requires Inside(m, at) && table.Valid()
    ensures r == AddrOf(AttrAt(m, at), KeyOf(m), table.publics, table.privates, default)
  {
    hide Decoded, Match, AnyHost;
    if Get16(m, at + 2) < 1 { return None; }
    var c := m[at + 4..at + 4 + Get16(m, at + 2)];
    var public := AddrDecode(c, Xored(Get16(m, at)), MAGIC_COOKIE, m[8..STUN_HEADER_LENGTH]);
    if public == None { return None; }
    var private := table.ToPrivate(public.value);
    if default.Some? && AnyHost(private) && !AnyHost(default.value) {
      private := WithPort(default.value, private);
    }
    r := Some(private);
  }

  /** What an address attribute says to a reader. */
  function AddrOf(attr: Attr, key: seq<byte>, publics: seq<Addr>, privates: seq<Addr>,
      default: Option<Addr>): Option<Addr>
    requires |key| == KEY_SIZE && |publics| == |privates|
  {
    if attr.value == [] then None
    else
      match Decoded(attr.value, Xored(attr.attrType), key)
      case None => None
      case Some(p) => Some(Defaulted(Mapped(p, publics, privates), default))
  }

  /** Address and port written by AddAddr read back the same exactly when the table takes the
      address back to itself; with a default, an unspecified address reads as the default. */
  lemma AddressRoundTripIff(a: Addr, attrType: u16, key: seq<byte>, publics: seq<Addr>, privates: seq<Addr>,
      default: Option<Addr>)
    requires Proper(a) && Internet(a) && |key| == KEY_SIZE
    requires |publics| == |privates| && TableOk(publics) && TableOk(privates)
    ensures Proper(Mapped(a, privates, publics))
    ensures var code := Encoded(Mapped(a, privates, publics), Xored(attrType), key);
      && code.Some?
      && (AddrOf(Attr(attrType, code.value), key, publics, privates, None) == Some(a) <==>
            ComesBack(a, publics, privates))
      && (ComesBack(a, publics, privates) ==>
            AddrOf(Attr(attrType, code.value), key, publics, privates, default) == Some(Defaulted(a, default)))
  {
    hide Match, Masked, Decoded, Encoded, ComesBack, AnyHost;
    MappedProper(a, privates, publics);
    var p := Mapped(a, privates, publics);
    CodeRoundTripIff(p, Xored(attrType), key);
    EncodedLong(p, Xored(attrType), key);
    MapRoundTripIff(a, publics, privates);
  }

  /** From end to end: an address added to a message reads back from its last attribute, when the
      table takes it back to itself and there is room. */
  method AddThenGet(buf: array<byte>, len: nat, attrType: u16, a: Addr, table: AddressMap, ghost attrs: seq<Attr>)
    returns (r: int, newLen: nat, got: Option<Addr>)
    requires buf.Length >= MAX_STUN_MESSAGE_SIZE && len < MAX_STUN_MESSAGE_SIZE && Holds(buf[..len], attrs)
    requires table.Valid() && Proper(a) && Internet(a)
    modifies buf
    ensures r == 0 ==> (got == Some(a) <==> ComesBack(a, table.publics, table.privates))
  {
    hide Holds, Encoded, Match, Mapped, ComesBack, AddrOf, Padded, Inside;
    got := None;
    r, newLen := AddAddr(buf, len, attrType, a, table, attrs);
    if r == 0 {
      MappedProper(a, table.privates, table.publics);
      ghost var mapped := Mapped(a, table.privates, table.publics);
      ghost var code := Encoded(mapped, Xored(attrType), KeyOf(old(buf[..len]))).value;
      LastPlace(buf[..newLen], attrs, Attr(attrType, code));
      AddressRoundTripIff(a, attrType, KeyOf(buf[..newLen]), table.publics, table.privates, None);
      got := GetAddr(buf[..newLen], len, table, None);
    }
  }

  /** The last attribute of a message, at its place. */
  lemma LastPlace(m: seq<byte>, attrs: seq<Attr>, a: Attr)
    requires Holds(m, attrs + [a])
    ensures var at := |m| - 4 - Padded(|a.value|);
      at >= STUN_HEADER_LENGTH && Inside(m, at) && AttrAt(m, at) == a
  {
    hide Padded;
    LastListedAt(m, STUN_HEADER_LENGTH, attrs, a);
  }

  lemma {:induction false} LastListedAt(m: seq<byte>, from: nat, attrs: seq<Attr>, a: Attr)
    requires Lists(m, from, attrs + [a])
    ensures var at := |m| - 4 - Padded(|a.value|);
      && at >= from && Get16(m, at) == a.attrType && Get16(m, at + 2) == |a.value|
      && m[at + 4..at + 4 + |a.value|] == a.value
    decreases |attrs|
  {
    if attrs == [] {
      assert (attrs + [a])[1..] == [];
    } else {
      assert (attrs + [a])[1..] == attrs[1..] + [a];
      LastListedAt(m, from + 4 + Padded(|attrs[0].value|), attrs[1..], a);
    }
  }

  lemma EncodedLong(a: Addr, xored: bool, key: seq<byte>)
    requires Proper(a) && |key| == KEY_SIZE
    ensures Encoded(a, xored, key).Some? ==> Encoded(a, xored, key).value != []
  {
  }
}
