/** STUN over a stream: command messages and channel data, one after the other, told apart and
    measured by stun_get_message_len_str. */
module StunFraming {
  import opened Basics
  import opened StunAttributes

  const WORD := 0x1_0000

  // ---- Channel messages ----

  /** stun_init_channel_message_str: the header, and the length with or without padding. */
  method InitChannel(buf: array<byte>, number: u16, length: int, padding: bool) returns (r: int, len: nat)
    requires buf.Length >= MAX_STUN_MESSAGE_SIZE
    modifies buf
    ensures r == if length < 0 || 4 + length > MAX_STUN_MESSAGE_SIZE then -1 else 0
    ensures r == -1 ==> buf[..] == old(buf[..])
    ensures r == 0 ==>
      len == 4 + (if padding then Padded(length) else length) && buf[..4] == ChannelHeader(number, length)
    ensures r == 0 ==> buf[4..] == old(buf[4..])
  {
    len := 0;
    if length < 0 || MAX_STUN_MESSAGE_SIZE < 4 + length { return -1, 0; }
    var rlen := length % WORD;
    ghost var was := buf[..];
    Copy(buf, 0, Put16(number));
    Copy(buf, 2, Put16(length % WORD));
    if padding && rlen % 4 != 0 { rlen := (rlen / 4 + 1) * 4 % WORD; }
    len := 4 + rlen;
    r := 0;
    assert buf[..4] == Put16(number) + Put16(length % WORD);
    assert buf[4..] == buf[..][4..];
  }

  function ChannelHeader(number: u16, length: u16): (b: seq<byte>)
    ensures |b| == 4 && Get16(b, 0) == number && Get16(b, 2) == length
  {
    Put16(number) + Put16(length)
  }

  /** stun_is_channel_message_str: the channel's number and the unpadded length. */
  method IsChannel(b: seq<byte>, mandatoryPadding: bool) returns (r: Option<(u16, nat)>)
    ensures r == ChannelOf(b, mandatoryPadding)
  {
    if |b| < 4 { return None; }
    var chn := Get16(b, 0);
    if !ValidChannel(chn) { return None; }
    var blen := |b|;
    if blen > WORD - 1 { blen := WORD - 1; }
    var actual := blen - 4;
    var header := Get16(b, 2);
    if header > actual { return None; }
    if header != actual {
      if actual % 4 != 0 {
        if mandatoryPadding { return None; }
        if actual < header || header == 0 { return None; }
        if actual - header > 3 { return None; }
      }
    }
    r := Some((chn, header + 4));
  }

  function ChannelOf(b: seq<byte>, mandatoryPadding: bool): Option<(u16, nat)> {
    if |b| < 4 || !ValidChannel(Get16(b, 0)) then None
    else
      var actual := (if |b| < WORD then |b| else WORD - 1) - 4;
      var header := Get16(b, 2);
      var near := !mandatoryPadding && 0 < header && actual - header <= 3;
      if header == actual || (header < actual && (actual % 4 == 0 || near))
      then Some((Get16(b, 0), header + 4)) else None
  }

  /** Whatever is built is recognised: number and length come back, padded or not. */
  lemma ChannelRoundTrip(number: u16, length: nat, body: seq<byte>, padding: bool, mandatoryPadding: bool)
    requires ValidChannel(number) && 4 + length <= MAX_STUN_MESSAGE_SIZE
    requires |body| == if padding then Padded(length) else length
    ensures ChannelOf(ChannelHeader(number, length) + body, mandatoryPadding) == Some((number, length + 4))
  {
    var h := ChannelHeader(number, length);
    var b := h + body;
    assert b[0] == h[0] && b[1] == h[1] && b[2] == h[2] && b[3] == h[3];
  }

  // ---- The length of what comes first in a stream ----

  /** The tests that stun_get_message_len_str makes for a command message, before its length. */
  predicate LooksLikeCommand(b: seq<byte>) {
    && |b| >= STUN_HEADER_LENGTH
    && !ValidChannel(Get16(b, 0))
    && b[0] / 64 == 0
    && b[4..8] == MAGIC_COOKIE
    && Get16(b, 2) % 4 == 0
  }

  /** stun_get_message_len_str: the length to take off the stream and the length without padding.
      `http` is what the test for an HTTP request answers.  The sums are of sixteen bits. */
  method GetMessageLen(b: seq<byte>, padding: bool, http: int) returns (r: Option<(nat, nat)>)
    ensures r == LenOf(b, padding, http)
  {
    if b == [] { return None; }
    if LooksLikeCommand(b) {
      var len := (Get16(b, 2) + STUN_HEADER_LENGTH) % WORD;
      if len <= |b| { return Some((len, len)); }
    }
    if http > 0 && http <= |b| { return Some((http, http)); }
    if |b| >= 4 && ValidChannel(Get16(b, 0)) {
      var bret := (4 + Get16(b, 2)) % WORD;
      var appLen := bret;
      if padding && bret % 4 != 0 { bret := (bret / 4 + 1) * 4 % WORD; }
      if bret <= |b| { return Some((bret, appLen)); }
    }
    r := None;
  }

  function LenOf(b: seq<byte>, padding: bool, http: int): Option<(nat, nat)> {
    if LooksLikeCommand(b) && (Get16(b, 2) + STUN_HEADER_LENGTH) % WORD <= |b| then
      Some(((Get16(b, 2) + STUN_HEADER_LENGTH) % WORD, (Get16(b, 2) + STUN_HEADER_LENGTH) % WORD))
    else if 0 < http <= |b| then Some((http, http))
    else if |b| >= 4 && ValidChannel(Get16(b, 0)) then
      var app := (4 + Get16(b, 2)) % WORD;
      var full := if padding then Padded(app) % WORD else app;
      if full <= |b| then Some((full, app)) else None
    else None
  }

  datatype Frame = Command(message: seq<byte>) | Channel(number: u16, data: seq<byte>, pad: seq<byte>)

  predicate FrameOk(f: Frame, padding: bool) {
    match f
    case Command(m) => IsCommand(m)
    case Channel(number, data, pad) =>
      ValidChannel(number) && |data| < WORD && |pad| == if padding then Padded(|data|) - |data| else 0
  }

  function Bytes(f: Frame): seq<byte> {
    match f
    case Command(m) => m
    case Channel(number, data, pad) => ChannelHeader(number, |data| % WORD) + data + pad
  }

  /** The length without padding. */
  function AppLen(f: Frame): nat {
    match f
    case Command(m) => |m|
    case Channel(_, data, _) => 4 + |data|
  }

  /** Declining: not HTTP, or not all there yet. */
  predicate Declines(http: int, b: seq<byte>) {
    http <= 0 || http > |b|
  }

  /** A frame in front of anything is measured right exactly when its length fits sixteen bits. */
  lemma MeasuredIff(f: Frame, rest: seq<byte>, padding: bool, http: int)
    requires FrameOk(f, padding) && Declines(http, Bytes(f) + rest)
    ensures LenOf(Bytes(f) + rest, padding, http) == Some((|Bytes(f)|, AppLen(f))) <==> |Bytes(f)| < WORD
  {
    hide LenOf, Get16, ChannelHeader, LooksLikeCommand, IsCommand;
    match f
    case Command(m) =>
      CommandFront(m, rest);
      CommandLen(m + rest, |m|, padding, http);
    case Channel(number, data, pad) =>
      ChannelFront(number, data, pad + rest);
      assert Bytes(f) + rest == ChannelHeader(number, |data|) + data + (pad + rest);
      ChannelLen(Bytes(f) + rest, |data|, padding, http);
  }

  lemma CommandFront(m: seq<byte>, rest: seq<byte>)
    requires IsCommand(m)
    ensures LooksLikeCommand(m + rest) && Get16(m + rest, 2) == |m| - STUN_HEADER_LENGTH
  {
    var b := m + rest;
    assert b[0] == m[0] && b[1] == m[1] && b[2] == m[2] && b[3] == m[3] && b[4..8] == m[4..8];
  }

  lemma CommandLen(b: seq<byte>, n: nat, padding: bool, http: int)
    requires LooksLikeCommand(b) && Get16(b, 2) + STUN_HEADER_LENGTH == n <= |b|
    ensures LenOf(b, padding, http) == Some((n, n)) <==> n < WORD
  {
    hide Get16;
  }

  lemma ChannelFront(number: u16, data: seq<byte>, rest: seq<byte>)
    requires |data| < WORD
    ensures var b := ChannelHeader(number, |data|) + data + rest;
      Get16(b, 0) == number && Get16(b, 2) == |data|
  {
    hide ChannelHeader;
    var h := ChannelHeader(number, |data|);
    var b := h + data + rest;
    assert b[0] == h[0] && b[1] == h[1] && b[2] == h[2] && b[3] == h[3];
  }

  lemma ChannelLen(b: seq<byte>, n: nat, padding: bool, http: int)
    requires |b| >= 4 && ValidChannel(Get16(b, 0)) && Get16(b, 2) == n && Declines(http, b)
    requires 4 + (if padding then Padded(n) else n) <= |b|
    ensures var total := 4 + (if padding then Padded(n) else n);
      LenOf(b, padding, http) == Some((total, 4 + n)) <==> total < WORD
  {
    hide Get16;
    var total := 4 + (if padding then Padded(n) else n);
    assert 4 + Padded(n) == Padded(4 + n);
  }

  /** A command message is measured whatever the HTTP test would say. */
  lemma CommandMeasured(m: seq<byte>, rest: seq<byte>, padding: bool, http: int)
    requires IsCommand(m) && |m| < WORD
    ensures LenOf(m + rest, padding, http) == Some((|m|, |m|))
  {
    hide LenOf;
    CommandFront(m, rest);
    CommandLen(m + rest, |m|, padding, http);
  }

  // ---- Whole streams ----

  function Stream(fs: seq<Frame>): seq<byte> {
    if fs == [] then [] else Bytes(fs[0]) + Stream(fs[1..])
  }

  /** Frames such as the library builds, and a stream in which the HTTP test never sees a request
      where channel data starts. */
  ghost predicate Framed(fs: seq<Frame>, padding: bool, http: seq<byte> -> int) {
    && (forall i :: 0 <= i < |fs| ==> FrameOk(fs[i], padding) && |Bytes(fs[i])| < WORD)
    && forall i {:trigger fs[i..]} :: 0 <= i < |fs| && fs[i].Channel? ==>
         Declines(http(Stream(fs[i..])), Stream(fs[i..]))
  }

  lemma {:induction false} FramedRest(fs: seq<Frame>, padding: bool, http: seq<byte> -> int)
    requires fs != [] && Framed(fs, padding, http)
    ensures Framed(fs[1..], padding, http)
  {
    var r := fs[1..];
    forall i | 0 <= i < |r| && r[i].Channel? ensures Declines(http(Stream(r[i..])), Stream(r[i..])) {
      assert r[i..] == fs[i + 1..];
    }
  }

  /** Taking messages off a stream by their measured lengths recovers every boundary and every
      unpadded length. */
  method Split(stream: seq<byte>, padding: bool, http: seq<byte> -> int, ghost fs: seq<Frame>) returns (lens: seq<(nat,
      nat)>)
    requires Framed(fs, padding, http) && stream == Stream(fs)
    ensures |lens| == |fs| && forall i :: 0 <= i < |fs| ==> lens[i] == (|Bytes(fs[i])|, AppLen(fs[i]))
  {
    hide LenOf, Framed, FrameOk, Bytes;
    lens := [];
    var left := stream;
    ghost var todo := fs;
    while left != []
      invariant |lens| + |todo| == |fs| && todo == fs[|lens|..] && Framed(todo, padding, http) && left == Stream(todo)
      invariant forall i :: 0 <= i < |lens| ==> i < |fs| && lens[i] == (|Bytes(fs[i])|, AppLen(fs[i]))
      decreases |left|
    {
      FrontMeasured(todo, padding, http);
      var r := GetMessageLen(left, padding, http(left));
      lens := lens + [r.value];
      left := left[r.value.0..];
      FramedRest(todo, padding, http);
      todo := todo[1..];
    }
    if todo != [] { FrontMeasured(todo, padding, http); }
  }

  lemma FrontMeasured(fs: seq<Frame>, padding: bool, http: seq<byte> -> int)
    requires fs != [] && Framed(fs, padding, http)
    ensures |Bytes(fs[0])| > 0 && Stream(fs) == Bytes(fs[0]) + Stream(fs[1..])
    ensures LenOf(Stream(fs), padding, http(Stream(fs))) == Some((|Bytes(fs[0])|, AppLen(fs[0])))
  {
    hide LenOf;
    var f := fs[0];
    assert fs[0..] == fs;
    if f.Command? {
      CommandMeasured(f.message, Stream(fs[1..]), padding, http(Stream(fs)));
    } else {
      MeasuredIff(f, Stream(fs[1..]), padding, http(Stream(fs)));
    }
  }
}
