/** Positions in an evbuffer and searches over it: the answers depend only on the flat
    contents, never on how the bytes are divided into chains. */
module Search {
  import opened Basics
  import opened Chains
  import opened Evbuffers

  const CR: byte := 13
  const LF: byte := 10

  /** struct evbuffer_ptr: the flat position, and the chain (None for NULL) and offset it falls in. */
  datatype Ptr = Ptr(pos: int, chain: Option<nat>, posInChain: nat)

  /** PTR_NOT_FOUND. */
  const NOT_FOUND := Ptr(-1, None, 0)

  /** `p` denotes flat position p.pos: inside a chain, at its end, or behind the last chain. */
  ghost predicate PtrAt(v: seq<Chain>, p: Ptr) {
    match p.chain
    case None => p.pos == |Flat(v)| && p.posInChain == 0
    case Some(i) => i < |v| && p.posInChain <= v[i].off && p.pos == |Flat(v[..i])| + p.posInChain
  }

  ghost predicate PtrOk(v: seq<Chain>, p: Ptr) {
    p == NOT_FOUND || PtrAt(v, p)
  }

  /** The byte at offset `o` of chain `i` is the flat byte at that position. */
  lemma {:induction false} ByteAt(v: seq<Chain>, i: nat)
    requires i < |v| && v[i].Ok()
    ensures |Flat(v[..i])| + v[i].off == |Flat(v[..i + 1])| <= |Flat(v)|
    ensures forall o :: 0 <= o < v[i].off ==> v[i].Data()[o] == Flat(v)[|Flat(v[..i])| + o]
  {
    hide Flat, Chain.Data;
    FlatAround(v, i);
    FlatPrefixLength(v, i + 1);
  }

  lemma PtrInRange(v: seq<Chain>, p: Ptr)
    requires PtrAt(v, p) && forall k :: 0 <= k < |v| ==> v[k].Ok()
    ensures 0 <= p.pos <= |Flat(v)|
  {
    hide Flat;
    if p.chain.Some? { ByteAt(v, p.chain.value); }
  }

  datatype How = Set | AddTo

  /** evbuffer_ptr_set: succeeds exactly for positions up to the total length. */
  method PtrSet(b: Evbuffer, p: Ptr, position: nat, how: How) returns (r: int, q: Ptr)
    requires b.Valid() && b.totalLen <= SIZE_MAX && PtrOk(b.chains, p)
    ensures how == Set ==> (r == 0 <==> position <= b.totalLen)
    ensures how == AddTo ==> (r == 0 <==> p.pos >= 0 && p.pos + position <= b.totalLen)
    ensures r == 0 || r == -1
    ensures r == 0 ==> PtrAt(b.chains, q) && q.pos == if how == Set then position else p.pos + position
    ensures r == 0 ==>
      if q.pos < b.totalLen then q.chain.Some? && q.posInChain < b.chains[q.chain.value].off else q.chain == None
    ensures r == -1 ==> q == NOT_FOUND || q == p
  {
    hide Flat, Chain.Data;
    var left, target, i, off := position, position, 0, 0;
    FlatEmpty(b.chains[..0]);
    if how == AddTo {
      if p.pos < 0 || SIZE_MAX - position < p.pos { return -1, p; }
      target := p.pos + position;
      i := if p.chain.Some? then p.chain.value else |b.chains|;
      off := p.posInChain;
    }
    assert b.chains[..|b.chains|] == b.chains;
    while i < |b.chains| && off + left >= b.chains[i].off
      invariant 0 <= i <= |b.chains| && |Flat(b.chains[..i])| + off + left == target && left >= 0 && off >= 0
      invariant if i < |b.chains| then off <= b.chains[i].off else off == 0
    {
      ByteAt(b.chains, i);
      left := left - (b.chains[i].off - off);
      i := i + 1;
      off := 0;
    }
    if i < |b.chains| {
      ByteAt(b.chains, i);
      return 0, Ptr(target, Some(i), off + left);
    } else if left == 0 {
      return 0, Ptr(target, None, 0);
    }
    return -1, NOT_FOUND;
  }

  /** `what` occurs in `s` at `p`. */
  predicate MatchAt(s: seq<byte>, what: seq<byte>, p: int) {
    0 <= p && p + |what| <= |s| && s[p..p + |what|] == what
  }

  /** A run of bytes inside a chain is a run of the flat contents. */
  lemma {:induction false} PieceAt(v: seq<Chain>, i: nat, off: nat, m: nat)
    requires i < |v| && v[i].Ok() && off + m <= v[i].off
    ensures |Flat(v[..i])| + off + m <= |Flat(v)|
    ensures v[i].Data()[off..off + m] == Flat(v)[|Flat(v[..i])| + off..|Flat(v[..i])| + off + m]
  {
    hide Flat, Chain.Data;
    ByteAt(v, i);
  }

  /** Comparing piecewise. */
  lemma {:induction false} MatchStep(s: seq<byte>, what: seq<byte>, p: nat, n: nat, m: nat)
    requires n + m <= |what| && p + |what| <= |s| && MatchAt(s, what[..n], p)
    ensures MatchAt(s, what[..n + m], p) <==> s[p + n..p + n + m] == what[n..n + m]
  {
    assert s[p..p + n + m] == s[p..p + n] + s[p + n..p + n + m];
    assert what[..n + m] == what[..n] + what[n..n + m];
  }

  lemma MatchPrefix(s: seq<byte>, what: seq<byte>, p: nat, n: nat)
    requires n <= |what| && MatchAt(s, what, p)
    ensures MatchAt(s, what[..n], p)
  {
    assert s[p..p + n] == s[p..p + |what|][..n];
  }

  /** evbuffer_ptr_memcmp, as far as its callers use it: zero or not. */
  method PtrEquals(b: Evbuffer, p: Ptr, mem: seq<byte>) returns (eq: bool)
    requires b.Valid() && b.totalLen <= SIZE_MAX && PtrAt(b.chains, p)
    ensures eq <==> MatchAt(b.Contents(), mem, p.pos)
  {
    hide Flat, Chain.Data, MatchAt;
    ghost var s := b.Contents();
    if SIZE_MAX - |mem| < p.pos || p.pos + |mem| > b.totalLen {
      NoMatchPastEnd(s, mem, p.pos);
      return false;
    }
    var i: nat := if p.chain.Some? then p.chain.value else |b.chains|;
    var off, n := p.posInChain, 0;
    assert b.chains[..|b.chains|] == b.chains;
    EmptyMatch(s, p.pos);
    assert mem[..0] == [];
    while n < |mem| && i < |b.chains|
      invariant i <= |b.chains| && 0 <= n <= |mem| && off >= 0
      invariant n < |mem| ==> |Flat(b.chains[..i])| + off == p.pos + n
      invariant if i < |b.chains| then off <= b.chains[i].off else off == 0
      invariant MatchAt(s, mem[..n], p.pos)
    {
      ByteAt(b.chains, i);
      var m := Min(|mem| - n, b.chains[i].off - off);
      PieceAt(b.chains, i, off, m);
      MatchStep(s, mem, p.pos, n, m);
      if b.chains[i].Data()[off..off + m] != mem[n..n + m] {
        if MatchAt(s, mem, p.pos) { MatchPrefix(s, mem, p.pos, n + m); }
        return false;
      }
      n := n + m;
      i := i + 1;
      off := 0;
    }
    assert mem[..|mem|] == mem;
    eq := true;
  }

  lemma EmptyMatch(s: seq<byte>, p: int)
    requires 0 <= p <= |s|
    ensures MatchAt(s, [], p)
  {
  }

  lemma NoMatchPastEnd(s: seq<byte>, what: seq<byte>, p: int)
    requires p + |what| > |s|
    ensures !MatchAt(s, what, p)
  {
  }

  /** memchr, and find_eol_char, over bytes `from` on. */
  method FindByte(s: seq<byte>, from: nat, cs: set<byte>) returns (r: Option<nat>)
    requires from <= |s|
    ensures r == None ==> forall k :: from <= k < |s| ==> s[k] !in cs
    ensures r.Some? ==> from <= r.value < |s| && s[r.value] in cs && forall k :: from <= k < r.value ==> s[k] !in cs
  {
    var k := from;
    while k < |s|
      invariant from <= k <= |s| && forall j :: from <= j < k ==> s[j] !in cs
    {
      if s[k] in cs { return Some(k); }
      k := k + 1;
    }
    r := None;
  }

  /** No occurrence of `what` starts at `from` or later, before `to`. */
  ghost predicate NoMatchIn(s: seq<byte>, what: seq<byte>, from: int, to: int) {
    forall p :: from <= p < to ==> !MatchAt(s, what, p)
  }

  /** No occurrence starting at `from` or later ends by `end`. */
  ghost predicate NoMatchWithin(s: seq<byte>, what: seq<byte>, from: int, end: int) {
    forall p :: from <= p && p + |what| <= end ==> !MatchAt(s, what, p)
  }

  /** Where the first byte is absent, nothing starts. */
  lemma NoFirstByte(s: seq<byte>, what: seq<byte>, from: int, mid: int, to: int)
    requires 0 <= mid <= to <= |s| && what != [] && NoMatchIn(s, what, from, mid)
    requires forall k :: mid <= k < to ==> s[k] != what[0]
    ensures NoMatchIn(s, what, from, to)
  {
    forall p | mid <= p < to ensures !MatchAt(s, what, p) {
      assert p + |what| <= |s| ==> s[p..p + |what|][0] == s[p];
    }
  }

  /** What a search from `from`, bounded by `end`, may answer: the first occurrence if it
      lies within the bound, and otherwise nothing, there being none. */
  ghost predicate SearchAnswer(s: seq<byte>, what: seq<byte>, from: int, end: int, pos: int) {
    if pos < 0 then pos == -1 && NoMatchWithin(s, what, from, end)
    else from <= pos && MatchAt(s, what, pos) && pos + |what| <= end && NoMatchIn(s, what, from, pos)
  }

  /** evbuffer_search_range with a non-empty pattern, from a position inside or behind the data. */
  method SearchFrom(b: Evbuffer, what: seq<byte>, start: Ptr, end: Option<Ptr>) returns (q: Ptr)
    requires b.Valid() && b.totalLen <= SIZE_MAX && what != []
    requires PtrAt(b.chains, start) && (end.Some? ==> PtrOk(b.chains, end.value))
    ensures SearchAnswer(b.Contents(), what, start.pos, if end.Some? then end.value.pos else b.totalLen, q.pos)
    ensures if q.pos < 0 then q == NOT_FOUND else q.chain.Some? && PtrAt(b.chains, q)
    ensures q.chain.Some? ==> q.posInChain < b.chains[q.chain.value].off
  {
    hide Flat, Chain.Data, MatchAt;
    ghost var s := b.Contents();
    ghost var bound := if end.Some? then end.value.pos else b.totalLen;
    var i: nat := if start.chain.Some? then start.chain.value else |b.chains|;
    var off, pos := start.posInChain, start.pos;
    assert b.chains[..|b.chains|] == b.chains;
    while i < |b.chains|
      invariant i <= |b.chains| && 0 <= off && start.pos <= pos
      invariant pos == |Flat(b.chains[..i])| + off
      invariant if i < |b.chains| then off <= b.chains[i].off else off == 0
      invariant NoMatchIn(s, what, start.pos, pos)
      decreases b.totalLen - pos, |b.chains| - i
    {
      ByteAt(b.chains, i);
      var data := b.chains[i].Data();
      var k := FindByte(data, off, {what[0]});
      if k.Some? {
        var skip := k.value - off;
        FirstByteAbsent(s, what, start.pos, pos, data, off, k.value, |Flat(b.chains[..i])|);
        pos := pos + skip;
        off := k.value;
        var here := PtrEquals(b, Ptr(pos, Some(i), off), what);
        if here {
          BoundDecides(s, what, start.pos, bound, pos);
          if end.Some? && pos + |what| > end.value.pos { return NOT_FOUND; }
          return Ptr(pos, Some(i), off);
        }
        pos := pos + 1;
        off := off + 1;
        if off == b.chains[i].off {
          i := i + 1;
          off := 0;
        }
      } else {
        FirstByteAbsent(s, what, start.pos, pos, data, off, |data|, |Flat(b.chains[..i])|);
        if end.Some? && end.value.chain == Some(i) { return NOT_FOUND; }
        pos := pos + (b.chains[i].off - off);
        i := i + 1;
        off := 0;
      }
    }
    NoMatchAtEnd(s, what);
    q := NOT_FOUND;
  }

  lemma FirstByteAbsent(s: seq<byte>, what: seq<byte>, from: int, pos: nat, data: seq<byte>, off: nat, to: nat,
      base: nat)
    requires what != [] && NoMatchIn(s, what, from, pos) && pos == base + off
    requires off <= to <= |data| && base + |data| <= |s|
    requires forall o :: 0 <= o < |data| ==> data[o] == s[base + o]
    requires forall k :: off <= k < to ==> data[k] !in {what[0]}
    ensures NoMatchIn(s, what, from, base + to)
  {
    forall k | pos <= k < base + to ensures s[k] != what[0] { assert data[k - base] == s[k]; }
    NoFirstByte(s, what, from, pos, base + to);
  }

  /** The first occurrence settles the search whichever side of the bound it lies. */
  lemma BoundDecides(s: seq<byte>, what: seq<byte>, from: int, end: int, pos: int)
    requires NoMatchIn(s, what, from, pos) && MatchAt(s, what, pos) && from <= pos
    ensures pos + |what| > end ==> NoMatchWithin(s, what, from, end)
    ensures pos + |what| <= |s|
  {
  }

  lemma NoMatchAtEnd(s: seq<byte>, what: seq<byte>)
    requires what != []
    ensures forall p :: p >= |s| ==> !MatchAt(s, what, p)
  {
  }

  function StartPtr(b: Evbuffer, start: Option<Ptr>): Ptr
    reads b
  {
    if start.Some? then start.value else Ptr(0, if b.chains == [] then None else Some(0), 0)
  }

  lemma StartPtrOk(b: Evbuffer)
    requires b.Valid()
    ensures PtrAt(b.chains, StartPtr(b, None))
  {
    if b.chains != [] { assert b.chains[..0] == []; }
  }

  /** evbuffer_search_range.  An empty pattern, or one longer than any buffer, is reported at
      the start without a look at the data or at `end`. */
  method SearchRange(b: Evbuffer, what: seq<byte>, start: Option<Ptr>, end: Option<Ptr>) returns (q: Ptr)
    requires b.Valid() && b.totalLen <= SIZE_MAX
    requires start.Some? ==> PtrOk(b.chains, start.value)
    requires end.Some? ==> PtrOk(b.chains, end.value)
    ensures what == [] || |what| > SSIZE_MAX ==> q == StartPtr(b, start)
    ensures what != [] && |what| <= SSIZE_MAX && StartPtr(b, start) != NOT_FOUND ==>
      SearchAnswer(b.Contents(), what, StartPtr(b, start).pos, if end.Some? then end.value.pos else b.totalLen, q.pos)
    ensures what != [] && |what| <= SSIZE_MAX ==>
      if q.pos < 0 then q == NOT_FOUND
      else q.chain.Some? && PtrAt(b.chains, q) && q.posInChain < b.chains[q.chain.value].off
    ensures what != [] && |what| <= SSIZE_MAX && StartPtr(b, start) == NOT_FOUND ==> q == NOT_FOUND
  {
    hide Flat, SearchAnswer;
    StartPtrOk(b);
    var from := StartPtr(b, start);
    if what == [] || |what| > SSIZE_MAX { return from; }
    if from == NOT_FOUND { return NOT_FOUND; }
    q := SearchFrom(b, what, from, end);
  }

  /** The empty pattern gets the right answer exactly when the start is not past the end bound. */
  lemma EmptyPatternAnswer(s: seq<byte>, from: int, end: int)
    requires 0 <= from <= |s|
    ensures SearchAnswer(s, [], from, end, from) <==> from <= end
  {
    assert MatchAt(s, [], from);
  }

  /** The first position from `from` on that holds one of `cs`. */
  ghost function FirstIn(s: seq<byte>, from: nat, cs: set<byte>): (r: Option<nat>)
    ensures r == None ==> forall k :: from <= k < |s| ==> s[k] !in cs
    ensures r.Some? ==> from <= r.value < |s| && s[r.value] in cs && forall k :: from <= k < r.value ==> s[k] !in cs
    decreases |s| - from
  {
    if from >= |s| then None else if s[from] in cs then Some(from) else FirstIn(s, from + 1, cs)
  }

  /** How many bytes in a row from `from` on are in `cs`. */
  ghost function Span(s: seq<byte>, from: nat, cs: set<byte>): (n: nat)
    requires from <= |s|
    ensures from + n <= |s| && (forall k :: from <= k < from + n ==> s[k] in cs)
    ensures from + n == |s| || s[from + n] !in cs
    decreases |s| - from
  {
    if from < |s| && s[from] in cs then 1 + Span(s, from + 1, cs) else 0
  }

  datatype EolStyle = Any | CrlfStrict | Crlf | Lf | Nul

  /** The line end from `from` on, as its position and length, on flat bytes. */
  ghost function FlatEol(s: seq<byte>, from: nat, style: EolStyle): Option<(nat, nat)>
    requires from <= |s|
  {
    match style
    case Any =>
      var p := FirstIn(s, from, {CR, LF});
      if p == None then None else Some((p.value, Span(s, p.value, {CR, LF})))
    case CrlfStrict =>
      if exists p: nat :: SearchAnswer(s, [CR, LF], from, |s|, p)
      then var p: nat :| SearchAnswer(s, [CR, LF], from, |s|, p); Some((p, 2))
      else None
    case Crlf =>
      var p := FirstIn(s, from, {LF});
      if p == None then None
      else if p.value > from && s[p.value - 1] == CR then Some((p.value - 1, 2))
      else Some((p.value, 1))
    case Lf =>
      var p := FirstIn(s, from, {LF});
      if p == None then None else Some((p.value, 1))
    case Nul =>
      var p := FirstIn(s, from, {0});
      if p == None then None else Some((p.value, 1))
  }

  /** evbuffer_strchr and evbuffer_find_eol_char: one walk over the chains. */
  method ScanFor(b: Evbuffer, it: Ptr, cs: set<byte>) returns (r: Option<Ptr>)
    requires b.Valid() && PtrAt(b.chains, it)
    ensures r == None <==> FirstIn(b.Contents(), it.pos, cs) == None
    ensures r.Some? ==>
      var q := r.value;
      && PtrAt(b.chains, q) && FirstIn(b.Contents(), it.pos, cs) == Some(q.pos)
      && q.chain.Some? && q.posInChain < b.chains[q.chain.value].off
  {
    hide Flat, Chain.Data, FirstIn;
    ghost var s := b.Contents();
    PtrInRange(b.chains, it);
    var i: nat := if it.chain.Some? then it.chain.value else |b.chains|;
    var off, pos := it.posInChain, it.pos;
    assert b.chains[..|b.chains|] == b.chains;
    while i < |b.chains|
      invariant i <= |b.chains| && 0 <= off && it.pos <= pos
      invariant pos == |Flat(b.chains[..i])| + off
      invariant if i < |b.chains| then off <= b.chains[i].off else off == 0
      invariant pos <= |s| && forall k :: it.pos <= k < pos ==> s[k] !in cs
    {
      ByteAt(b.chains, i);
      ghost var base := |Flat(b.chains[..i])|;
      var data := b.chains[i].Data();
      var k := FindByte(data, off, cs);
      if k.Some? {
        forall j | pos <= j < base + k.value ensures s[j] !in cs { assert data[j - base] == s[j]; }
        return Some(Ptr(pos + (k.value - off), Some(i), k.value));
      }
      forall j | pos <= j < base + |data| ensures s[j] !in cs { assert data[j - base] == s[j]; }
      pos := pos + (b.chains[i].off - off);
      i := i + 1;
      off := 0;
    }
    r := None;
  }

  /** evbuffer_strspn. */
  method StrSpn(b: Evbuffer, it: Ptr, cs: set<byte>) returns (count: nat)
    requires b.Valid() && PtrAt(b.chains, it)
    ensures it.pos <= |b.Contents()| && count == Span(b.Contents(), it.pos, cs)
  {
    hide Flat, Chain.Data, Span;
    ghost var s := b.Contents();
    PtrInRange(b.chains, it);
    if it.chain == None { return 0; }
    var i, off := it.chain.value, it.posInChain;
    count := 0;
    assert b.chains[..|b.chains|] == b.chains;
    while i < |b.chains|
      invariant i <= |b.chains| && 0 <= off
      invariant it.pos + count == |Flat(b.chains[..i])| + off
      invariant if i < |b.chains| then off <= b.chains[i].off else off == 0
      invariant it.pos + count <= |s| && forall k :: it.pos <= k < it.pos + count ==> s[k] in cs
      decreases |b.chains| - i, b.totalLen - (it.pos + count)
    {
      ByteAt(b.chains, i);
      if off < b.chains[i].off {
        assert b.chains[i].Data()[off] == s[it.pos + count];
        if b.chains[i].Data()[off] !in cs { return; }
        count := count + 1;
        off := off + 1;
      } else {
        i := i + 1;
        off := 0;
      }
    }
  }

  /** evbuffer_search_eol. */
  method SearchEol(b: Evbuffer, start: Option<Ptr>, style: EolStyle) returns (q: Ptr, len: nat)
    requires b.Valid() && b.totalLen <= SIZE_MAX
    requires start.Some? ==> PtrOk(b.chains, start.value)
    ensures start.Some? && start.value.chain == None ==> q == NOT_FOUND && len == 0
    ensures (start.Some? && start.value.chain == None) || 0 <= StartPtr(b, start).pos <= |b.Contents()|
    ensures !(start.Some? && start.value.chain == None) ==>
      match FlatEol(b.Contents(), StartPtr(b, start).pos, style)
      case None => q == NOT_FOUND && len == 0
      case Some((p, n)) => q.pos == p && len == n && PtrAt(b.chains, q)
  {
    hide Flat, Chain.Data, FirstIn, Span, SearchAnswer;
    if start.Some? && start.value.chain == None { return NOT_FOUND, 0; }
    StartPtrOk(b);
    var it := StartPtr(b, start);
    PtrInRange(b.chains, it);
    ghost var s := b.Contents();
    match style {
      case Any =>
        var p := ScanFor(b, it, {CR, LF});
        if p == None { return NOT_FOUND, 0; }
        var n := StrSpn(b, p.value, {CR, LF});
        return p.value, n;
      case CrlfStrict =>
        q, len := SearchCrLf(b, it);
      case Crlf =>
        q, len := SearchOptionalCrLf(b, it);
      case Lf =>
        var p := ScanFor(b, it, {LF});
        if p == None { return NOT_FOUND, 0; }
        return p.value, 1;
      case Nul =>
        var p := ScanFor(b, it, {0});
        if p == None { return NOT_FOUND, 0; }
        return p.value, 1;
    }
  }

  /** The EVBUFFER_EOL_CRLF_STRICT case. */
  method SearchCrLf(b: Evbuffer, it: Ptr) returns (q: Ptr, len: nat)
    requires b.Valid() && b.totalLen <= SIZE_MAX && PtrAt(b.chains, it)
    ensures 0 <= it.pos <= |b.Contents()|
    ensures match FlatEol(b.Contents(), it.pos, CrlfStrict)
      case None => q == NOT_FOUND && len == 0
      case Some((p, n)) => q.pos == p && len == n && PtrAt(b.chains, q)
  {
    hide Flat, SearchAnswer;
    PtrInRange(b.chains, it);
    q := SearchRange(b, [CR, LF], Some(it), None);
    AnswersAgree(b.Contents(), [CR, LF], it.pos, b.totalLen);
    len := if q.pos < 0 then 0 else 2;
  }

  /** A search has one answer. */
  lemma AnswersAgree(s: seq<byte>, what: seq<byte>, from: int, end: int)
    ensures forall p, q :: SearchAnswer(s, what, from, end, p) && SearchAnswer(s, what, from, end, q) ==> p == q
  {
  }

  /** The EVBUFFER_EOL_CRLF case: an LF, with the CR before it unless that lies before the start. */
  method SearchOptionalCrLf(b: Evbuffer, it: Ptr) returns (q: Ptr, len: nat)
    requires b.Valid() && b.totalLen <= SIZE_MAX && PtrAt(b.chains, it)
    ensures 0 <= it.pos <= |b.Contents()|
    ensures match FlatEol(b.Contents(), it.pos, Crlf)
      case None => q == NOT_FOUND && len == 0
      case Some((p, n)) => q.pos == p && len == n && PtrAt(b.chains, q)
  {
    hide Flat, Chain.Data, FirstIn;
    PtrInRange(b.chains, it);
    var p := ScanFor(b, it, {LF});
    if p == None { return NOT_FOUND, 0; }
    if p.value.pos == it.pos { return p.value, 1; }
    var before := PtrSubtractOne(b, p.value);
    ByteAt(b.chains, before.chain.value);
    var c := b.chains[before.chain.value].Data()[before.posInChain];
    if c == CR { return before, 2; }
    return p.value, 1;
  }

  /** evbuffer_ptr_subtract by one, from a position inside a chain. */
  method PtrSubtractOne(b: Evbuffer, p: Ptr) returns (q: Ptr)
    requires b.Valid() && b.totalLen <= SIZE_MAX && PtrAt(b.chains, p) && p.pos >= 1
    requires p.chain.Some? && p.posInChain < b.chains[p.chain.value].off
    ensures PtrAt(b.chains, q) && q.pos == p.pos - 1
    ensures q.chain.Some? && q.posInChain < b.chains[q.chain.value].off
  {
    hide Flat, Chain.Data;
    if 1 <= p.posInChain {
      q := Ptr(p.pos - 1, p.chain, p.posInChain - 1);
    } else {
      PtrInRange(b.chains, p);
      var r;
      r, q := PtrSet(b, p, p.pos - 1, Set);
    }
  }

  /** evbuffer_readln: the line before the first line end, drained together with that line end. */
  method Readln(b: Evbuffer, style: EolStyle) returns (line: Option<seq<byte>>)
    requires b.Valid() && b.totalLen <= SIZE_MAX
    modifies b`chains, b`last, b`lwd, b`totalLen
    ensures b.Valid()
    ensures b.freezeStart || FlatEol(old(b.Contents()), 0, style) == None ==>
      line == None && b.Contents() == old(b.Contents())
    ensures !b.freezeStart ==>
      var was := old(b.Contents());
      match FlatEol(was, 0, style)
      case None => true
      case Some((p, n)) => p + n <= |was| && line == Some(was[..p]) && b.Contents() == was[p + n..]
  {
    hide Flat, FlatEol;
    if b.freezeStart { return None; }
    ghost var was := b.Contents();
    StartPtrOk(b);
    EolInside(was, 0, style);
    var q, len := SearchEol(b, None, style);
    if q.pos < 0 { return None; }
    var n, got := b.Remove(q.pos);
    var r := b.Drain(len);
    line := Some(got);
  }

  lemma EolInside(s: seq<byte>, from: nat, style: EolStyle)
    requires from <= |s|
    ensures var e := FlatEol(s, from, style); e.Some? ==> from <= e.value.0 && e.value.0 + e.value.1 <= |s|
  {
    if style == CrlfStrict && FlatEol(s, from, style).Some? {
      assert SearchAnswer(s, [CR, LF], from, |s|, FlatEol(s, from, style).value.0);
    }
  }
}
