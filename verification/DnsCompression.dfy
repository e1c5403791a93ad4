/** Writing DNS names with a shared label table, and reading them back. */
module DnsCompression {
  import opened Basics
  import opened DnsNames

  const MAX_LABELS := 128
  const MAX_LABEL_LEN := 63
  const MAX_NAME_LEN := 255
  /** Offsets that fit the fourteen bits of a pointer. */
  const POINTER_LIMIT := 0x4000

  datatype Entry = Entry(text: Text, pos: nat)

  /** The position of the first entry with this text. */
  function Lookup(es: seq<Entry>, s: Text): (r: Option<nat>)
    ensures r.Some? ==> exists i :: 0 <= i < |es| && es[i].text == s && es[i].pos == r.value
  {
    if es == [] then None
    else if es[0].text == s then Some(es[0].pos)
    else
      var r := Lookup(es[1..], s);
      assert r.Some? ==> exists i :: 0 <= i < |es[1..]| && es[1..][i].text == s && es[1..][i].pos == r.value;
      assert forall i :: 0 <= i < |es[1..]| ==> es[1..][i] == es[i + 1];
      r
  }

  /** struct dnslabel_table. */
  class LabelTable {
    var labels: seq<Entry>

    constructor ()
      ensures labels == []
    {
      labels := [];
    }

    /** dnslabel_table_get_pos. */
    method GetPos(text: Text) returns (pos: Option<nat>)
      ensures pos == Lookup(labels, text)
    {
      var i := 0;
      while i < |labels|
        invariant 0 <= i <= |labels| && Lookup(labels, text) == Lookup(labels[i..], text)
      {
        if text == labels[i].text { return Some(labels[i].pos); }
        assert labels[i..][1..] == labels[i + 1..];
        i := i + 1;
      }
      pos := None;
    }

    /** dnslabel_table_add: a full table forgets. */
    method Add(text: Text, pos: nat)
      modifies this
      ensures labels == Added(old(labels), Entry(text, pos))
    {
      if |labels| == MAX_LABELS { return; }
      labels := labels + [Entry(text, pos)];
    }
  }

  function Added(es: seq<Entry>, e: Entry): seq<Entry> {
    if |es| == MAX_LABELS then es else es + [e]
  }

  /** htons(ref | 0xc000): the low sixteen bits, with the two top ones set. */
  function Pointer(pos: nat): (b: seq<byte>)
    ensures |b| == 2 && b[0] >= 0xC0
  {
    var low := pos % POINTER_LIMIT;
    [0xC0 + low / 256, low % 256]
  }

  /** The mask leaves fourteen bits: a pointer leads back exactly from positions below 0x4000. */
  lemma PointerIsFaithfulIff(pos: nat)
    ensures Target(Pointer(pos)[0], Pointer(pos)[1]) == pos % POINTER_LIMIT
    ensures Target(Pointer(pos)[0], Pointer(pos)[1]) == pos <==> pos < POINTER_LIMIT
  {
    var low := pos % POINTER_LIMIT;
    assert (0xC0 + low / 256) % 64 == low / 256;
  }

  /** A label with its length in front. */
  function Framed(l: Text): (b: seq<byte>)
    requires |l| <= MAX_LABEL_LEN
    ensures |b| == |l| + 1 && b[0] == |l| && b[1..] == l
  {
    [|l|] + l
  }

  /** The zero that ends a name, unless the last label was empty and has put one there. */
  function Closing(l: Text): (b: seq<byte>)
    ensures b == if l == [] then [] else [0]
  {
    if |l| > 0 then [0] else []
  }

  /** What writing a name comes to: bytes, or an error code; and the table afterwards. */
  datatype Outcome = Wrote(bytes: seq<byte>, table: seq<Entry>) | Refused(code: int, table: seq<Entry>)

  /** The rest of a name, written at `j`. */
  function Put(rest: Text, es: seq<Entry>, j: nat, bufLen: nat, compress: bool): Outcome
    decreases |rest|
  {
    var ref := if compress then Lookup(es, rest) else None;
    var i := FirstDot(rest);
    if ref.Some? then
      if j + 2 > bufLen then Refused(-2, es) else Wrote(Pointer(ref.value), es)
    else if i > MAX_LABEL_LEN then Refused(-1, es)
    else if j + i + 1 > bufLen then Refused(-2, es)
    else
      var es1 := if compress then Added(es, Entry(rest, j)) else es;
      if i == |rest| then Wrote(Framed(rest) + Closing(rest), es1)
      else
        match Put(rest[i + 1..], es1, j + i + 1, bufLen, compress)
        case Refused(code, es2) => Refused(code, es2)
        case Wrote(b, es2) => Wrote(Framed(rest[..i]) + b, es2)
  }

  /** With bytes in front. */
  function Prefixed(b: seq<byte>, o: Outcome): Outcome {
    match o
    case Refused(_, _) => o
    case Wrote(bytes, es) => Wrote(b + bytes, es)
  }

  /** One turn of Put that writes a label. */
  lemma PutUnfolds(rest: Text, es: seq<Entry>, j: nat, bufLen: nat, compress: bool)
    requires compress ==> Lookup(es, rest) == None
    requires FirstDot(rest) <= MAX_LABEL_LEN && j + FirstDot(rest) + 1 <= bufLen
    ensures var i := FirstDot(rest);
      var es1 := if compress then Added(es, Entry(rest, j)) else es;
      Put(rest, es, j, bufLen, compress) ==
        if i == |rest| then Wrote(Framed(rest) + Closing(rest), es1)
        else Prefixed(Framed(rest[..i]), Put(rest[i + 1..], es1, j + i + 1, bufLen, compress))
  {
    hide Lookup, Framed, Closing, FirstDot, Added;
  }

  /** One turn of Put that ends in a pointer. */
  lemma PutPoints(rest: Text, es: seq<Entry>, j: nat, bufLen: nat)
    requires Lookup(es, rest).Some?
    ensures Put(rest, es, j, bufLen, true) ==
      if j + 2 > bufLen then Refused(-2, es) else Wrote(Pointer(Lookup(es, rest).value), es)
  {
    hide Lookup, Pointer, FirstDot;
  }

  /** A turn of Put that cannot go on. */
  lemma PutRefuses(rest: Text, es: seq<Entry>, j: nat, bufLen: nat, compress: bool)
    requires compress ==> Lookup(es, rest) == None
    requires FirstDot(rest) > MAX_LABEL_LEN || j + FirstDot(rest) + 1 > bufLen
    ensures Put(rest, es, j, bufLen, compress) == Refused(if FirstDot(rest) > MAX_LABEL_LEN then -1 else -2, es)
  {
    hide Lookup, Pointer, FirstDot;
  }

  function PutName(name: Text, es: seq<Entry>, j: nat, bufLen: nat, compress: bool): Outcome {
    if |name| > MAX_NAME_LEN then Refused(-2, es) else Put(name, es, j, bufLen, compress)
  }

  /** The position the table has for the first suffix of `rest`, label by label, that it has at all:
      where the pointer that ends the name leads. */
  function Found(rest: Text, es: seq<Entry>): Option<nat>
    decreases |rest|
  {
    var i := FirstDot(rest);
    if Lookup(es, rest).Some? then Lookup(es, rest)
    else if i == |rest| then None
    else Found(rest[i + 1..], es)
  }

  /** The pointer a name ends with, if any, leads below 0x4000. */
  predicate PointsLow(rest: Text, es: seq<Entry>) {
    Found(rest, es).Some? ==> Found(rest, es).value < POINTER_LIMIT
  }

  lemma {:induction false} LookupKept(es: seq<Entry>, e: Entry, s: Text)
    requires e.text != s
    ensures Lookup(es + [e], s) == Lookup(es, s)
  {
    if es != [] {
      assert (es + [e])[1..] == es[1..] + [e];
      LookupKept(es[1..], e, s);
    } else {
      assert (es + [e])[1..] == [];
    }
  }

  /** A longer text noted in the table is no suffix. */
  lemma {:induction false} FoundKept(rest: Text, es: seq<Entry>, e: Entry)
    requires |e.text| > |rest|
    ensures Found(rest, Added(es, e)) == Found(rest, es)
    decreases |rest|
  {
    hide Lookup, FirstDot;
    LookupKept(es, e, rest);
    if FirstDot(rest) < |rest| { FoundKept(rest[FirstDot(rest) + 1..], es, e); }
  }

  lemma FoundUnfolds(rest: Text, es: seq<Entry>, i: nat, r: Text)
    requires Lookup(es, rest) == None && i == FirstDot(rest) < |rest| && r == rest[i + 1..]
    ensures Found(rest, es) == Found(r, es)
  {
    hide Lookup, FirstDot;
  }

  lemma FoundAtOnce(rest: Text, es: seq<Entry>)
    ensures Lookup(es, rest).Some? ==> Found(rest, es) == Lookup(es, rest)
    ensures Lookup(es, rest) == None && FirstDot(rest) == |rest| ==> Found(rest, es) == None
  {
    hide Lookup, FirstDot;
  }

  /** What is found was noted. */
  lemma {:induction false} FoundIsNoted(rest: Text, es: seq<Entry>)
    requires Found(rest, es).Some?
    ensures exists k :: 0 <= k < |es| && es[k].pos == Found(rest, es).value
    decreases |rest|
  {
    hide Lookup, FirstDot;
    if Lookup(es, rest) == None { FoundIsNoted(rest[FirstDot(rest) + 1..], es); }
  }

  // ---- The closing zero ----

  /** Every label fits its length byte. */
  predicate LabelsShort(rest: Text)
    decreases |rest|
  {
    var i := FirstDot(rest);
    i <= MAX_LABEL_LEN && (i == |rest| || LabelsShort(rest[i + 1..]))
  }

  /** The name goes out in full, with no pointer, and its last label ends at buf_len. */
  predicate Overruns(rest: Text, es: seq<Entry>, j: nat, bufLen: nat, compress: bool) {
    && (compress ==> Found(rest, es) == None) && LabelsShort(rest)
    && rest != [] && rest[|rest| - 1] != DOT && j + |rest| + 1 == bufLen
  }

  /** With a table or without, something is written past buf_len exactly when the name goes out in
      full and its last label, not empty, ends there: then the closing zero is past it. */
  lemma {:induction false} OverrunIff(rest: Text, es: seq<Entry>, j: nat, bufLen: nat, compress: bool)
    ensures Overruns(rest, es, j, bufLen, compress) <==>
      var o := Put(rest, es, j, bufLen, compress); o.Wrote? && j + |o.bytes| > bufLen
    ensures var o := Put(rest, es, j, bufLen, compress);
      o.Wrote? ==> j + |o.bytes| <= bufLen + 1 && |o.bytes| <= |rest| + 2
    decreases |rest|
  {
    hide Put, Lookup, FirstDot, Found, LabelsShort, Framed, Pointer, Added;
    var i := FirstDot(rest);
    FoundAtOnce(rest, es);
    if i == |rest| || i > MAX_LABEL_LEN { ShortLast(rest); } else { ShortUnfolds(rest, i, rest[i + 1..]); }
    if compress && Lookup(es, rest).Some? {
      PutPoints(rest, es, j, bufLen);
    } else if i > MAX_LABEL_LEN || j + i + 1 > bufLen {
      PutRefuses(rest, es, j, bufLen, compress);
    } else {
      PutUnfolds(rest, es, j, bufLen, compress);
      if i == |rest| {
        LastDot(rest);
      } else {
        var r := rest[i + 1..];
        var es1 := if compress then Added(es, Entry(rest, j)) else es;
        assert r != [] ==> r[|r| - 1] == rest[|rest| - 1];
        assert r == [] ==> rest[|rest| - 1] == DOT;
        if compress {
          FoundKept(r, es, Entry(rest, j));
          FoundUnfolds(rest, es, i, rest[i + 1..]);
        }
        OverrunIff(r, es1, j + i + 1, bufLen, compress);
      }
    }
  }

  lemma ShortLast(rest: Text)
    requires FirstDot(rest) == |rest| || FirstDot(rest) > MAX_LABEL_LEN
    ensures LabelsShort(rest) <==> FirstDot(rest) <= MAX_LABEL_LEN
  {
    hide FirstDot;
  }

  lemma ShortUnfolds(rest: Text, i: nat, r: Text)
    requires i == FirstDot(rest) < |rest| && r == rest[i + 1..]
    ensures LabelsShort(rest) <==> i <= MAX_LABEL_LEN && LabelsShort(r)
  {
    hide FirstDot;
  }

  lemma LastDot(rest: Text)
    requires FirstDot(rest) == |rest|
    ensures rest != [] ==> rest[|rest| - 1] != DOT
  {
    if rest != [] { assert rest[..|rest|][|rest| - 1] == rest[|rest| - 1]; }
  }

  /** A name that is not refused for its length overruns buf_len. */
  predicate NameOverruns(name: Text, es: seq<Entry>, j: nat, bufLen: nat, compress: bool) {
    |name| <= MAX_NAME_LEN && Overruns(name, es, j, bufLen, compress)
  }

  /** So it does with a table: the name "a", the first of its message, two bytes before the end. */
  lemma OverrunWitness(bufLen: nat)
    requires bufLen >= 2
    ensures var o := PutName([97], [], bufLen - 2, bufLen, true);
      o.Wrote? && bufLen - 2 + |o.bytes| == bufLen + 1
  {
    assert FirstDot([97]) == 1;
    assert Overruns([97], [], bufLen - 2, bufLen, true);
    OverrunIff([97], [], bufLen - 2, bufLen, true);
  }

  // ---- What a written name says ----

  /** The labels of a name up to its first empty one: what the wire format can carry. */
  function Carried(s: Text): seq<Text>
    decreases |s|
  {
    var i := FirstDot(s);
    if i == 0 then [] else if i == |s| then [s] else [s[..i]] + Carried(s[i + 1..])
  }

  lemma CarriedUnfolds(s: Text, i: nat, l: Text, r: Text)
    requires 0 < i == FirstDot(s) < |s| && l == s[..i] && r == s[i + 1..]
    ensures Carried(s) == [l] + Carried(r)
  {
    hide FirstDot;
  }

  lemma NothingCarried(s: Text)
    requires FirstDot(s) == 0
    ensures Carried(s) == []
  {
    hide FirstDot;
  }

  /** No empty label: no dot at either end, no two in a row.  The empty name is the root. */
  predicate WellFormed(s: Text) {
    && (s != [] ==> s[0] != DOT && s[|s| - 1] != DOT)
    && forall i :: 0 <= i < |s| - 1 ==> !(s[i] == DOT && s[i + 1] == DOT)
  }

  /** Every label but the last has something in it. */
  predicate NoInnerGap(s: Text)
    decreases |s|
  {
    var i := FirstDot(s);
    i == |s| || (i > 0 && NoInnerGap(s[i + 1..]))
  }

  lemma NoGapRest(s: Text)
    requires NoInnerGap(s) && FirstDot(s) < |s|
    ensures FirstDot(s) > 0 && NoInnerGap(s[FirstDot(s) + 1..])
  {
  }

  lemma {:induction false} WellFormedHasNoGap(s: Text)
    requires WellFormed(s)
    ensures NoInnerGap(s)
    decreases |s|
  {
    var i := FirstDot(s);
    if i < |s| {
      WellFormedRest(s, i);
      WellFormedHasNoGap(s[i + 1..]);
    }
  }

  lemma WellFormedRest(s: Text, i: nat)
    requires WellFormed(s) && i < |s| && s[i] == DOT
    ensures i + 1 < |s| && WellFormed(s[i + 1..])
  {
    var r := s[i + 1..];
    assert s[i + 1] == r[0];
    forall k | 0 <= k < |r| - 1 ensures !(r[k] == DOT && r[k + 1] == DOT) {
      assert r[k] == s[i + 1 + k] && r[k + 1] == s[i + 1 + k + 1];
    }
  }

  /** The wire carries exactly the well-formed names unchanged. */
  lemma {:induction false} CarriedIsNameIff(s: Text)
    ensures Join(Carried(s)) == s <==> WellFormed(s)
    ensures |Join(Carried(s))| <= |s|
    ensures |Join(Carried(s))| == |s| ==> Join(Carried(s)) == s
    decreases |s|
  {
    hide Join, Carried, WellFormed, FirstDot;
    var i := FirstDot(s);
    if i == |s| {
      OneLabel(s);
    } else if i == 0 {
      GapInFront(s);
    } else {
      var r := s[i + 1..];
      CarriedIsNameIff(r);
      FrontLabel(s, i);
      if Carried(r) != [] {
        GluedWellFormed(s, i);
        assert s == s[..i] + [DOT] + r;
      } else {
        GapNext(s, i);
      }
    }
  }

  lemma OneLabel(s: Text)
    requires FirstDot(s) == |s|
    ensures Join(Carried(s)) == s && WellFormed(s)
  {
    assert s[..|s|] == s;
    assert forall k :: 0 <= k < |s| ==> s[k] in s;
  }

  lemma GapInFront(s: Text)
    requires FirstDot(s) == 0 < |s|
    ensures Join(Carried(s)) == [] && !WellFormed(s)
  {
  }

  lemma FrontLabel(s: Text, i: nat)
    requires 0 < i == FirstDot(s) < |s|
    ensures var r := s[i + 1..];
      && s[i] == DOT && DOT !in s[..i]
      && Join(Carried(s)) == (if Carried(r) == [] then s[..i] else s[..i] + [DOT] + Join(Carried(r)))
      && (Carried(r) != [] ==> r != [] && r[0] != DOT)
  {
    hide FirstDot;
    var r := s[i + 1..];
    assert Carried(s) == [s[..i]] + Carried(r);
    assert ([s[..i]] + Carried(r))[1..] == Carried(r);
    if Carried(r) != [] {
      assert FirstDot(r) > 0;
      assert r[0] == r[..FirstDot(r)][0];
    }
  }

  lemma GapNext(s: Text, i: nat)
    requires 0 < i < |s| && s[i] == DOT && Carried(s[i + 1..]) == []
    ensures !WellFormed(s)
  {
    var r := s[i + 1..];
    assert FirstDot(r) == 0;
    if r != [] { assert s[i + 1] == r[0] == DOT; }
  }

  lemma GluedWellFormed(s: Text, i: nat)
    requires 0 < i < |s| - 1 && s[i] == DOT && DOT !in s[..i] && s[i + 1] != DOT
    ensures WellFormed(s) <==> WellFormed(s[i + 1..])
  {
    var r := s[i + 1..];
    assert s[0] == s[..i][0] && r[|r| - 1] == s[|s| - 1];
    if WellFormed(s) { WellFormedRest(s, i); }
    if WellFormed(r) {
      forall k | 0 <= k < |s| - 1 ensures !(s[k] == DOT && s[k + 1] == DOT) {
        if k < i { assert s[..i][k] == s[k]; }
        if k > i { assert s[k] == r[k - i - 1] && s[k + 1] == r[k - i]; }
      }
    }
  }

  // ---- The invariant of the table ----

  /** At this position of the message the labels can be read with fewer than `base` jumps. */
  predicate ReadsAs(msg: seq<byte>, pos: nat, base: nat, ls: seq<Text>) {
    Walk(msg, pos, base).Done? && Walk(msg, pos, base).labels == ls
  }

  /** An entry's position reads as its text. */
  predicate EntryOk(msg: seq<byte>, e: Entry, base: nat) {
    e.pos < |msg| && ReadsAs(msg, e.pos, base, Carried(e.text))
  }

  /** Every entry that a pointer can reach is good. */
  predicate TableOk(msg: seq<byte>, es: seq<Entry>) {
    forall i {:trigger es[i]} :: 0 <= i < |es| ==> NotedOk(msg, es[i])
  }

  predicate NotedOk(msg: seq<byte>, e: Entry) {
    e.pos < |msg| && (e.pos < POINTER_LIMIT ==> EntryOk(msg, e, e.pos))
  }

  /** Bytes put after the message leave what can be read in it alone. */
  lemma TableKept(msg: seq<byte>, more: seq<byte>, es: seq<Entry>)
    requires TableOk(msg, es)
    ensures TableOk(msg + more, es)
  {
    forall i | 0 <= i < |es| ensures NotedOk(msg + more, es[i]) {
      NotedKept(msg, more, es[i]);
    }
  }

  lemma NotedKept(msg: seq<byte>, more: seq<byte>, e: Entry)
    requires NotedOk(msg, e)
    ensures NotedOk(msg + more, e)
  {
    hide Walk, Carried;
    if e.pos < POINTER_LIMIT { WalkLonger(msg, msg + more, e.pos, e.pos); }
  }

  /** The state of a name half-way written: the entries before `n` are good for the message, the
      others are this name's own, of longer suffixes than what is left. */
  ghost predicate Halfway(msg: seq<byte>, es: seq<Entry>, n: nat, base: nat, rest: Text) {
    && n <= |es|
    && (forall i :: 0 <= i < n ==> NotedOk(msg, es[i]) && es[i].pos < base)
    && (forall i :: n <= i < |es| ==> |es[i].text| > |rest|)
  }

  /** What is written at `j` up to the end of the message reads as that rest, and so does each new
      entry. */
  ghost predicate PutAt(msg1: seq<byte>, j: nat, rest: Text, es: seq<Entry>, es1: seq<Entry>, base: nat) {
    && ReadsAs(msg1, j, base, Carried(rest))
    && (NoInnerGap(rest) ==> Walk(msg1, j, base).next == |msg1|)
    && NewOk(msg1, j, es, es1, base)
  }

  ghost predicate PutOk(msg: seq<byte>, rest: Text, es: seq<Entry>, base: nat, o: Outcome) {
    o.Wrote? ==> PutAt(msg + o.bytes, |msg|, rest, es, o.table, base)
  }

  /** The table has only grown, by entries from `j` on that read as they say. */
  ghost predicate NewOk(msg1: seq<byte>, j: nat, es: seq<Entry>, es1: seq<Entry>, base: nat) {
    && |es| <= |es1| && es1[..|es|] == es
    && forall i :: |es| <= i < |es1| ==> es1[i].pos >= j && EntryOk(msg1, es1[i], base)
  }

  /** Writing the rest of a name: what is written reads as that rest, and so does each new entry. */
  lemma {:induction false} PutReads(msg: seq<byte>, rest: Text, es: seq<Entry>, n: nat, base: nat, bufLen: nat,
      compress: bool)
    requires Halfway(msg, es, n, base, rest) && base <= |msg| && (compress ==> PointsLow(rest, es))
    ensures PutOk(msg, rest, es, base, Put(rest, es, |msg|, bufLen, compress))
    decreases |rest|
  {
    hide Put, PutAt, Walk, Halfway, Carried, Pointer, Lookup, Found, Framed, Closing, FirstDot, NoInnerGap;
    FoundAtOnce(rest, es);
    var j := |msg|;
    var i := FirstDot(rest);
    if compress && Lookup(es, rest).Some? {
      PutPoints(rest, es, j, bufLen);
      PointerReads(msg, rest, es, n, base);
    } else if i > MAX_LABEL_LEN || j + i + 1 > bufLen {
      PutRefuses(rest, es, j, bufLen, compress);
    } else {
      PutUnfolds(rest, es, j, bufLen, compress);
      var es1 := if compress then Added(es, Entry(rest, j)) else es;
      if i == |rest| {
        LastPut(msg, rest, base, es, es1);
      } else {
        var head := Framed(rest[..i]);
        HalfwayOn(msg, es, n, base, rest, es1, head, rest[i + 1..]);
        if compress {
          FoundKept(rest[i + 1..], es, Entry(rest, j));
          FoundUnfolds(rest, es, i, rest[i + 1..]);
        }
        PutReads(msg + head, rest[i + 1..], es1, n, base, bufLen, compress);
        var o := Put(rest[i + 1..], es1, j + i + 1, bufLen, compress);
        if o.Wrote? {
          assert msg + head + o.bytes == msg + (head + o.bytes);
          Inside(msg, head, o.bytes);
          LabelPut(msg + (head + o.bytes), j, rest, i, base, es, es1, o.table);
        }
      }
    }
  }

  lemma LastPut(msg: seq<byte>, rest: Text, base: nat, es: seq<Entry>, es1: seq<Entry>)
    requires |rest| <= MAX_LABEL_LEN && FirstDot(rest) == |rest|
    requires es1 == es || es1 == es + [Entry(rest, |msg|)]
    ensures PutAt(msg + (Framed(rest) + Closing(rest)), |msg|, rest, es, es1, base)
  {
    hide Walk, Carried, Framed, Closing, FirstDot, NoInnerGap, NewOk, ReadsAs;
    var msg1 := msg + (Framed(rest) + Closing(rest));
    LastReads(msg, rest, base);
    NewNone(msg1, |msg|, es1, base);
    NewEntries(msg1, rest, |msg|, |msg|, base, es, es1, es1);
  }

  /** One label more in front. */
  lemma LabelPut(msg1: seq<byte>, j: nat, rest: Text, i: nat, base: nat, es: seq<Entry>, es1: seq<Entry>,
      es2: seq<Entry>)
    requires i == FirstDot(rest) < |rest| && i <= MAX_LABEL_LEN
    requires es1 == es || es1 == es + [Entry(rest, j)]
    requires j + i + 1 <= |msg1| && msg1[j] == i && msg1[j + 1..j + 1 + i] == rest[..i]
    requires PutAt(msg1, j + i + 1, rest[i + 1..], es1, es2, base)
    ensures PutAt(msg1, j, rest, es, es2, base)
  {
    hide ReadsAs, Walk, NewOk, Carried, EntryOk, NoInnerGap, FirstDot;
    if NoInnerGap(rest) { NoGapRest(rest); }
    LabelReads(msg1, j, rest, i, base);
    NewEntries(msg1, rest, j, j + i + 1, base, es, es1, es2);
  }

  lemma Inside(a: seq<byte>, b: seq<byte>, c: seq<byte>)
    requires |b| > 0
    ensures var m := a + (b + c); m[|a|] == b[0] && m[|a| + 1..|a| + |b|] == b[1..]
  {
  }

  lemma NewNone(msg: seq<byte>, j: nat, es: seq<Entry>, base: nat)
    ensures NewOk(msg, j, es, es, base)
  {
    assert es[..|es|] == es;
  }

  lemma PointerReads(msg: seq<byte>, rest: Text, es: seq<Entry>, n: nat, base: nat)
    requires Halfway(msg, es, n, base, rest) && base <= |msg| && Lookup(es, rest).Some?
    requires Lookup(es, rest).value < POINTER_LIMIT
    ensures PutAt(msg + Pointer(Lookup(es, rest).value), |msg|, rest, es, es, base)
  {
    hide Walk, Carried, Lookup, Pointer;
    var k :| 0 <= k < |es| && es[k].text == rest && es[k].pos == Lookup(es, rest).value;
    assert k < n;
    assert NotedOk(msg, es[k]);
    PointsBack(msg, es[k].pos, base, Carried(rest));
    NewNone(msg + Pointer(es[k].pos), |msg|, es, base);
  }

  lemma PointsBack(msg: seq<byte>, t: nat, base: nat, ls: seq<Text>)
    requires t < base <= |msg| && t < POINTER_LIMIT && ReadsAs(msg, t, t, ls)
    ensures var msg1 := msg + Pointer(t);
      ReadsAs(msg1, |msg|, base, ls) && Walk(msg1, |msg|, base).next == |msg1|
  {
    hide Walk, Pointer;
    var msg1 := msg + Pointer(t);
    WalkLonger(msg, msg1, t, t);
    WalkMore(msg1, t, t, base - 1);
    PointerIsFaithfulIff(t);
    assert msg1[|msg|] == Pointer(t)[0] && msg1[|msg| + 1] == Pointer(t)[1];
    WalkPointer(msg1, |msg|, base);
  }

  lemma LastReads(msg: seq<byte>, rest: Text, base: nat)
    requires |rest| <= MAX_LABEL_LEN && FirstDot(rest) == |rest|
    ensures var msg1 := msg + (Framed(rest) + Closing(rest));
      ReadsAs(msg1, |msg|, base, Carried(rest)) && Walk(msg1, |msg|, base).next == |msg1|
  {
    hide Framed;
    var j := |msg|;
    var msg1 := msg + (Framed(rest) + Closing(rest));
    Inside(msg, Framed(rest), Closing(rest));
    if |rest| > 0 {
      assert msg1[j + 1 + |rest|] == 0;
      assert Walk(msg1, j + 1 + |rest|, base) == Done([], j + 2 + |rest|);
    }
  }

  lemma LabelReads(msg1: seq<byte>, j: nat, rest: Text, i: nat, base: nat)
    requires i == FirstDot(rest) < |rest| && i <= MAX_LABEL_LEN
    requires j + i + 1 <= |msg1| && msg1[j] == i && msg1[j + 1..j + 1 + i] == rest[..i]
    requires ReadsAs(msg1, j + i + 1, base, Carried(rest[i + 1..]))
    ensures ReadsAs(msg1, j, base, Carried(rest))
    ensures i > 0 ==> Walk(msg1, j, base).next == Walk(msg1, j + i + 1, base).next
  {
    if i > 0 {
      hide Walk;
      WalkLabel(msg1, j, base);
    } else {
      assert Walk(msg1, j, base) == Done([], j + 1);
    }
  }

  lemma HalfwayOn(msg: seq<byte>, es: seq<Entry>, n: nat, base: nat, rest: Text, es1: seq<Entry>, more: seq<byte>,
      r: Text)
    requires Halfway(msg, es, n, base, rest) && |r| < |rest|
    requires es1 == es || es1 == es + [Entry(rest, |msg|)]
    ensures Halfway(msg + more, es1, n, base, r)
  {
    hide EntryOk;
    forall i | 0 <= i < n ensures NotedOk(msg + more, es1[i]) {
      assert NotedOk(msg, es[i]);
      NotedKept(msg, more, es[i]);
    }
  }

  lemma NewEntries(msg1: seq<byte>, rest: Text, j: nat, j1: nat, base: nat, es: seq<Entry>, es1: seq<Entry>,
      es2: seq<Entry>)
    requires es1 == es || es1 == es + [Entry(rest, j)]
    requires j < |msg1| && j <= j1 && NewOk(msg1, j1, es1, es2, base) && ReadsAs(msg1, j, base, Carried(rest))
    ensures NewOk(msg1, j, es, es2, base)
  {
    hide ReadsAs, Carried;
    assert es2[..|es|] == es2[..|es1|][..|es|];
    if es1 != es { assert es2[|es|] == es2[..|es1|][|es|]; }
  }
}
