/** dnsname_to_labels on a buffer, and messages made of many names that share one label table:
    every name reads back. */
module DnsMessages {
  import opened Basics
  import opened DnsNames
  import opened DnsCompression

  /** memcpy(buf + j, bytes), for what is written so far. */
  method Append(buf: array<byte>, j: nat, bytes: seq<byte>)
    requires j + |bytes| <= buf.Length
    modifies buf
    ensures buf[..j + |bytes|] == old(buf[..j]) + bytes
  {
    Copy(buf, j, bytes);
  }

  /** One turn of Put that writes a label. */
  lemma PutLabel(rest: Text, es: seq<Entry>, j: nat, bufLen: nat, compress: bool, out: seq<byte>)
    requires compress ==> Lookup(es, rest) == None
    requires FirstDot(rest) <= MAX_LABEL_LEN && j + FirstDot(rest) + 1 <= bufLen
    ensures var i := FirstDot(rest);
      var es1 := if compress then Added(es, Entry(rest, j)) else es;
      var o := Prefixed(out, Put(rest, es, j, bufLen, compress));
      if i == |rest| then o == Wrote(out + Framed(rest) + Closing(rest), es1)
      else o == Prefixed(out + Framed(rest[..i]), Put(rest[i + 1..], es1, j + i + 1, bufLen, compress))
  {
    hide Put, Lookup, Framed, Closing, FirstDot, Added;
    PutUnfolds(rest, es, j, bufLen, compress);
    var i := FirstDot(rest);
    if i == |rest| {
      Associate(out, Framed(rest), Closing(rest));
    } else {
      var es1 := if compress then Added(es, Entry(rest, j)) else es;
      var o := Put(rest[i + 1..], es1, j + i + 1, bufLen, compress);
      if o.Wrote? { Associate(out, Framed(rest[..i]), o.bytes); }
    }
  }

  /** The turns of Put that end it without a label. */
  lemma PutEnds(rest: Text, es: seq<Entry>, j: nat, bufLen: nat, compress: bool, out: seq<byte>)
    ensures compress && Lookup(es, rest).Some? ==>
      Prefixed(out, Put(rest, es, j, bufLen, compress)) ==
      if j + 2 > bufLen then Refused(-2, es) else Wrote(out + Pointer(Lookup(es, rest).value), es)
    ensures !(compress && Lookup(es, rest).Some?) && FirstDot(rest) > MAX_LABEL_LEN ==>
      Prefixed(out, Put(rest, es, j, bufLen, compress)) == Refused(-1, es)
    ensures var i := FirstDot(rest);
      !(compress && Lookup(es, rest).Some?) && i <= MAX_LABEL_LEN && j + i + 1 > bufLen ==>
      Prefixed(out, Put(rest, es, j, bufLen, compress)) == Refused(-2, es)
  {
    hide Lookup, Pointer, FirstDot;
  }

  ghost function LabelsOf(table: LabelTable?): seq<Entry>
    reads table
  {
    if table == null then [] else table.labels
  }

  /** dnsname_to_labels.  The closing zero is not checked against buf_len: a name that overruns it
      needs a byte more. */
  method ToLabels(buf: array<byte>, bufLen: nat, j0: nat, name: Text, table: LabelTable?) returns (r: int)
    requires 0 !in name && j0 <= buf.Length && bufLen <= buf.Length
    requires NameOverruns(name, LabelsOf(table), j0, bufLen, table != null) ==> bufLen < buf.Length
    modifies buf, table
    ensures match PutName(name, old(LabelsOf(table)), j0, bufLen, table != null)
      case Refused(code, es) => r == code && r < 0 && LabelsOf(table) == es
      case Wrote(bytes, es) =>
        && r == j0 + |bytes| && r <= bufLen + 1 && r <= buf.Length && LabelsOf(table) == es
        && buf[..r] == old(buf[..j0]) + bytes
  {
    hide Put, Pointer, FirstDot, Lookup, Framed, Added, Overruns;
    if |name| > MAX_NAME_LEN { return -2; }
    ghost var compress := table != null;
    ghost var es := LabelsOf(table);
    ghost var whole := Put(name, es, j0, bufLen, compress);
    ghost var before, out: seq<byte> := buf[..j0], [];
    var rest := name;
    var j := j0;
    Nothing(whole);
    OverrunIff(name, es, j0, bufLen, compress);
    while true
      invariant j0 <= j <= buf.Length && 0 !in rest && j == j0 + |out|
      invariant buf[..j] == before + out
      invariant LabelsOf(table) == es && whole == Prefixed(out, Put(rest, es, j, bufLen, compress))
      decreases |rest|
    {
      PutEnds(rest, es, j, bufLen, compress, out);
      if table != null {
        var ref := table.GetPos(rest);
        if ref.Some? {
          if j + 2 > bufLen { return -2; }
          Append(buf, j, Pointer(ref.value));
          Associate(before, out, Pointer(ref.value));
          return j + 2;
        }
      }
      var labelLen := FirstDot(rest);
      if labelLen > MAX_LABEL_LEN { return -1; }
      if j + labelLen + 1 > bufLen { return -2; }
      PutLabel(rest, es, j, bufLen, compress, out);
      if table != null {
        table.Add(rest, j);
        es := Added(es, Entry(rest, j));
      }
      var l := rest[..labelLen];
      WholeLabel(rest);
      Append(buf, j, Framed(l));
      Associate(before, out, Framed(l));
      out := out + Framed(l);
      j := j + 1 + labelLen;
      if labelLen == |rest| { break; }
      rest := rest[labelLen + 1..];
    }
    r := Close(buf, j, before, out, rest);
  }

  /** The end of dnsname_to_labels: a zero, unless there is one. */
  method Close(buf: array<byte>, j: nat, ghost before: seq<byte>, ghost out: seq<byte>, ghost l: Text) returns (r: nat)
    requires 0 !in l && |l| <= MAX_LABEL_LEN && |l| < |out| && out[|out| - |l| - 1..] == Framed(l)
    requires j <= buf.Length && (l != [] ==> j < buf.Length) && buf[..j] == before + out
    modifies buf
    ensures r == j + |Closing(l)| && buf[..r] == before + (out + Closing(l))
  {
    hide Framed;
    ClosingIs(buf[..j], before, out, l);
    assert j > 0 && buf[..j][j - 1] == buf[j - 1];
    Associate(before, out, Closing(l));
    r := j;
    if buf[j - 1] != 0 {
      Append(buf, j, [0]);
      r := j + 1;
    }
  }

  lemma Associate(a: seq<byte>, b: seq<byte>, c: seq<byte>)
    ensures a + b + c == a + (b + c)
  {
  }

  /** Looking at the last byte tells whether the closing zero is there. */
  lemma ClosingIs(msg: seq<byte>, before: seq<byte>, out: seq<byte>, l: Text)
    requires 0 !in l && |l| <= MAX_LABEL_LEN && msg == before + out
    requires |out| > |l| && out[|out| - |l| - 1..] == Framed(l)
    ensures Closing(l) == if msg[|msg| - 1] != 0 then [0] else []
  {
    FramedLast(l);
    assert msg[|msg| - 1] == out[|out| - |l| - 1..][|l|];
    if l != [] { assert l[|l| - 1] in l; }
  }

  lemma Nothing(o: Outcome)
    ensures Prefixed([], o) == o
  {
    if o.Wrote? { assert [] + o.bytes == o.bytes; }
  }

  lemma FramedLast(l: Text)
    requires |l| <= MAX_LABEL_LEN
    ensures Framed(l)[|l|] == if l == [] then 0 else l[|l| - 1]
  {
    if l != [] { assert Framed(l)[|l|] == Framed(l)[1..][|l| - 1]; }
  }

  lemma WholeLabel(rest: Text)
    ensures FirstDot(rest) == |rest| ==> rest[..|rest|] == rest
  {
  }

  // ---- Whole messages ----

  /** A message is names and other bytes in any order. */
  datatype Piece = Raw(bytes: seq<byte>) | Name(text: Text)

  /** What writing a piece at `j` comes to. */
  function PutPiece(p: Piece, es: seq<Entry>, j: nat, bufLen: nat): Outcome {
    match p
    case Raw(bytes) => if j + |bytes| > bufLen then Refused(-2, es) else Wrote(bytes, es)
    case Name(text) => PutName(text, es, j, bufLen, true)
  }

  /** The message with the pieces added, and where each piece starts and the last one ends; None
      when something does not go in. */
  function Composed(msg: seq<byte>, es: seq<Entry>, pieces: seq<Piece>, bufLen: nat): Option<(seq<byte>, seq<nat>)>
    decreases |pieces|
  {
    if pieces == [] then Some((msg, [|msg|]))
    else
      match PutPiece(pieces[0], es, |msg|, bufLen)
      case Refused(_, _) => None
      case Wrote(bytes, es1) =>
        match Composed(msg + bytes, es1, pieces[1..], bufLen)
        case None => None
        case Some((final, starts)) => Some((final, [|msg|] + starts))
  }

  /** What the pieces make of the part after them. */
  function Ahead(b: seq<nat>, r: Option<(seq<byte>, seq<nat>)>): Option<(seq<byte>, seq<nat>)> {
    match r
    case None => None
    case Some((final, starts)) => Some((final, b + starts))
  }

  /** Some name, up to the first piece that does not go in, overruns buf_len. */
  predicate SomeOverruns(j: nat, es: seq<Entry>, pieces: seq<Piece>, bufLen: nat)
    decreases |pieces|
  {
    if pieces == [] then false
    else
      || (pieces[0].Name? && NameOverruns(pieces[0].text, es, j, bufLen, true))
      || match PutPiece(pieces[0], es, j, bufLen)
         case Refused(_, _) => false
         case Wrote(bytes, es1) => SomeOverruns(j + |bytes|, es1, pieces[1..], bufLen)
  }

  /** The pieces are written to the buffer in turn, with one label table for all the names. */
  method Compose(buf: array<byte>, bufLen: nat, pieces: seq<Piece>) returns (r: Option<(nat, seq<nat>)>)
    requires bufLen <= buf.Length && (SomeOverruns(0, [], pieces, bufLen) ==> bufLen < buf.Length)
    requires forall i :: 0 <= i < |pieces| && pieces[i].Name? ==> 0 !in pieces[i].text
    modifies buf
    ensures match Composed([], [], pieces, bufLen)
      case None => r == None
      case Some((final, starts)) => r == Some((|final|, starts)) && |final| <= buf.Length && buf[..|final|] == final
  {
    hide Put, Composed, SomeOverruns, NameOverruns;
    var table := new LabelTable();
    var j: nat := 0;
    var starts: seq<nat> := [];
    var i := 0;
    assert pieces[0..] == pieces;
    NothingAhead(Composed([], [], pieces, bufLen));
    while i < |pieces|
      invariant 0 <= i <= |pieces| && j <= buf.Length
      invariant SomeOverruns(j, table.labels, pieces[i..], bufLen) ==> bufLen < buf.Length
      invariant Composed([], [], pieces, bufLen) == Ahead(starts, Composed(buf[..j], table.labels, pieces[i..], bufLen))
    {
      ComposedStep(buf[..j], table.labels, pieces[i..], bufLen, starts);
      OverrunStep(j, table.labels, pieces[i..], bufLen);
      assert pieces[i..][1..] == pieces[i + 1..];
      starts := starts + [j];
      match pieces[i] {
        case Raw(bytes) =>
          if j + |bytes| > bufLen { return None; }
          Append(buf, j, bytes);
          j := j + |bytes|;
        case Name(text) =>
          var k := ToLabels(buf, bufLen, j, text, table);
          if k < 0 { return None; }
          j := k;
      }
      i := i + 1;
    }
    ComposedDone(buf[..j], table.labels, bufLen);
    r := Some((j, starts + [j]));
  }

  lemma OverrunStep(j: nat, es: seq<Entry>, pieces: seq<Piece>, bufLen: nat)
    requires pieces != []
    ensures pieces[0].Name? && NameOverruns(pieces[0].text, es, j, bufLen, true) ==>
      SomeOverruns(j, es, pieces, bufLen)
    ensures var o := PutPiece(pieces[0], es, j, bufLen);
      o.Wrote? && SomeOverruns(j + |o.bytes|, o.table, pieces[1..], bufLen) ==> SomeOverruns(j, es, pieces, bufLen)
  {
    hide Put, Overruns;
  }

  lemma NothingAhead(r: Option<(seq<byte>, seq<nat>)>)
    ensures Ahead([], r) == r
  {
    if r.Some? { assert [] + r.value.1 == r.value.1; }
  }

  lemma ComposedDone(msg: seq<byte>, es: seq<Entry>, bufLen: nat)
    ensures Composed(msg, es, [], bufLen) == Some((msg, [|msg|]))
  {
  }

  lemma ComposedStep(msg: seq<byte>, es: seq<Entry>, pieces: seq<Piece>, bufLen: nat, starts: seq<nat>)
    requires pieces != []
    ensures var o := PutPiece(pieces[0], es, |msg|, bufLen);
      Ahead(starts, Composed(msg, es, pieces, bufLen)) ==
        if o.Refused? then None else Ahead(starts + [|msg|], Composed(msg + o.bytes, o.table, pieces[1..], bufLen))
  {
    hide Put;
    var o := PutPiece(pieces[0], es, |msg|, bufLen);
    if o.Wrote? {
      var r := Composed(msg + o.bytes, o.table, pieces[1..], bufLen);
      if r.Some? { assert starts + ([|msg|] + r.value.1) == starts + [|msg|] + r.value.1; }
    }
  }

  /** Later pieces only add. */
  lemma {:induction false} ComposedExtends(msg: seq<byte>, es: seq<Entry>, pieces: seq<Piece>, bufLen: nat)
    requires Composed(msg, es, pieces, bufLen).Some?
    ensures var (final, starts) := Composed(msg, es, pieces, bufLen).value;
      |starts| == |pieces| + 1 && starts[0] == |msg| <= |final| && final[..|msg|] == msg
    decreases |pieces|
  {
    hide Put;
    if pieces == [] { return; }
    var o := PutPiece(pieces[0], es, |msg|, bufLen);
    ComposedExtends(msg + o.bytes, o.table, pieces[1..], bufLen);
    var (final, _) := Composed(msg, es, pieces, bufLen).value;
    assert final[..|msg|] == final[..|msg + o.bytes|][..|msg|] == msg;
  }

  /** A name at `start` in the message reads as what the wire can carry of it, and the reader goes
      on where the writer did. */
  ghost predicate ReadsBack(final: seq<byte>, start: nat, end: nat, text: Text) {
    var r := Walk(final, start, |final|);
    r.Done? && r.labels == Carried(text) && (NoInnerGap(text) ==> r.next == end)
  }

  /** A name notes only places of its own. */
  lemma {:induction false} PutNotes(rest: Text, es: seq<Entry>, j: nat, bufLen: nat, compress: bool)
    ensures var o := Put(rest, es, j, bufLen, compress);
      o.Wrote? ==>
        && |es| <= |o.table| && o.table[..|es|] == es
        && forall i :: |es| <= i < |o.table| ==> j <= o.table[i].pos < j + |o.bytes|
    decreases |rest|
  {
    hide Put, Lookup, FirstDot, Framed, Pointer;
    var i := FirstDot(rest);
    if compress && Lookup(es, rest).Some? {
      PutPoints(rest, es, j, bufLen);
    } else if i > MAX_LABEL_LEN || j + i + 1 > bufLen {
      PutRefuses(rest, es, j, bufLen, compress);
    } else {
      PutUnfolds(rest, es, j, bufLen, compress);
      var es1 := if compress then Added(es, Entry(rest, j)) else es;
      if i < |rest| {
        PutNotes(rest[i + 1..], es1, j + i + 1, bufLen, compress);
        var o := Put(rest[i + 1..], es1, j + i + 1, bufLen, compress);
        if o.Wrote? { NotesOnto(es, es1, o.table); }
      }
    }
  }

  lemma NotesOnto(es: seq<Entry>, es1: seq<Entry>, es2: seq<Entry>)
    requires |es| <= |es1| <= |es2| && es1[..|es|] == es && es2[..|es1|] == es1
    ensures es2[..|es|] == es && forall i :: |es| <= i < |es1| ==> es2[i] == es1[i]
  {
    assert es2[..|es|] == es2[..|es1|][..|es|];
    forall i | |es| <= i < |es1| ensures es2[i] == es1[i] { assert es2[i] == es2[..|es1|][i]; }
  }

  /** Writing one name keeps the table good; and the name reads back if its pointer leads below
      0x4000.  (If not, what it notes is out of the reach of pointers itself.) */
  lemma NameWritten(msg: seq<byte>, es: seq<Entry>, text: Text, bufLen: nat)
    requires TableOk(msg, es) && PutName(text, es, |msg|, bufLen, true).Wrote?
    ensures var o := PutName(text, es, |msg|, bufLen, true);
      var msg1 := msg + o.bytes;
      && TableOk(msg1, o.table)
      && (PointsLow(text, es) ==>
            && ReadsAs(msg1, |msg|, |msg|, Carried(text))
            && (NoInnerGap(text) ==> Walk(msg1, |msg|, |msg|).next == |msg1|))
  {
    hide Put, Walk, Carried, NoInnerGap, Found;
    var o := Put(text, es, |msg|, bufLen, true);
    var msg1 := msg + o.bytes;
    PutNotes(text, es, |msg|, bufLen, true);
    TableKept(msg, o.bytes, es);
    if PointsLow(text, es) {
      PutReads(msg, text, es, |es|, |msg|, bufLen, true);
    } else {
      FoundIsNoted(text, es);
      assert |msg| > POINTER_LIMIT;
    }
    forall i | 0 <= i < |o.table| ensures NotedOk(msg1, o.table[i]) {
      if i < |es| {
        assert o.table[..|es|][i] == es[i];
        assert NotedOk(msg1, es[i]);
      } else if PointsLow(text, es) {
        assert EntryOk(msg1, o.table[i], |msg|);
        WalkMore(msg1, o.table[i].pos, |msg|, o.table[i].pos);
      }
    }
  }

  /** The table when piece `i` is written. */
  function TableAt(j: nat, es: seq<Entry>, pieces: seq<Piece>, bufLen: nat, i: nat): seq<Entry>
    requires i <= |pieces|
    decreases |pieces|
  {
    if i == 0 then es
    else
      var o := PutPiece(pieces[0], es, j, bufLen);
      if o.Refused? then [] else TableAt(j + |o.bytes|, o.table, pieces[1..], bufLen, i - 1)
  }

  /** Every name of a message, of whatever length and however the names share their suffixes, reads
      back if the place its pointer leads to is below 0x4000. */
  lemma {:induction false} AllReadBack(msg: seq<byte>, es: seq<Entry>, pieces: seq<Piece>, bufLen: nat, i: nat)
    requires TableOk(msg, es) && Composed(msg, es, pieces, bufLen).Some?
    requires i < |pieces| && pieces[i].Name? && PointsLow(pieces[i].text, TableAt(|msg|, es, pieces, bufLen, i))
    ensures var (final, starts) := Composed(msg, es, pieces, bufLen).value;
      |starts| == |pieces| + 1 && ReadsBack(final, starts[i], starts[i + 1], pieces[i].text)
    decreases |pieces|
  {
    hide Put, Walk, TableOk, ReadsBack, NoInnerGap, Carried, Found, ReadsAs;
    ComposedExtends(msg, es, pieces, bufLen);
    var o := PutPiece(pieces[0], es, |msg|, bufLen);
    var msg1 := msg + o.bytes;
    ComposedExtends(msg1, o.table, pieces[1..], bufLen);
    if pieces[0].Name? {
      NameWritten(msg, es, pieces[0].text, bufLen);
    } else {
      TableKept(msg, o.bytes, es);
    }
    if i > 0 {
      AllReadBack(msg1, o.table, pieces[1..], bufLen, i - 1);
    } else {
      StillReads(msg1, Composed(msg, es, pieces, bufLen).value.0, |msg|, pieces[0].text);
    }
  }

  lemma StillReads(msg1: seq<byte>, final: seq<byte>, start: nat, text: Text)
    requires |msg1| <= |final| && final[..|msg1|] == msg1 && start <= |msg1|
    requires ReadsAs(msg1, start, start, Carried(text))
    requires NoInnerGap(text) ==> Walk(msg1, start, start).next == |msg1|
    ensures ReadsBack(final, start, |msg1|, text)
  {
    hide Walk, NoInnerGap, Carried;
    WalkLonger(msg1, final, start, start);
    WalkMore(final, start, start, |final|);
  }

  /** The round trip: a well-formed name is parsed to itself, and the index moves to where the
      writer stopped. */
  lemma NamesRoundTrip(pieces: seq<Piece>, bufLen: nat, i: nat, outLen: nat)
    requires Composed([], [], pieces, bufLen).Some?
    requires i < |pieces| && pieces[i].Name? && |pieces[i].text| < outLen
    requires PointsLow(pieces[i].text, TableAt(0, [], pieces, bufLen, i))
    ensures var (final, starts) := Composed([], [], pieces, bufLen).value;
      var text := pieces[i].text;
      && |starts| == |pieces| + 1
      && Parsed(final, starts[i], outLen).Some?
      && (Parsed(final, starts[i], outLen).value.0 == text <==> WellFormed(text))
      && (WellFormed(text) ==> Parsed(final, starts[i], outLen) == Some((text, starts[i + 1])))
  {
    hide Composed, Walk, NoInnerGap, Carried, WellFormed, Join, TableAt, PointsLow;
    AllReadBack([], [], pieces, bufLen, i);
    CarriedIsNameIff(pieces[i].text);
    if WellFormed(pieces[i].text) { WellFormedHasNoGap(pieces[i].text); }
  }

  /** What is noted when piece `i` is written: places before it, in names before it. */
  lemma {:induction false} NotedBefore(msg: seq<byte>, es: seq<Entry>, pieces: seq<Piece>, bufLen: nat, i: nat,
      limit: nat)
    requires Composed(msg, es, pieces, bufLen).Some? && i <= |pieces|
    requires forall k :: 0 <= k < |es| ==> es[k].pos < |msg| && es[k].pos < limit
    ensures |Composed(msg, es, pieces, bufLen).value.1| == |pieces| + 1
    ensures var starts := Composed(msg, es, pieces, bufLen).value.1;
      (forall k :: 0 <= k < i && pieces[k].Name? ==> starts[k + 1] <= limit) ==>
        forall e :: e in TableAt(|msg|, es, pieces, bufLen, i) ==> e.pos < starts[i] && e.pos < limit
    decreases |pieces|
  {
    hide Put;
    ComposedExtends(msg, es, pieces, bufLen);
    var starts := Composed(msg, es, pieces, bufLen).value.1;
    if i > 0 && (forall k :: 0 <= k < i && pieces[k].Name? ==> starts[k + 1] <= limit) {
      var o := PutPiece(pieces[0], es, |msg|, bufLen);
      var rest := Composed(msg + o.bytes, o.table, pieces[1..], bufLen);
      ComposedExtends(msg + o.bytes, o.table, pieces[1..], bufLen);
      assert starts == [|msg|] + rest.value.1;
      assert forall k :: 0 <= k < i - 1 && pieces[1..][k].Name? ==>
        starts[(k + 1) + 1] == rest.value.1[k + 1] && pieces[k + 1].Name?;
      if pieces[0].Name? { PutNotes(pieces[0].text, es, |msg|, bufLen, true); }
      forall k | 0 <= k < |o.table| ensures o.table[k].pos < |msg + o.bytes| && o.table[k].pos < limit {
        if k < |es| { assert o.table[..|es|][k] == es[k] || o.table == es; }
      }
      NotedBefore(msg + o.bytes, o.table, pieces[1..], bufLen, i - 1, limit);
    }
  }

  /** A name that starts at or below 0x4000, or after names that all end there, points below it:
      whatever the length of the message, it reads back. */
  lemma PointsLowWhen(pieces: seq<Piece>, bufLen: nat, i: nat)
    requires Composed([], [], pieces, bufLen).Some? && i < |pieces| && pieces[i].Name?
    ensures |Composed([], [], pieces, bufLen).value.1| == |pieces| + 1
    ensures var starts := Composed([], [], pieces, bufLen).value.1;
      starts[i] <= POINTER_LIMIT || (forall k :: 0 <= k < i && pieces[k].Name? ==> starts[k + 1] <= POINTER_LIMIT) ==>
        PointsLow(pieces[i].text, TableAt(0, [], pieces, bufLen, i))
  {
    hide Composed, TableAt, Found;
    var r := Composed([], [], pieces, bufLen).value;
    var es := TableAt(0, [], pieces, bufLen, i);
    NotedBefore([], [], pieces, bufLen, i, POINTER_LIMIT);
    StartsRise([], [], pieces, bufLen, i);
    NotedBefore([], [], pieces, bufLen, i, |r.0|);
    if Found(pieces[i].text, es).Some? {
      FoundIsNoted(pieces[i].text, es);
      var k :| 0 <= k < |es| && es[k].pos == Found(pieces[i].text, es).value;
      assert es[k] in es;
    }
  }

  lemma {:induction false} StartsRise(msg: seq<byte>, es: seq<Entry>, pieces: seq<Piece>, bufLen: nat, i: nat)
    requires Composed(msg, es, pieces, bufLen).Some? && i <= |pieces|
    ensures var (final, starts) := Composed(msg, es, pieces, bufLen).value;
      |starts| == |pieces| + 1 && forall k :: 0 <= k <= |pieces| ==> starts[k] <= |final|
    decreases |pieces|
  {
    hide Put;
    ComposedExtends(msg, es, pieces, bufLen);
    if pieces != [] {
      var o := PutPiece(pieces[0], es, |msg|, bufLen);
      StartsRise(msg + o.bytes, o.table, pieces[1..], bufLen, 0);
    }
  }

  // ---- Beyond 0x4000 ----

  /** The suffix that Found finds. */
  function FoundText(rest: Text, es: seq<Entry>): Text
    decreases |rest|
  {
    var i := FirstDot(rest);
    if Lookup(es, rest).Some? || i == |rest| then rest else FoundText(rest[i + 1..], es)
  }

  /** No label before the pointer is empty, so that a reader gets as far as the pointer. */
  predicate Reaches(rest: Text, es: seq<Entry>)
    decreases |rest|
  {
    var i := FirstDot(rest);
    Lookup(es, rest).Some? || (0 < i < |rest| && Reaches(rest[i + 1..], es))
  }

  /** A name that ends in a pointer reads back exactly when the place the mask leaves of its target
      reads as the suffix, or the reader never gets there. */
  lemma {:induction false} PointedReadsIff(m: seq<byte>, j: nat, rest: Text, es: seq<Entry>, bufLen: nat, jumps: nat)
    requires Found(rest, es).Some? && Found(rest, es).value < |m| && jumps > 0
    requires var o := Put(rest, es, j, bufLen, true);
      o.Wrote? && j + |o.bytes| <= |m| && m[j..j + |o.bytes|] == o.bytes
    ensures ReadsAs(m, j, jumps, Carried(rest)) <==>
      (Reaches(rest, es) ==> ReadsAs(m, Found(rest, es).value % POINTER_LIMIT, jumps - 1, Carried(FoundText(rest, es))))
    decreases |rest|
  {
    hide Put, Lookup, FirstDot, Found, FoundText, Reaches, Framed, Pointer, ReadsAs, Carried, Added;
    var i := FirstDot(rest);
    var o := Put(rest, es, j, bufLen, true);
    FoundAtOnce(rest, es);
    if Lookup(es, rest).Some? {
      PutPoints(rest, es, j, bufLen);
      PointedAtOnce(m, j, rest, es, jumps);
    } else if i > MAX_LABEL_LEN || j + i + 1 > bufLen {
      PutRefuses(rest, es, j, bufLen, true);
    } else {
      PutUnfolds(rest, es, j, bufLen, true);
      var r, es1 := rest[i + 1..], Added(es, Entry(rest, j));
      FoundKept(r, es, Entry(rest, j));
      FoundUnfolds(rest, es, i, r);
      TextKept(r, es, Entry(rest, j));
      var o1 := Put(r, es1, j + i + 1, bufLen, true);
      Parts(m, j, Framed(rest[..i]), o1.bytes);
      PointedReadsIff(m, j + i + 1, r, es1, bufLen, jumps);
      LabelCarried(m, j, rest, i, jumps);
      PathUnfolds(rest, es, i, r);
    }
  }

  lemma PathUnfolds(rest: Text, es: seq<Entry>, i: nat, r: Text)
    requires Lookup(es, rest) == None && i == FirstDot(rest) < |rest| && r == rest[i + 1..]
    ensures FoundText(rest, es) == FoundText(r, es) && (Reaches(rest, es) <==> i > 0 && Reaches(r, es))
  {
    hide Lookup, FirstDot;
  }

  lemma Parts(m: seq<byte>, j: nat, a: seq<byte>, b: seq<byte>)
    requires j + |a| + |b| <= |m| && m[j..j + |a + b|] == a + b && |a| > 0
    ensures m[j + |a|..j + |a| + |b|] == b && m[j] == a[0] && m[j + 1..j + |a|] == a[1..]
  {
    var w := m[j..j + |a + b|];
    SubSlice(m, j, |a + b|, 0, 1);
    SubSlice(m, j, |a + b|, 1, |a|);
    SubSlice(m, j, |a + b|, |a|, |a| + |b|);
    assert w[0] == a[0] && w[1..|a|] == a[1..] && w[|a|..|a| + |b|] == b;
    assert m[j] == w[0];
  }

  lemma SubSlice(m: seq<byte>, i: nat, n: nat, a: nat, b: nat)
    requires i + n <= |m| && a <= b <= n
    ensures m[i..i + n][a..b] == m[i + a..i + b]
  {
    var w, x, y := m[i..i + n], m[i..i + n][a..b], m[i + a..i + b];
    assert |x| == |y| == b - a;
    forall k | 0 <= k < |x| ensures x[k] == y[k] { assert x[k] == w[a + k] == m[i + a + k]; }
  }

  lemma PointedAtOnce(m: seq<byte>, j: nat, rest: Text, es: seq<Entry>, jumps: nat)
    requires Lookup(es, rest).Some? && Lookup(es, rest).value < |m| && jumps > 0
    requires j + 2 <= |m| && m[j..j + 2] == Pointer(Lookup(es, rest).value)
    ensures Reaches(rest, es) && FoundText(rest, es) == rest
    ensures ReadsAs(m, j, jumps, Carried(rest)) <==>
      ReadsAs(m, Lookup(es, rest).value % POINTER_LIMIT, jumps - 1, Carried(rest))
  {
    hide Lookup, FirstDot, Carried, Pointer;
    var p := Lookup(es, rest).value;
    PointerIsFaithfulIff(p);
    assert m[j] == m[j..j + 2][0] && m[j + 1] == m[j..j + 2][1];
    assert p % POINTER_LIMIT < |m|;
  }

  /** One label in front changes nothing; an empty one ends the name for reader and wire alike. */
  lemma LabelCarried(m: seq<byte>, j: nat, rest: Text, i: nat, jumps: nat)
    requires i == FirstDot(rest) < |rest| && i <= MAX_LABEL_LEN && j + i + 1 <= |m| && m[j] == i
    requires m[j + 1..j + 1 + i] == rest[..i]
    ensures i == 0 ==> ReadsAs(m, j, jumps, Carried(rest))
    ensures i > 0 ==> (ReadsAs(m, j, jumps, Carried(rest)) <==> ReadsAs(m, j + i + 1, jumps, Carried(rest[i + 1..])))
  {
    hide FirstDot, Walk, Carried;
    if i > 0 {
      CarriedUnfolds(rest, i, rest[..i], rest[i + 1..]);
      WalkLabel(m, j, jumps);
      var r := Walk(m, j + i + 1, jumps);
      if r.Done? { SameTail(rest[..i], r.labels, Carried(rest[i + 1..])); }
    } else {
      NothingCarried(rest);
      WalkZero(m, j, jumps);
    }
  }

  lemma WalkZero(m: seq<byte>, j: nat, jumps: nat)
    requires j < |m| && m[j] == 0
    ensures Walk(m, j, jumps) == Done([], j + 1)
  {
  }

  lemma SameTail(l: Text, a: seq<Text>, b: seq<Text>)
    ensures [l] + a == [l] + b <==> a == b
  {
    assert ([l] + a)[1..] == a && ([l] + b)[1..] == b;
  }

  lemma {:induction false} TextKept(rest: Text, es: seq<Entry>, e: Entry)
    requires |e.text| > |rest|
    ensures FoundText(rest, Added(es, e)) == FoundText(rest, es) && (Reaches(rest, Added(es, e)) <==> Reaches(rest, es))
    decreases |rest|
  {
    hide Lookup, FirstDot;
    LookupKept(es, e, rest);
    if FirstDot(rest) < |rest| { TextKept(rest[FirstDot(rest) + 1..], es, e); }
  }

  lemma SomeBytes(rest: Text, es: seq<Entry>, j: nat, bufLen: nat)
    ensures var o := Put(rest, es, j, bufLen, true); o.Wrote? ==> |o.bytes| > 0
  {
    hide Lookup, FirstDot, Pointer;
  }

  /** Each piece of a message is where it starts, as the table then had it. */
  lemma {:induction false} PieceBytes(msg: seq<byte>, es: seq<Entry>, pieces: seq<Piece>, bufLen: nat, i: nat)
    requires Composed(msg, es, pieces, bufLen).Some? && i < |pieces|
    ensures var (final, starts) := Composed(msg, es, pieces, bufLen).value;
      && |starts| == |pieces| + 1
      && var o := PutPiece(pieces[i], TableAt(|msg|, es, pieces, bufLen, i), starts[i], bufLen);
         o.Wrote? && starts[i] + |o.bytes| == starts[i + 1] <= |final| && final[starts[i]..starts[i + 1]] == o.bytes
    decreases |pieces|
  {
    hide Put;
    var o := PutPiece(pieces[0], es, |msg|, bufLen);
    ComposedExtends(msg, es, pieces, bufLen);
    ComposedExtends(msg + o.bytes, o.table, pieces[1..], bufLen);
    if i > 0 {
      PieceBytes(msg + o.bytes, o.table, pieces[1..], bufLen, i - 1);
    } else {
      var final := Composed(msg, es, pieces, bufLen).value.0;
      var m1 := msg + o.bytes;
      assert final[|msg|..|m1|] == final[..|m1|][|msg|..] == o.bytes;
    }
  }

  /** Exactly when name `i` of a message reads back: it points below 0x4000 or nowhere, or has an
      empty label before its pointer, or the mask happens to leave a place that says the same. */
  lemma ReadsBackIff(pieces: seq<Piece>, bufLen: nat, i: nat)
    requires Composed([], [], pieces, bufLen).Some? && i < |pieces| && pieces[i].Name?
    ensures var (final, starts) := Composed([], [], pieces, bufLen).value;
      var text, es := pieces[i].text, TableAt(0, [], pieces, bufLen, i);
      && |starts| == |pieces| + 1 && |final| > 0
      && (ReadsAs(final, starts[i], |final|, Carried(text)) <==>
            || PointsLow(text, es) || !Reaches(text, es)
            || ReadsAs(final, Found(text, es).value % POINTER_LIMIT, |final| - 1, Carried(FoundText(text, es))))
  {
    hide Composed, TableAt, Found, FoundText, Reaches, Carried, Put, Walk, NoInnerGap;
    var (final, starts) := Composed([], [], pieces, bufLen).value;
    var text, es := pieces[i].text, TableAt(0, [], pieces, bufLen, i);
    PieceBytes([], [], pieces, bufLen, i);
    SomeBytes(text, es, starts[i], bufLen);
    if PointsLow(text, es) {
      AllReadBack([], [], pieces, bufLen, i);
    } else {
      NotedBefore([], [], pieces, bufLen, i, |final|);
      StartsRise([], [], pieces, bufLen, i);
      FoundIsNoted(text, es);
      var k :| 0 <= k < |es| && es[k].pos == Found(text, es).value;
      assert es[k] in es;
      PointedReadsIff(final, starts[i], text, es, bufLen, |final|);
    }
  }

  /** A name noted at 0x4000 is pointed to as if it were at 0: in a message of 0x4000 zeros, "a" and
      "a", the second "a" reads back as the empty name. */
  lemma HighNameMisread(zeros: seq<byte>, bufLen: nat)
    requires |zeros| == POINTER_LIMIT && zeros[0] == 0 && bufLen >= POINTER_LIMIT + 5
    ensures var pieces := [Raw(zeros), Name([97]), Name([97])];
      var r := Composed([], [], pieces, bufLen);
      && r.Some? && r.value.1 == [0, POINTER_LIMIT, POINTER_LIMIT + 3, POINTER_LIMIT + 5]
      && Parsed(r.value.0, POINTER_LIMIT + 3, 256) == Some(([], (POINTER_LIMIT + 5) as nat))
      && !PointsLow([97], TableAt(0, [], pieces, bufLen, 2))
  {
    hide Put, Walk, Pointer, Lookup;
    var a: Text := [97];
    var pieces := [Raw(zeros), Name(a), Name(a)];
    var noted := [Entry(a, POINTER_LIMIT)];
    var m2 := zeros + [1, 97, 0];
    var m3 := m2 + Pointer(POINTER_LIMIT);
    HighPuts(bufLen);
    assert [] + zeros == zeros;
    assert pieces[1..] == [Name(a), Name(a)] && pieces[1..][1..] == [Name(a)] && [Name(a)][1..] == [];
    assert Composed(m3, noted, [], bufLen) == Some((m3, [POINTER_LIMIT + 5]));
    assert Composed(m2, noted, [Name(a)], bufLen) == Some((m3, [POINTER_LIMIT + 3] + [POINTER_LIMIT + 5]));
    assert Composed(zeros, [], pieces[1..], bufLen)
      == Some((m3, [POINTER_LIMIT] + ([POINTER_LIMIT + 3] + [POINTER_LIMIT + 5])));
    assert TableAt(POINTER_LIMIT, [], pieces[1..], bufLen, 1)
      == TableAt(POINTER_LIMIT + 3, noted, [Name(a)], bufLen, 0);
    FoundAtOnce(a, noted);
    HighReads(m3);
  }

  lemma HighPuts(bufLen: nat)
    requires bufLen >= POINTER_LIMIT + 5
    ensures var noted := [Entry([97], POINTER_LIMIT)];
      && PutName([97], [], POINTER_LIMIT, bufLen, true) == Wrote([1, 97, 0], noted)
      && Lookup(noted, [97]) == Some(POINTER_LIMIT)
      && PutName([97], noted, POINTER_LIMIT + 3, bufLen, true) == Wrote(Pointer(POINTER_LIMIT), noted)
  {
    hide Pointer;
    assert FirstDot([97]) == 1;
    assert Framed([97]) == [1, 97] && [1, 97] + [0] == [1, 97, 0];
    PutPoints([97], [Entry([97], POINTER_LIMIT)], POINTER_LIMIT + 3, bufLen);
  }

  lemma HighReads(m: seq<byte>)
    requires |m| == POINTER_LIMIT + 5 && m[0] == 0 && m[POINTER_LIMIT + 3..] == Pointer(POINTER_LIMIT)
    ensures Parsed(m, POINTER_LIMIT + 3, 256) == Some(([], (POINTER_LIMIT + 5) as nat))
  {
    hide Pointer;
    PointerIsFaithfulIff(POINTER_LIMIT);
    var j := POINTER_LIMIT + 3;
    assert m[j] == m[j..][0] && m[j + 1] == m[j..][1];
    assert Walk(m, 0, |m| - 1) == Done([], 1);
    WalkPointer(m, j, |m|);
  }
}
