/** DNS names as text and on the wire: name_parse, with its pointers and its loop guard. */
module DnsNames {
  import opened Basics

  const DOT: byte := 46

  /** A C string without its terminator. */
  type Text = seq<byte>

  /** strchr(s, '.'): where the first label ends. */
  function FirstDot(s: Text): (i: nat)
    ensures i <= |s| && (i < |s| ==> s[i] == DOT) && DOT !in s[..i]
  {
    if s == [] || s[0] == DOT then 0
    else
      var i := FirstDot(s[1..]);
      assert s[..i + 1] == [s[0]] + s[1..][..i];
      i + 1
  }

  /** Labels with dots between them. */
  function Join(ls: seq<Text>): Text {
    if ls == [] then [] else if |ls| == 1 then ls[0] else ls[0] + [DOT] + Join(ls[1..])
  }

  lemma {:induction false} JoinSnoc(ls: seq<Text>, l: Text)
    ensures Join(ls + [l]) == if ls == [] then l else Join(ls) + [DOT] + l
  {
    if ls != [] {
      JoinSnoc(ls[1..], l);
      assert (ls + [l])[1..] == ls[1..] + [l];
      if |ls| > 1 {
        assert Join(ls + [l]) == ls[0] + [DOT] + (Join(ls[1..]) + [DOT] + l);
      }
    }
  }

  lemma {:induction false} JoinGrows(ls: seq<Text>, more: seq<Text>)
    ensures |Join(ls)| <= |Join(ls + more)|
    decreases |more|
  {
    if more == [] {
      assert ls + more == ls;
    } else {
      JoinSnoc(ls, more[0]);
      JoinGrows(ls + [more[0]], more[1..]);
      assert ls + more == ls + [more[0]] + more[1..];
    }
  }

  /** What reading a name gives: nothing, or its labels and where it ends. */
  datatype Reading = Fail | Done(labels: seq<Text>, next: nat)

  /** The target of a compression pointer: fourteen bits. */
  function Target(hi: byte, lo: byte): nat {
    hi % 64 * 256 + lo
  }

  /** Read the name at `j`, following at most `jumps` pointers. */
  function Walk(p: seq<byte>, j: nat, jumps: nat): (r: Reading)
    ensures r.Done? ==> forall l :: l in r.labels ==> 0 < |l| < 64
    decreases jumps, |p| - j
  {
    if j >= |p| then Fail
    else if p[j] == 0 then Done([], j + 1)
    else if p[j] >= 64 then
      if j + 1 >= |p| || Target(p[j], p[j + 1]) >= |p| || jumps == 0 then Fail
      else
        match Walk(p, Target(p[j], p[j + 1]), jumps - 1)
        case Fail => Fail
        case Done(ls, _) => Done(ls, j + 2)
    else if j + 1 + p[j] > |p| then Fail
    else
      match Walk(p, j + 1 + p[j], jumps)
      case Fail => Fail
      case Done(ls, n) => Done([p[j + 1..j + 1 + p[j]]] + ls, n)
  }

  lemma WalkPointer(p: seq<byte>, j: nat, jumps: nat)
    requires j + 1 < |p| && p[j] >= 64 && jumps > 0 && Target(p[j], p[j + 1]) < |p|
    ensures var r := Walk(p, Target(p[j], p[j + 1]), jumps - 1);
      r.Done? ==> Walk(p, j, jumps) == Done(r.labels, j + 2)
  {
  }

  lemma WalkLabel(p: seq<byte>, j: nat, jumps: nat)
    requires j < |p| && 0 < p[j] < 64 && j + 1 + p[j] <= |p|
    ensures var r := Walk(p, j + 1 + p[j], jumps);
      Walk(p, j, jumps) == if r.Done? then Done([p[j + 1..j + 1 + p[j]]] + r.labels, r.next) else Fail
  {
  }

  /** What name_parse makes of a packet: the dotted text if it fits with its terminator, and the
      new index. */
  function Parsed(p: seq<byte>, idx: nat, outLen: nat): Option<(Text, nat)> {
    match Walk(p, idx, |p|)
    case Fail => None
    case Done(ls, next) => if |Join(ls)| < outLen then Some((Join(ls), next)) else None
  }

  /** What is found so far, ahead of what is found from here on. */
  function Continued(before: seq<Text>, nameEnd: Option<nat>, r: Reading): Reading {
    match r
    case Fail => Fail
    case Done(ls, n) => Done(before + ls, if nameEnd.Some? then nameEnd.value else n)
  }

  /** name_parse.  It ends on every packet: each turn uses up a jump or reads on. */
  method NameParse(packet: seq<byte>, idx: nat, outLen: nat) returns (r: Option<(Text, nat)>)
    ensures r == Parsed(packet, idx, outLen)
    ensures r.Some? ==> |r.value.0| + 1 <= outLen && idx < r.value.1 <= |packet|
  {
    hide Join, Walk, Continued;
    var nameEnd: Option<nat> := None;
    var j: nat := idx;
    var ptrCount: nat := 0;
    var text: Text := [];
    ghost var found: seq<Text> := [];
    ghost var whole := Walk(packet, idx, |packet|);
    NextIsSkip(packet, idx, |packet|);
    NothingFound(whole);
    while true
      invariant ptrCount <= |packet| && (j <= |packet| || j == idx)
      invariant text == Join(found) && (found == [] <==> text == [])
      invariant whole == Continued(found, nameEnd, Walk(packet, j, |packet| - ptrCount))
      decreases |packet| - ptrCount, |packet| - j
    {
      NameEnds(packet, found, nameEnd, j, |packet| - ptrCount);
      if j >= |packet| { return None; }
      var labelLen := packet[j];
      j := j + 1;
      if labelLen == 0 { break; }
      if labelLen >= 64 {
        PointerFound(packet, found, nameEnd, j - 1, |packet| - ptrCount);
        if j >= |packet| { return None; }
        var ptrLow := packet[j];
        j := j + 1;
        if nameEnd == None { nameEnd := Some(j); }
        j := Target(labelLen, ptrLow);
        if j >= |packet| { return None; }
        ptrCount := ptrCount + 1;
        if ptrCount > |packet| { return None; }
        continue;
      }
      LabelFound(packet, found, nameEnd, j - 1, |packet| - ptrCount);
      if text != [] {
        if |text| + 1 >= outLen { return None; }
        text := text + [DOT];
      }
      if |text| + labelLen >= outLen { return None; }
      if j + labelLen > |packet| { return None; }
      text := text + packet[j..j + labelLen];
      found := found + [packet[j..j + labelLen]];
      j := j + labelLen;
    }
    if |text| >= outLen { return None; }
    r := Some((text, if nameEnd == None then j else nameEnd.value));
  }

  lemma NothingFound(r: Reading)
    ensures Join([]) == [] && Continued([], None, r) == r
  {
    if r.Done? { assert [] + r.labels == r.labels; }
  }

  /** A turn that ends the walk. */
  lemma NameEnds(p: seq<byte>, found: seq<Text>, nameEnd: Option<nat>, j: nat, jumps: nat)
    ensures j >= |p| ==> Continued(found, nameEnd, Walk(p, j, jumps)) == Fail
    ensures j < |p| && p[j] == 0 ==>
      Continued(found, nameEnd, Walk(p, j, jumps)) == Done(found, if nameEnd.Some? then nameEnd.value else j + 1)
  {
    assert found + [] == found;
  }

  /** A turn that follows a pointer, or cannot. */
  lemma PointerFound(p: seq<byte>, found: seq<Text>, nameEnd: Option<nat>, j: nat, jumps: nat)
    requires j < |p| && p[j] >= 64
    ensures Continued(found, nameEnd, Walk(p, j, jumps)) ==
      if j + 1 >= |p| || Target(p[j], p[j + 1]) >= |p| || jumps == 0 then Fail
      else
        var end := if nameEnd == None then Some(j + 2) else nameEnd;
        Continued(found, end, Walk(p, Target(p[j], p[j + 1]), jumps - 1))
  {
  }

  /** A turn that reads a label, which makes the text at least that much longer. */
  lemma LabelFound(p: seq<byte>, found: seq<Text>, nameEnd: Option<nat>, j: nat, jumps: nat)
    requires j < |p| && 0 < p[j] < 64
    ensures var whole := Continued(found, nameEnd, Walk(p, j, jumps));
      if j + 1 + p[j] > |p| then whole == Fail
      else
        var l := p[j + 1..j + 1 + p[j]];
        && whole == Continued(found + [l], nameEnd, Walk(p, j + 1 + p[j], jumps))
        && Join(found + [l]) == (if found == [] then l else Join(found) + [DOT] + l)
        && (whole.Done? ==> |Join(found + [l])| <= |Join(whole.labels)|)
  {
    hide Join;
    if j + 1 + p[j] > |p| { return; }
    var l := p[j + 1..j + 1 + p[j]];
    JoinSnoc(found, l);
    match Walk(p, j + 1 + p[j], jumps)
    case Fail =>
    case Done(ls, n) =>
      assert found + ([l] + ls) == found + [l] + ls;
      JoinGrows(found + [l], ls);
  }

  /** Where a name ends for whoever reads on: past its zero, or past its first pointer. */
  function Skip(p: seq<byte>, j: nat): Option<nat>
    decreases |p| - j
  {
    if j >= |p| then None
    else if p[j] == 0 then Some(j + 1)
    else if p[j] >= 64 then Some(j + 2)
    else Skip(p, j + 1 + p[j])
  }

  lemma {:induction false} NextIsSkip(p: seq<byte>, j: nat, jumps: nat)
    ensures match Walk(p, j, jumps) case Fail => true case Done(_, next) => Skip(p, j) == Some(next) && j < next <= |p|
    decreases |p| - j
  {
    if j < |p| && 0 < p[j] < 64 && j + 1 + p[j] <= |p| { NextIsSkip(p, j + 1 + p[j], jumps); }
  }

  /** More jumps allowed change nothing for a name that has been read. */
  lemma {:induction false} WalkMore(p: seq<byte>, j: nat, k: nat, more: nat)
    requires Walk(p, j, k).Done? && k <= more
    ensures Walk(p, j, more) == Walk(p, j, k)
    decreases k, |p| - j
  {
    if p[j] >= 64 {
      WalkMore(p, Target(p[j], p[j + 1]), k - 1, more - 1);
    } else if p[j] > 0 {
      WalkMore(p, j + 1 + p[j], k, more);
    }
  }

  /** Nor do more bytes after it. */
  lemma {:induction false} WalkLonger(p: seq<byte>, q: seq<byte>, j: nat, k: nat)
    requires Walk(p, j, k).Done? && |p| <= |q| && q[..|p|] == p
    ensures Walk(q, j, k) == Walk(p, j, k)
    decreases k, |p| - j
  {
    assert forall i :: 0 <= i < |p| ==> q[i] == q[..|p|][i];
    if p[j] >= 64 {
      WalkLonger(p, q, Target(p[j], p[j + 1]), k - 1);
    } else if p[j] > 0 {
      assert q[j + 1..j + 1 + p[j]] == p[j + 1..j + 1 + p[j]];
      WalkLonger(p, q, j + 1 + p[j], k);
    }
  }

  // ---- The loop guard refuses nothing but loops ----

  /** The places a name's pointers lead to, in turn. */
  function Targets(p: seq<byte>, j: nat, k: nat): seq<nat>
    requires Walk(p, j, k).Done?
    decreases k, |p| - j
  {
    if p[j] == 0 then []
    else if p[j] >= 64 then [Target(p[j], p[j + 1])] + Targets(p, Target(p[j], p[j + 1]), k - 1)
    else Targets(p, j + 1 + p[j], k)
  }

  lemma {:induction false} TargetsInside(p: seq<byte>, j: nat, k: nat)
    requires Walk(p, j, k).Done?
    ensures |Targets(p, j, k)| <= k && forall i :: 0 <= i < |Targets(p, j, k)| ==> Targets(p, j, k)[i] < |p|
    decreases k, |p| - j
  {
    if p[j] >= 64 {
      TargetsInside(p, Target(p[j], p[j + 1]), k - 1);
    } else if p[j] > 0 {
      TargetsInside(p, j + 1 + p[j], k);
    }
  }

  /** A name needs as many jumps as it has targets, and no more. */
  lemma {:induction false} EnoughJumps(p: seq<byte>, j: nat, k: nat, few: nat)
    requires Walk(p, j, k).Done? && |Targets(p, j, k)| <= few
    ensures Walk(p, j, few) == Walk(p, j, k) && Targets(p, j, few) == Targets(p, j, k)
    decreases k, |p| - j
  {
    if p[j] >= 64 {
      EnoughJumps(p, Target(p[j], p[j + 1]), k - 1, few - 1);
    } else if p[j] > 0 {
      EnoughJumps(p, j + 1 + p[j], k, few);
    }
  }

  /** What follows a target is what is left of the list of targets. */
  lemma {:induction false} TargetsFrom(p: seq<byte>, j: nat, k: nat, i: nat)
    requires Walk(p, j, k).Done? && i < |Targets(p, j, k)|
    ensures i < k && Walk(p, Targets(p, j, k)[i], k - 1 - i).Done?
    ensures |Targets(p, Targets(p, j, k)[i], k - 1 - i)| == |Targets(p, j, k)| - i - 1
    decreases k, |p| - j
  {
    if p[j] >= 64 {
      if i > 0 { TargetsFrom(p, Target(p[j], p[j + 1]), k - 1, i - 1); }
    } else if p[j] > 0 {
      TargetsFrom(p, j + 1 + p[j], k, i);
    }
  }

  /** No pointer is followed twice: the walk from a place is always the same. */
  lemma TargetsDistinct(p: seq<byte>, j: nat, k: nat)
    requires Walk(p, j, k).Done?
    ensures var ts := Targets(p, j, k); forall a, b :: 0 <= a < b < |ts| ==> ts[a] != ts[b]
  {
    hide Walk, Targets;
    var ts := Targets(p, j, k);
    forall a, b | 0 <= a < b < |ts| ensures ts[a] != ts[b] {
      TargetsFrom(p, j, k, a);
      TargetsFrom(p, j, k, b);
      TargetsInside(p, ts[b], k - 1 - b);
      EnoughJumps(p, ts[b], k - 1 - b, k - 1 - a);
    }
  }

  /** Different numbers below n are at most n. */
  lemma {:induction false} Pigeonhole(ts: seq<nat>, n: nat)
    requires forall a, b :: 0 <= a < b < |ts| ==> ts[a] != ts[b]
    requires forall i :: 0 <= i < |ts| ==> ts[i] < n
    ensures |ts| <= n
    decreases n
  {
    if ts != [] {
      assert ts[0] < n;
      if i :| 0 <= i < |ts| && ts[i] == n - 1 {
        Pigeonhole(ts[..i] + ts[i + 1..], n - 1);
      } else {
        Pigeonhole(ts, n - 1);
      }
    }
  }

  /** Any name that can be read at all is read within the jumps name_parse allows: only a loop of
      pointers runs into the guard. */
  lemma GuardIsExact(p: seq<byte>, j: nat, k: nat)
    requires Walk(p, j, k).Done?
    ensures Walk(p, j, |p|) == Walk(p, j, k)
  {
    TargetsInside(p, j, k);
    TargetsDistinct(p, j, k);
    Pigeonhole(Targets(p, j, k), |p|);
    EnoughJumps(p, j, k, |p|);
  }
}
