/** Lists of object numbers: what taking out and putting in does to them. */
module Queues {

  ghost predicate NoDup(q: seq<nat>) {
    forall i, j :: 0 <= i < j < |q| ==> q[i] != q[j]
  }

  function IndexOf(q: seq<nat>, x: nat): (r: nat)
    requires x in q
    ensures r < |q| && q[r] == x
  {
    if q[0] == x then 0 else 1 + IndexOf(q[1..], x)
  }

  /** Unlinking an element. */
  function Without(q: seq<nat>, x: nat): seq<nat> {
    if x in q then
      var j := IndexOf(q, x);
      q[..j] + q[j + 1..]
    else q
  }

  lemma WithoutIs(q: seq<nat>, x: nat)
    requires x in q
    ensures Without(q, x) == q[..IndexOf(q, x)] + q[IndexOf(q, x) + 1..]
  {
  }

  lemma WithoutFacts(q: seq<nat>, x: nat)
    requires x in q && NoDup(q)
    ensures NoDup(Without(q, x)) && |Without(q, x)| == |q| - 1
    ensures forall y :: y in Without(q, x) <==> y in q && y != x
  {
    hide Without, IndexOf;
    WithoutIs(q, x);
    var j, r := IndexOf(q, x), Without(q, x);
    forall y | y in q && y != x ensures y in r {
      var k :| 0 <= k < |q| && q[k] == y;
      if k < j { assert r[k] == y; } else { assert r[k - 1] == y; }
    }
    assert NoDup(r) by {
      forall a, b | 0 <= a < b < |r| ensures r[a] != r[b] {
        assert r[a] == q[if a < j then a else a + 1] && r[b] == q[if b < j then b else b + 1];
      }
    }
    forall y | y in r ensures y in q && y != x {
      var k :| 0 <= k < |r| && r[k] == y;
      assert r[k] == q[if k < j then k else k + 1];
    }
  }

  lemma SnocFacts(q: seq<nat>, x: nat)
    requires x !in q && NoDup(q)
    ensures NoDup(q + [x])
    ensures forall y :: y in q + [x] <==> y in q || y == x
  {
  }

  ghost function TotalLength(qs: seq<seq<nat>>): nat {
    if qs == [] then 0 else |qs[0]| + TotalLength(qs[1..])
  }

  lemma {:induction false} TotalLengthUpdate(qs: seq<seq<nat>>, p: nat, q: seq<nat>)
    requires p < |qs|
    ensures TotalLength(qs[p := q]) == TotalLength(qs) - |qs[p]| + |q|
  {
    if p == 0 {
      assert qs[0 := q][1..] == qs[1..];
    } else {
      TotalLengthUpdate(qs[1..], p - 1, q);
      assert qs[p := q][1..] == qs[1..][p - 1 := q];
    }
  }
}
