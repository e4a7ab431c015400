/** Which rings of nodes there are after any sequence of artnet_join calls. PeerRings.dfy proves
    that the `peer` pointers form exactly these rings. */
module Rings {
  import opened Common

  /** Rings of node numbers, each starting anywhere. */
  type Ring = seq<nat>

  predicate Distinct(r: Ring) { forall i, j | 0 <= i < j < |r| :: r[i] != r[j] }

  function Rotate(r: Ring, k: nat): (r': Ring)
    requires k <= |r|
    ensures |r'| == |r|
  {
    r[k..] + r[..k]
  }

  function IndexOf(r: Ring, x: nat): (k: nat)
    requires x in r
    ensures k < |r| && r[k] == x
  {
    if r[0] == x then 0 else 1 + IndexOf(r[1..], x)
  }

  /** The ring seen from one of its members. */
  function From(r: Ring, x: nat): (r': Ring)
    requires x in r
    ensures |r'| == |r| && r'[0] == x
  {
    Rotate(r, IndexOf(r, x))
  }

  /** The ring that two separate rings become when `x` is joined to `y`. */
  function Splice(rx: Ring, ry: Ring, x: nat, y: nat): Ring
    requires x in rx && y in ry
  {
    [x] + From(ry, y) + From(rx, x)[1..]
  }

  predicate Disjoint(r: Ring, q: Ring) { forall x | x in r :: x !in q }

  /** Every node below `n` is in exactly one of the rings. */
  predicate Partition(rings: seq<Ring>, n: nat) {
    && (forall k | 0 <= k < |rings| :: rings[k] != [] && Distinct(rings[k]) && forall x <- rings[k] :: x < n)
    && (forall k, l | 0 <= k < l < |rings| :: Disjoint(rings[k], rings[l]))
    && (forall x | 0 <= x < n :: Somewhere(rings, x))
  }

  predicate Somewhere(rings: seq<Ring>, x: nat) { exists k | 0 <= k < |rings| :: x in rings[k] }

  function RingIndex(rings: seq<Ring>, x: nat): (k: nat)
    requires Somewhere(rings, x)
    ensures k < |rings| && x in rings[k]
  {
    if x in rings[0] then 0 else 1 + RingIndex(rings[1..], x)
  }

  predicate Together(rings: seq<Ring>, x: nat, y: nat) { exists k | 0 <= k < |rings| :: x in rings[k] && y in rings[k] }

  function Without(rings: seq<Ring>, a: nat, b: nat): seq<Ring>
    requires a < |rings| && b < |rings| && a != b
  {
    if a < b then rings[..a] + rings[a + 1..b] + rings[b + 1..] else rings[..b] + rings[b + 1..a] + rings[a + 1..]
  }

  /** What one join does to the rings. */
  function Join(rings: seq<Ring>, x: nat, y: nat): seq<Ring>
    requires Somewhere(rings, x) && Somewhere(rings, y)
  {
    var a, b := RingIndex(rings, x), RingIndex(rings, y);
    if a == b then rings else [Splice(rings[a], rings[b], x, y)] + Without(rings, a, b)
  }

  lemma DistinctConcat(a: Ring, b: Ring)
    requires Distinct(a) && Distinct(b) && Disjoint(a, b)
    ensures Distinct(a + b)
  {
    forall i, j | 0 <= i < j < |a + b| ensures (a + b)[i] != (a + b)[j] {
      if i < |a| <= j {
        assert a[i] in a && b[j - |a|] in b;
      }
    }
  }

  lemma SpliceMembers(rx: Ring, ry: Ring, x: nat, y: nat)
    requires x in rx && y in ry && Distinct(rx) && Distinct(ry) && Disjoint(rx, ry)
    ensures Distinct(Splice(rx, ry, x, y))
    ensures forall z :: z in Splice(rx, ry, x, y) <==> z in rx || z in ry
  {
    FromMembers(rx, x);
    FromMembers(ry, y);
    var fx, fy := From(rx, x), From(ry, y);
    assert fx == [x] + fx[1..];
    DistinctConcat([x], fy);
    DistinctConcat([x] + fy, fx[1..]);
  }

  lemma FromMembers(r: Ring, x: nat)
    requires x in r && Distinct(r)
    ensures Distinct(From(r, x))
    ensures forall z :: z in From(r, x) <==> z in r
  {
    var k := IndexOf(r, x);
    assert r == r[..k] + r[k..];
  }

  predicate IsOther(rings: seq<Ring>, a: nat, b: nat, r: Ring) {
    exists k | 0 <= k < |rings| :: k != a && k != b && rings[k] == r
  }

  /** The rings left over are the ones that neither node was in. */
  lemma WithoutMembers(rings: seq<Ring>, a: nat, b: nat)
    requires a < |rings| && b < |rings| && a != b
    ensures forall k | 0 <= k < |rings| && k != a && k != b :: rings[k] in Without(rings, a, b)
    ensures forall l | 0 <= l < |Without(rings, a, b)| :: IsOther(rings, a, b, Without(rings, a, b)[l])
  {
    var w, lo, hi := Without(rings, a, b), if a < b then a else b, if a < b then b else a;
    forall k | 0 <= k < |rings| && k != a && k != b ensures rings[k] in w {
      assert rings[k] == w[if k < lo then k else if k < hi then k - 1 else k - 2];
    }
    forall l | 0 <= l < |w| ensures IsOther(rings, a, b, w[l]) {
      var k := if l < lo then l else if l < hi - 1 then l + 1 else l + 2;
      assert w[l] == rings[k] && k != a && k != b;
    }
  }

  lemma WithoutDisjoint(rings: seq<Ring>, a: nat, b: nat, n: nat)
    requires a < |rings| && b < |rings| && a != b && Partition(rings, n)
    ensures forall k, l | 0 <= k < l < |Without(rings, a, b)| :: Disjoint(Without(rings, a, b)[k], Without(rings, a, b)[l])
    ensures forall l | 0 <= l < |Without(rings, a, b)| ::
      Disjoint(rings[a], Without(rings, a, b)[l]) && Disjoint(rings[b], Without(rings, a, b)[l])
  {
    var w, lo, hi := Without(rings, a, b), if a < b then a else b, if a < b then b else a;
    forall k, l | 0 <= k < l < |w| ensures Disjoint(w[k], w[l]) {
      var k' := if k < lo then k else if k < hi - 1 then k + 1 else k + 2;
      var l' := if l < lo then l else if l < hi - 1 then l + 1 else l + 2;
      assert w[k] == rings[k'] && w[l] == rings[l'] && k' < l';
    }
    forall l | 0 <= l < |w| ensures Disjoint(rings[a], w[l]) && Disjoint(rings[b], w[l]) {
      var l' := if l < lo then l else if l < hi - 1 then l + 1 else l + 2;
      assert w[l] == rings[l'];
    }
  }

  lemma JoinKeepsPartition(rings: seq<Ring>, x: nat, y: nat, n: nat)
    requires Partition(rings, n) && Somewhere(rings, x) && Somewhere(rings, y)
    ensures Partition(Join(rings, x, y), n)
  {
    var a, b := RingIndex(rings, x), RingIndex(rings, y);
    if a != b {
      assert Disjoint(rings[a], rings[b]);
      SpliceMembers(rings[a], rings[b], x, y);
      WithoutMembers(rings, a, b);
      WithoutDisjoint(rings, a, b, n);
      var joined := Join(rings, x, y);
      forall z | 0 <= z < n ensures Somewhere(joined, z) {
        var k := RingIndex(rings, z);
        if k == a || k == b {
          assert z in joined[0];
        } else {
          assert rings[k] in joined[1..];
        }
      }
    }
  }

  lemma OnlyRing(rings: seq<Ring>, n: nat, k: nat, x: nat)
    requires Partition(rings, n) && k < |rings| && x in rings[k]
    ensures Somewhere(rings, x) && RingIndex(rings, x) == k
  {
    var l := RingIndex(rings, x);
    assert l < k ==> Disjoint(rings[l], rings[k]);
    assert k < l ==> Disjoint(rings[k], rings[l]);
  }

  /** Which rings a spliced system has: the new one, and the ones left over. */
  lemma SplicedTogether(rings: seq<Ring>, x: nat, y: nat, a: nat, b: nat, u: nat, v: nat)
    requires a < |rings| && b < |rings| && a != b && x in rings[a] && y in rings[b]
    requires Distinct(rings[a]) && Distinct(rings[b]) && Disjoint(rings[a], rings[b])
    ensures Together([Splice(rings[a], rings[b], x, y)] + Without(rings, a, b), u, v) <==>
      || ((u in rings[a] || u in rings[b]) && (v in rings[a] || v in rings[b]))
      || exists k | 0 <= k < |rings| && k != a && k != b :: u in rings[k] && v in rings[k]
  {
    var spliced, rest := Splice(rings[a], rings[b], x, y), Without(rings, a, b);
    var joined := [spliced] + rest;
    SpliceMembers(rings[a], rings[b], x, y);
    WithoutMembers(rings, a, b);
    if Together(joined, u, v) {
      var l :| 0 <= l < |joined| && u in joined[l] && v in joined[l];
      if l > 0 {
        assert IsOther(rings, a, b, rest[l - 1]);
        var k :| 0 <= k < |rings| && k != a && k != b && rings[k] == rest[l - 1];
      }
    }
    if k :| 0 <= k < |rings| && k != a && k != b && u in rings[k] && v in rings[k] {
      var l :| 0 <= l < |rest| && rest[l] == rings[k];
      assert joined[l + 1] == rings[k];
    }
    assert joined[0] == spliced;
  }

  /** Afterwards two nodes are together if they were, or if the join brought their rings together. */
  lemma JoinTogether(rings: seq<Ring>, x: nat, y: nat, n: nat, u: nat, v: nat)
    requires Partition(rings, n) && Somewhere(rings, x) && Somewhere(rings, y)
    ensures Together(Join(rings, x, y), u, v) <==>
      || Together(rings, u, v)
      || (Together(rings, u, x) && Together(rings, y, v))
      || (Together(rings, u, y) && Together(rings, x, v))
  {
    var a, b := RingIndex(rings, x), RingIndex(rings, y);
    forall k, z | 0 <= k < |rings| && z in rings[k] ensures RingIndex(rings, z) == k { OnlyRing(rings, n, k, z); }
    if a != b {
      assert Disjoint(rings[if a < b then a else b], rings[if a < b then b else a]);
      SplicedTogether(rings, x, y, a, b, u, v);
    }
  }

  /** Whatever is true of the new ring and of the rings left over is true of all rings. */
  lemma AllAfterJoin(rings: seq<Ring>, x: nat, y: nat, good: set<Ring>)
    requires Somewhere(rings, x) && Somewhere(rings, y)
    requires var a, b := RingIndex(rings, x), RingIndex(rings, y);
      && (forall k | 0 <= k < |rings| && k != a && k != b :: rings[k] in good)
      && (if a == b then rings[a] else Splice(rings[a], rings[b], x, y)) in good
    ensures forall k | 0 <= k < |Join(rings, x, y)| :: Join(rings, x, y)[k] in good
  {
    var a, b := RingIndex(rings, x), RingIndex(rings, y);
    if a != b {
      WithoutMembers(rings, a, b);
      var rest := Without(rings, a, b);
      forall l | 0 <= l < |rest| ensures rest[l] in good {
        assert IsOther(rings, a, b, rest[l]);
      }
      assert Join(rings, x, y)[1..] == rest;
    }
  }

  // ----- sequences of joins -----

  type Joins = seq<(nat, nat)>

  predicate InRange(joins: Joins, n: nat) { forall j <- joins :: j.0 < n && j.1 < n }

  function Alone(n: nat): (rings: seq<Ring>)
    ensures |rings| == n
  {
    seq(n, i requires 0 <= i < n => [i])
  }

  lemma AlonePartition(n: nat)
    ensures Partition(Alone(n), n)
  {
    forall x | 0 <= x < n ensures Somewhere(Alone(n), x) { assert x in Alone(n)[x]; }
  }

  /** The rings after a sequence of joins on `n` fresh nodes. */
  function RingsAfter(joins: Joins, n: nat): (rings: seq<Ring>)
    requires InRange(joins, n)
    ensures Partition(rings, n)
    decreases |joins|
  {
    if joins == [] then AlonePartition(n); Alone(n)
    else
      var (x, y) := joins[|joins| - 1];
      var before := RingsAfter(joins[..|joins| - 1], n);
      assert joins[|joins| - 1] in joins;
      JoinKeepsPartition(before, x, y, n);
      Join(before, x, y)
  }

  lemma RingsNext(joins: Joins, i: nat, n: nat)
    requires InRange(joins, n) && i < |joins|
    ensures joins[i].0 < n && joins[i].1 < n
    ensures InRange(joins[..i], n) && InRange(joins[..i + 1], n)
    ensures Somewhere(RingsAfter(joins[..i], n), joins[i].0) && Somewhere(RingsAfter(joins[..i], n), joins[i].1)
    ensures RingsAfter(joins[..i + 1], n) == Join(RingsAfter(joins[..i], n), joins[i].0, joins[i].1)
  {
    assert joins[i] in joins && joins[..i + 1][..i] == joins[..i];
  }

  /** Connectedness, without rings: every set that the joins do not cut contains both or neither. */
  ghost predicate Uncut(joins: Joins, s: set<nat>) { forall j <- joins :: j.0 in s <==> j.1 in s }

  ghost predicate Connected(joins: Joins, u: nat, v: nat) {
    forall s: set<nat> | Uncut(joins, s) :: u in s ==> v in s
  }

  lemma {:induction false} TogetherIsConnected(joins: Joins, n: nat, u: nat, v: nat)
    requires InRange(joins, n) && Together(RingsAfter(joins, n), u, v)
    ensures Connected(joins, u, v)
    decreases |joins|
  {
    if joins == [] {
    } else {
      var before := joins[..|joins| - 1];
      var (x, y) := joins[|joins| - 1];
      assert (x, y) in joins;
      var rings := RingsAfter(before, n);
      JoinTogether(rings, x, y, n, u, v);
      forall s: set<nat> | Uncut(joins, s) && u in s ensures v in s {
        assert Uncut(before, s);
        if Together(rings, u, v) {
          TogetherIsConnected(before, n, u, v);
        } else if Together(rings, u, x) && Together(rings, y, v) {
          TogetherIsConnected(before, n, u, x);
          TogetherIsConnected(before, n, y, v);
        } else {
          TogetherIsConnected(before, n, u, y);
          TogetherIsConnected(before, n, x, v);
        }
      }
    }
  }

  lemma {:induction false} JoinedAreTogether(joins: Joins, n: nat)
    requires InRange(joins, n)
    ensures forall j <- joins :: Together(RingsAfter(joins, n), j.0, j.1)
    decreases |joins|
  {
    if joins == [] {
    } else {
      var before := joins[..|joins| - 1];
      var (x, y) := joins[|joins| - 1];
      assert (x, y) in joins;
      var rings := RingsAfter(before, n);
      JoinedAreTogether(before, n);
      forall j | j in joins ensures Together(RingsAfter(joins, n), j.0, j.1) {
        JoinTogether(rings, x, y, n, j.0, j.1);
        if j in before {
        } else {
          assert j == (x, y);
          assert Together(rings, x, x) && Together(rings, y, y);
        }
      }
    }
  }

  /** The rings are exactly the connected components of the joins made. */
  lemma RingsAreComponents(joins: Joins, n: nat, u: nat, v: nat)
    requires InRange(joins, n) && u < n && v < n
    ensures Together(RingsAfter(joins, n), u, v) <==> Connected(joins, u, v)
  {
    var rings := RingsAfter(joins, n);
    if Together(rings, u, v) {
      TogetherIsConnected(joins, n, u, v);
    }
    if Connected(joins, u, v) {
      var k := RingIndex(rings, u);
      var s := set x <- rings[k];
      JoinedAreTogether(joins, n);
      forall j | j in joins ensures j.0 in s <==> j.1 in s {
        var l :| 0 <= l < |rings| && j.0 in rings[l] && j.1 in rings[l];
        OnlyRing(rings, n, l, j.0);
        OnlyRing(rings, n, l, j.1);
        if j.0 in s {
          OnlyRing(rings, n, k, j.0);
        }
        if j.1 in s {
          OnlyRing(rings, n, k, j.1);
        }
      }
      assert Uncut(joins, s);
    }
  }
}
