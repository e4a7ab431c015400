/** The `peer` pointers of nodes that share a socket. artnet_join splices two rings in place; the
    loops over peers rely on the rings to end and to reach every other member once. */
module PeerRings {
  import opened Common
  import opened Rings

  class Peer {
    var peer: Peer?
    var master: bool
    var running: bool

    constructor ()
      ensures peer == null && master && !running
    {
      peer, master, running := null, true, false;
    }
  }

  /** The peering fields of one node. */
  datatype Link = Link(peer: Peer?, master: bool)

  predicate Separate(nodes: seq<Peer>) { forall i, j | 0 <= i < j < |nodes| :: nodes[i] != nodes[j] }

  ghost function Links(nodes: seq<Peer>): (links: seq<Link>)
    reads nodes
    ensures |links| == |nodes|
    ensures forall i {:trigger links[i]} | 0 <= i < |nodes| :: links[i] == Link(nodes[i].peer, nodes[i].master)
  {
    seq(|nodes|, i requires 0 <= i < |nodes| reads nodes => Link(nodes[i].peer, nodes[i].master))
  }

  // ----- rings of links -----

  function Next(i: nat, n: nat): nat { if i + 1 == n then 0 else i + 1 }

  predicate InNodes(r: Ring, n: nat) { forall i | 0 <= i < |r| :: r[i] < n }

  /** The pointers of the members lead once around the ring. A node alone points nowhere, or to
      itself once it has been joined to itself. */
  ghost predicate Linked(nodes: seq<Peer>, links: seq<Link>, r: Ring)
    requires |links| == |nodes|
  {
    && r != [] && Distinct(r) && InNodes(r, |nodes|)
    && if |r| == 1 then links[r[0]].peer == null || links[r[0]].peer == nodes[r[0]]
       else forall i {:trigger links[r[i]]} | 0 <= i < |r| :: links[r[i]].peer == nodes[r[Next(i, |r|)]]
  }

  ghost predicate OneMaster(links: seq<Link>, r: Ring)
    requires InNodes(r, |links|)
  {
    exists m | 0 <= m < |r| :: links[r[m]].master && forall i | 0 <= i < |r| && i != m :: !links[r[i]].master
  }

  ghost predicate Healthy(nodes: seq<Peer>, links: seq<Link>, r: Ring)
    requires |links| == |nodes|
  {
    Linked(nodes, links, r) && OneMaster(links, r)
  }

  /** The pointers and master flags form these rings. */
  ghost predicate Represents(nodes: seq<Peer>, links: seq<Link>, rings: seq<Ring>)
    requires |links| == |nodes|
  {
    forall k | 0 <= k < |rings| :: Healthy(nodes, links, rings[k])
  }

  /** Position `i` on a ring seen from position `k`. */
  function Around(k: nat, i: nat, n: nat): nat
    requires k < n && i < n
  {
    if k + i < n then k + i else k + i - n
  }

  lemma FromAt(r: Ring, x: nat, i: nat)
    requires x in r && i < |r|
    ensures From(r, x)[i] == r[Around(IndexOf(r, x), i, |r|)]
  {
  }

  lemma NextAround(k: nat, i: nat, n: nat)
    requires k < n && i < n
    ensures Around(k, Next(i, n), n) == Next(Around(k, i, n), n)
  {
  }

  lemma LinkedAround(nodes: seq<Peer>, links: seq<Link>, r: Ring, f: Ring, k: nat)
    requires |links| == |nodes| && Linked(nodes, links, r) && k < |r| && |f| == |r| && Distinct(f)
    requires forall i | 0 <= i < |f| :: f[i] == r[Around(k, i, |r|)]
    ensures Linked(nodes, links, f)
  {
    forall i | 0 <= i < |f| && |f| > 1 ensures links[f[i]].peer == nodes[f[Next(i, |f|)]] {
      NextAround(k, i, |r|);
    }
  }

  /** A ring is a ring from wherever it is looked at. */
  lemma LinkedFrom(nodes: seq<Peer>, links: seq<Link>, r: Ring, x: nat)
    requires |links| == |nodes| && Linked(nodes, links, r) && x in r
    ensures Linked(nodes, links, From(r, x))
  {
    FromMembers(r, x);
    forall i | 0 <= i < |r| ensures From(r, x)[i] == r[Around(IndexOf(r, x), i, |r|)] { FromAt(r, x, i); }
    LinkedAround(nodes, links, r, From(r, x), IndexOf(r, x));
  }

  /** What artnet_join writes into the pointers: node `x` leads to `y`, and `z`, where the walk
      from `y` ends, leads to where `x` led before. */
  function Relinked(nodes: seq<Peer>, links: seq<Link>, x: nat, y: nat, z: nat): (l: seq<Link>)
    requires |links| == |nodes| && x < |nodes| && y < |nodes| && z < |nodes|
    ensures |l| == |links|
  {
    var after := if links[x].peer == null then nodes[x] else links[x].peer;
    var l := links[x := links[x].(peer := nodes[y])];
    l[z := l[z].(peer := after)]
  }

  /** Two separate rings become one. */
  lemma RelinkedApart(nodes: seq<Peer>, links: seq<Link>, rx: Ring, ry: Ring)
    requires |links| == |nodes| && Linked(nodes, links, rx) && Linked(nodes, links, ry)
    requires Distinct([rx[0]] + ry + rx[1..])
    ensures Linked(nodes, Relinked(nodes, links, rx[0], ry[0], ry[|ry| - 1]), [rx[0]] + ry + rx[1..])
  {
    var r, l := [rx[0]] + ry + rx[1..], Relinked(nodes, links, rx[0], ry[0], ry[|ry| - 1]);
    forall i | 0 <= i < |r| ensures r[i] < |nodes| && l[r[i]].peer == nodes[r[Next(i, |r|)]] {
      assert r[0] != r[i] || i == 0;
      assert r[|ry|] != r[i] || i == |ry|;
      if i == 0 {
      } else if i < |ry| {
        assert r[i] == ry[i - 1] && r[i + 1] == ry[i];
      } else if i == |ry| {
        assert r[i] == ry[i - 1];
      } else {
        assert r[i] == rx[i - |ry|];
        assert Next(i - |ry|, |rx|) != 0 ==> r[i + 1] == rx[i - |ry| + 1];
      }
    }
  }

  /** Within one ring the pointers end up as they were, but for a node that was alone. */
  lemma RelinkedSame(nodes: seq<Peer>, links: seq<Link>, r: Ring, x: nat, y: nat)
    requires |links| == |nodes| && Linked(nodes, links, r) && x in r && y in r
    ensures Linked(nodes, Relinked(nodes, links, x, y, x), r)
  {
    var l := Relinked(nodes, links, x, y, x);
    assert forall i | 0 <= i < |links| && i != x :: l[i] == links[i];
    if |r| > 1 {
      assert links[x].peer == nodes[r[Next(IndexOf(r, x), |r|)]];
      assert l == links;
    }
  }

  /** The master flags of a ring after its first node has been made the only master. */
  function Mastered(links: seq<Link>, r: Ring): (l: seq<Link>)
    requires r != [] && InNodes(r, |links|)
    ensures |l| == |links|
  {
    seq(|links|, i requires 0 <= i < |links| =>
      if i == r[0] then links[i].(master := true) else if i in r then links[i].(master := false) else links[i])
  }

  /** ... while the loop is at its `k`-th node. */
  function Cleared(links: seq<Link>, r: Ring, k: nat): (l: seq<Link>)
    requires InNodes(r, |links|) && 1 <= k <= |r|
    ensures |l| == |links|
  {
    seq(|links|, i requires 0 <= i < |links| => if i in r[1..k] then links[i].(master := false) else links[i])
  }

  lemma ClearedAll(links: seq<Link>, r: Ring)
    requires r != [] && Distinct(r) && InNodes(r, |links|)
    ensures Cleared(links, r, |r|)[r[0] := Cleared(links, r, |r|)[r[0]].(master := true)] == Mastered(links, r)
  {
    assert r == [r[0]] + r[1..];
  }

  lemma ClearedNext(links: seq<Link>, r: Ring, k: nat)
    requires r != [] && Distinct(r) && InNodes(r, |links|) && 1 <= k < |r|
    ensures Cleared(links, r, k)[r[k] := Cleared(links, r, k)[r[k]].(master := false)] == Cleared(links, r, k + 1)
  {
    assert r[1..k + 1] == r[1..k] + [r[k]];
  }

  lemma MasteredHealthy(nodes: seq<Peer>, links: seq<Link>, r: Ring, q: Ring, x: nat)
    requires |links| == |nodes| && Linked(nodes, links, q) && x in q && r != [] && r[0] == x && InNodes(r, |links|)
    requires forall z :: z in r <==> z in q
    ensures Healthy(nodes, Mastered(links, r), q)
  {
    var l, m := Mastered(links, r), IndexOf(q, x);
    forall i | 0 <= i < |q| && i != m ensures !l[q[i]].master {
      assert q[i] in q && q[i] != q[m];
    }
    assert l[q[m]].master;
  }

  // ----- the pointers themselves -----

  method SetPeer(p: Peer, q: Peer, ghost nodes: seq<Peer>, ghost x: nat)
    requires Separate(nodes) && x < |nodes| && p == nodes[x]
    modifies p`peer
    ensures Links(nodes) == old(Links(nodes))[x := old(Links(nodes))[x].(peer := q)]
  {
    p.peer := q;
  }

  method SetMaster(p: Peer, master: bool, ghost nodes: seq<Peer>, ghost x: nat)
    requires Separate(nodes) && x < |nodes| && p == nodes[x]
    modifies p`master
    ensures Links(nodes) == old(Links(nodes))[x := old(Links(nodes))[x].(master := master)]
    ensures p.master == master
  {
    p.master := master;
  }

  /** The walk of artnet_join: follows the pointers until one leads back to the start, or nowhere. */
  method EndOfRing(n2: Peer, ghost nodes: seq<Peer>, ghost ry: Ring, ghost stop: nat) returns (n: Peer)
    requires Separate(nodes) && Distinct(ry) && InNodes(ry, |nodes|) && stop < |ry| && nodes[ry[0]] == n2
    requires forall i | 0 <= i < stop :: Links(nodes)[ry[i]].peer == nodes[ry[i + 1]]
    requires Links(nodes)[ry[stop]].peer == null || Links(nodes)[ry[stop]].peer == n2
    ensures n == nodes[ry[stop]]
  {
    n := n2;
    ghost var k := 0;
    while n.peer != null && n.peer != n2
      invariant 0 <= k <= stop && n == nodes[ry[k]]
      invariant k < stop ==> n.peer == nodes[ry[k + 1]] != n2
      decreases stop - k
    {
      n := n.peer;
      k := k + 1;
    }
  }

  /** The pointer part of artnet_join. `rx` and `ry` are the rings seen from the two nodes; when
      they are one ring, the walk from the second node ends at the first. */
  method SplicePeers(n1: Peer, n2: Peer, ghost nodes: seq<Peer>, ghost rx: Ring, ghost ry: Ring, ghost stop: nat)
    requires Separate(nodes) && Linked(nodes, Links(nodes), rx) && Linked(nodes, Links(nodes), ry)
    requires n1 == nodes[rx[0]] && n2 == nodes[ry[0]] && stop < |ry|
    requires if rx[0] in ry then ry[stop] == rx[0] else stop == |ry| - 1
    modifies (set p | p in nodes)`peer
    ensures Links(nodes) == Relinked(nodes, old(Links(nodes)), rx[0], ry[0], ry[stop])
  {
    assert forall i | 0 <= i < stop :: ry[i] in ry && ry[i] != rx[0];
    var tmp := if n1.peer == null then n1 else n1.peer;
    SetPeer(n1, n2, nodes, rx[0]);
    var n := EndOfRing(n2, nodes, ry, stop);
    SetPeer(n, tmp, nodes, ry[stop]);
  }

  /** The master part of artnet_join: everyone on the ring but the first node gives it up. */
  method ClearOthers(n1: Peer, ghost nodes: seq<Peer>, ghost r: Ring)
    requires Separate(nodes) && Linked(nodes, Links(nodes), r) && n1 == nodes[r[0]] && n1.peer != null
    modifies (set p | p in nodes)`master
    ensures Links(nodes) == Mastered(old(Links(nodes)), r)
    ensures n1.master
  {
    ghost var links := Links(nodes);
    var n := n1.peer;
    ghost var k := 1;
    while n != n1
      invariant 1 <= k <= |r| && n == nodes[r[Next(k - 1, |r|)]]
      invariant Links(nodes) == Cleared(links, r, k)
      decreases |r| - k
    {
      ClearedNext(links, r, k);
      SetMaster(n, false, nodes, r[k]);
      n := n.peer;
      k := k + 1;
    }
    SetMaster(n1, true, nodes, r[0]);
    ClearedAll(links, r);
  }

  /** The loops over peers: start behind `n`, stop at `n` or at the end of the pointers. They
      visit every other member of the ring once. */
  method OtherPeers(n: Peer, ghost nodes: seq<Peer>, ghost r: Ring) returns (visited: seq<Peer>)
    requires Separate(nodes) && Linked(nodes, Links(nodes), r) && n == nodes[r[0]]
    ensures visited == MembersOf(nodes, r)[1..]
  {
    ghost var m := MembersOf(nodes, r);
    assert forall i | 0 <= i < |m| && |m| > 1 :: m[i].peer == m[Next(i, |m|)] by {
      assert forall i | 0 <= i < |r| :: Links(nodes)[r[i]].peer == m[i].peer;
    }
    assert forall i | 0 < i < |m| :: m[i] != n;
    visited := VisitRing(n, m);
  }

  function MembersOf(nodes: seq<Peer>, r: Ring): (m: seq<Peer>)
    requires InNodes(r, |nodes|)
    ensures |m| == |r|
  {
    seq(|r|, i requires 0 <= i < |r| => nodes[r[i]])
  }

  method VisitRing(n: Peer, ghost m: seq<Peer>) returns (visited: seq<Peer>)
    requires m != [] && m[0] == n && forall i | 0 < i < |m| :: m[i] != n
    requires if |m| == 1 then n.peer == null || n.peer == n else forall i | 0 <= i < |m| :: m[i].peer == m[Next(i, |m|)]
    ensures visited == m[1..]
  {
    visited := [];
    var tmp := n.peer;
    while tmp != null && tmp != n
      invariant |visited| < |m| && visited == m[1..1 + |visited|]
      invariant |m| > 1 ==> tmp == m[Next(|visited|, |m|)]
      invariant |m| == 1 ==> tmp == n.peer
      decreases |m| - |visited|
    {
      visited := visited + [tmp];
      tmp := tmp.peer;
    }
  }

  // ----- joins -----

  /** The rings of a join, seen from the two nodes, and where the walk from the second one ends. */
  lemma Views(nodes: seq<Peer>, links: seq<Link>, rings: seq<Ring>, x: nat, y: nat) returns (rx: Ring, ry: Ring, stop: nat)
    requires |links| == |nodes| && Partition(rings, |nodes|) && Represents(nodes, links, rings) && x < |nodes| && y < |nodes|
    ensures rx == From(rings[RingIndex(rings, x)], x) && ry == From(rings[RingIndex(rings, y)], y)
    ensures Linked(nodes, links, rx) && Linked(nodes, links, ry) && stop < |ry|
    ensures if x in ry then ry[stop] == x else stop == |ry| - 1
    ensures x in ry <==> RingIndex(rings, x) == RingIndex(rings, y)
  {
    var a, b := RingIndex(rings, x), RingIndex(rings, y);
    rx, ry := From(rings[a], x), From(rings[b], y);
    LinkedFrom(nodes, links, rings[a], x);
    LinkedFrom(nodes, links, rings[b], y);
    FromMembers(rings[b], y);
    if x in ry {
      stop := IndexOf(ry, x);
      OnlyRing(rings, |nodes|, b, x);
    } else {
      stop := |ry| - 1;
    }
  }

  /** The ring that both nodes are on after the join. */
  function JoinedRing(rings: seq<Ring>, x: nat, y: nat): Ring
    requires Somewhere(rings, x) && Somewhere(rings, y)
  {
    var a, b := RingIndex(rings, x), RingIndex(rings, y);
    if a == b then rings[a] else Splice(rings[a], rings[b], x, y)
  }

  lemma JoinedLinked(nodes: seq<Peer>, links: seq<Link>, rings: seq<Ring>, x: nat, y: nat, rx: Ring, ry: Ring, stop: nat)
    requires |links| == |nodes| && Partition(rings, |nodes|) && Represents(nodes, links, rings) && x < |nodes| && y < |nodes|
    requires rx == From(rings[RingIndex(rings, x)], x) && ry == From(rings[RingIndex(rings, y)], y)
    requires Linked(nodes, links, rx) && Linked(nodes, links, ry) && stop < |ry|
    requires if x in ry then ry[stop] == x else stop == |ry| - 1
    requires x in ry <==> RingIndex(rings, x) == RingIndex(rings, y)
    ensures Linked(nodes, Relinked(nodes, links, x, y, ry[stop]), JoinedRing(rings, x, y))
    ensures x in JoinedRing(rings, x, y)
  {
    var a, b := RingIndex(rings, x), RingIndex(rings, y);
    if a == b {
      RelinkedSame(nodes, links, rings[a], x, y);
    } else {
      assert Disjoint(rings[a], rings[b]) by { assert Disjoint(rings[if a < b then a else b], rings[if a < b then b else a]); }
      SpliceMembers(rings[a], rings[b], x, y);
      RelinkedApart(nodes, links, rx, ry);
    }
  }

  /** Rings that neither node was on are not touched. */
  lemma Untouched(nodes: seq<Peer>, links: seq<Link>, links': seq<Link>, q: Ring)
    requires |links| == |links'| == |nodes| && Healthy(nodes, links, q)
    requires forall i | 0 <= i < |q| :: links'[q[i]] == links[q[i]]
    ensures Healthy(nodes, links', q)
  {
    var m :| 0 <= m < |q| && links[q[m]].master && forall i | 0 <= i < |q| && i != m :: !links[q[i]].master;
    assert links'[q[m]].master;
  }

  lemma OthersHealthy(nodes: seq<Peer>, links: seq<Link>, rings: seq<Ring>, x: nat, y: nat, z: nat, r: Ring, k: nat)
    requires |links| == |nodes| && Partition(rings, |nodes|) && k < |rings| && Healthy(nodes, links, rings[k])
    requires x < |nodes| && y < |nodes| && z < |nodes| && z in rings[RingIndex(rings, y)]
    requires k != RingIndex(rings, x) && k != RingIndex(rings, y)
    requires r != [] && InNodes(r, |nodes|) && forall i <- r :: i in JoinedRing(rings, x, y)
    ensures Healthy(nodes, Mastered(Relinked(nodes, links, x, y, z), r), rings[k])
  {
    var after := Mastered(Relinked(nodes, links, x, y, z), r);
    JoinedMembers(rings, x, y, |nodes|);
    OnlyRing(rings, |nodes|, RingIndex(rings, y), z);
    forall i | 0 <= i < |rings[k]| ensures after[rings[k][i]] == links[rings[k][i]] {
      OnlyRing(rings, |nodes|, k, rings[k][i]);
      if rings[k][i] in r {
        var l := if rings[k][i] in rings[RingIndex(rings, x)] then RingIndex(rings, x) else RingIndex(rings, y);
        OnlyRing(rings, |nodes|, l, rings[k][i]);
      }
    }
    Untouched(nodes, links, after, rings[k]);
  }

  /** What a join as a whole leaves behind. */
  lemma JoinRepresented(nodes: seq<Peer>, links: seq<Link>, rings: seq<Ring>, x: nat, y: nat, z: nat, r: Ring)
    requires |links| == |nodes| && Partition(rings, |nodes|) && Represents(nodes, links, rings)
    requires x < |nodes| && y < |nodes| && z < |nodes| && z in rings[RingIndex(rings, y)]
    requires Linked(nodes, Relinked(nodes, links, x, y, z), JoinedRing(rings, x, y)) && x in JoinedRing(rings, x, y)
    requires r == From(JoinedRing(rings, x, y), x) && InNodes(r, |nodes|)
    ensures Represents(nodes, Mastered(Relinked(nodes, links, x, y, z), r), Rings.Join(rings, x, y))
  {
    var a, b, q, mid := RingIndex(rings, x), RingIndex(rings, y), JoinedRing(rings, x, y), Relinked(nodes, links, x, y, z);
    FromMembers(q, x);
    MasteredHealthy(nodes, mid, r, q, x);
    forall k | 0 <= k < |rings| && k != a && k != b ensures Healthy(nodes, Mastered(mid, r), rings[k]) {
      OthersHealthy(nodes, links, rings, x, y, z, r, k);
    }
    AllHealthy(nodes, Mastered(mid, r), rings, x, y);
  }

  lemma AllHealthy(nodes: seq<Peer>, links: seq<Link>, rings: seq<Ring>, x: nat, y: nat)
    requires |links| == |nodes| && Somewhere(rings, x) && Somewhere(rings, y) && Healthy(nodes, links, JoinedRing(rings, x, y))
    requires forall k | 0 <= k < |rings| && k != RingIndex(rings, x) && k != RingIndex(rings, y) :: Healthy(nodes, links, rings[k])
    ensures Represents(nodes, links, Rings.Join(rings, x, y))
  {
    var all := {JoinedRing(rings, x, y)} + (set k | 0 <= k < |rings| :: rings[k]);
    AllAfterJoin(rings, x, y, set p | p in all && Healthy(nodes, links, p));
  }

  lemma JoinedMembers(rings: seq<Ring>, x: nat, y: nat, n: nat)
    requires Partition(rings, n) && x < n && y < n
    ensures forall z :: z in JoinedRing(rings, x, y) <==> z in rings[RingIndex(rings, x)] || z in rings[RingIndex(rings, y)]
  {
    var a, b := RingIndex(rings, x), RingIndex(rings, y);
    if a != b {
      assert Disjoint(rings[a], rings[b]) by { assert Disjoint(rings[if a < b then a else b], rings[if a < b then b else a]); }
      SpliceMembers(rings[a], rings[b], x, y);
    }
  }

  /** The rings seen from the two nodes, the end of the walk, and the ring that results. */
  lemma Walks(nodes: seq<Peer>, links: seq<Link>, rings: seq<Ring>, x: nat, y: nat) returns (rx: Ring, ry: Ring, stop: nat, r: Ring)
    requires |links| == |nodes| && Partition(rings, |nodes|) && Represents(nodes, links, rings) && x < |nodes| && y < |nodes|
    ensures Linked(nodes, links, rx) && Linked(nodes, links, ry) && stop < |ry| && rx[0] == x && ry[0] == y
    ensures if x in ry then ry[stop] == x else stop == |ry| - 1
    ensures ry[stop] in rings[RingIndex(rings, y)] && x in JoinedRing(rings, x, y) && r == From(JoinedRing(rings, x, y), x)
    ensures var mid := Relinked(nodes, links, x, y, ry[stop]); Linked(nodes, mid, r) && Linked(nodes, mid, JoinedRing(rings, x, y))
  {
    rx, ry, stop := Views(nodes, links, rings, x, y);
    JoinedLinked(nodes, links, rings, x, y, rx, ry, stop);
    FromMembers(rings[RingIndex(rings, y)], y);
    assert ry[stop] in ry;
    r := From(JoinedRing(rings, x, y), x);
    LinkedFrom(nodes, Relinked(nodes, links, x, y, ry[stop]), JoinedRing(rings, x, y), x);
  }

  lemma Plan(nodes: seq<Peer>, links: seq<Link>, rings: seq<Ring>, x: nat, y: nat) returns (rx: Ring, ry: Ring, stop: nat, r: Ring, planned: seq<Link>)
    requires |links| == |nodes| && Partition(rings, |nodes|) && Represents(nodes, links, rings) && x < |nodes| && y < |nodes|
    ensures Linked(nodes, links, rx) && Linked(nodes, links, ry) && stop < |ry| && rx[0] == x && ry[0] == y
    ensures if x in ry then ry[stop] == x else stop == |ry| - 1
    ensures var mid := Relinked(nodes, links, x, y, ry[stop]);
      mid[x].peer != null && Linked(nodes, mid, r) && r[0] == x && planned == Mastered(mid, r)
    ensures |planned| == |nodes| && Represents(nodes, planned, Rings.Join(rings, x, y))
  {
    rx, ry, stop, r := Walks(nodes, links, rings, x, y);
    JoinRepresented(nodes, links, rings, x, y, ry[stop], r);
    planned := Mastered(Relinked(nodes, links, x, y, ry[stop]), r);
  }

  lemma SameRings(nodes: seq<Peer>, planned: seq<Link>, links: seq<Link>, rings: seq<Ring>)
    requires |links| == |nodes| && planned == links && Represents(nodes, planned, rings)
    ensures Represents(nodes, links, rings)
  {
  }

  /** artnet_join */
  method Join(n1: Peer, n2: Peer, ghost nodes: seq<Peer>, ghost rings: seq<Ring>, ghost x: nat, ghost y: nat) returns (ok: bool)
    requires Separate(nodes) && Partition(rings, |nodes|) && Represents(nodes, Links(nodes), rings)
    requires x < |nodes| && y < |nodes| && n1 == nodes[x] && n2 == nodes[y]
    modifies (set p | p in nodes)`peer, (set p | p in nodes)`master
    ensures ok <==> old(!n1.running && !n2.running)
    ensures ok ==> Represents(nodes, Links(nodes), Rings.Join(rings, x, y))
    ensures ok ==> n1.master
    ensures !ok ==> Links(nodes) == old(Links(nodes))
  {
    if n1.running || n2.running {
      return false;
    }
    ok := true;
    ghost var rx, ry, stop, r, planned := Plan(nodes, Links(nodes), rings, x, y);
    SplicePeers(n1, n2, nodes, rx, ry, stop);
    ClearOthers(n1, nodes, r);
    SameRings(nodes, planned, Links(nodes), Rings.Join(rings, x, y));
  }

  lemma AloneRepresented(nodes: seq<Peer>, links: seq<Link>)
    requires |links| == |nodes| && forall l <- links :: l == Link(null, true)
    ensures Represents(nodes, links, Alone(|nodes|))
  {
    forall k | 0 <= k < |nodes| ensures Healthy(nodes, links, Alone(|nodes|)[k]) {
      assert links[k] in links && links[Alone(|nodes|)[k][0]].master;
    }
  }

  method JoinNext(nodes: seq<Peer>, joins: seq<(nat, nat)>, i: nat)
    requires Separate(nodes) && InRange(joins, |nodes|) && i < |joins| && InRange(joins[..i], |nodes|)
    requires Represents(nodes, Links(nodes), RingsAfter(joins[..i], |nodes|))
    requires forall n <- nodes :: !n.running
    modifies (set p | p in nodes)`peer, (set p | p in nodes)`master
    ensures InRange(joins[..i + 1], |nodes|) && Represents(nodes, Links(nodes), RingsAfter(joins[..i + 1], |nodes|))
  {
    RingsNext(joins, i, |nodes|);
    var ok := Join(nodes[joins[i].0], nodes[joins[i].1], nodes, RingsAfter(joins[..i], |nodes|), joins[i].0, joins[i].1);
  }

  /** Any sequence of joins of stopped nodes: the pointers form exactly the rings that are the
      connected components of the joins, each with one master. */
  method JoinAll(nodes: seq<Peer>, joins: seq<(nat, nat)>)
    requires Separate(nodes) && InRange(joins, |nodes|)
    requires forall n <- nodes :: n.peer == null && n.master && !n.running
    modifies (set p | p in nodes)`peer, (set p | p in nodes)`master
    ensures Represents(nodes, Links(nodes), RingsAfter(joins, |nodes|))
  {
    AloneRepresented(nodes, Links(nodes));
    assert joins[..0] == [];
    for i := 0 to |joins|
      invariant InRange(joins[..i], |nodes|) && Represents(nodes, Links(nodes), RingsAfter(joins[..i], |nodes|))
      invariant forall n <- nodes :: !n.running
    {
      JoinNext(nodes, joins, i);
    }
    assert joins[..|joins|] == joins;
  }
}
