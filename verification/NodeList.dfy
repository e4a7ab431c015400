/** The linked list of discovered nodes, with the sequence counter that guards it. */
module NodeList {
  import opened Common
  import opened Subscribers

  class ListNode {
    const ip: Ip
    var info: Info
    var lastSeen: int
    var next: ListNode?

    constructor (ip: Ip, info: Info, lastSeen: int)
      ensures this.ip == ip && this.info == info && this.lastSeen == lastSeen && next == null
    {
      this.ip, this.info, this.lastSeen, next := ip, info, lastSeen, null;
    }

    ghost function Value(): Entry
      reads this
    {
      Entry(ip, info, lastSeen)
    }
  }

  /** What one list node holds. */
  datatype Cell = Cell(value: Entry, next: ListNode?)

  ghost predicate Tied(nodes: seq<ListNode>, cells: seq<Cell>, repr: set<ListNode>)
    reads repr
  {
    |cells| == |nodes| && forall i {:trigger cells[i]} | 0 <= i < |nodes| :: nodes[i] in repr && cells[i] == Cell(nodes[i].Value(), nodes[i].next)
  }

  function ValuesOf(cells: seq<Cell>): (s: Entries)
    ensures |s| == |cells|
  {
    seq(|cells|, i requires 0 <= i < |cells| => cells[i].value)
  }

  predicate Separate(nodes: seq<ListNode>) { forall i, j | 0 <= i < j < |nodes| :: nodes[i] != nodes[j] }

  /** Each node leads to the next one, and the last one to `end`. */
  predicate Chained(nodes: seq<ListNode>, cells: seq<Cell>, end: ListNode?)
    requires |cells| == |nodes|
  {
    forall i {:trigger cells[i]} | 0 <= i < |nodes| :: cells[i].next == if i + 1 < |nodes| then nodes[i + 1] else end
  }

  lemma TiedSnoc(nodes: seq<ListNode>, cells: seq<Cell>, repr: set<ListNode>, added: ListNode)
    requires Tied(nodes, cells, repr)
    ensures Tied(nodes + [added], cells + [Cell(added.Value(), added.next)], repr + {added})
  {
    assert forall i | 0 <= i < |nodes| :: (nodes + [added])[i] == nodes[i] && (cells + [Cell(added.Value(), added.next)])[i] == cells[i];
  }

  method SetNext(p: ListNode, q: ListNode?, ghost nodes: seq<ListNode>, ghost cells: seq<Cell>, ghost repr: set<ListNode>, ghost k: nat)
    requires Separate(nodes) && Tied(nodes, cells, repr) && k < |nodes| && p == nodes[k]
    modifies p`next
    ensures Tied(nodes, cells[k := cells[k].(next := q)], repr)
  {
    p.next := q;
    forall i | 0 <= i < |nodes|
      ensures nodes[i] in repr && cells[k := cells[k].(next := q)][i] == Cell(nodes[i].Value(), nodes[i].next)
    {
      assert cells[i] == old(Cell(nodes[i].Value(), nodes[i].next));
    }
  }

  method SetInfo(p: ListNode, info: Info, now: int, ghost nodes: seq<ListNode>, ghost cells: seq<Cell>, ghost repr: set<ListNode>, ghost k: nat)
    requires Separate(nodes) && Tied(nodes, cells, repr) && k < |nodes| && p == nodes[k]
    modifies p`info, p`lastSeen
    ensures Tied(nodes, cells[k := cells[k].(value := Entry(p.ip, info, now))], repr)
  {
    p.info := info;
    p.lastSeen := now;
    forall i | 0 <= i < |nodes|
      ensures nodes[i] in repr && cells[k := cells[k].(value := Entry(p.ip, info, now))][i] == Cell(nodes[i].Value(), nodes[i].next)
    {
      assert cells[i] == old(Cell(nodes[i].Value(), nodes[i].next));
    }
  }

  // ----- expiry, on what the nodes hold -----

  /** The nodes kept, as increasing positions among all nodes. */
  predicate Increasing(kept: seq<nat>, n: nat) {
    (forall j | 0 <= j < |kept| :: kept[j] < n) && forall i, j | 0 <= i < j < |kept| :: kept[i] < kept[j]
  }

  function Pick<T>(items: seq<T>, kept: seq<nat>): (picked: seq<T>)
    requires Increasing(kept, |items|)
    ensures |picked| == |kept|
  {
    seq(|kept|, j requires 0 <= j < |kept| => items[kept[j]])
  }

  lemma TiedPick(nodes: seq<ListNode>, cells: seq<Cell>, repr: set<ListNode>, kept: seq<nat>)
    requires Separate(nodes) && Tied(nodes, cells, repr) && Increasing(kept, |nodes|)
    ensures Tied(Pick(nodes, kept), Pick(cells, kept), repr) && Separate(Pick(nodes, kept))
  {
    assert forall j | 0 <= j < |kept| :: Pick(cells, kept)[j] == cells[kept[j]];
  }

  /** Half-way through: the nodes before `i` are linked past the stale ones, and lead to `at`. */
  ghost predicate Scanned(nodes: seq<ListNode>, was: seq<Cell>, cells: seq<Cell>, kept: seq<nat>, i: nat, at: ListNode?, now: int)
    requires |nodes| == |was| == |cells|
  {
    && i <= |nodes| && at == (if i < |nodes| then nodes[i] else null)
    && Increasing(kept, i)
    && Chained(Pick(nodes, kept), Pick(cells, kept), at)
    && ValuesOf(cells) == ValuesOf(was)
    && (forall m | i <= m < |nodes| :: cells[m] == was[m])
    && ValuesOf(Pick(cells, kept)) == Fresh(ValuesOf(was)[..i], now)
  }

  lemma ScanStart(nodes: seq<ListNode>, was: seq<Cell>, now: int)
    requires |nodes| == |was|
    ensures Scanned(nodes, was, was, [], 0, if nodes == [] then null else nodes[0], now)
  {
    assert ValuesOf(was)[..0] == [];
  }

  lemma ScanKeep(nodes: seq<ListNode>, was: seq<Cell>, cells: seq<Cell>, kept: seq<nat>, i: nat, now: int)
    requires |nodes| == |was| == |cells| && i < |nodes| && Chained(nodes, was, null)
    requires Scanned(nodes, was, cells, kept, i, nodes[i], now) && !cells[i].value.Stale(now)
    ensures Scanned(nodes, was, cells, kept + [i], i + 1, cells[i].next, now)
  {
    assert cells[i] == was[i];
    var kept' := kept + [i];
    assert Pick(nodes, kept') == Pick(nodes, kept) + [nodes[i]];
    assert Pick(cells, kept') == Pick(cells, kept) + [cells[i]];
    FreshNext(ValuesOf(was), i, now);
    assert ValuesOf(Pick(cells, kept')) == ValuesOf(Pick(cells, kept)) + [cells[i].value];
    assert ValuesOf(was)[i] == ValuesOf(cells)[i];
  }

  lemma ScanDrop(nodes: seq<ListNode>, was: seq<Cell>, cells: seq<Cell>, kept: seq<nat>, i: nat, now: int, cells': seq<Cell>)
    requires |nodes| == |was| == |cells| == |cells'| && i < |nodes| && Chained(nodes, was, null)
    requires Scanned(nodes, was, cells, kept, i, nodes[i], now) && cells[i].value.Stale(now)
    requires if kept == [] then cells' == cells
      else cells' == cells[kept[|kept| - 1] := cells[kept[|kept| - 1]].(next := cells[i].next)]
    ensures Scanned(nodes, was, cells', kept, i + 1, cells[i].next, now)
  {
    assert cells[i] == was[i];
    FreshNext(ValuesOf(was), i, now);
    assert ValuesOf(cells') == ValuesOf(cells);
    assert ValuesOf(was)[i] == ValuesOf(cells)[i];
    var last := |kept| - 1;
    var picked := Pick(cells, kept);
    assert kept != [] ==> Pick(cells', kept) == picked[last := picked[last].(next := cells[i].next)];
    assert ValuesOf(Pick(cells', kept)) == ValuesOf(Pick(cells, kept));
  }

  lemma ScanDone(nodes: seq<ListNode>, was: seq<Cell>, cells: seq<Cell>, kept: seq<nat>, repr: set<ListNode>, now: int)
    requires |nodes| == |was| == |cells| && Separate(nodes) && Tied(nodes, cells, repr)
    requires Scanned(nodes, was, cells, kept, |nodes|, null, now)
    ensures Separate(Pick(nodes, kept)) && Tied(Pick(nodes, kept), Pick(cells, kept), repr)
    ensures Chained(Pick(nodes, kept), Pick(cells, kept), null)
    ensures ValuesOf(Pick(cells, kept)) == Fresh(ValuesOf(was), now)
    ensures kept != [] ==> nodes[kept[0]] == Pick(nodes, kept)[0]
  {
    assert ValuesOf(was)[..|nodes|] == ValuesOf(was);
    TiedPick(nodes, cells, repr, kept);
  }

  lemma FreshNext(entries: Entries, i: nat, now: int)
    requires i < |entries|
    ensures Fresh(entries[..i + 1], now) == Fresh(entries[..i], now) + if entries[i].Stale(now) then [] else [entries[i]]
  {
    assert entries[..i + 1][..i] == entries[..i];
  }

  class NodeList {
    var first: ListNode?
    var current: ListNode?
    var last: ListNode?
    var length: int
    var seqno: nat               // the 32-bit seqlock counter
    ghost var spine: seq<ListNode>
    ghost var cells: seq<Cell>   // what the nodes of the spine hold
    ghost var Repr: set<ListNode>

    ghost predicate Linked()
      reads this`first, this`spine, this`cells, this`Repr, Repr
    {
      && Separate(spine) && Tied(spine, cells, Repr) && Chained(spine, cells, null)
      && first == (if spine == [] then null else spine[0])
    }

    ghost predicate Whole()
      reads this`first, this`last, this`length, this`spine, this`cells, this`Repr, Repr
    {
      Linked() && last == (if spine == [] then null else spine[|spine| - 1]) && length == |spine|
    }

    ghost predicate Valid()
      reads this, Repr
    {
      Whole() && seqno < TWO_TO_THE_32
    }

    ghost function View(): Entries
      reads this`cells
    {
      ValuesOf(cells)
    }

    constructor ()
      ensures Valid() && View() == [] && seqno == 0 && Repr == {}
    {
      first, current, last, length, seqno, spine, cells, Repr := null, null, null, 0, 0, [], [], {};
    }

    /** NL_WRITE_BEGIN and NL_WRITE_END */
    method Bump()
      requires Valid()
      modifies this`seqno
      ensures Valid() && View() == old(View()) && seqno == (old(seqno) + 1) % TWO_TO_THE_32
    {
      seqno := (seqno + 1) % TWO_TO_THE_32;
    }

    /** find_entry_from_ip_and_swout0 */
    method FindEntry(ip: Ip, swOut0: Byte) returns (n: ListNode?, ghost k: nat)
      requires Linked()
      ensures k == Find(View(), (ip, swOut0))
      ensures var found := Find(View(), (ip, swOut0)); n == if found < |spine| then spine[found] else null
    {
      n := first;
      k := 0;
      while n != null
        invariant k <= |spine| && n == if k < |spine| then spine[k] else null
        invariant forall i | 0 <= i < k :: View()[i].Key() != (ip, swOut0)
        decreases |spine| - k
      {
        if n.ip == ip && n.info.swOut.p0 == swOut0 {
          FoundAt(View(), (ip, swOut0), k);
          return;
        }
        assert cells[k].next == n.next;
        n := n.next;
        k := k + 1;
      }
    }

    method Append(ip: Ip, info: Info, now: int)
      requires Whole()
      modifies this`first, this`last, this`length, this`spine, this`cells, this`Repr, Repr
      ensures Whole() && View() == old(View()) + [Entry(ip, info, now)]
      ensures fresh(Repr - old(Repr))
    {
      var added := new ListNode(ip, info, now);
      if first == null {
        first := added;
      } else {
        assert cells[|spine| - 1].next == last.next;
        SetNext(last, added, spine, cells, Repr, |spine| - 1);
        cells := cells[|spine| - 1 := cells[|spine| - 1].(next := added)];
      }
      TiedSnoc(spine, cells, Repr, added);
      last := added;
      length := length + 1;
      spine := spine + [added];
      cells := cells + [Cell(added.Value(), null)];
      Repr := Repr + {added};
    }

    method Refresh(entry: ListNode, ghost k: nat, info: Info, now: int)
      requires Whole() && k < |spine| && entry == spine[k]
      modifies this`cells, entry`info, entry`lastSeen
      ensures Whole() && View() == old(View())[k := Entry(entry.ip, info, now)]
    {
      SetInfo(entry, info, now, spine, cells, Repr, k);
      cells := cells[k := cells[k].(value := Entry(entry.ip, info, now))];
    }

    method UpdateEntry(ip: Ip, info: Info, now: int)
      requires Whole()
      modifies this`first, this`last, this`length, this`spine, this`cells, this`Repr, Repr
      ensures Whole() && View() == Upsert(old(View()), Entry(ip, info, now))
      ensures fresh(Repr - old(Repr))
    {
      var entry, k := FindEntry(ip, info.swOut.p0);
      if entry == null {
        Append(ip, info, now);
      } else {
        Refresh(entry, k, info, now);
      }
    }

    /** artnet_nl_update, given that memory can be had */
    method Update(ip: Ip, info: Info, now: int)
      requires Valid()
      modifies this, Repr
      ensures Valid() && View() == Upsert(old(View()), Entry(ip, info, now)) && current == old(current)
      ensures seqno == (old(seqno) + 2) % TWO_TO_THE_32
      ensures fresh(Repr - old(Repr))
    {
      Bump();
      UpdateEntry(ip, info, now);
      Bump();
    }

    /** `*pp = at`, where `*pp` is the `next` field of `prev`, or the head of the list. */
    method SkipTo(prev: ListNode?, at: ListNode?, ghost all: seq<ListNode>, ghost kept: seq<nat>)
      requires Separate(all) && Tied(all, cells, Repr) && Increasing(kept, |all|)
      requires prev == if kept == [] then null else all[kept[|kept| - 1]]
      modifies this`first, this`cells, Repr
      ensures Tied(all, cells, Repr)
      ensures kept == [] ==> first == at && cells == old(cells)
      ensures kept != [] ==> first == old(first)
      ensures kept != [] ==> cells == old(cells)[kept[|kept| - 1] := old(cells)[kept[|kept| - 1]].(next := at)]
    {
      if prev == null {
        first := at;
      } else {
        ghost var k := kept[|kept| - 1];
        assert cells[k].next == prev.next;
        SetNext(prev, at, all, cells, Repr, k);
        cells := cells[k := cells[k].(next := at)];
      }
    }

    method Drop(prev: ListNode?, at: ListNode, now: int, ghost all: seq<ListNode>, ghost was: seq<Cell>, ghost kept: seq<nat>, ghost i: nat)
      returns (next: ListNode?)
      requires Separate(all) && Tied(all, cells, Repr) && |was| == |all| && Chained(all, was, null)
      requires i < |all| && at == all[i] && Scanned(all, was, cells, kept, i, at, now) && at.Value().Stale(now)
      requires prev == if kept == [] then null else all[kept[|kept| - 1]]
      modifies this`first, this`length, this`cells, Repr
      ensures Tied(all, cells, Repr) && Scanned(all, was, cells, kept, i + 1, next, now)
      ensures first == if kept == [] then next else old(first)
      ensures length == old(length) - 1
    {
      ghost var before := cells;
      assert before[i] == Cell(at.Value(), at.next);
      next := at.next;
      length := length - 1;
      SkipTo(prev, next, all, kept);
      ScanDrop(all, was, before, kept, i, now, cells);
    }

    /** The pointer-to-pointer loop of check_timeouts at its `i`-th node: `prev` is the node whose
        `next` field is looked through, or null for the head of the list. */
    ghost predicate Scanning(prev: ListNode?, at: ListNode?, was: seq<Cell>, kept: seq<nat>, i: nat, now: int)
      reads this`first, this`length, this`spine, this`cells, this`Repr, Repr
    {
      && |was| == |spine| && Tied(spine, cells, Repr) && Scanned(spine, was, cells, kept, i, at, now)
      && prev == (if kept == [] then null else spine[kept[|kept| - 1]])
      && first == (if kept == [] then at else spine[kept[0]])
      && length == |kept| + |spine| - i
    }

    method ScanNode(prev: ListNode?, at: ListNode, now: int, ghost was: seq<Cell>, ghost kept: seq<nat>, ghost i: nat)
      returns (prev': ListNode?, at': ListNode?, ghost kept': seq<nat>)
      requires Separate(spine) && |was| == |spine| && Chained(spine, was, null) && Scanning(prev, at, was, kept, i, now)
      modifies this`first, this`length, this`cells, Repr
      ensures Scanning(prev', at', was, kept', i + 1, now)
    {
      assert cells[i] == was[i] == Cell(at.Value(), at.next);
      if now - at.lastSeen > NODELIST_TIMEOUT_MS {
        prev', kept' := prev, kept;
        at' := Drop(prev, at, now, spine, was, kept, i);
      } else {
        ScanKeep(spine, was, cells, kept, i, now);
        prev', at', kept' := at, at.next, kept + [i];
      }
    }

    method Scan(now: int) returns (ghost kept: seq<nat>)
      requires Whole()
      modifies this`first, this`length, this`cells, Repr
      ensures Tied(spine, cells, Repr) && Scanned(spine, old(cells), cells, kept, |spine|, null, now)
      ensures first == (if kept == [] then null else spine[kept[0]]) && length == |kept|
    {
      ghost var was, i := cells, 0;
      kept := [];
      var prev: ListNode? := null;
      var at := first;
      ScanStart(spine, was, now);
      while at != null
        invariant Scanning(prev, at, was, kept, i, now)
        decreases |spine| - i
      {
        prev, at, kept := ScanNode(prev, at, now, was, kept, i);
        i := i + 1;
      }
    }

    method Unlink(now: int)
      requires Whole()
      modifies this`first, this`length, this`spine, this`cells, Repr
      ensures Linked() && length == |spine|
      ensures View() == Fresh(old(View()), now)
    {
      ghost var was := cells;
      ghost var kept := Scan(now);
      ScanDone(spine, was, cells, kept, Repr, now);
      spine, cells := Pick(spine, kept), Pick(cells, kept);
    }

    method FindLast()
      requires Linked()
      modifies this`last
      ensures last == if spine == [] then null else spine[|spine| - 1]
    {
      last := null;
      var tmp := first;
      ghost var k := 0;
      while tmp != null
        invariant k <= |spine| && tmp == (if k < |spine| then spine[k] else null)
        invariant last == if k == 0 then null else spine[k - 1]
        decreases |spine| - k
      {
        assert cells[k].next == tmp.next;
        last := tmp;
        tmp := tmp.next;
        k := k + 1;
      }
    }

    /** The node-list part of check_timeouts. */
    method ExpireNodes(now: int)
      requires Valid()
      modifies this, Repr
      ensures Valid() && View() == Fresh(old(View()), now) && current == (if spine == [] then null else spine[0])
      ensures seqno == (old(seqno) + 2) % TWO_TO_THE_32 && Repr == old(Repr)
    {
      Bump();
      Unlink(now);
      FindLast();
      current := first;
      Bump();
    }

    /** The ports of one entry in find_nodes_from_uni: its address takes at most one slot, every
        port on the universe counts. */
    method VisitEntry(n: ListNode, uni: nat, ips: array<Option<Ip>>, filled: nat, counted: nat) returns (j: nat, count: nat)
      requires filled <= ips.Length
      modifies ips
      ensures count == counted + Hits(n.info, uni)
      ensures if Subscribes(n.info, uni) && filled < ips.Length
        then j == filled + 1 && ips[..] == old(ips[..])[filled := Some(n.ip)]
        else j == filled && ips[..] == old(ips[..])
    {
      var added := false;
      var i := 0;
      j, count := filled, counted;
      while i < n.info.numPorts
        invariant 0 <= i <= n.info.numPorts
        invariant count == counted + HitsUpTo(n.info, uni, i)
        invariant added <==> HitsUpTo(n.info, uni, i) > 0 && filled < ips.Length
        invariant j == filled + (if added then 1 else 0)
        invariant ips[..] == if added then old(ips[..])[filled := Some(n.ip)] else old(ips[..])
      {
        if PortMatches(n.info, i, uni) {
          if j < ips.Length && !added {
            ips[j] := Some(n.ip);
            j := j + 1;
            added := true;
          }
          count := count + 1;
        }
        i := i + 1;
      }
      HitsMeanSubscription(n.info, uni, n.info.numPorts);
    }

    /** find_nodes_from_uni, when no writer gets in the way. */
    method FindNodesFromUni(uni: nat, ips: array<Option<Ip>>) returns (count: nat)
      requires Linked()
      modifies ips
      ensures var a := Query(View(), uni, ips.Length);
        count == a.count && |a.ips| <= ips.Length && ips[..] == Filled(a.ips) + old(ips[..])[|a.ips|..]
    {
      count := 0;
      var j := 0;
      var tmp := first;
      ghost var k := 0;
      ghost var entries, slots := View(), ips[..];
      assert Filled([]) + slots[0..] == slots;
      while tmp != null
        invariant k <= |spine| && tmp == (if k < |spine| then spine[k] else null)
        invariant j == |Query(entries[..k], uni, ips.Length).ips| <= ips.Length
        invariant count == Query(entries[..k], uni, ips.Length).count
        invariant ips[..] == Filled(Query(entries[..k], uni, ips.Length).ips) + slots[j..]
        decreases |spine| - k
      {
        assert cells[k] == Cell(tmp.Value(), tmp.next) && entries[k] == tmp.Value();
        assert entries[..k + 1][..k] == entries[..k];
        ghost var a, was := Query(entries[..k], uni, ips.Length), ips[..];
        j, count := VisitEntry(tmp, uni, ips, j, count);
        SlotsNext(a, entries[k], uni, slots, was, ips[..]);
        tmp := tmp.next;
        k := k + 1;
      }
      assert entries[..|spine|] == entries;
    }

    /** The addressing part of artnet_send_dmx. Reading past the slots yields nothing of use. */
    method SendDmxTo(uni: nat, bcastLimit: nat) returns (sent: seq<Option<Ip>>)
      requires Valid()
      ensures sent == Targets(View(), uni, bcastLimit)
    {
      var limit := if bcastLimit == 0 then (if length == 0 then 1 else length) else bcastLimit;
      var ips := new Option<Ip>[limit](_ => None);
      assert ips[..] == seq(limit, _ => None);
      var nodes := FindNodesFromUni(uni, ips);
      ghost var targets, slots := Targets(View(), uni, bcastLimit), ips[..];
      SlotsAreTargets(View(), uni, bcastLimit, slots);
      sent := [];
      var i := 0;
      while i < nodes && (bcastLimit == 0 || i < bcastLimit)
        invariant 0 <= i <= |targets| && sent == targets[..i]
      {
        sent := sent + [if i < limit then ips[i] else None];
        i := i + 1;
      }
    }
  }

  lemma SlotsNext(a: Answer, e: Entry, uni: nat, slots: seq<Option<Ip>>, was: seq<Option<Ip>>, after: seq<Option<Ip>>)
    requires |a.ips| <= |slots| && was == Filled(a.ips) + slots[|a.ips|..]
    requires after == if Subscribes(e.info, uni) && |a.ips| < |slots| then was[|a.ips| := Some(e.ip)] else was
    ensures var b := Visit(a, e, uni, |slots|); |b.ips| <= |slots| && after == Filled(b.ips) + slots[|b.ips|..]
  {
  }

  lemma SlotsAreTargets(entries: Entries, uni: nat, bcastLimit: nat, slots: seq<Option<Ip>>)
    requires |slots| == if bcastLimit == 0 then (if entries == [] then 1 else |entries|) else bcastLimit
    requires var a := Query(entries, uni, |slots|);
      |a.ips| <= |slots| && slots == Filled(a.ips) + seq(|slots| - |a.ips|, _ => None)
    ensures var count, targets := Query(entries, uni, |slots|).count, Targets(entries, uni, bcastLimit);
      && |targets| == (if bcastLimit == 0 then count else Min(count, bcastLimit))
      && forall k | 0 <= k < |targets| :: targets[k] == if k < |slots| then slots[k] else None
  {
  }

  lemma FoundAt(entries: Entries, key: (Ip, Byte), k: nat)
    requires k < |entries| && entries[k].Key() == key && forall i | 0 <= i < k :: entries[i].Key() != key
    ensures Find(entries, key) == k
  {
  }
}
