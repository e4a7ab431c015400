/** The two write sections that the sequence lock guards, store by store: what artnet_nl_update and
    the expiry loop write, and what list they leave. */
module WriteSections {
  import opened Common
  import opened Subscribers
  import opened Seqlock

  // ----- lists by position -----

  /** Each pointer leads to the next one, and the last one to NULL. */
  ghost predicate Chain(m: Memory, ps: seq<Pointer>) {
    forall i {:trigger ps[i] in m.cells} | 0 <= i < |ps| ::
      ps[i] != 0 && ps[i] in m.cells && m.cells[ps[i]].next == if i + 1 < |ps| then ps[i + 1] else 0
  }

  ghost predicate Begins(p: Pointer, ps: seq<Pointer>) { p == if ps == [] then 0 else ps[0] }

  predicate Distinct(ps: seq<Pointer>) { forall i, j | 0 <= i < j < |ps| :: ps[i] != ps[j] }

  lemma {:induction false} ListByPosition(m: Memory, p: Pointer, ps: seq<Pointer>)
    ensures IsList(m, p, ps) <==> Begins(p, ps) && Chain(m, ps)
    decreases |ps|
  {
    if ps == [] {
    } else if ps[0] in m.cells {
      var rest := ps[1..];
      ListByPosition(m, m.cells[ps[0]].next, rest);
      if Begins(m.cells[ps[0]].next, rest) && Chain(m, rest) && ps[0] != 0 {
        forall i | 0 <= i < |ps|
          ensures ps[i] != 0 && ps[i] in m.cells && m.cells[ps[i]].next == if i + 1 < |ps| then ps[i + 1] else 0
        {
          assert i > 0 ==> ps[i] == rest[i - 1] && rest[i - 1] in m.cells;
        }
      }
      if Chain(m, ps) {
        assert ps[0] in m.cells;
        forall i | 0 <= i < |rest|
          ensures rest[i] != 0 && rest[i] in m.cells && m.cells[rest[i]].next == if i + 1 < |rest| then rest[i + 1] else 0
        {
          assert ps[i + 1] in m.cells;
        }
      }
    }
  }

  lemma {:induction false} OneListFrom(m: Memory, p: Pointer, ps: seq<Pointer>, qs: seq<Pointer>)
    requires IsList(m, p, ps) && IsList(m, p, qs)
    ensures ps == qs
    decreases |ps|
  {
    if ps == [] || qs == [] {
    } else {
      OneListFrom(m, m.cells[p].next, ps[1..], qs[1..]);
      assert ps == [p] + ps[1..] && qs == [p] + qs[1..];
    }
  }

  lemma {:induction false} TailIsList(m: Memory, p: Pointer, ps: seq<Pointer>, i: nat)
    requires IsList(m, p, ps) && i < |ps|
    ensures IsList(m, ps[i], ps[i..])
    decreases i
  {
    if i > 0 {
      TailIsList(m, m.cells[p].next, ps[1..], i - 1);
      assert ps[1..][i - 1..] == ps[i..];
    }
  }

  /** A list that ends goes through no cell twice. */
  lemma ListDistinct(m: Memory, p: Pointer, ps: seq<Pointer>)
    requires IsList(m, p, ps)
    ensures Distinct(ps)
  {
    forall i, j | 0 <= i < j < |ps| ensures ps[i] != ps[j] {
      TailIsList(m, p, ps, i);
      TailIsList(m, p, ps, j);
      if ps[i] == ps[j] {
        OneListFrom(m, ps[i], ps[i..], ps[j..]);
      }
    }
  }

  /** The list is whole, and holds these entries. */
  ghost predicate ListHolds(m: Memory, ps: seq<Pointer>, entries: Entries) {
    IsList(m, m.first, ps) && (forall p <- ps :: p in m.cells) && Contents(m, ps) == entries
  }

  function Last(m: Memory, stores: seq<Memory>): Memory { if stores == [] then m else stores[|stores| - 1] }

  // ----- artnet_nl_update -----

  function SetNext(m: Memory, p: Pointer, next: Pointer): Memory
    requires p in m.cells
  {
    m.(cells := m.cells[p := m.cells[p].(next := next)])
  }

  /** The memory after each store of an update. A new entry is filled in before it is linked. */
  function UpdateStores(m: Memory, ps: seq<Pointer>, e: Entry, added: Pointer): (stores: seq<Memory>)
    requires (forall p <- ps :: p in m.cells) && added !in m.cells
  {
    var k := Find(Contents(m, ps), e.Key());
    if k < |ps| then [m.(cells := m.cells[ps[k] := m.cells[ps[k]].(entry := e)])]
    else
      var filled := m.(cells := m.cells[added := Cell(e, 0)]);
      [filled, if ps == [] then filled.(first := added) else SetNext(filled, ps[|ps| - 1], added)]
  }

  lemma UpdateInPlace(m: Memory, ps: seq<Pointer>, k: nat, e: Entry)
    requires IsList(m, m.first, ps) && (forall p <- ps :: p in m.cells) && k < |ps|
    ensures ListHolds(m.(cells := m.cells[ps[k] := m.cells[ps[k]].(entry := e)]), ps, Contents(m, ps)[k := e])
  {
    var m' := m.(cells := m.cells[ps[k] := m.cells[ps[k]].(entry := e)]);
    ListByPosition(m, m.first, ps);
    ListDistinct(m, m.first, ps);
    forall i | 0 <= i < |ps|
      ensures ps[i] != 0 && ps[i] in m'.cells && m'.cells[ps[i]].next == if i + 1 < |ps| then ps[i + 1] else 0
      ensures m'.cells[ps[i]].entry == if i == k then e else m.cells[ps[i]].entry
    {
      assert ps[i] in m.cells;
    }
    ListByPosition(m', m'.first, ps);
    assert Contents(m', ps) == Contents(m, ps)[k := e];
  }

  lemma Appended(m: Memory, ps: seq<Pointer>, e: Entry, added: Pointer)
    requires IsList(m, m.first, ps) && (forall p <- ps :: p in m.cells) && added != 0 && added !in m.cells
    ensures var filled := m.(cells := m.cells[added := Cell(e, 0)]);
      ListHolds(if ps == [] then filled.(first := added) else SetNext(filled, ps[|ps| - 1], added), ps + [added], Contents(m, ps) + [e])
  {
    var filled := m.(cells := m.cells[added := Cell(e, 0)]);
    var m' := if ps == [] then filled.(first := added) else SetNext(filled, ps[|ps| - 1], added);
    var ps' := ps + [added];
    ListByPosition(m, m.first, ps);
    ListByPosition(m', m'.first, ps');
    ListDistinct(m, m.first, ps);
    forall i | 0 <= i < |ps'|
      ensures ps'[i] != 0 && ps'[i] in m'.cells && m'.cells[ps'[i]].next == if i + 1 < |ps'| then ps'[i + 1] else 0
    {
      assert i < |ps| ==> ps[i] in m.cells && ps[i] in ps;
    }
    assert Contents(m', ps') == Contents(m, ps) + [e];
  }

  /** The stores of an update leave the list after the upsert. */
  lemma UpdateLeaves(m: Memory, ps: seq<Pointer>, e: Entry, added: Pointer)
    requires IsList(m, m.first, ps) && (forall p <- ps :: p in m.cells) && added != 0 && added !in m.cells
    ensures exists ps' :: ListHolds(Last(m, UpdateStores(m, ps, e, added)), ps', Upsert(Contents(m, ps), e))
  {
    var k := Find(Contents(m, ps), e.Key());
    if k < |ps| {
      UpdateInPlace(m, ps, k, e);
      assert ListHolds(Last(m, UpdateStores(m, ps, e, added)), ps, Upsert(Contents(m, ps), e));
    } else {
      Appended(m, ps, e, added);
      assert ListHolds(Last(m, UpdateStores(m, ps, e, added)), ps + [added], Upsert(Contents(m, ps), e));
    }
  }

  // ----- the expiry loop of check_timeouts -----

  /** The cell before the one that the loop looks at; 0 at the head of the list. */
  function Before(done: seq<Pointer>): Pointer { if done == [] then 0 else done[|done| - 1] }

  function Unlink(m: Memory, prev: Pointer, next: Pointer): Memory
    requires prev == 0 || prev in m.cells
  {
    if prev == 0 then m.(first := next) else SetNext(m, prev, next)
  }

  function Free(m: Memory, p: Pointer): Memory { m.(cells := m.cells - {p}) }

  predicate Scannable(m: Memory, prev: Pointer, rest: seq<Pointer>) {
    (forall p <- rest :: p in m.cells && p != prev) && Distinct(rest) && (prev == 0 || prev in m.cells)
  }

  /** The memory after each store of the loop: a stale cell is linked past, then freed. */
  function ExpireStores(m: Memory, prev: Pointer, rest: seq<Pointer>, now: int): seq<Memory>
    requires Scannable(m, prev, rest)
    decreases |rest|
  {
    if rest == [] then []
    else
      var p := rest[0];
      assert forall q <- rest[1..] :: q in rest && q != p;
      if m.cells[p].entry.Stale(now) then
        var unlinked := Unlink(m, prev, m.cells[p].next);
        [unlinked, Free(unlinked, p)] + ExpireStores(Free(unlinked, p), prev, rest[1..], now)
      else ExpireStores(m, p, rest[1..], now)
  }

  lemma KeptAt(done: seq<Pointer>, p: Pointer, rest: seq<Pointer>, i: nat)
    requires i < |done + rest|
    ensures var all, kept := done + [p] + rest, done + rest;
      if i < |done| then kept[i] == all[i] && (i + 1 < |done| ==> kept[i + 1] == all[i + 1])
      else kept[i] == all[i + 1] && (i + 1 < |kept| ==> kept[i + 1] == all[i + 2])
  {
  }

  /** One cell of the list after cell `p` was linked past and freed. */
  lemma UnlinkedAt(m: Memory, done: seq<Pointer>, p: Pointer, rest: seq<Pointer>, i: nat)
    requires Chain(m, done + [p] + rest) && Distinct(done + [p] + rest) && i < |done + rest|
    requires p in m.cells && (Before(done) == 0 || Before(done) in m.cells) && m.cells[p].next == (if rest == [] then 0 else rest[0])
    ensures var kept, m' := done + rest, Free(Unlink(m, Before(done), m.cells[p].next), p);
      && kept[i] != 0 && kept[i] in m.cells && kept[i] in m'.cells && m'.cells[kept[i]].entry == m.cells[kept[i]].entry
      && m'.cells[kept[i]].next == if i + 1 < |kept| then kept[i + 1] else 0
  {
    var all, kept, n := done + [p] + rest, done + rest, |done|;
    KeptAt(done, p, rest, i);
    assert all[n] == p && (n > 0 ==> all[n - 1] == Before(done));
    if i < n {
      assert all[i] in m.cells && all[i] != all[n];
      assert i < n - 1 ==> all[i] != all[n - 1];
    } else {
      assert all[i + 1] in m.cells && all[n] != all[i + 1];
      assert n > 0 ==> all[n - 1] != all[i + 1];
    }
  }

  lemma UnlinkedFirst(m: Memory, done: seq<Pointer>, p: Pointer, rest: seq<Pointer>)
    requires Begins(m.first, done + [p] + rest) && Chain(m, done + [p] + rest)
    ensures p in m.cells && m.cells[p].next == (if rest == [] then 0 else rest[0])
    ensures if done == [] then Before(done) == 0 else Before(done) != 0 && Before(done) in m.cells
    ensures Begins(Unlink(m, Before(done), m.cells[p].next).first, done + rest)
  {
    var all, n := done + [p] + rest, |done|;
    assert all[n] == p && all[n] in m.cells;
    assert rest != [] ==> all[n + 1] == rest[0];
    if n > 0 {
      assert all[n - 1] == Before(done) && all[n - 1] in m.cells;
      assert all[0] == done[0] == (done + rest)[0];
    }
  }

  lemma UnlinkedContents(m: Memory, m': Memory, done: seq<Pointer>, rest: seq<Pointer>)
    requires (forall q <- done :: q in m.cells) && forall q <- rest :: q in m.cells
    requires forall i | 0 <= i < |done + rest| :: var q := (done + rest)[i];
      q in m.cells && q in m'.cells && m'.cells[q].entry == m.cells[q].entry
    ensures (forall q <- done + rest :: q in m'.cells) && Contents(m', done + rest) == Contents(m, done) + Contents(m, rest)
  {
  }

  lemma Unlinked(m: Memory, done: seq<Pointer>, p: Pointer, rest: seq<Pointer>)
    requires IsList(m, m.first, done + [p] + rest) && forall q <- done + [p] + rest :: q in m.cells
    ensures p in m.cells && (Before(done) == 0 || Before(done) in m.cells)
    ensures ListHolds(Free(Unlink(m, Before(done), m.cells[p].next), p), done + rest, Contents(m, done) + Contents(m, rest))
  {
    var all, kept := done + [p] + rest, done + rest;
    ListByPosition(m, m.first, all);
    ListDistinct(m, m.first, all);
    UnlinkedFirst(m, done, p, rest);
    var m' := Free(Unlink(m, Before(done), m.cells[p].next), p);
    forall i | 0 <= i < |kept|
      ensures kept[i] != 0 && kept[i] in m.cells && kept[i] in m'.cells && m'.cells[kept[i]].entry == m.cells[kept[i]].entry
      ensures m'.cells[kept[i]].next == if i + 1 < |kept| then kept[i + 1] else 0
    {
      UnlinkedAt(m, done, p, rest, i);
    }
    assert Chain(m', kept);
    ListByPosition(m', m'.first, kept);
    UnlinkedContents(m, m', done, rest);
  }

  lemma SameContents(m: Memory, m': Memory, done: seq<Pointer>, rest: seq<Pointer>)
    requires forall q <- done + rest :: q in m.cells && q in m'.cells
    requires Contents(m', done + rest) == Contents(m, done) + Contents(m, rest)
    ensures Contents(m', done) == Contents(m, done) && Contents(m', rest) == Contents(m, rest)
  {
    assert Contents(m', done) == Contents(m', done + rest)[..|done|];
    assert Contents(m', rest) == Contents(m', done + rest)[|done|..];
  }

  lemma ScanApart(m: Memory, done: seq<Pointer>, rest: seq<Pointer>)
    requires IsList(m, m.first, done + rest) && forall q <- done + rest :: q in m.cells
    ensures Scannable(m, Before(done), rest)
  {
    var all := done + rest;
    ListDistinct(m, m.first, all);
    ListByPosition(m, m.first, all);
    assert done != [] ==> all[|done| - 1] == Before(done);
    forall i | 0 <= i < |rest| ensures rest[i] in m.cells && rest[i] != Before(done) {
      assert all[|done| + i] == rest[i] && all[|done| + i] in m.cells;
      assert done != [] ==> all[|done| - 1] != all[|done| + i];
    }
    forall i, j | 0 <= i < j < |rest| ensures rest[i] != rest[j] {
      assert all[|done| + i] == rest[i] && all[|done| + j] == rest[j];
    }
  }

  /** What the loop may rely on between two cells. */
  ghost predicate Midway(m: Memory, done: seq<Pointer>, rest: seq<Pointer>) {
    IsList(m, m.first, done + rest) && forall q <- done + rest :: q in m.cells
  }

  lemma MidwayNext(m: Memory, done: seq<Pointer>, p: Pointer, rest: seq<Pointer>)
    requires Midway(m, done, [p] + rest)
    ensures p in m.cells && (Before(done) == 0 || Before(done) in m.cells)
    ensures Midway(m, done + [p], rest) && Contents(m, done + [p]) == Contents(m, done) + [m.cells[p].entry]
    ensures var m' := Free(Unlink(m, Before(done), m.cells[p].next), p);
      Midway(m', done, rest) && Contents(m', done) == Contents(m, done) && Contents(m', rest) == Contents(m, rest)
  {
    assert done + ([p] + rest) == done + [p] + rest;
    Unlinked(m, done, p, rest);
    SameContents(m, Free(Unlink(m, Before(done), m.cells[p].next), p), done, rest);
  }

  lemma FirstStores(m: Memory, prev: Pointer, rest: seq<Pointer>, now: int)
    requires Scannable(m, prev, rest) && rest != []
    ensures var p, rest' := rest[0], rest[1..];
      var freed := Free(Unlink(m, prev, m.cells[p].next), p);
      if m.cells[p].entry.Stale(now) then
        Scannable(freed, prev, rest') && Last(m, ExpireStores(m, prev, rest, now)) == Last(freed, ExpireStores(freed, prev, rest', now))
      else
        Scannable(m, p, rest') && Last(m, ExpireStores(m, prev, rest, now)) == Last(m, ExpireStores(m, p, rest', now))
  {
    assert forall q <- rest[1..] :: q in rest && q != rest[0];
  }

  lemma Regrouped(a: Entries, e: Entry, b: Entries)
    ensures (a + [e]) + b == a + ([e] + b)
  {
  }

  /** The stores of the loop leave the fresh entries, in order. */
  lemma {:induction false} ExpireLeaves(m: Memory, done: seq<Pointer>, rest: seq<Pointer>, now: int) returns (kept: seq<Pointer>)
    requires Midway(m, done, rest)
    ensures Scannable(m, Before(done), rest)
    ensures ListHolds(Last(m, ExpireStores(m, Before(done), rest, now)), kept, Contents(m, done) + Fresh(Contents(m, rest), now))
    decreases |rest|
  {
    ScanApart(m, done, rest);
    if rest == [] {
      kept := done;
      assert done + rest == done;
    } else {
      var p, rest' := rest[0], rest[1..];
      assert rest == [p] + rest';
      MidwayNext(m, done, p, rest');
      FreshFirst(m, p, rest', now);
      FirstStores(m, Before(done), rest, now);
      if m.cells[p].entry.Stale(now) {
        kept := ExpireLeaves(Free(Unlink(m, Before(done), m.cells[p].next), p), done, rest', now);
      } else {
        kept := ExpireLeaves(m, done + [p], rest', now);
        Regrouped(Contents(m, done), m.cells[p].entry, Fresh(Contents(m, rest'), now));
      }
    }
  }

  lemma FreshFirst(m: Memory, p: Pointer, rest: seq<Pointer>, now: int)
    requires forall q <- [p] + rest :: q in m.cells
    ensures p in m.cells
    ensures var e, tail := m.cells[p].entry, Fresh(Contents(m, rest), now);
      Fresh(Contents(m, [p] + rest), now) == if e.Stale(now) then tail else [e] + tail
  {
    assert ([p] + rest)[0] == p;
    FreshConcat([m.cells[p].entry], Contents(m, rest), now);
    assert Contents(m, [p] + rest) == [m.cells[p].entry] + Contents(m, rest);
    assert [m.cells[p].entry][..0] == [];
  }

  // ----- the sections as a whole -----

  function Stores(ms: seq<Memory>): (actions: seq<Action>)
    ensures |actions| == |ms|
  {
    seq(|ms|, i requires 0 <= i < |ms| => Store(ms[i]))
  }

  function Section(ms: seq<Memory>): seq<Action> { [Claim] + Stores(ms) + [Finish] }

  lemma {:induction false} StoresRun(s: State, ms: seq<Memory>)
    requires s.writing
    ensures Run(s, Stores(ms)) == s.(mem := Last(s.mem, ms))
    decreases |ms|
  {
    if ms == [] {
    } else {
      var n := |ms| - 1;
      StoresRun(s, ms[..n]);
      Continued(s, Stores(ms[..n]), Store(ms[n]), Stores(ms));
    }
  }

  /** A section whose stores leave a whole list runs to its end. */
  lemma SectionEnds(s: State, ms: seq<Memory>)
    requires !s.writing && WellFormed(Last(s.mem, ms))
    ensures Run(s, Section(ms)) == s.(mem := Last(s.mem, ms), count := s.count + 2)
  {
    var s1 := s.(count := s.count + 1, writing := true);
    Continued(s, [], Claim, [Claim]);
    RunConcat(s, [Claim], Stores(ms));
    StoresRun(s1, ms);
    Continued(s, [Claim] + Stores(ms), Finish, Section(ms));
  }

  /** artnet_nl_update and the expiry loop, run to the end from any list: the write section ends,
      the list is whole, and it is the upsert, or the fresh entries, of what it was. */
  lemma WriteSectionsEnd(s: State, ps: seq<Pointer>, e: Entry, added: Pointer, now: int)
    requires !s.writing && IsList(s.mem, s.mem.first, ps) && (forall p <- ps :: p in s.mem.cells)
    requires added != 0 && added !in s.mem.cells
    ensures Scannable(s.mem, 0, ps)
    ensures var t := Run(s, Section(UpdateStores(s.mem, ps, e, added)));
      && !t.writing && t.count == s.count + 2 && WellFormed(t.mem)
      && exists ps' :: ListHolds(t.mem, ps', Upsert(Contents(s.mem, ps), e))
    ensures var t := Run(s, Section(ExpireStores(s.mem, 0, ps, now)));
      && !t.writing && t.count == s.count + 2 && WellFormed(t.mem)
      && exists ps' :: ListHolds(t.mem, ps', Fresh(Contents(s.mem, ps), now))
  {
    UpdateLeaves(s.mem, ps, e, added);
    SectionEnds(s, UpdateStores(s.mem, ps, e, added));
    assert [] + ps == ps && Contents(s.mem, []) == [];
    var kept := ExpireLeaves(s.mem, [], ps, now);
    SectionEnds(s, ExpireStores(s.mem, 0, ps, now));
    assert [] + Fresh(Contents(s.mem, ps), now) == Fresh(Contents(s.mem, ps), now);
    assert ListHolds(Last(s.mem, ExpireStores(s.mem, 0, ps, now)), kept, Fresh(Contents(s.mem, ps), now));
  }
}
