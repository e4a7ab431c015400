/** The sequence lock around the node list. A reader walks the list one entry at a time while a
    writer may change anything it likes, but only between its two increments of the counter. The
    counter has 32 bits; `count` is its value without wrap-around. */
module Seqlock {
  import opened Common
  import opened Subscribers

  type Pointer = nat    // 0 is NULL

  datatype Cell = Cell(entry: Entry, next: Pointer)

  datatype Memory = Memory(first: Pointer, cells: map<Pointer, Cell>)

  /** The cells at these addresses are the list that starts at `p`. */
  predicate IsList(m: Memory, p: Pointer, ps: seq<Pointer>)
    decreases |ps|
  {
    if ps == [] then p == 0
    else p != 0 && p == ps[0] && p in m.cells && IsList(m, m.cells[p].next, ps[1..])
  }

  ghost predicate WellFormed(m: Memory) { exists ps :: IsList(m, m.first, ps) }

  function Contents(m: Memory, ps: seq<Pointer>): Entries
    requires forall p <- ps :: p in m.cells
  {
    seq(|ps|, i requires 0 <= i < |ps| => m.cells[ps[i]].entry)
  }

  /** find_nodes_from_uni: before the counter is read, after it was read, on the list, and out of
      the loop. `seen` is the 32-bit value read. */
  datatype Reader = Outside | Begun(seen: nat) | Walking(seen: nat, at: Pointer, a: Answer) | Returned(a: Answer)

  /** `started` is the count at the time the reader read the counter. */
  datatype State = State(mem: Memory, count: nat, writing: bool, reader: Reader, started: nat, uni: nat, size: nat)
  {
    function Counter(): nat { count % TWO_TO_THE_32 }
  }

  /** `Store` is any write by the writer. `Finish` is possible when the list is whole again. When
      the reader follows a pointer to memory that is gone, it reads some `garbage`. */
  datatype Action = Begin | Head | Read(garbage: Cell) | Check | Claim | Store(mem: Memory) | Finish

  ghost function Step(s: State, action: Action): State {
    match action
    case Begin =>
      if !s.reader.Outside? || s.Counter() % 2 == 1 then s
      else s.(reader := Begun(s.Counter()), started := s.count)
    case Head =>
      if s.reader.Begun? then s.(reader := Walking(s.reader.seen, s.mem.first, Answer([], 0))) else s
    case Read(garbage) =>
      if s.reader.Walking? && s.reader.at != 0 then
        var cell := if s.reader.at in s.mem.cells then s.mem.cells[s.reader.at] else garbage;
        s.(reader := Walking(s.reader.seen, cell.next, Visit(s.reader.a, cell.entry, s.uni, s.size)))
      else s
    case Check =>
      if s.reader.Walking? && s.reader.at == 0 then
        s.(reader := if s.reader.seen != s.Counter() || s.reader.seen % 2 == 1 then Outside else Returned(s.reader.a))
      else s
    case Claim => if s.writing then s else s.(count := s.count + 1, writing := true)
    case Store(mem) => if s.writing then s.(mem := mem) else s
    case Finish => if s.writing && WellFormed(s.mem) then s.(count := s.count + 1, writing := false) else s
  }

  ghost function Run(s: State, actions: seq<Action>): State
    decreases |actions|
  {
    if actions == [] then s else Step(Run(s, actions[..|actions| - 1]), actions[|actions| - 1])
  }

  /** A run, one step longer. */
  lemma Continued(s: State, xs: seq<Action>, a: Action, longer: seq<Action>)
    requires longer == xs + [a]
    ensures Run(s, longer) == Step(Run(s, xs), a)
  {
    assert longer[..|longer| - 1] == xs;
  }

  lemma {:induction false} RunConcat(s: State, xs: seq<Action>, ys: seq<Action>)
    ensures Run(s, xs + ys) == Run(Run(s, xs), ys)
    decreases |ys|
  {
    if ys == [] {
      assert xs + ys == xs;
    } else {
      RunConcat(s, xs, ys[..|ys| - 1]);
      assert (xs + ys)[..|xs + ys| - 1] == xs + ys[..|ys| - 1];
    }
  }

  ghost predicate Initial(s: State) {
    s.count == 0 && !s.writing && WellFormed(s.mem) && s.reader == Outside
  }

  // ----- the invariant -----

  lemma {:induction false} ListCells(m: Memory, p: Pointer, ps: seq<Pointer>)
    requires IsList(m, p, ps)
    ensures forall q <- ps :: q in m.cells
    decreases |ps|
  {
    if ps == [] {
    } else {
      ListCells(m, m.cells[p].next, ps[1..]);
      assert ps == [ps[0]] + ps[1..];
    }
  }

  /** The reader has visited exactly the `done` part of the list, and stands at the `rest`. */
  ghost predicate OnTrack(m: Memory, at: Pointer, a: Answer, uni: nat, size: nat, done: seq<Pointer>, rest: seq<Pointer>) {
    && IsList(m, m.first, done + rest) && IsList(m, at, rest)
    && (forall p <- done :: p in m.cells)
    && a == Query(Contents(m, done), uni, size)
  }

  /** If no one wrote since the reader began, what it has so far is right. */
  ghost predicate Consistent(s: State) {
    s.reader.Walking? && s.started == s.count && !s.writing ==>
      exists done, rest :: OnTrack(s.mem, s.reader.at, s.reader.a, s.uni, s.size, done, rest)
  }

  ghost predicate Invariant(s: State) {
    && (s.writing <==> s.count % 2 == 1)
    && (!s.writing ==> WellFormed(s.mem))
    && (s.reader.Begun? || s.reader.Walking? ==>
          s.started <= s.count && s.started % 2 == 0 && s.reader.seen == s.started % TWO_TO_THE_32)
    && Consistent(s)
  }

  lemma HeadOnTrack(s: State)
    requires Invariant(s) && s.reader.Begun?
    ensures Consistent(Step(s, Head))
  {
    if !s.writing {
      var ps :| IsList(s.mem, s.mem.first, ps);
      assert [] + ps == ps;
      assert Contents(s.mem, []) == [];
      assert OnTrack(s.mem, s.mem.first, Answer([], 0), s.uni, s.size, [], ps);
    }
  }

  lemma ReadOnTrack(s: State, garbage: Cell)
    requires Invariant(s) && s.reader.Walking? && s.reader.at != 0
    ensures Consistent(Step(s, Read(garbage)))
  {
    if s.started == s.count && !s.writing {
      var done, rest :| OnTrack(s.mem, s.reader.at, s.reader.a, s.uni, s.size, done, rest);
      var p, r := rest[0], Step(s, Read(garbage)).reader;
      assert done + [p] + rest[1..] == done + rest;
      assert Contents(s.mem, done + [p])[..|done|] == Contents(s.mem, done);
      assert OnTrack(s.mem, r.at, r.a, s.uni, s.size, done + [p], rest[1..]);
    }
  }

  lemma InvariantStep(s: State, action: Action)
    requires Invariant(s)
    ensures Invariant(Step(s, action))
  {
    match action
    case Head => if s.reader.Begun? { HeadOnTrack(s); }
    case Read(garbage) => if s.reader.Walking? && s.reader.at != 0 { ReadOnTrack(s, garbage); }
    case _ =>
  }

  /** In particular the counter is even whenever no writer is at work. */
  lemma {:induction false} InvariantRun(s: State, actions: seq<Action>)
    requires Initial(s)
    ensures Invariant(Run(s, actions))
    decreases |actions|
  {
    if actions == [] {
    } else {
      InvariantRun(s, actions[..|actions| - 1]);
      InvariantStep(Run(s, actions[..|actions| - 1]), actions[|actions| - 1]);
    }
  }

  /** Under every interleaving: a reader that leaves the retry loop returns the answer for the list
      as it stands at that moment, provided the counter was incremented fewer than 2^32 times
      since the reader began. No writer is then at work. */
  lemma Snapshot(s: State, actions: seq<Action>)
    requires Initial(s)
    requires var t := Run(s, actions);
      t.reader.Walking? && Step(t, Check).reader.Returned? && t.count - t.started < TWO_TO_THE_32
    ensures var t := Run(s, actions);
      && !t.writing
      && exists ps :: IsList(t.mem, t.mem.first, ps) && (forall p <- ps :: p in t.mem.cells)
           && Step(t, Check).reader.a == Query(Contents(t.mem, ps), t.uni, t.size)
  {
    InvariantRun(s, actions);
    var t := Run(s, actions);
    SameResidue(t.started, t.count);
    var done, rest :| OnTrack(t.mem, t.reader.at, t.reader.a, t.uni, t.size, done, rest);
    assert rest == [] && done + rest == done;
  }

  lemma SameResidue(a: nat, b: nat)
    requires a <= b < a + TWO_TO_THE_32 && a % TWO_TO_THE_32 == b % TWO_TO_THE_32
    ensures a == b
  {
  }

  /** The bound is needed: the check succeeds exactly when the number of increments since the
      reader began is a multiple of 2^32, whatever was written meanwhile. */
  lemma CheckSeesResidueOnly(s: State)
    requires Invariant(s) && s.reader.Walking? && s.reader.at == 0
    ensures Step(s, Check).reader.Returned? <==> (s.count - s.started) % TWO_TO_THE_32 == 0
  {
    assert s.reader.seen % 2 == 0;
  }

  lemma OddIsNotEven(even: nat, odd: nat)
    requires even % 2 == 0 && odd % 2 == 1
    ensures even % TWO_TO_THE_32 != odd % TWO_TO_THE_32
  {
  }

  /** A writer that never finishes, as artnet_nl_update does when memory runs out, keeps every
      reader in the loop for good. */
  lemma {:induction false} UnfinishedWriteBlocksReaders(s: State, actions: seq<Action>)
    requires Invariant(s) && s.writing && !s.reader.Returned? && Finish !in actions
    ensures var t := Run(s, actions); Invariant(t) && t.writing && !t.reader.Returned?
    decreases |actions|
  {
    if actions == [] {
    } else {
      var before, last := actions[..|actions| - 1], actions[|actions| - 1];
      UnfinishedWriteBlocksReaders(s, before);
      assert last in actions;
      var t := Run(s, before);
      InvariantStep(t, last);
      if t.reader.Walking? {
        OddIsNotEven(t.started, t.count);
      }
    }
  }
}
