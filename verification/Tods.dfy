/** The RDM Table of Devices of a port, and how it is split into ArtTodData packets. */
module Tods {
  import opened Common

  const UID_BYTES := 6
  const INITIAL_SIZE := 100
  const INCREMENT := 50
  const BLOCK_UIDS := 200

  type Uid = s: seq<Byte> | |s| == UID_BYTES witness seq(UID_BYTES, _ => 0)
  type Table = seq<Uid>

  // ----- the table -----

  function IndexOf(t: Table, u: Uid): (k: nat)
    ensures k <= |t| && (k < |t| <==> u in t) && (k < |t| ==> t[k] == u)
    ensures forall i | 0 <= i < k :: t[i] != u
  {
    if t == [] || t[0] == u then 0 else 1 + IndexOf(t[1..], u)
  }

  /** The last entry moves to where the removed one was. */
  function Removed(t: Table, u: Uid): (r: Table)
    requires u in t
    ensures |r| == |t| - 1
  {
    t[IndexOf(t, u) := t[|t| - 1]][..|t| - 1]
  }

  /** The first occurrence is the one that goes; no other entry but the last one moves. */
  lemma RemovedPlaces(t: Table, u: Uid, k: nat)
    requires k < |t| && t[k] == u && forall i | 0 <= i < k :: t[i] != u
    ensures forall i | 0 <= i < |t| - 1 :: Removed(t, u)[i] == if i == k then t[|t| - 1] else t[i]
  {
    assert IndexOf(t, u) == k;
  }

  lemma MovedBack(a: Table, u: Uid, b: Table, v: Uid)
    ensures multiset(a + [v] + b) == multiset(a + [u] + b + [v]) - multiset{u}
  {
  }

  /** Removal takes one occurrence out and keeps all the rest. */
  lemma RemovedOne(t: Table, u: Uid)
    requires u in t
    ensures multiset(Removed(t, u)) == multiset(t) - multiset{u}
  {
    var k, n := IndexOf(t, u), |t| - 1;
    if k == n {
      assert t == t[..n] + [u] && Removed(t, u) == t[..n];
    } else {
      var before, between := t[..k], t[k + 1..n];
      assert t == before + [u] + between + [t[n]];
      assert Removed(t, u) == before + [t[n]] + between;
      MovedBack(before, u, between, t[n]);
    }
  }

  /** Calls on a table; `memory` says whether memory can be had if the call needs some. */
  datatype Call = Add(u: Uid, memory: bool) | Remove(u: Uid) | Flush

  /** What a table goes through: its entries in order, and how many it has room for. */
  datatype State = State(table: Table, room: nat)

  predicate NeedsMemory(s: State) { |s.table| == s.room }

  function Apply(s: State, c: Call): State {
    match c
    case Add(u, memory) =>
      if !NeedsMemory(s) then s.(table := s.table + [u])
      else if memory then State(s.table + [u], s.room + if s.room == 0 then INITIAL_SIZE else INCREMENT)
      else s
    case Remove(u) => if u in s.table then s.(table := Removed(s.table, u)) else s
    case Flush => State([], 0)
  }

  function After(calls: seq<Call>): State
    decreases |calls|
  {
    if calls == [] then State([], 0) else Apply(After(calls[..|calls| - 1]), calls[|calls| - 1])
  }

  /** What the calls should leave, order aside. An addition fails only for want of memory. */
  function Devices(calls: seq<Call>): multiset<Uid>
    decreases |calls|
  {
    if calls == [] then multiset{}
    else
      var before, s := Devices(calls[..|calls| - 1]), After(calls[..|calls| - 1]);
      match calls[|calls| - 1]
      case Add(u, memory) => if NeedsMemory(s) && !memory then before else before + multiset{u}
      case Remove(u) => before - multiset{u}
      case Flush => multiset{}
  }

  /** Over any sequence of calls the table holds exactly the devices added and not removed. */
  lemma {:induction false} TableHoldsDevices(calls: seq<Call>)
    ensures var s := After(calls); multiset(s.table) == Devices(calls) && |s.table| <= s.room
    decreases |calls|
  {
    if calls == [] {
    } else {
      TableHoldsDevices(calls[..|calls| - 1]);
      var s := After(calls[..|calls| - 1]);
      match calls[|calls| - 1]
      case Add(u, memory) =>
      case Remove(u) =>
        if u in s.table {
          RemovedOne(s.table, u);
        }
        assert u !in s.table ==> multiset(s.table) - multiset{u} == multiset(s.table);
      case Flush =>
    }
  }

  /** The longest the table has been since it was last empty of memory. */
  function Peak(calls: seq<Call>): nat
    decreases |calls|
  {
    if calls == [] || calls[|calls| - 1].Flush? then 0
    else
      var before, now := Peak(calls[..|calls| - 1]), |After(calls).table|;
      if now > before then now else before
  }

  /** Room for 100 entries at first, then for 50 more at a time. */
  ghost predicate RoomFor(room: nat, peak: nat) {
    if peak == 0 then room == 0
    else if peak <= 100 then room == 100
    else peak <= room < peak + 50 && room % 50 == 0
  }

  /** The array is never larger than its longest contents called for. */
  lemma {:induction false} RoomOfRun(calls: seq<Call>)
    ensures |After(calls).table| <= Peak(calls) <= After(calls).room && RoomFor(After(calls).room, Peak(calls))
    decreases |calls|
  {
    if calls == [] {
    } else {
      RoomOfRun(calls[..|calls| - 1]);
    }
  }

  // ----- the flat array -----

  function UidAt(bytes: seq<Byte>, i: nat): Uid
    requires UID_BYTES * i + UID_BYTES <= |bytes|
  {
    bytes[UID_BYTES * i..UID_BYTES * i + UID_BYTES]
  }

  /** The first `n` entries of a flat array. */
  function Uids(bytes: seq<Byte>, n: nat): (t: Table)
    requires UID_BYTES * n <= |bytes|
    ensures |t| == n
  {
    seq(n, i requires 0 <= i < n => UidAt(bytes, i))
  }

  /** Writing over one entry leaves the others alone. */
  lemma WriteUid(bytes: seq<Byte>, i: nat, u: Uid, n: nat)
    requires UID_BYTES * n <= |bytes| && i < n
    ensures Uids(Patched(bytes, UID_BYTES * i, u), n) == Uids(bytes, n)[i := u]
  {
    var after := Patched(bytes, UID_BYTES * i, u);
    forall k | 0 <= k < n ensures UidAt(after, k) == if k == i then u else UidAt(bytes, k) {
      PatchedSlice(bytes, UID_BYTES * i, u, UID_BYTES * k, UID_BYTES * k + UID_BYTES);
    }
  }

  lemma SameUids(bytes: seq<Byte>, bytes': seq<Byte>, n: nat)
    requires UID_BYTES * n <= |bytes| && UID_BYTES * n <= |bytes'| && bytes[..UID_BYTES * n] == bytes'[..UID_BYTES * n]
    ensures Uids(bytes, n) == Uids(bytes', n)
  {
    forall k | 0 <= k < n ensures UidAt(bytes', k) == UidAt(bytes, k) {
      assert UidAt(bytes, k) == bytes[..UID_BYTES * n][UID_BYTES * k..UID_BYTES * k + UID_BYTES];
      assert UidAt(bytes', k) == bytes'[..UID_BYTES * n][UID_BYTES * k..UID_BYTES * k + UID_BYTES];
    }
  }

  class Tod {
    var data: array?<Byte>
    var length: nat
    var maxLength: nat

    ghost predicate Valid()
      reads this, data
    {
      if data == null then length == maxLength == 0
      else maxLength > 0 && length <= maxLength && data.Length == UID_BYTES * maxLength
    }

    ghost function View(): State
      requires Valid()
      reads this, data
    {
      State(if data == null then [] else Uids(data[..], length), maxLength)
    }

    constructor ()
      ensures Valid() && View() == State([], 0)
    {
      data, length, maxLength := null, 0, 0;
    }

    /** realloc: a larger array that starts like the old one. */
    method Grow(size: nat)
      requires Valid() && data != null && size > maxLength
      modifies this`data, this`maxLength
      ensures Valid() && data != null && fresh(data) && maxLength == size
      ensures View().table == old(View().table)
    {
      var was := data;
      data := new Byte[UID_BYTES * size](i requires 0 <= i reads was => if i < was.Length then was[i] else 0);
      maxLength := size;
      assert data[..was.Length] == was[..];
      assert data[..][..UID_BYTES * length] == was[..][..UID_BYTES * length];
      SameUids(was[..], data[..], length);
    }

    /** add_tod_uid */
    method Add(u: Uid, memory: bool) returns (ok: bool)
      requires Valid()
      modifies this, data
      ensures Valid() && View() == Apply(old(View()), Call.Add(u, memory))
      ensures ok == (memory || !NeedsMemory(old(View())))
      ensures data == old(data) || fresh(data)
    {
      if data == null {
        if !memory {
          return false;
        }
        data := new Byte[UID_BYTES * INITIAL_SIZE](_ => 0);
        maxLength := INITIAL_SIZE;
      } else if length == maxLength {
        if !memory {
          return false;
        }
        Grow(maxLength + INCREMENT);
      }
      ghost var before := data[..];
      Copy(data, UID_BYTES * length, u);
      length := length + 1;
      AddedUid(before, data[..], u, length - 1);
      ok := true;
    }

    /** The search loop of remove_tod_uid. */
    method Find(u: Uid) returns (i: nat)
      requires Valid() && data != null
      ensures i == IndexOf(View().table, u)
    {
      ghost var t := View().table;
      i := 0;
      while i < length && data[UID_BYTES * i..UID_BYTES * i + UID_BYTES] != u
        invariant 0 <= i <= length
        invariant forall k | 0 <= k < i :: t[k] != u
      {
        assert t[i] == data[UID_BYTES * i..UID_BYTES * i + UID_BYTES];
        i := i + 1;
      }
      assert i < length ==> t[i] == u;
    }

    method MoveLastTo(i: nat)
      requires Valid() && i < length
      modifies this`length, data
      ensures Valid() && length == old(length) - 1
      ensures var t := old(View().table); View().table == t[i := t[|t| - 1]][..|t| - 1]
    {
      ghost var before, n := data[..], length - 1;
      var last := data[UID_BYTES * (length - 1)..UID_BYTES * (length - 1) + UID_BYTES];
      assert last == UidAt(before, n);
      Copy(data, UID_BYTES * i, last);
      length := length - 1;
      RemovedUid(before, data[..], i, n);
    }

    /** remove_tod_uid */
    method Remove(u: Uid) returns (ok: bool)
      requires Valid()
      modifies this, data
      ensures Valid() && View() == Apply(old(View()), Call.Remove(u))
      ensures ok == (u in old(View()).table) && data == old(data)
    {
      if data == null {
        return false;
      }
      var i := Find(u);
      if i == length {
        return false;
      }
      MoveLastTo(i);
      ok := true;
    }

    /** flush_tod and reset_tod */
    method Flush()
      modifies this
      ensures Valid() && View() == State([], 0)
    {
      data, length, maxLength := null, 0, 0;
    }
  }

  lemma AddedUid(bytes: seq<Byte>, bytes': seq<Byte>, u: Uid, n: nat)
    requires UID_BYTES * n + UID_BYTES <= |bytes| && bytes' == Patched(bytes, UID_BYTES * n, u)
    ensures Uids(bytes', n + 1) == Uids(bytes, n) + [u]
  {
    WriteUid(bytes, n, u, n + 1);
    assert Uids(bytes, n + 1)[..n] == Uids(bytes, n);
  }

  lemma RemovedUid(bytes: seq<Byte>, bytes': seq<Byte>, i: nat, n: nat)
    requires UID_BYTES * n + UID_BYTES <= |bytes| && i <= n
    requires bytes' == Patched(bytes, UID_BYTES * i, UidAt(bytes, n))
    ensures Uids(bytes', n) == Uids(bytes, n + 1)[i := Uids(bytes, n + 1)[n]][..n]
  {
    WriteUid(bytes, i, UidAt(bytes, n), n + 1);
    assert Uids(bytes', n) == Uids(bytes', n + 1)[..n];
  }
}
