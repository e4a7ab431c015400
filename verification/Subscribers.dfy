/** Discovered nodes: port addresses, what an entry says about a node, how the list of entries
    changes, and who subscribes to a universe. NodeList.dfy keeps the entries in a linked list. */
module Subscribers {
  import opened Common

  const NODELIST_TIMEOUT_MS := 15000

  type Ip = nat

  /** One byte for each of the four ports. */
  datatype Quad = Quad(p0: Byte, p1: Byte, p2: Byte, p3: Byte)
  {
    function At(i: nat): Byte
      requires i < 4
    {
      if i == 0 then p0 else if i == 1 then p1 else if i == 2 then p2 else p3
    }
  }

  type PortCount = n: nat | n <= 4

  /** The 15-bit address made of net, subnet and port. */
  function MakeAddr(net: nat, subnet: nat, port: nat): nat {
    net % 128 * 256 + subnet % 16 * 16 + port % 16
  }

  /** Seven bits of net, four of subnet and four of port, each where it belongs. */
  lemma MakeAddrParts(net: nat, subnet: nat, port: nat)
    ensures var addr := MakeAddr(net, subnet, port);
      addr < 0x8000 && addr / 256 == net % 128 && addr / 16 % 16 == subnet % 16 && addr % 16 == port % 16
  {
    var n, s, p := net % 128, subnet % 16, port % 16;
    assert (n * 256 + s * 16 + p) / 16 == n * 16 + s;
    assert (n * 16 + s) / 16 == n && (n * 16 + s) % 16 == s;
  }

  /** The part of an ArtPollReply that says which universes a node is on. */
  datatype Info = Info(netSwitch: Byte, subSwitch: Byte, numPorts: PortCount, portTypes: Quad, swIn: Quad, swOut: Quad)

  predicate OutputEnabled(portType: Byte) { portType / 128 % 2 == 1 }

  predicate InputEnabled(portType: Byte) { portType / 64 % 2 == 1 }

  /** Bit 7 of a port type says that the port can put data out, bit 6 that it can take data in. */
  lemma PortTypeBits(output: bool, input: bool, data: nat)
    requires data < 0x40
    ensures var portType := (if output then 0x80 else 0) + (if input then 0x40 else 0) + data;
      OutputEnabled(portType) == output && InputEnabled(portType) == input
  {
  }

  predicate PortMatches(info: Info, i: nat, uni: nat)
    requires i < 4
  {
    || (OutputEnabled(info.portTypes.At(i)) && MakeAddr(info.netSwitch, info.subSwitch % 16, info.swOut.At(i) % 16) == uni)
    || (InputEnabled(info.portTypes.At(i)) && MakeAddr(info.netSwitch, info.subSwitch % 16, info.swIn.At(i) % 16) == uni)
  }

  /** How many of the first `n` ports are on the universe. */
  function HitsUpTo(info: Info, uni: nat, n: PortCount): nat {
    if n == 0 then 0 else HitsUpTo(info, uni, n - 1) + if PortMatches(info, n - 1, uni) then 1 else 0
  }

  function Hits(info: Info, uni: nat): nat { HitsUpTo(info, uni, info.numPorts) }

  predicate Subscribes(info: Info, uni: nat) { exists i | 0 <= i < info.numPorts :: PortMatches(info, i, uni) }

  lemma {:induction false} HitsMeanSubscription(info: Info, uni: nat, n: PortCount)
    ensures HitsUpTo(info, uni, n) > 0 <==> exists i | 0 <= i < n :: PortMatches(info, i, uni)
  {
    if n > 0 {
      HitsMeanSubscription(info, uni, n - 1);
    }
  }

  // ----- entries -----

  datatype Entry = Entry(ip: Ip, info: Info, lastSeen: int)
  {
    function Key(): (Ip, Byte) { (ip, info.swOut.p0) }

    predicate Stale(now: int) { now - lastSeen > NODELIST_TIMEOUT_MS }
  }

  type Entries = seq<Entry>

  function Find(entries: Entries, key: (Ip, Byte)): (k: nat)
    ensures k <= |entries| && (k < |entries| ==> entries[k].Key() == key)
    ensures forall i | 0 <= i < k :: entries[i].Key() != key
  {
    if entries == [] || entries[0].Key() == key then 0 else 1 + Find(entries[1..], key)
  }

  /** An ArtPollReply replaces the entry with its key where it stands, or is added at the end. */
  function Upsert(entries: Entries, e: Entry): Entries {
    var k := Find(entries, e.Key());
    if k < |entries| then entries[k := e] else entries + [e]
  }

  function Fresh(entries: Entries, now: int): Entries {
    if entries == [] then []
    else
      var n := |entries| - 1;
      Fresh(entries[..n], now) + if entries[n].Stale(now) then [] else [entries[n]]
  }

  predicate UniqueKeys(entries: Entries) {
    forall i, j | 0 <= i < j < |entries| :: entries[i].Key() != entries[j].Key()
  }

  function Lookup(entries: Entries, key: (Ip, Byte)): Option<Entry> {
    var k := Find(entries, key);
    if k < |entries| then Some(entries[k]) else None
  }

  lemma UniqueFind(entries: Entries, i: nat)
    requires UniqueKeys(entries) && i < |entries|
    ensures Find(entries, entries[i].Key()) == i
  {
  }

  /** An update changes what is known about its own key only, and moves nobody. */
  lemma UpsertLookup(entries: Entries, e: Entry, key: (Ip, Byte))
    requires UniqueKeys(entries)
    ensures UniqueKeys(Upsert(entries, e))
    ensures Lookup(Upsert(entries, e), key) == if key == e.Key() then Some(e) else Lookup(entries, key)
    ensures forall i | 0 <= i < |entries| :: Upsert(entries, e)[i].Key() == entries[i].Key()
    ensures |entries| <= |Upsert(entries, e)| <= |entries| + 1
  {
    var after, k := Upsert(entries, e), Find(entries, key);
    assert after[Find(entries, e.Key())] == e;
    UniqueFind(after, Find(entries, e.Key()));
    if k < |entries| {
      assert after[k].Key() == key;
      UniqueFind(after, k);
    }
  }

  lemma {:induction false} FreshMembers(entries: Entries, now: int, e: Entry)
    ensures e in Fresh(entries, now) <==> e in entries && !e.Stale(now)
  {
    if entries != [] {
      FreshMembers(entries[..|entries| - 1], now, e);
      assert entries == entries[..|entries| - 1] + [entries[|entries| - 1]];
    }
  }

  /** Expiry filters the list front to back; so it keeps the order of what it keeps. */
  lemma {:induction false} FreshConcat(a: Entries, b: Entries, now: int)
    ensures Fresh(a + b, now) == Fresh(a, now) + Fresh(b, now)
  {
    if b == [] {
      assert a + b == a;
    } else {
      var n := |b| - 1;
      FreshConcat(a, b[..n], now);
      assert (a + b)[..|a + b| - 1] == a + b[..n];
    }
  }

  lemma {:induction false} FreshUnique(entries: Entries, now: int)
    requires UniqueKeys(entries)
    ensures UniqueKeys(Fresh(entries, now))
  {
    if entries != [] {
      var n := |entries| - 1;
      FreshUnique(entries[..n], now);
      forall e | e in Fresh(entries[..n], now) ensures e.Key() != entries[n].Key() {
        FreshMembers(entries[..n], now, e);
      }
    }
  }

  lemma LookupMember(entries: Entries, e: Entry)
    requires UniqueKeys(entries)
    ensures Lookup(entries, e.Key()) == Some(e) <==> e in entries
  {
    if i :| 0 <= i < |entries| && entries[i] == e {
      UniqueFind(entries, i);
    }
  }

  lemma FreshLookup(entries: Entries, now: int, key: (Ip, Byte))
    requires UniqueKeys(entries)
    ensures var known := Lookup(entries, key);
      Lookup(Fresh(entries, now), key) == if known.Some? && !known.value.Stale(now) then known else None
  {
    FreshUnique(entries, now);
    var after, known := Lookup(Fresh(entries, now), key), Lookup(entries, key);
    if after.Some? {
      LookupMember(Fresh(entries, now), after.value);
      FreshMembers(entries, now, after.value);
      LookupMember(entries, after.value);
    } else if known.Some? {
      LookupMember(entries, known.value);
      FreshMembers(entries, now, known.value);
      LookupMember(Fresh(entries, now), known.value);
    }
  }

  datatype Event = Reply(e: Entry) | Expire(now: int)

  function EntriesAfter(events: seq<Event>): Entries
    decreases |events|
  {
    if events == [] then []
    else
      var before := EntriesAfter(events[..|events| - 1]);
      match events[|events| - 1]
      case Reply(e) => Upsert(before, e)
      case Expire(now) => Fresh(before, now)
  }

  /** The latest reply with this key, unless some expiry since then found it stale. */
  function Remembered(events: seq<Event>, key: (Ip, Byte)): Option<Entry>
    decreases |events|
  {
    if events == [] then None
    else
      var before := Remembered(events[..|events| - 1], key);
      match events[|events| - 1]
      case Reply(e) => if e.Key() == key then Some(e) else before
      case Expire(now) => if before.Some? && before.value.Stale(now) then None else before
  }

  /** Over any run of replies and expiries the list has one entry for each remembered key. */
  lemma {:induction false} ListRemembers(events: seq<Event>, key: (Ip, Byte))
    ensures UniqueKeys(EntriesAfter(events))
    ensures Lookup(EntriesAfter(events), key) == Remembered(events, key)
    decreases |events|
  {
    if events == [] {
    } else {
      var before := events[..|events| - 1];
      ListRemembers(before, key);
      match events[|events| - 1]
      case Reply(e) => UpsertLookup(EntriesAfter(before), e, key);
      case Expire(now) =>
        FreshLookup(EntriesAfter(before), now, key);
        FreshUnique(EntriesAfter(before), now);
    }
  }

  /** `i` is the last reply from this address with this first output. */
  ghost predicate LastReply(events: seq<Event>, ip: Ip, swOut0: Byte, i: int) {
    && 0 <= i < |events| && events[i].Reply? && events[i].e.ip == ip && events[i].e.info.swOut.p0 == swOut0
    && forall j | i < j < |events| :: events[j].Reply? ==> events[j].e.ip != ip || events[j].e.info.swOut.p0 != swOut0
  }

  /** Every expiry since then found it no older than 15 seconds. */
  ghost predicate Survives(events: seq<Event>, i: int)
    requires 0 <= i < |events| && events[i].Reply?
  {
    forall j | i < j < |events| :: events[j].Expire? ==> events[j].now - events[i].e.lastSeen <= 15000
  }

  ghost predicate SurvivingReply(events: seq<Event>, e: Entry, i: int) {
    LastReply(events, e.ip, e.info.swOut.p0, i) && events[i].e == e && Survives(events, i)
  }

  lemma SurvivesNext(events: seq<Event>, e: Entry, i: int)
    requires events != []
    ensures var before, last := events[..|events| - 1], events[|events| - 1];
      SurvivingReply(events, e, i) <==>
        if i == |events| - 1 then last.Reply? && last.e == e
        else SurvivingReply(before, e, i) && (last.Reply? ==> last.e.ip != e.ip || last.e.info.swOut.p0 != e.info.swOut.p0)
             && (last.Expire? ==> last.now - e.lastSeen <= 15000)
  {
    var before := events[..|events| - 1];
    if 0 <= i < |before| {
      assert events[i] == before[i];
      assert forall j | i < j < |before| :: events[j] == before[j];
    }
  }

  lemma {:induction false} RememberedSurvives(events: seq<Event>, e: Entry)
    ensures Remembered(events, (e.ip, e.info.swOut.p0)) == Some(e) <==> exists i :: SurvivingReply(events, e, i)
    decreases |events|
  {
    if events == [] {
    } else {
      var before, n := events[..|events| - 1], |events| - 1;
      RememberedSurvives(before, e);
      forall i ensures SurvivingReply(events, e, i) <==> if i == n then events[n].Reply? && events[n].e == e
        else SurvivingReply(before, e, i) && (events[n].Reply? ==> events[n].e.ip != e.ip || events[n].e.info.swOut.p0 != e.info.swOut.p0)
             && (events[n].Expire? ==> events[n].now - e.lastSeen <= 15000) {
        SurvivesNext(events, e, i);
      }
      if i :| SurvivingReply(before, e, i) {
        assert SurvivingReply(events, e, i) || !SurvivingReply(events, e, i);
      }
      assert SurvivingReply(events, e, n) || !SurvivingReply(events, e, n);
    }
  }

  /** Over any run the list holds exactly the last reply for each address and first output, as long
      as every expiry since found it no older than 15 seconds; and only one entry for each. */
  lemma ListHoldsSurvivors(events: seq<Event>, e: Entry)
    ensures e in EntriesAfter(events) <==> exists i :: SurvivingReply(events, e, i)
    ensures forall i, j | 0 <= i < j < |EntriesAfter(events)| ::
      EntriesAfter(events)[i].ip != EntriesAfter(events)[j].ip || EntriesAfter(events)[i].info.swOut.p0 != EntriesAfter(events)[j].info.swOut.p0
  {
    ListRemembers(events, (e.ip, e.info.swOut.p0));
    RememberedSurvives(events, e);
    LookupMember(EntriesAfter(events), e);
  }

  // ----- who subscribes -----

  /** What find_nodes_from_uni has filled in and counted. */
  datatype Answer = Answer(ips: seq<Ip>, count: nat)

  function Visit(a: Answer, e: Entry, uni: nat, size: nat): Answer {
    Answer(if Subscribes(e.info, uni) && |a.ips| < size then a.ips + [e.ip] else a.ips, a.count + Hits(e.info, uni))
  }

  function Query(entries: Entries, uni: nat, size: nat): Answer {
    if entries == [] then Answer([], 0)
    else Visit(Query(entries[..|entries| - 1], uni, size), entries[|entries| - 1], uni, size)
  }

  /** The addresses of the subscribers, in list order, one for each entry. */
  function SubscriberIps(entries: Entries, uni: nat): (ips: seq<Ip>)
    ensures |ips| <= |entries|
  {
    if entries == [] then []
    else
      var n := |entries| - 1;
      SubscriberIps(entries[..n], uni) + if Subscribes(entries[n].info, uni) then [entries[n].ip] else []
  }

  /** All pairs of an entry and one of its ports that is on the universe. */
  function HitPairs(entries: Entries, uni: nat): set<(nat, nat)> {
    set i: nat, j: nat | i < |entries| && j < 4 && IsHit(entries[i].info, j, uni) :: (i, j)
  }

  predicate IsHit(info: Info, j: nat, uni: nat) { j < info.numPorts && PortMatches(info, j, uni) }

  function PortHits(info: Info, uni: nat, n: nat): set<nat> { set j: nat | j < n && j < 4 && PortMatches(info, j, uni) }

  lemma {:induction false} HitCount(info: Info, uni: nat, n: PortCount)
    ensures HitsUpTo(info, uni, n) == |PortHits(info, uni, n)|
  {
    if n == 0 {
      assert PortHits(info, uni, n) == {};
    } else {
      HitCount(info, uni, n - 1);
      assert PortHits(info, uni, n) == PortHits(info, uni, n - 1) + if PortMatches(info, n - 1, uni) then {n - 1} else {};
    }
  }

  function Tag(n: nat, js: set<nat>): set<(nat, nat)> { set j | j in js :: (n, j) }

  lemma {:induction false} Tagged(n: nat, js: set<nat>)
    ensures |Tag(n, js)| == |js|
  {
    if js == {} {
      assert Tag(n, js) == {};
    } else {
      var j0 :| j0 in js;
      Tagged(n, js - {j0});
      assert Tag(n, js) == Tag(n, js - {j0}) + {(n, j0)};
    }
  }

  lemma PairsSplit(entries: Entries, uni: nat)
    requires entries != []
    ensures var n := |entries| - 1;
      HitPairs(entries, uni) == HitPairs(entries[..n], uni) + Tag(n, PortHits(entries[n].info, uni, entries[n].info.numPorts))
  {
    var n := |entries| - 1;
    var js := PortHits(entries[n].info, uni, entries[n].info.numPorts);
    forall i: nat, j: nat
      ensures (i, j) in HitPairs(entries, uni) <==> (i, j) in HitPairs(entries[..n], uni) || (i, j) in Tag(n, js)
    {
      assert i < n ==> entries[..n][i] == entries[i];
      assert (i, j) in Tag(n, js) <==> i == n && j in js;
    }
    forall p ensures p in HitPairs(entries, uni) <==> p in HitPairs(entries[..n], uni) || p in Tag(n, js) {
      assert p == (p.0, p.1);
    }
  }

  lemma HitPairsSnoc(entries: Entries, uni: nat)
    requires entries != []
    ensures var n := |entries| - 1; |HitPairs(entries, uni)| == |HitPairs(entries[..n], uni)| + Hits(entries[n].info, uni)
  {
    var n := |entries| - 1;
    var js := PortHits(entries[n].info, uni, entries[n].info.numPorts);
    HitCount(entries[n].info, uni, entries[n].info.numPorts);
    Tagged(n, js);
    PairsSplit(entries, uni);
    assert HitPairs(entries[..n], uni) !! Tag(n, js);
  }

  /** The query fills in the first `size` subscribers in list order, one slot each, and counts the
      pairs of an entry and a port, of which there are at least as many. */
  lemma {:induction false} QueryAnswer(entries: Entries, uni: nat, size: nat)
    ensures var a, ips := Query(entries, uni, size), SubscriberIps(entries, uni);
      && a.ips == ips[..Min(size, |ips|)]
      && a.count == |HitPairs(entries, uni)|
      && |ips| <= a.count
  {
    if entries == [] {
      assert HitPairs(entries, uni) == {};
    } else {
      var n := |entries| - 1;
      QueryAnswer(entries[..n], uni, size);
      HitPairsSnoc(entries, uni);
      HitsMeanSubscription(entries[n].info, uni, entries[n].info.numPorts);
    }
  }

  // ----- where ArtDmx goes -----

  /** The slots read by artnet_send_dmx: one for each pair counted, but no more than the broadcast
      limit when there is one. A slot that the query did not fill is None. */
  function Targets(entries: Entries, uni: nat, bcastLimit: nat): (targets: seq<Option<Ip>>) {
    var size := if bcastLimit == 0 then (if entries == [] then 1 else |entries|) else bcastLimit;
    var a := Query(entries, uni, size);
    var n := if bcastLimit == 0 then a.count else Min(a.count, bcastLimit);
    seq(n, i requires 0 <= i < n => if i < |a.ips| then Some(a.ips[i]) else None)
  }

  function Filled(ips: seq<Ip>): (slots: seq<Option<Ip>>)
    ensures |slots| == |ips|
  {
    seq(|ips|, i requires 0 <= i < |ips| => Some(ips[i]))
  }

  predicate NoDoublePorts(entries: Entries, uni: nat) { forall e <- entries :: Hits(e.info, uni) <= 1 }

  lemma {:induction false} CountIsSlots(entries: Entries, uni: nat)
    ensures Query(entries, uni, 0).count == |SubscriberIps(entries, uni)| <==> NoDoublePorts(entries, uni)
    ensures Query(entries, uni, 0).count >= |SubscriberIps(entries, uni)|
  {
    if entries != [] {
      var n := |entries| - 1;
      CountIsSlots(entries[..n], uni);
      HitsMeanSubscription(entries[n].info, uni, entries[n].info.numPorts);
      assert entries == entries[..n] + [entries[n]];
    }
  }

  /** With no broadcast limit, one packet goes to each subscriber and none elsewhere, exactly when
      no entry has two ports on the universe. Otherwise unfilled slots are read. */
  lemma SendsToSubscribers(entries: Entries, uni: nat)
    ensures Targets(entries, uni, 0) == Filled(SubscriberIps(entries, uni)) <==> NoDoublePorts(entries, uni)
  {
    var size := if entries == [] then 1 else |entries|;
    QueryAnswer(entries, uni, size);
    QueryAnswer(entries, uni, 0);
    CountIsSlots(entries, uni);
    assert |Targets(entries, uni, 0)| == Query(entries, uni, 0).count;
  }

  /** With a limit, the first so many subscribers are sent to, exactly when the pairs counted do
      not run past the subscribers before the limit is reached. */
  lemma SendsToFirstSubscribers(entries: Entries, uni: nat, bcastLimit: nat)
    requires bcastLimit > 0
    ensures var ips := SubscriberIps(entries, uni);
      Targets(entries, uni, bcastLimit) == Filled(ips[..Min(bcastLimit, |ips|)])
      <==> NoDoublePorts(entries, uni) || bcastLimit <= |ips|
  {
    QueryAnswer(entries, uni, bcastLimit);
    QueryAnswer(entries, uni, 0);
    CountIsSlots(entries, uni);
    var ips := SubscriberIps(entries, uni);
    assert |Targets(entries, uni, bcastLimit)| == Min(Query(entries, uni, 0).count, bcastLimit);
  }
}
