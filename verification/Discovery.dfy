/** What a node's ArtPollReply tells a controller about the universes the node is on. */
module Discovery {
  import opened Common
  import opened Subscribers
  import opened Addressing

  predicate InUse(c: Config, i: nat)
    requires i < MAX_PORTS
  {
    c.outs[i].enabled || c.ins[i].enabled
  }

  /** One more than the highest port in use, among the first `n`. */
  function PortsUsed(c: Config, n: PortCount): (k: PortCount)
    ensures k <= n && (k > 0 ==> InUse(c, k - 1))
    ensures forall i | k <= i < n :: !InUse(c, i)
  {
    if n == 0 || InUse(c, n - 1) then n else PortsUsed(c, n - 1)
  }

  function LowNibbles(ports: PortList): Quad {
    Quad(AddrPort(ports[0].addr), AddrPort(ports[1].addr), AddrPort(ports[2].addr), AddrPort(ports[3].addr))
  }

  /** The addressing fields of an ArtPollReply: net, subnet and the low four bits of each port. */
  function PollReply(c: Config, types: Quad): Info {
    Info(c.net.value, c.sub.value, PortsUsed(c, MAX_PORTS), types, LowNibbles(c.ins), LowNibbles(c.outs))
  }

  predicate OnUniverse(c: Config, types: Quad, i: nat, uni: nat)
    requires i < MAX_PORTS
  {
    || (OutputEnabled(types.At(i)) && c.outs[i].addr == uni)
    || (InputEnabled(types.At(i)) && c.ins[i].addr == uni)
  }

  lemma AddressRebuilt(p: Port, net: Byte, sub: Byte)
    requires PortInStep(p, net, sub)
    ensures MakeAddr(net, sub % 16, AddrPort(p.addr) % 16) == p.addr
  {
    MakeAddrMasks(net, sub, AddrPort(p.addr));
  }

  lemma PortRebuilt(c: Config, types: Quad, i: nat, uni: nat)
    requires InStep(c) && i < MAX_PORTS
    ensures PortMatches(PollReply(c, types), i, uni) <==> OnUniverse(c, types, i, uni)
  {
    AddressRebuilt(c.ins[i], c.net.value, c.sub.value);
    AddressRebuilt(c.outs[i], c.net.value, c.sub.value);
  }

  lemma ReplySubscribes(c: Config, types: Quad, uni: nat)
    requires InStep(c)
    ensures Subscribes(PollReply(c, types), uni) <==> exists i | 0 <= i < PortsUsed(c, MAX_PORTS) :: OnUniverse(c, types, i, uni)
  {
    var info := PollReply(c, types);
    if i :| 0 <= i < info.numPorts && PortMatches(info, i, uni) {
      PortRebuilt(c, types, i, uni);
      assert OnUniverse(c, types, i, uni);
    }
    if i :| 0 <= i < PortsUsed(c, MAX_PORTS) && OnUniverse(c, types, i, uni) {
      PortRebuilt(c, types, i, uni);
      assert PortMatches(info, i, uni);
    }
  }

  /** A controller that has heard the reply of a node finds it under a universe exactly when a
      reported port of the node is on that universe, whatever was known before. */
  lemma DiscoveryPreservesAddresses(nodeType: NodeType, bindIndex: Byte, events: seq<Addressing.Event>, types: Quad, uni: nat,
                                    known: Entries, ip: Ip, now: int)
    requires UniqueKeys(known)
    ensures var c := After(NewConfig(nodeType, bindIndex), events);
      var e := Entry(ip, PollReply(c, types), now);
      && Lookup(Upsert(known, e), e.Key()) == Some(e)
      && (Subscribes(e.info, uni) <==> exists i | 0 <= i < PortsUsed(c, MAX_PORTS) :: OnUniverse(c, types, i, uni))
  {
    var c := After(NewConfig(nodeType, bindIndex), events);
    var e := Entry(ip, PollReply(c, types), now);
    StaysInStep(nodeType, bindIndex, events);
    UpsertLookup(known, e, e.Key());
    ReplySubscribes(c, types, uni);
  }

  /** The number of ports that a reply carries: every port that some event put in use is below it,
      and the last one below it is one of them. */
  lemma PortsReported(nodeType: NodeType, bindIndex: Byte, events: seq<Addressing.Event>, types: Quad)
    ensures var c0 := NewConfig(nodeType, bindIndex);
      var n := PollReply(After(c0, events), types).numPorts;
      && (forall i: nat | i < 4 && (WasPutInUse(c0, InputSetting(i), events) || WasPutInUse(c0, OutputSetting(i), events)) :: i < n)
      && (n > 0 ==> WasPutInUse(c0, InputSetting(n - 1), events) || WasPutInUse(c0, OutputSetting(n - 1), events))
  {
    var c0, c := NewConfig(nodeType, bindIndex), After(NewConfig(nodeType, bindIndex), events);
    forall i: nat | i < 4
      ensures InUse(c, i) <==> WasPutInUse(c0, InputSetting(i), events) || WasPutInUse(c0, OutputSetting(i), events)
    {
      EnabledOfRun(nodeType, bindIndex, events, InputSetting(i));
      EnabledOfRun(nodeType, bindIndex, events, OutputSetting(i));
    }
  }
}
