/** Port addresses of a node under local and network control, and what an ArtPollReply says
    about them. The class in AddressedNodes.dfy changes its fields exactly as these functions say. */
module Addressing {
  import opened Common
  import opened Subscribers

  const MAX_PORTS := 4
  const PROGRAM_NO_CHANGE: Byte := 0x7f
  const PROGRAM_DEFAULTS: Byte := 0x00

  /** Bit 7 of an ArtAddress field asks for a change. */
  predicate Programs(field: Byte) { field >= 0x80 }

  datatype NodeType = Server | Node | MediaServer | Router | Backup | Raw

  /** g_port_t: the full address, the local setting, who is in control, and whether it is in use. */
  datatype Port = Port(addr: nat, local: Byte, netCtl: bool, enabled: bool)

  type PortList = s: seq<Port> | |s| == MAX_PORTS witness [NEW_PORT, NEW_PORT, NEW_PORT, NEW_PORT]

  const NEW_PORT := Port(0, 0, false, false)

  datatype Switch = Switch(value: Byte, local: Byte, netCtl: bool)

  datatype Config = Config(nodeType: NodeType, bindIndex: Byte, net: Switch, sub: Switch, ins: PortList, outs: PortList)

  function NewPorts(): PortList { seq(MAX_PORTS, _ => NEW_PORT) }

  function NewConfig(nodeType: NodeType, bindIndex: Byte): Config {
    Config(nodeType, bindIndex, Switch(0, 0, false), Switch(0, 0, false), NewPorts(), NewPorts())
  }

  function AddrPort(addr: nat): nat { addr % 16 }

  datatype Direction = In | Out | Neither

  type FourBytes = s: seq<Byte> | |s| == MAX_PORTS witness [0, 0, 0, 0]

  datatype Event =
    | SetNet(net: Byte)
    | SetSubnet(subnet: Byte)
    | SetPort(id: int, dir: Direction, addr: Byte)
    | ArtAddress(bindIndex: Byte, netSwitch: Byte, subSwitch: Byte, swIn: FourBytes, swOut: FourBytes)

  // ----- local settings -----

  function Readdress(ports: PortList, net: Byte, sub: Byte): PortList {
    seq(MAX_PORTS, i requires 0 <= i < MAX_PORTS => ports[i].(addr := MakeAddr(net, sub, AddrPort(ports[i].addr))))
  }

  /** All port addresses made again from the switches. */
  function Rebuild(c: Config): Config {
    c.(ins := Readdress(c.ins, c.net.value, c.sub.value), outs := Readdress(c.outs, c.net.value, c.sub.value))
  }

  function SetNetAddr(c: Config, net: Byte): Config {
    if net > 0x7f then c
    else if !c.net.netCtl && net != c.net.value then Rebuild(c.(net := Switch(net, net, false)))
    else c.(net := c.net.(local := net))
  }

  function SetSubnetAddr(c: Config, subnet: Byte): Config {
    if !c.sub.netCtl && subnet != c.sub.value then Rebuild(c.(sub := Switch(subnet, subnet, false)))
    else c.(sub := c.sub.(local := subnet))
  }

  function SetOnePort(p: Port, net: Byte, sub: Byte, addr: Byte): Port {
    var moved := !p.netCtl && (!p.enabled || addr % 16 != AddrPort(p.addr));
    p.(local := addr, enabled := true, addr := if moved then MakeAddr(net, sub, addr) else p.addr)
  }

  function SetPortAddr(c: Config, id: int, dir: Direction, addr: Byte): Config {
    if id < 0 || id >= MAX_PORTS || addr > 15 then c
    else
      match dir
      case In => c.(ins := c.ins[id := SetOnePort(c.ins[id], c.net.value, c.sub.value, addr)])
      case Out => c.(outs := c.outs[id := SetOnePort(c.outs[id], c.net.value, c.sub.value, addr)])
      case Neither => c
  }

  // ----- remote programming -----

  predicate Heeds(c: Config, bindIndex: Byte) {
    && c.nodeType != Server && c.nodeType != Raw
    && bindIndex == if c.bindIndex == 0 then 1 else c.bindIndex
  }

  function ProgramSwitch(s: Switch, field: Byte, value: Byte): Switch {
    if field == PROGRAM_DEFAULTS then Switch(s.local, s.local, false)
    else if Programs(field) then Switch(value, s.local, true)
    else s
  }

  function ProgramPort(p: Port, net: Byte, sub: Byte, field: Byte, enable: bool): Port {
    if field == PROGRAM_NO_CHANGE then p
    else if field == PROGRAM_DEFAULTS then p.(addr := MakeAddr(net, sub, p.local), netCtl := false, enabled := p.enabled || enable)
    else if Programs(field) then p.(addr := MakeAddr(net, sub, field), netCtl := true, enabled := p.enabled || enable)
    else p
  }

  function ProgramPorts(ports: PortList, net: Byte, sub: Byte, fields: FourBytes, enable: bool): PortList {
    seq(MAX_PORTS, i requires 0 <= i < MAX_PORTS => ProgramPort(ports[i], net, sub, fields[i], enable))
  }

  function ProgramSwitches(c: Config, netSwitch: Byte, subSwitch: Byte): Config {
    var c1 := c.(net := ProgramSwitch(c.net, netSwitch, netSwitch % 128), sub := ProgramSwitch(c.sub, subSwitch, subSwitch % 16));
    if c1.net.value != c.net.value || c1.sub.value != c.sub.value then Rebuild(c1) else c1
  }

  function HandleAddress(c: Config, bindIndex: Byte, netSwitch: Byte, subSwitch: Byte, swIn: FourBytes, swOut: FourBytes): Config {
    if !Heeds(c, bindIndex) then c
    else
      var c1 := ProgramSwitches(c, netSwitch, subSwitch);
      c1.(ins := ProgramPorts(c1.ins, c1.net.value, c1.sub.value, swIn, false),
          outs := ProgramPorts(c1.outs, c1.net.value, c1.sub.value, swOut, true))
  }

  function Apply(c: Config, e: Event): Config {
    match e
    case SetNet(net) => SetNetAddr(c, net)
    case SetSubnet(subnet) => SetSubnetAddr(c, subnet)
    case SetPort(id, dir, addr) => SetPortAddr(c, id, dir, addr)
    case ArtAddress(bindIndex, netSwitch, subSwitch, swIn, swOut) =>
      HandleAddress(c, bindIndex, netSwitch, subSwitch, swIn, swOut)
  }

  function After(c: Config, events: seq<Event>): Config
    decreases |events|
  {
    if events == [] then c else Apply(After(c, events[..|events| - 1]), events[|events| - 1])
  }

  // ----- who is in control -----

  /** The settings that both sides can make. A port is set by its low four bits. */
  datatype Setting = NetSetting | SubSetting | InputSetting(i: nat) | OutputSetting(i: nat)
  {
    predicate Exists() { (InputSetting? || OutputSetting? ==> i < MAX_PORTS) }
  }

  function ValueOf(c: Config, which: Setting): nat
    requires which.Exists()
  {
    match which
    case NetSetting => c.net.value
    case SubSetting => c.sub.value
    case InputSetting(i) => AddrPort(c.ins[i].addr)
    case OutputSetting(i) => AddrPort(c.outs[i].addr)
  }

  function LocalOf(c: Config, which: Setting): nat
    requires which.Exists()
  {
    match which
    case NetSetting => c.net.local
    case SubSetting => c.sub.local
    case InputSetting(i) => c.ins[i].local
    case OutputSetting(i) => c.outs[i].local
  }

  predicate Controlled(c: Config, which: Setting)
    requires which.Exists()
  {
    match which
    case NetSetting => c.net.netCtl
    case SubSetting => c.sub.netCtl
    case InputSetting(i) => c.ins[i].netCtl
    case OutputSetting(i) => c.outs[i].netCtl
  }

  /** What one event asks of one setting. */
  datatype Request = Leave | Release | Take(value: nat)

  function Asked(field: Byte, range: nat): Request
    requires range > 0
  {
    if field == 0 then Release else if field >= 128 then Take(field % range) else Leave
  }

  /** Is an ArtAddress packet with this bind index for this node? Controllers and diagnostic nodes
      take none. A node that has no bind index answers to 1. */
  predicate MeantFor(c: Config, bindIndex: Byte) {
    (c.nodeType.Node? || c.nodeType.MediaServer? || c.nodeType.Router? || c.nodeType.Backup?)
    && (bindIndex == c.bindIndex != 0 || (c.bindIndex == 0 && bindIndex == 1))
  }

  function RemoteRequest(c: Config, which: Setting, e: Event): Request
    requires which.Exists()
  {
    if !e.ArtAddress? || !MeantFor(c, e.bindIndex) then Leave
    else
      match which
      case NetSetting => Asked(e.netSwitch, 128)
      case SubSetting => Asked(e.subSwitch, 16)
      case InputSetting(i) => Asked(e.swIn[i], 16)
      case OutputSetting(i) => Asked(e.swOut[i], 16)
  }

  function LocalRequest(which: Setting, e: Event): Option<nat> {
    match e
    case SetNet(net) => if which == NetSetting && net <= 127 then Some(net) else None
    case SetSubnet(subnet) => if which == SubSetting then Some(subnet) else None
    case SetPort(id, dir, addr) =>
      if addr <= 15 && ((dir == In && which.InputSetting? && which.i == id) || (dir == Out && which.OutputSetting? && which.i == id))
      then Some(addr) else None
    case ArtAddress(_, _, _, _, _) => None
  }

  /** What the network last took a setting to, unless it has released it since. */
  function LastRemote(c: Config, which: Setting, events: seq<Event>): Option<nat>
    requires which.Exists()
    decreases |events|
  {
    if events == [] then None
    else
      match RemoteRequest(c, which, events[|events| - 1])
      case Leave => LastRemote(c, which, events[..|events| - 1])
      case Release => None
      case Take(value) => Some(value)
  }

  /** What a setting was last set to locally; 0 before that. */
  function LastLocal(which: Setting, events: seq<Event>): nat
    decreases |events|
  {
    if events == [] then 0
    else
      match LocalRequest(which, events[|events| - 1])
      case None => LastLocal(which, events[..|events| - 1])
      case Some(value) => value
  }

  // ----- the invariant -----

  predicate PortInStep(p: Port, net: Byte, sub: Byte) {
    p.addr == MakeAddr(net, sub, AddrPort(p.addr)) && p.local <= 15
  }

  /** Every port address is made of the switches and its own low four bits; what the network
      does not control stands at its local setting. */
  ghost predicate InStep(c: Config) {
    && (forall i | 0 <= i < MAX_PORTS :: PortInStep(c.ins[i], c.net.value, c.sub.value))
    && (forall i | 0 <= i < MAX_PORTS :: PortInStep(c.outs[i], c.net.value, c.sub.value))
    && (forall which: Setting | which.Exists() && !Controlled(c, which) :: ValueOf(c, which) == LocalOf(c, which))
  }

  lemma MakeAddrPort(net: nat, sub: nat, port: nat)
    ensures AddrPort(MakeAddr(net, sub, port)) == port % 16
  {
  }

  lemma MakeAddrMasks(net: nat, sub: nat, port: nat)
    ensures MakeAddr(net, sub % 16, port % 16) == MakeAddr(net, sub, port)
  {
  }

  lemma ProgramPortStep(p: Port, net: Byte, sub: Byte, field: Byte, enable: bool)
    requires PortInStep(p, net, sub)
    ensures var p' := ProgramPort(p, net, sub, field, enable);
      && PortInStep(p', net, sub) && p'.local == p.local
      && match Asked(field, 16)
         case Leave => p'.netCtl == p.netCtl && p'.addr == p.addr
         case Release => !p'.netCtl && AddrPort(p'.addr) == p.local
         case Take(value) => p'.netCtl && AddrPort(p'.addr) == value
  {
    MakeAddrPort(net, sub, p.local);
    MakeAddrPort(net, sub, field);
  }

  lemma SetOnePortStep(p: Port, net: Byte, sub: Byte, addr: Byte)
    requires PortInStep(p, net, sub) && addr <= 15
    ensures var p' := SetOnePort(p, net, sub, addr);
      && PortInStep(p', net, sub) && p'.local == addr && p'.netCtl == p.netCtl
      && AddrPort(p'.addr) == if p.netCtl then AddrPort(p.addr) else addr
  {
    MakeAddrPort(net, sub, addr);
  }

  lemma ReaddressStep(ports: PortList, net: Byte, sub: Byte, i: nat)
    requires i < MAX_PORTS && ports[i].local <= 15
    ensures var p' := Readdress(ports, net, sub)[i];
      && PortInStep(p', net, sub) && p'.local == ports[i].local && p'.netCtl == ports[i].netCtl
      && AddrPort(p'.addr) == AddrPort(ports[i].addr)
  {
    MakeAddrPort(net, sub, AddrPort(ports[i].addr));
  }

  /** How a configuration may change: each setting as requested, each port address to match. */
  ghost predicate Follows(c: Config, c': Config, e: Event) {
    && c'.nodeType == c.nodeType && c'.bindIndex == c.bindIndex
    && (forall i | 0 <= i < MAX_PORTS :: PortInStep(c'.ins[i], c'.net.value, c'.sub.value))
    && (forall i | 0 <= i < MAX_PORTS :: PortInStep(c'.outs[i], c'.net.value, c'.sub.value))
    && forall which: Setting | which.Exists() :: FollowsOn(c, c', e, which)
  }

  ghost predicate FollowsOn(c: Config, c': Config, e: Event, which: Setting)
    requires which.Exists()
  {
    var l := LocalRequest(which, e);
    && LocalOf(c', which) == (if l.Some? then l.value else LocalOf(c, which))
    && match RemoteRequest(c, which, e)
       case Leave => Controlled(c', which) == Controlled(c, which)
                     && ValueOf(c', which) == (if Controlled(c, which) || l.None? then ValueOf(c, which) else l.value)
       case Release => !Controlled(c', which) && ValueOf(c', which) == LocalOf(c, which)
       case Take(value) => Controlled(c', which) && ValueOf(c', which) == value
  }

  lemma RebuildStep(c: Config)
    requires forall i | 0 <= i < MAX_PORTS :: c.ins[i].local <= 15 && c.outs[i].local <= 15
    ensures var c' := Rebuild(c);
      && (forall i | 0 <= i < MAX_PORTS :: PortInStep(c'.ins[i], c.net.value, c.sub.value))
      && (forall i | 0 <= i < MAX_PORTS :: PortInStep(c'.outs[i], c.net.value, c.sub.value))
      && (forall which: Setting | which.Exists() ::
            ValueOf(c', which) == ValueOf(c, which) && LocalOf(c', which) == LocalOf(c, which) && Controlled(c', which) == Controlled(c, which))
  {
    forall i | 0 <= i < MAX_PORTS
      ensures PortInStep(Rebuild(c).ins[i], c.net.value, c.sub.value) && PortInStep(Rebuild(c).outs[i], c.net.value, c.sub.value)
      ensures AddrPort(Rebuild(c).ins[i].addr) == AddrPort(c.ins[i].addr) && AddrPort(Rebuild(c).outs[i].addr) == AddrPort(c.outs[i].addr)
    {
      ReaddressStep(c.ins, c.net.value, c.sub.value, i);
      ReaddressStep(c.outs, c.net.value, c.sub.value, i);
    }
  }

  lemma SetNetFollows(c: Config, net: Byte)
    requires InStep(c)
    ensures Follows(c, SetNetAddr(c, net), SetNet(net))
  {
    if net <= 0x7f && !c.net.netCtl && net != c.net.value {
      RebuildStep(c.(net := Switch(net, net, false)));
    }
  }

  lemma SetSubnetFollows(c: Config, subnet: Byte)
    requires InStep(c)
    ensures Follows(c, SetSubnetAddr(c, subnet), SetSubnet(subnet))
  {
    if !c.sub.netCtl && subnet != c.sub.value {
      RebuildStep(c.(sub := Switch(subnet, subnet, false)));
    }
  }

  lemma SetPortFollows(c: Config, id: int, dir: Direction, addr: Byte)
    requires InStep(c)
    ensures Follows(c, SetPortAddr(c, id, dir, addr), SetPort(id, dir, addr))
  {
    if 0 <= id < MAX_PORTS && addr <= 15 {
      SetOnePortStep(c.ins[id], c.net.value, c.sub.value, addr);
      SetOnePortStep(c.outs[id], c.net.value, c.sub.value, addr);
    }
  }

  lemma ProgramSwitchesStep(c: Config, netSwitch: Byte, subSwitch: Byte)
    requires InStep(c)
    ensures var c' := ProgramSwitches(c, netSwitch, subSwitch);
      && c'.nodeType == c.nodeType && c'.bindIndex == c.bindIndex
      && c'.net == ProgramSwitch(c.net, netSwitch, netSwitch % 128)
      && c'.sub == ProgramSwitch(c.sub, subSwitch, subSwitch % 16)
      && (forall i | 0 <= i < MAX_PORTS :: PortInStep(c'.ins[i], c'.net.value, c'.sub.value))
      && (forall i | 0 <= i < MAX_PORTS :: PortInStep(c'.outs[i], c'.net.value, c'.sub.value))
      && (forall which: Setting | which.Exists() && !which.NetSetting? && !which.SubSetting? ::
            ValueOf(c', which) == ValueOf(c, which) && LocalOf(c', which) == LocalOf(c, which) && Controlled(c', which) == Controlled(c, which))
  {
    var net, sub := ProgramSwitch(c.net, netSwitch, netSwitch % 128), ProgramSwitch(c.sub, subSwitch, subSwitch % 16);
    RebuildStep(c.(net := net, sub := sub));
  }

  lemma HandleAddressFollows(c: Config, bindIndex: Byte, netSwitch: Byte, subSwitch: Byte, swIn: FourBytes, swOut: FourBytes)
    requires InStep(c)
    ensures Follows(c, HandleAddress(c, bindIndex, netSwitch, subSwitch, swIn, swOut), ArtAddress(bindIndex, netSwitch, subSwitch, swIn, swOut))
  {
    if Heeds(c, bindIndex) {
      ProgramSwitchesStep(c, netSwitch, subSwitch);
      var c1 := ProgramSwitches(c, netSwitch, subSwitch);
      var c', e := HandleAddress(c, bindIndex, netSwitch, subSwitch, swIn, swOut), ArtAddress(bindIndex, netSwitch, subSwitch, swIn, swOut);
      forall i | 0 <= i < MAX_PORTS
        ensures PortInStep(c'.ins[i], c1.net.value, c1.sub.value) && PortInStep(c'.outs[i], c1.net.value, c1.sub.value)
        ensures FollowsOn(c, c', e, InputSetting(i)) && FollowsOn(c, c', e, OutputSetting(i))
      {
        ProgramPortStep(c1.ins[i], c1.net.value, c1.sub.value, swIn[i], false);
        ProgramPortStep(c1.outs[i], c1.net.value, c1.sub.value, swOut[i], true);
        assert ValueOf(c1, InputSetting(i)) == ValueOf(c, InputSetting(i)) && ValueOf(c1, OutputSetting(i)) == ValueOf(c, OutputSetting(i));
      }
      forall which: Setting | which.Exists() ensures FollowsOn(c, c', e, which) {
        match which
        case NetSetting => assert c'.net == c1.net;
        case SubSetting => assert c'.sub == c1.sub;
        case InputSetting(i) => assert FollowsOn(c, c', e, InputSetting(i));
        case OutputSetting(i) => assert FollowsOn(c, c', e, OutputSetting(i));
      }
    }
  }

  lemma ApplyFollows(c: Config, e: Event)
    requires InStep(c)
    ensures Follows(c, Apply(c, e), e) && InStep(Apply(c, e))
  {
    match e
    case SetNet(net) => SetNetFollows(c, net);
    case SetSubnet(subnet) => SetSubnetFollows(c, subnet);
    case SetPort(id, dir, addr) => SetPortFollows(c, id, dir, addr);
    case ArtAddress(bindIndex, netSwitch, subSwitch, swIn, swOut) =>
      HandleAddressFollows(c, bindIndex, netSwitch, subSwitch, swIn, swOut);
    FollowsKeepsInStep(c, Apply(c, e), e);
  }

  lemma FollowsKeepsInStep(c: Config, c': Config, e: Event)
    requires InStep(c) && Follows(c, c', e)
    ensures InStep(c')
  {
    forall which: Setting | which.Exists() && !Controlled(c', which) ensures ValueOf(c', which) == LocalOf(c', which) {
      assert FollowsOn(c, c', e, which);
    }
  }

  lemma AllNewInStep(c: Config)
    requires forall i | 0 <= i < MAX_PORTS :: c.ins[i] == c.outs[i] == NEW_PORT
    requires c.net == c.sub == Switch(0, 0, false)
    ensures InStep(c)
  {
  }

  lemma NewInStep(nodeType: NodeType, bindIndex: Byte)
    ensures InStep(NewConfig(nodeType, bindIndex))
  {
    AllNewInStep(NewConfig(nodeType, bindIndex));
  }

  lemma {:induction false} StaysInStep(nodeType: NodeType, bindIndex: Byte, events: seq<Event>)
    ensures var c := After(NewConfig(nodeType, bindIndex), events);
      InStep(c) && c.nodeType == nodeType && c.bindIndex == bindIndex
    decreases |events|
  {
    if events == [] {
      NewInStep(nodeType, bindIndex);
    } else {
      StaysInStep(nodeType, bindIndex, events[..|events| - 1]);
      ApplyFollows(After(NewConfig(nodeType, bindIndex), events[..|events| - 1]), events[|events| - 1]);
    }
  }

  /** `who` is in control of the setting, and `l` is its last local value. */
  ghost predicate StandsAt(c: Config, which: Setting, who: Option<nat>, l: nat)
    requires which.Exists()
  {
    && LocalOf(c, which) == l && Controlled(c, which) == who.Some?
    && ValueOf(c, which) == if who.Some? then who.value else l
  }

  lemma RequestsSame(c: Config, d: Config, which: Setting, e: Event)
    requires which.Exists() && c.nodeType == d.nodeType && c.bindIndex == d.bindIndex
    ensures RemoteRequest(c, which, e) == RemoteRequest(d, which, e)
  {
  }

  lemma {:induction false} LastValue(nodeType: NodeType, bindIndex: Byte, events: seq<Event>, which: Setting)
    requires which.Exists()
    ensures var c0 := NewConfig(nodeType, bindIndex);
      StandsAt(After(c0, events), which, LastRemote(c0, which, events), LastLocal(which, events))
    decreases |events|
  {
    var c0 := NewConfig(nodeType, bindIndex);
    if events == [] {
    } else {
      var before, e := events[..|events| - 1], events[|events| - 1];
      var c := After(c0, before);
      LastValue(nodeType, bindIndex, before, which);
      StaysInStep(nodeType, bindIndex, before);
      ApplyFollows(c, e);
      RequestsSame(c, c0, which, e);
      assert FollowsOn(c, Apply(c, e), e, which);
    }
  }

  /** After any sequence of local setters and ArtAddress packets every port address is in step
      with the switches, and each setting has the value the network last took it to, or else its
      last local value. */
  lemma AddressControl(nodeType: NodeType, bindIndex: Byte, events: seq<Event>, which: Setting)
    requires which.Exists()
    ensures var c0 := NewConfig(nodeType, bindIndex);
      var c, remote := After(c0, events), LastRemote(c0, which, events);
      && InStep(c)
      && Controlled(c, which) == remote.Some?
      && ValueOf(c, which) == if remote.Some? then remote.value else LastLocal(which, events)
  {
    StaysInStep(nodeType, bindIndex, events);
    LastValue(nodeType, bindIndex, events, which);
  }

  lemma {:induction false} RemoteSubnetInRange(c: Config, events: seq<Event>)
    ensures var remote := LastRemote(c, SubSetting, events); remote.Some? ==> remote.value < 16
    decreases |events|
  {
    if events == [] {
    } else {
      RemoteSubnetInRange(c, events[..|events| - 1]);
    }
  }

  /** The subnet that a node holds, and reports, is one of the sixteen exactly when the network set
      it or the last local setting was one of them: the local setter keeps whatever it is given. */
  lemma SubnetInRange(nodeType: NodeType, bindIndex: Byte, events: seq<Event>)
    ensures var c0 := NewConfig(nodeType, bindIndex);
      ValueOf(After(c0, events), SubSetting) < 16 <==>
      LastRemote(c0, SubSetting, events).Some? || LastLocal(SubSetting, events) < 16
  {
    LastValue(nodeType, bindIndex, events, SubSetting);
    RemoteSubnetInRange(NewConfig(nodeType, bindIndex), events);
  }

  // ----- which ports are in use -----

  /** Setting its address locally puts a port in use; so does programming or releasing it over the
      network, for an output. */
  predicate PutsInUse(c: Config, which: Setting, e: Event)
    requires which.Exists()
  {
    match which
    case InputSetting(i) => e.SetPort? && e.id == i && e.dir == In && e.addr <= 15
    case OutputSetting(i) =>
      || (e.SetPort? && e.id == i && e.dir == Out && e.addr <= 15)
      || (e.ArtAddress? && MeantFor(c, e.bindIndex) && (e.swOut[i] == 0 || e.swOut[i] >= 0x80))
    case _ => false
  }

  function PortAt(c: Config, which: Setting): Port
    requires which.Exists() && (which.InputSetting? || which.OutputSetting?)
  {
    if which.InputSetting? then c.ins[which.i] else c.outs[which.i]
  }

  lemma EnabledStep(c: Config, e: Event, which: Setting)
    requires which.Exists() && (which.InputSetting? || which.OutputSetting?)
    ensures PortAt(Apply(c, e), which).enabled == (PortAt(c, which).enabled || PutsInUse(c, which, e))
  {
  }

  lemma UseSame(c: Config, d: Config, which: Setting, e: Event)
    requires which.Exists() && c.nodeType == d.nodeType && c.bindIndex == d.bindIndex
    ensures PutsInUse(c, which, e) <==> PutsInUse(d, which, e)
  {
  }

  ghost predicate WasPutInUse(c: Config, which: Setting, events: seq<Event>)
    requires which.Exists()
  {
    exists k | 0 <= k < |events| :: PutsInUse(c, which, events[k])
  }

  lemma UseNext(c: Config, which: Setting, events: seq<Event>)
    requires which.Exists() && events != []
    ensures WasPutInUse(c, which, events) <==>
      WasPutInUse(c, which, events[..|events| - 1]) || PutsInUse(c, which, events[|events| - 1])
  {
    var before := events[..|events| - 1];
    if k :| 0 <= k < |before| && PutsInUse(c, which, before[k]) {
      assert PutsInUse(c, which, events[k]);
    }
    if k :| 0 <= k < |events| && PutsInUse(c, which, events[k]) {
      assert k < |before| ==> PutsInUse(c, which, before[k]);
    }
  }

  /** A port is in use exactly when some event put it in use. */
  lemma {:induction false} EnabledOfRun(nodeType: NodeType, bindIndex: Byte, events: seq<Event>, which: Setting)
    requires which.Exists() && (which.InputSetting? || which.OutputSetting?)
    ensures var c0 := NewConfig(nodeType, bindIndex);
      PortAt(After(c0, events), which).enabled <==> WasPutInUse(c0, which, events)
    decreases |events|
  {
    var c0 := NewConfig(nodeType, bindIndex);
    if events == [] {
      assert PortAt(c0, which) == NEW_PORT;
    } else {
      var before, e := events[..|events| - 1], events[|events| - 1];
      EnabledOfRun(nodeType, bindIndex, before, which);
      StaysInStep(nodeType, bindIndex, before);
      EnabledStep(After(c0, before), e, which);
      UseSame(After(c0, before), c0, which, e);
      UseNext(c0, which, events);
    }
  }
}
