/** The node object as far as addresses go: the local setters, ArtAddress and ArtPollReply. */
module AddressedNodes {
  import opened Common
  import opened Subscribers
  import opened Addressing
  import opened Discovery

  class AddressedNode {
    const nodeType: NodeType
    const bindIndex: Byte
    var net: Switch
    var sub: Switch
    const ins: array<Port>
    const outs: array<Port>

    ghost predicate Valid() { ins.Length == outs.Length == MAX_PORTS && ins != outs }

    ghost function View(): Config
      requires Valid()
      reads this, ins, outs
    {
      Config(nodeType, bindIndex, net, sub, ins[..], outs[..])
    }

    constructor (nodeType: NodeType, bindIndex: Byte)
      ensures Valid() && fresh(ins) && fresh(outs) && View() == NewConfig(nodeType, bindIndex)
    {
      this.nodeType, this.bindIndex := nodeType, bindIndex;
      net, sub := Switch(0, 0, false), Switch(0, 0, false);
      ins := new Port[MAX_PORTS](_ => NEW_PORT);
      outs := new Port[MAX_PORTS](_ => NEW_PORT);
      new;
      assert ins[..] == outs[..] == NewPorts();
    }

    /** Makes all port addresses again from the switches. */
    method Rebuild()
      requires Valid()
      modifies ins, outs
      ensures View() == Addressing.Rebuild(old(View()))
    {
      var i := 0;
      while i < MAX_PORTS
        invariant 0 <= i <= MAX_PORTS
        invariant forall k | 0 <= k < i :: ins[k] == Readdress(old(ins[..]), net.value, sub.value)[k]
        invariant forall k | 0 <= k < i :: outs[k] == Readdress(old(outs[..]), net.value, sub.value)[k]
        invariant forall k | i <= k < MAX_PORTS :: ins[k] == old(ins[k]) && outs[k] == old(outs[k])
      {
        ins[i] := ins[i].(addr := MakeAddr(net.value, sub.value, AddrPort(ins[i].addr)));
        outs[i] := outs[i].(addr := MakeAddr(net.value, sub.value, AddrPort(outs[i].addr)));
        i := i + 1;
      }
      assert ins[..] == Readdress(old(ins[..]), net.value, sub.value);
      assert outs[..] == Readdress(old(outs[..]), net.value, sub.value);
    }

    /** artnet_set_net_addr */
    method SetNetAddr(value: Byte) returns (ok: bool)
      requires Valid()
      modifies this, ins, outs
      ensures ok <==> value <= 127
      ensures View() == Apply(old(View()), SetNet(value))
    {
      if value > 0x7f {
        return false;
      }
      ok := true;
      net := net.(local := value);
      if !net.netCtl && value != net.value {
        net := net.(value := value);
        Rebuild();
      }
    }

    /** artnet_set_subnet_addr */
    method SetSubnetAddr(value: Byte)
      requires Valid()
      modifies this, ins, outs
      ensures View() == Apply(old(View()), SetSubnet(value))
    {
      sub := sub.(local := value);
      if !sub.netCtl && value != sub.value {
        sub := sub.(value := value);
        Rebuild();
      }
    }

    method SetAddr(ports: array<Port>, id: nat, addr: Byte)
      requires Valid() && ports.Length == MAX_PORTS && id < MAX_PORTS
      modifies ports
      ensures ports[..] == old(ports[..])[id := SetOnePort(old(ports[id]), net.value, sub.value, addr)]
    {
      var changed := !ports[id].enabled;
      ports[id] := ports[id].(enabled := true, local := addr);
      if !ports[id].netCtl && (changed || addr % 16 != AddrPort(ports[id].addr)) {
        ports[id] := ports[id].(addr := MakeAddr(net.value, sub.value, addr));
      }
    }

    /** artnet_set_port_addr */
    method SetPortAddr(id: int, dir: Direction, addr: Byte) returns (ok: bool)
      requires Valid()
      modifies ins, outs
      ensures ok <==> 0 <= id < MAX_PORTS && addr <= 15 && dir != Neither
      ensures !ok ==> View() == old(View())
      ensures View() == Apply(old(View()), SetPort(id, dir, addr))
    {
      if id < 0 || id >= MAX_PORTS || addr > 15 {
        return false;
      }
      if dir == In {
        SetAddr(ins, id, addr);
      } else if dir == Out {
        SetAddr(outs, id, addr);
      }
      ok := dir != Neither;
    }

    method ProgramSwitches(netSwitch: Byte, subSwitch: Byte)
      requires Valid()
      modifies this, ins, outs
      ensures View() == Addressing.ProgramSwitches(old(View()), netSwitch, subSwitch)
    {
      var oldNet, oldSub := net.value, sub.value;
      if subSwitch == PROGRAM_DEFAULTS {
        sub := Switch(sub.local, sub.local, false);
      } else if Programs(subSwitch) {
        sub := sub.(value := subSwitch % 16, netCtl := true);
      }
      if netSwitch == PROGRAM_DEFAULTS {
        net := Switch(net.local, net.local, false);
      } else if Programs(netSwitch) {
        net := net.(value := netSwitch % 128, netCtl := true);
      }
      if oldNet != net.value || oldSub != sub.value {
        Rebuild();
      }
    }

    method ProgramPorts(ports: array<Port>, fields: FourBytes, enable: bool)
      requires Valid() && ports.Length == MAX_PORTS
      modifies ports
      ensures ports[..] == Addressing.ProgramPorts(old(ports[..]), net.value, sub.value, fields, enable)
    {
      var i := 0;
      while i < MAX_PORTS
        invariant 0 <= i <= MAX_PORTS
        invariant forall k | 0 <= k < i :: ports[k] == ProgramPort(old(ports[k]), net.value, sub.value, fields[k], enable)
        invariant forall k | i <= k < MAX_PORTS :: ports[k] == old(ports[k])
      {
        if fields[i] == PROGRAM_NO_CHANGE {
        } else if fields[i] == PROGRAM_DEFAULTS {
          ports[i] := ports[i].(addr := MakeAddr(net.value, sub.value, ports[i].local), netCtl := false, enabled := ports[i].enabled || enable);
        } else if Programs(fields[i]) {
          ports[i] := ports[i].(addr := MakeAddr(net.value, sub.value, fields[i]), netCtl := true, enabled := ports[i].enabled || enable);
        }
        i := i + 1;
      }
    }

    /** The addressing part of handle_address. */
    method HandleAddress(packetIndex: Byte, netSwitch: Byte, subSwitch: Byte, swIn: FourBytes, swOut: FourBytes)
      requires Valid()
      modifies this, ins, outs
      ensures View() == Apply(old(View()), ArtAddress(packetIndex, netSwitch, subSwitch, swIn, swOut))
    {
      if nodeType == Server || nodeType == Raw || packetIndex != (if bindIndex == 0 then 1 else bindIndex) {
        return;
      }
      ProgramSwitches(netSwitch, subSwitch);
      ProgramPorts(ins, swIn, false);
      ProgramPorts(outs, swOut, true);
    }

    /** The addressing part of artnet_tx_build_art_poll_reply. */
    method BuildPollReply(types: Quad) returns (reply: Info)
      requires Valid()
      ensures reply == PollReply(View(), types)
    {
      var i := MAX_PORTS;
      while i > 0 && !outs[i - 1].enabled && !ins[i - 1].enabled
        invariant 0 <= i <= MAX_PORTS && PortsUsed(View(), MAX_PORTS) == PortsUsed(View(), i)
      {
        i := i - 1;
      }
      reply := Info(net.value, sub.value, i, types,
                    Quad(AddrPort(ins[0].addr), AddrPort(ins[1].addr), AddrPort(ins[2].addr), AddrPort(ins[3].addr)),
                    Quad(AddrPort(outs[0].addr), AddrPort(outs[1].addr), AddrPort(outs[2].addr), AddrPort(outs[3].addr)));
    }
  }
}
