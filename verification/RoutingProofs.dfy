/** Which packets reach which ports of a node, told from the history of the node's events: the
    addresses its ports were given, and the packets that came before. */
module RoutingProofs {
  import opened Common
  import opened Ports
  import opened OutputNode
  import MergeProofs

  // ----- what a port is bound to -----

  /** The address that a port was given last. */
  function AddressOf(ts: seq<Timed>, i: nat): Option<nat>
    decreases |ts|
  {
    if ts == [] then None
    else
      match ts[|ts| - 1].event
      case SetPortAddress(port, addr) => if port == i then Some(addr) else AddressOf(ts[..|ts| - 1], i)
      case _ => AddressOf(ts[..|ts| - 1], i)
  }

  predicate On(ts: seq<Timed>, i: nat, universe: nat) { AddressOf(ts, i) == Some(universe) }

  lemma AcceptKeeps(p: Port, c: Case, sync: bool, from: Address, physical: Byte, frame: Payload, now: int)
    ensures var p' := Accept(p, c, sync, from, physical, frame, now); p'.enabled == p.enabled && p'.addr == p.addr
  {
  }

  lemma ReceiveKeeps(p: Port, sync: bool, from: Address, physical: Byte, frame: Payload, now: int)
    ensures var p' := Receive(p, sync, from, physical, frame, now);
      p'.enabled == p.enabled && p'.addr == p.addr && p'.lastDmxSource == from && p'.nzsStartCode == 0
  {
    AcceptKeeps(p.(sources := Expire(p.sources, now)), CaseOf(p.sources.a, p.sources.b, from, physical),
                sync, from, physical, frame, now);
  }

  lemma TickKeeps(p: Port, failsafe: Failsafe, syncExpired: bool, now: int)
    ensures var p' := Tick(p, failsafe, syncExpired, now);
      p'.enabled == p.enabled && p'.addr == p.addr && p'.lastDmxSource == p.lastDmxSource && p'.nzsStartCode == p.nzsStartCode
  {
  }

  lemma BindingStep(p: Port, m: Moment)
    ensures var p' := PortStep(p, m);
      && p'.enabled == (m.action.Bind? || p.enabled)
      && p'.addr == (if m.action.Bind? then m.action.addr else p.addr)
      && p'.lastDmxSource == (if m.action.Dmx? then m.action.from else p.lastDmxSource)
      && p'.nzsStartCode == if m.action.Dmx? then 0 else if m.action.Nzs? then m.action.startCode else p.nzsStartCode
  {
    match m.action
    case Dmx(from, physical, frame) => ReceiveKeeps(p, m.sync, from, physical, frame, m.now);
    case Timers(failsafe, syncExpired) => TickKeeps(p, failsafe, syncExpired, m.now);
    case _ =>
  }

  lemma {:induction false} BindingOfRun(ts: seq<Timed>, i: nat)
    requires i < MAX_PORTS
    ensures var p, a := NodeRun(NEW_NODE, ts).ports[i], AddressOf(ts, i);
      p.enabled == a.Some? && (a.Some? ==> p.addr == a.value)
    decreases |ts|
  {
    if ts == [] {
    } else {
      var before, t := ts[..|ts| - 1], ts[|ts| - 1];
      var n := NodeRun(NEW_NODE, before);
      BindingOfRun(before, i);
      PortsStepAlone(n, i, t);
      BindingStep(n.ports[i], MomentOn(n, i, t));
    }
  }

  lemma RunNext(ts: seq<Timed>, t: Timed)
    ensures NodeRun(NEW_NODE, ts + [t]) == NodeStep(NodeRun(NEW_NODE, ts), t)
  {
    assert (ts + [t])[..|ts|] == ts;
  }

  /** An ArtDmx packet reaches exactly the ports whose last address is its universe. */
  lemma DmxReaches(ts: seq<Timed>, universe: nat, from: Address, physical: Byte, frame: Payload, now: int, i: nat)
    requires i < MAX_PORTS
    ensures var n, n' := NodeRun(NEW_NODE, ts), NodeRun(NEW_NODE, ts + [Timed(ArtDmx(universe, from, physical, frame), now)]);
      && n'.ports[i] == (if On(ts, i, universe) then PortStep(n.ports[i], Moment(Dmx(from, physical, frame), n.syncMode, now)) else n.ports[i])
      && n'.syncMode == n.syncMode && n'.lastSyncTime == n.lastSyncTime && n'.failsafe == n.failsafe
  {
    var t := Timed(ArtDmx(universe, from, physical, frame), now);
    RunNext(ts, t);
    BindingOfRun(ts, i);
    PortsStepAlone(NodeRun(NEW_NODE, ts), i, t);
  }

  /** Binding a port changes its address and puts it in use; that is all it does. */
  lemma BindReaches(ts: seq<Timed>, port: nat, addr: nat, now: int)
    requires port < MAX_PORTS
    ensures var n, n' := NodeRun(NEW_NODE, ts), NodeRun(NEW_NODE, ts + [Timed(SetPortAddress(port, addr), now)]);
      && n' == n.(ports := n'.ports)
      && n'.ports[port] == n.ports[port].(enabled := true, addr := addr)
      && forall i | 0 <= i < MAX_PORTS && i != port :: n'.ports[i] == n.ports[i]
  {
    var t := Timed(SetPortAddress(port, addr), now);
    RunNext(ts, t);
    forall i | 0 <= i < MAX_PORTS ensures NodeStep(NodeRun(NEW_NODE, ts), t).ports[i] == PortStep(NodeRun(NEW_NODE, ts).ports[i], MomentOn(NodeRun(NEW_NODE, ts), i, t)) {
      PortsStepAlone(NodeRun(NEW_NODE, ts), i, t);
    }
  }

  predicate LowestOn(ts: seq<Timed>, i: nat, universe: nat) {
    On(ts, i, universe) && forall j: nat | j < i :: !On(ts, j, universe)
  }

  lemma LowestListens(ts: seq<Timed>, i: nat, universe: nat)
    requires i < MAX_PORTS
    ensures LowestOn(ts, i, universe) <==> FirstListener(NodeRun(NEW_NODE, ts).ports, universe) == i
  {
    var ports := NodeRun(NEW_NODE, ts).ports;
    forall j | 0 <= j < MAX_PORTS ensures Listens(ports[j], universe) <==> On(ts, j, universe) {
      BindingOfRun(ts, j);
    }
    var k := FirstListener(ports, universe);
    assert k < MAX_PORTS ==> On(ts, k, universe);
  }

  /** An ArtNzs packet reaches the lowest such port only, and is put out there at once. */
  lemma NzsReaches(ts: seq<Timed>, universe: nat, startCode: Byte, frame: Payload, now: int, i: nat)
    requires i < MAX_PORTS
    ensures var n, n' := NodeRun(NEW_NODE, ts), NodeRun(NEW_NODE, ts + [Timed(ArtNzs(universe, startCode, frame), now)]);
      var p, p' := n.ports[i], n'.ports[i];
      if LowestOn(ts, i, universe) then
        p' == p.(live := p'.live, nzsStartCode := startCode, lastDmxTime := now) && p'.live.Content() == frame
      else p' == p
  {
    var t := Timed(ArtNzs(universe, startCode, frame), now);
    RunNext(ts, t);
    LowestListens(ts, i, universe);
    PortsStepAlone(NodeRun(NEW_NODE, ts), i, t);
  }

  // ----- ArtSync -----

  /** The sender of the last ArtDmx that reached the port; 0 when none did. */
  function LastDmxFrom(ts: seq<Timed>, i: nat): Address
    decreases |ts|
  {
    if ts == [] then 0
    else
      var before := ts[..|ts| - 1];
      match ts[|ts| - 1].event
      case ArtDmx(universe, from, _, _) => if On(before, i, universe) then from else LastDmxFrom(before, i)
      case _ => LastDmxFrom(before, i)
  }

  lemma {:induction false} LastSourceOfRun(ts: seq<Timed>, i: nat)
    requires i < MAX_PORTS
    ensures NodeRun(NEW_NODE, ts).ports[i].lastDmxSource == LastDmxFrom(ts, i)
    decreases |ts|
  {
    if ts == [] {
    } else {
      var before, t := ts[..|ts| - 1], ts[|ts| - 1];
      var n := NodeRun(NEW_NODE, before);
      LastSourceOfRun(before, i);
      BindingOfRun(before, i);
      PortsStepAlone(n, i, t);
      BindingStep(n.ports[i], MomentOn(n, i, t));
    }
  }

  /** The port merges two held sources with different addresses. */
  predicate MergesTwoAddresses(s: Sources) { s.merging && s.a.ip != 0 && s.b.ip != 0 && s.a.ip != s.b.ip }

  /** Is the port bound, fed last by this sender if at all, and not merging two of them? */
  predicate Obeys(ts: seq<Timed>, i: nat, from: Address)
    requires i < MAX_PORTS
  {
    && AddressOf(ts, i).Some?
    && (LastDmxFrom(ts, i) == 0 || LastDmxFrom(ts, i) == from)
    && !MergesTwoAddresses(NodeRun(NEW_NODE, ts).ports[i].sources)
  }

  /** A pending frame is put out; nothing else changes. */
  predicate Released(p: Port, p': Port) {
    && p' == p.(live := p'.live, syncPending := false)
    && (if p.syncPending then p'.live.Content() == p.staged.Content() else p'.live == p.live)
  }

  lemma ObeysAccepts(ts: seq<Timed>, i: nat, from: Address)
    requires i < MAX_PORTS
    ensures AcceptsSync(NodeRun(NEW_NODE, ts).ports[i], from) <==> Obeys(ts, i, from)
  {
    BindingOfRun(ts, i);
    LastSourceOfRun(ts, i);
  }

  /** An ArtSync releases the pending frames of exactly the ports that obey its sender. When there
      is one, sync mode and its clock start anew; when there is none, nothing changes at all. */
  lemma SyncReaches(ts: seq<Timed>, from: Address, now: int)
    ensures var n, n' := NodeRun(NEW_NODE, ts), NodeRun(NEW_NODE, ts + [Timed(ArtSync(from), now)]);
      && (forall i | 0 <= i < MAX_PORTS :: if Obeys(ts, i, from) then Released(n.ports[i], n'.ports[i]) else n'.ports[i] == n.ports[i])
      && n'.failsafe == n.failsafe
      && if exists i | 0 <= i < MAX_PORTS :: Obeys(ts, i, from) then n'.syncMode && n'.lastSyncTime == now else n' == n
  {
    var t, n := Timed(ArtSync(from), now), NodeRun(NEW_NODE, ts);
    RunNext(ts, t);
    forall i | 0 <= i < MAX_PORTS
      ensures AcceptsSync(n.ports[i], from) <==> Obeys(ts, i, from)
      ensures if Obeys(ts, i, from) then Released(n.ports[i], NodeStep(n, t).ports[i]) else NodeStep(n, t).ports[i] == n.ports[i]
    {
      ObeysAccepts(ts, i, from);
      PortsStepAlone(n, i, t);
    }
    if forall i | 0 <= i < MAX_PORTS :: !Obeys(ts, i, from) {
      assert NodeStep(n, t).ports == n.ports;
    }
  }

  /** When the sync mode that the node is in was last confirmed: by the last ArtSync that a port
      obeyed, unless a check found it 4 seconds old since. */
  function InSyncSince(ts: seq<Timed>): Option<int>
    decreases |ts|
  {
    if ts == [] then None
    else
      var before, t := ts[..|ts| - 1], ts[|ts| - 1];
      match t.event
      case ArtSync(from) => if exists i | 0 <= i < MAX_PORTS :: Obeys(before, i, from) then Some(t.now) else InSyncSince(before)
      case CheckTimeouts =>
        var since := InSyncSince(before);
        if since.Some? && t.now - since.value >= 4000 then None else since
      case _ => InSyncSince(before)
  }

  lemma {:induction false} SyncModeOfRun(ts: seq<Timed>)
    ensures var n, since := NodeRun(NEW_NODE, ts), InSyncSince(ts);
      n.syncMode == since.Some? && (since.Some? ==> n.lastSyncTime == since.value)
    decreases |ts|
  {
    if ts == [] {
    } else {
      var before, t := ts[..|ts| - 1], ts[|ts| - 1];
      SyncModeOfRun(before);
      assert ts == before + [t];
      match t.event
      case ArtSync(from) => SyncReaches(before, from, t.now);
      case _ =>
    }
  }

  /** What a check does to the pending frame of a port, depending on whether sync mode ran out. */
  predicate PendingAfter(p: Port, p': Port, ranOut: bool) {
    if ranOut then !p'.syncPending && (p.syncPending ==> p'.live.Content() == p.staged.Content())
    else p'.syncPending == p.syncPending && p'.staged == p.staged
  }

  lemma TickPending(p: Port, failsafe: Failsafe, syncExpired: bool, now: int)
    ensures PendingAfter(p, Tick(p, failsafe, syncExpired, now), syncExpired)
  {
  }

  predicate RanOut(ts: seq<Timed>, now: int) {
    var since := InSyncSince(ts); since.Some? && now - since.value >= 4000
  }

  /** A check that finds the sync mode 4 seconds old ends it, and puts out what is pending on every
      port. Otherwise it leaves sync mode and pending frames alone. */
  lemma SyncRunsOut(ts: seq<Timed>, now: int)
    ensures var n, n' := NodeRun(NEW_NODE, ts), NodeRun(NEW_NODE, ts + [Timed(CheckTimeouts, now)]);
      && n' == n.(ports := n'.ports, syncMode := n.syncMode && !RanOut(ts, now))
      && forall i | 0 <= i < MAX_PORTS :: PendingAfter(n.ports[i], n'.ports[i], RanOut(ts, now))
  {
    var t, n := Timed(CheckTimeouts, now), NodeRun(NEW_NODE, ts);
    RunNext(ts, t);
    SyncModeOfRun(ts);
    forall i | 0 <= i < MAX_PORTS ensures PendingAfter(n.ports[i], NodeStep(n, t).ports[i], SyncTimedOut(n, now)) {
      PortsStepAlone(n, i, t);
      TickPending(n.ports[i], n.failsafe, SyncTimedOut(n, now), now);
    }
  }

  // ----- ArtAddress commands -----

  /** The merge mode that ArtAddress last chose: commands 0x10 and 0x50, and for port 0 only. */
  function ModeOf(ts: seq<Timed>, i: nat): MergeMode
    decreases |ts|
  {
    if ts == [] || i != 0 then Htp
    else
      match ts[|ts| - 1].event
      case ArtAddress(command) => if command == 0x10 then Ltp else if command == 0x50 then Htp else ModeOf(ts[..|ts| - 1], i)
      case _ => ModeOf(ts[..|ts| - 1], i)
  }

  /** The fail-safe mode that ArtAddress last chose: commands 0x08 to 0x0b. */
  function FailsafeOf(ts: seq<Timed>): Failsafe
    decreases |ts|
  {
    if ts == [] then Hold
    else
      match ts[|ts| - 1].event
      case ArtAddress(command) =>
        if command == 0x08 then Hold else if command == 0x09 then Zero else if command == 0x0a then Full
        else if command == 0x0b then Scene else FailsafeOf(ts[..|ts| - 1])
      case _ => FailsafeOf(ts[..|ts| - 1])
  }

  lemma ModeStep(p: Port, m: Moment)
    ensures PortStep(p, m).mode == if m.action.SetMode? then m.action.mode else p.mode
  {
    if m.action.Dmx? {
      var (from, physical, frame) := (m.action.from, m.action.physical, m.action.frame);
      MergeProofs.AbsorbEffect(p, m.sync, from, physical, frame, m.now);
    } else {
      MergeProofs.QuietInputs(p, m);
    }
  }

  lemma {:induction false} ModesOfRun(ts: seq<Timed>, i: nat)
    requires i < MAX_PORTS
    ensures NodeRun(NEW_NODE, ts).ports[i].mode == ModeOf(ts, i)
    ensures NodeRun(NEW_NODE, ts).failsafe == FailsafeOf(ts)
    decreases |ts|
  {
    if ts == [] {
    } else {
      var before, t := ts[..|ts| - 1], ts[|ts| - 1];
      var n := NodeRun(NEW_NODE, before);
      ModesOfRun(before, i);
      PortsStepAlone(n, i, t);
      ModeStep(n.ports[i], MomentOn(n, i, t));
    }
  }

  /** What the other commands do to the ports: 0x01 marks every merging port for the end of its
      merge, 0x0c records every output as its scene, 0x20 and 0x30 forget the sources of port 0,
      0x90 darkens it; none of the rest does anything to sources, outputs and scenes. */
  lemma CommandReaches(n: Node, command: Byte, now: int, i: nat)
    requires i < MAX_PORTS
    ensures var p, p' := n.ports[i], NodeStep(n, Timed(ArtAddress(command), now)).ports[i];
      && p' == p.(sources := p'.sources, live := p'.live, scene := p'.scene, mode := p'.mode)
      && p'.sources == (if command == 0x01 && p.sources.merging then p.sources.(cancelPending := true)
                        else if (command == 0x20 || command == 0x30) && i == 0 then Sources(Slot(0, 0, 0), Slot(0, 0, 0), false, false)
                        else p.sources)
      && p'.scene == (if command == 0x0c then p.live else p.scene)
      && (if command == 0x90 && i == 0 then p'.live.length == 0 && forall c | 0 <= c < 512 :: p'.live.data[c] == 0 else p'.live == p.live)
  {
    PortsStepAlone(n, i, Timed(ArtAddress(command), now));
  }
}
