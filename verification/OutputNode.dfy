/** The output side of a node: four ports, the sync mode and the fail-safe mode. Every packet and
    timer acts on each port on its own, given the sync mode of the node. */
module OutputNode {
  import opened Common
  import opened Ports
  import opened OutputPorts

  const MAX_PORTS := 4

  type PortList = s: seq<Port> | |s| == MAX_PORTS witness [NEW_PORT, NEW_PORT, NEW_PORT, NEW_PORT]

  datatype Node = Node(ports: PortList, syncMode: bool, lastSyncTime: int, failsafe: Failsafe)

  const NEW_NODE := Node([NEW_PORT, NEW_PORT, NEW_PORT, NEW_PORT], false, 0, Hold)

  datatype Event =
    | ArtDmx(universe: nat, from: Address, physical: Byte, frame: Payload)
    | ArtNzs(universe: nat, startCode: Byte, frame: Payload)
    | ArtSync(from: Address)
    | ArtAddress(command: Byte)
    | CheckTimeouts
    | SetPortAddress(port: nat, addr: nat)

  datatype Timed = Timed(event: Event, now: int)

  predicate Listens(p: Port, universe: nat) { p.addr == universe && p.enabled }

  /** ArtNzs goes to the first listening port only. */
  function FirstListener(ports: PortList, universe: nat): (k: nat)
    ensures k <= MAX_PORTS && (k < MAX_PORTS ==> Listens(ports[k], universe))
    ensures forall j | 0 <= j < k :: !Listens(ports[j], universe)
  {
    if Listens(ports[0], universe) then 0 else if Listens(ports[1], universe) then 1
    else if Listens(ports[2], universe) then 2 else if Listens(ports[3], universe) then 3 else MAX_PORTS
  }

  /** Port commands of ArtAddress. Per-port commands act on port 0 only. */
  function CommandOn(command: Byte, i: nat): Action {
    if command == 0x01 then Cancel
    else if command == 0x0c then Record
    else if i != 0 then Ignore
    else if command == 0x10 then SetMode(Ltp)
    else if command == 0x20 || command == 0x30 then Redirect
    else if command == 0x50 then SetMode(Htp)
    else if command == 0x90 then Clear
    else Ignore
  }

  function FailsafeAfter(command: Byte, failsafe: Failsafe): Failsafe {
    if command == 0x08 then Hold else if command == 0x09 then Zero
    else if command == 0x0a then Full else if command == 0x0b then Scene else failsafe
  }

  predicate SyncTimedOut(n: Node, now: int) { n.syncMode && now - n.lastSyncTime >= ARTSYNC_TIMEOUT_MS }

  function ActionOn(n: Node, i: nat, t: Timed): Action
    requires i < MAX_PORTS
  {
    match t.event
    case ArtDmx(universe, from, physical, frame) =>
      if Listens(n.ports[i], universe) then Dmx(from, physical, frame) else Ignore
    case ArtNzs(universe, startCode, frame) =>
      if i == FirstListener(n.ports, universe) then Nzs(startCode, frame) else Ignore
    case ArtSync(from) => Sync(from)
    case ArtAddress(command) => CommandOn(command, i)
    case CheckTimeouts => Timers(n.failsafe, SyncTimedOut(n, t.now))
    case SetPortAddress(port, addr) => if i == port then Bind(addr) else Ignore
  }

  function MomentOn(n: Node, i: nat, t: Timed): Moment
    requires i < MAX_PORTS
  {
    Moment(ActionOn(n, i, t), n.syncMode, t.now)
  }

  function StepPorts(n: Node, t: Timed): PortList {
    seq(MAX_PORTS, i requires 0 <= i < MAX_PORTS => PortStep(n.ports[i], MomentOn(n, i, t)))
  }

  function NodeStep(n: Node, t: Timed): Node {
    var n' := n.(ports := StepPorts(n, t));
    match t.event
    case ArtSync(from) =>
      if exists i | 0 <= i < MAX_PORTS :: AcceptsSync(n.ports[i], from)
      then n'.(syncMode := true, lastSyncTime := t.now) else n'
    case ArtAddress(command) => n'.(failsafe := FailsafeAfter(command, n.failsafe))
    case CheckTimeouts => if SyncTimedOut(n, t.now) then n'.(syncMode := false) else n'
    case _ => n'
  }

  function NodeRun(n: Node, ts: seq<Timed>): Node
    decreases |ts|
  {
    if ts == [] then n else NodeStep(NodeRun(n, ts[..|ts| - 1]), ts[|ts| - 1])
  }

  /** What a run of the node does to one of its ports. */
  function MomentsOn(n: Node, i: nat, ts: seq<Timed>): seq<Moment>
    requires i < MAX_PORTS
    decreases |ts|
  {
    if ts == [] then []
    else MomentsOn(n, i, ts[..|ts| - 1]) + [MomentOn(NodeRun(n, ts[..|ts| - 1]), i, ts[|ts| - 1])]
  }

  lemma PortsStepAlone(n: Node, i: nat, t: Timed)
    requires i < MAX_PORTS
    ensures NodeStep(n, t).ports[i] == PortStep(n.ports[i], MomentOn(n, i, t))
  {
  }

  /** Every theorem about runs of one port holds of each port of a node. */
  lemma {:induction false} PortsRunAlone(n: Node, i: nat, ts: seq<Timed>)
    requires i < MAX_PORTS
    ensures NodeRun(n, ts).ports[i] == PortRun(n.ports[i], MomentsOn(n, i, ts))
    ensures |MomentsOn(n, i, ts)| == |ts|
    decreases |ts|
  {
    if ts == [] {
    } else {
      var before := ts[..|ts| - 1];
      PortsRunAlone(n, i, before);
      PortsStepAlone(NodeRun(n, before), i, ts[|ts| - 1]);
      PortRunSnoc(n.ports[i], MomentsOn(n, i, before), MomentOn(NodeRun(n, before), i, ts[|ts| - 1]));
    }
  }

  /** The ports when the first `k` of them have been stepped. */
  function Stepped(n: Node, t: Timed, k: nat): PortList
    requires k <= MAX_PORTS
  {
    seq(MAX_PORTS, i requires 0 <= i < MAX_PORTS =>
      if i < k then PortStep(n.ports[i], MomentOn(n, i, t)) else n.ports[i])
  }

  lemma StepNext(n: Node, t: Timed, k: nat)
    requires k < MAX_PORTS
    ensures Stepped(n, t, k)[k := PortStep(n.ports[k], MomentOn(n, k, t))] == Stepped(n, t, k + 1)
    ensures Stepped(n, t, k)[k] == n.ports[k]
    ensures Stepped(n, t, 0) == n.ports && Stepped(n, t, MAX_PORTS) == StepPorts(n, t)
  {
  }

  /** Fail-safe applied to the first `k` ports. */
  function Failsafed(n: Node, now: int, k: nat): PortList
    requires k <= MAX_PORTS
  {
    seq(MAX_PORTS, i requires 0 <= i < MAX_PORTS =>
      if i < k then Tick(n.ports[i], n.failsafe, false, now) else n.ports[i])
  }

  /** Pending frames of the first `k` ports put out. */
  function Flushed(n: Node, k: nat): PortList
    requires k <= MAX_PORTS
  {
    seq(MAX_PORTS, i requires 0 <= i < MAX_PORTS => if i < k then Flush(n.ports[i]) else n.ports[i])
  }

  lemma TimersInTwoPasses(n: Node, now: int)
    ensures StepPorts(n, Timed(CheckTimeouts, now)) ==
      var n1 := n.(ports := Failsafed(n, now, MAX_PORTS));
      if SyncTimedOut(n, now) then Flushed(n1, MAX_PORTS) else n1.ports
  {
  }

  // ----- the node object -----

  class OutputSide {
    ghost const Repr: set<object>    // the ports and their buffers
    const ports: seq<OutputPort>
    var syncMode: bool
    var lastSyncTime: int
    var failsafe: Failsafe

    /** Four separate ports. */
    ghost predicate Valid() {
      && |ports| == MAX_PORTS
      && (forall i | 0 <= i < MAX_PORTS :: ports[i].Valid() && ports[i].Repr <= Repr)
      && (forall i, j | 0 <= i < MAX_PORTS && 0 <= j < MAX_PORTS && i != j :: ports[i].Repr !! ports[j].Repr)
      && this !in Repr
    }

    ghost function View(): Node
      requires Valid()
      reads this, Repr
    {
      Node([ports[0].View(), ports[1].View(), ports[2].View(), ports[3].View()], syncMode, lastSyncTime, failsafe)
    }

    constructor (p0: OutputPort, p1: OutputPort, p2: OutputPort, p3: OutputPort)
      requires p0.Valid() && p1.Valid() && p2.Valid() && p3.Valid()
      requires p0.Repr !! p1.Repr !! p2.Repr !! p3.Repr
      ensures Valid() && Repr == p0.Repr + p1.Repr + p2.Repr + p3.Repr
      ensures View() == Node([p0.View(), p1.View(), p2.View(), p3.View()], false, 0, Hold)
    {
      ports := [p0, p1, p2, p3];
      Repr := p0.Repr + p1.Repr + p2.Repr + p3.Repr;
      syncMode, lastSyncTime, failsafe := false, 0, Hold;
    }

    static method NewPair() returns (p: OutputPort, q: OutputPort)
      ensures p.Valid() && q.Valid() && p.Repr !! q.Repr && fresh(p.Repr) && fresh(q.Repr)
      ensures p.View() == q.View() == NEW_PORT
    {
      p := new OutputPort();
      q := new OutputPort();
    }

    /** artnet_new */
    static method New() returns (n: OutputSide)
      ensures n.Valid() && fresh(n) && fresh(n.Repr) && n.View() == NEW_NODE
    {
      var p0, p1 := NewPair();
      ghost var others := p0.Repr + p1.Repr;
      var p2, p3 := NewPair();
      assert others !! p2.Repr + p3.Repr;
      n := new OutputSide(p0, p1, p2, p3);
    }

    method DmxOnPort(i: nat, universe: nat, from: Address, physical: Byte, frame: Payload, now: int)
      requires Valid() && i < MAX_PORTS
      modifies Repr
      ensures var p := old(View()).ports[i];
        View() == old(View()).(ports := old(View()).ports[i :=
          if Listens(p, universe) then Receive(p, syncMode, from, physical, frame, now) else p])
    {
      if ports[i].addr == universe && ports[i].enabled {
        ports[i].HandleDmx(syncMode, from, physical, frame, now);
      }
    }

    method HandleDmx(universe: nat, from: Address, physical: Byte, frame: Payload, now: int)
      requires Valid()
      modifies Repr
      ensures View() == NodeStep(old(View()), Timed(ArtDmx(universe, from, physical, frame), now))
    {
      ghost var n, t := View(), Timed(ArtDmx(universe, from, physical, frame), now);
      StepNext(n, t, 0);
      for i := 0 to MAX_PORTS
        invariant View() == n.(ports := Stepped(n, t, i))
      {
        StepNext(n, t, i);
        DmxOnPort(i, universe, from, physical, frame, now);
      }
    }

    method NzsOnPort(i: nat, startCode: Byte, frame: Payload, now: int)
      requires Valid() && i < MAX_PORTS
      modifies Repr
      ensures View() == old(View()).(ports := old(View()).ports[i := ReceiveNzs(old(View()).ports[i], startCode, frame, now)])
    {
      ports[i].HandleNzs(startCode, frame, now);
    }

    method HandleNzs(universe: nat, startCode: Byte, frame: Payload, now: int)
      requires Valid()
      modifies Repr
      ensures View() == NodeStep(old(View()), Timed(ArtNzs(universe, startCode, frame), now))
    {
      ghost var n, t := View(), Timed(ArtNzs(universe, startCode, frame), now);
      for i := 0 to MAX_PORTS
        invariant forall j | 0 <= j < i :: !Listens(n.ports[j], universe)
        invariant View() == n
      {
        if ports[i].enabled && ports[i].addr == universe {
          NzsOnPort(i, startCode, frame, now);
          assert FirstListener(n.ports, universe) == i;
          assert View().ports == StepPorts(n, t);
          return;
        }
      }
      assert View().ports == StepPorts(n, t);
    }

    method SyncOnPort(i: nat, from: Address) returns (accepted: bool)
      requires Valid() && i < MAX_PORTS
      modifies Repr
      ensures accepted == AcceptsSync(old(View()).ports[i], from)
      ensures var p := old(View()).ports[i];
        View() == old(View()).(ports := old(View()).ports[i := if accepted then Flush(p) else p])
    {
      accepted := ports[i].HandleSync(from);
    }

    method SyncPorts(from: Address, now: int) returns (accepted: bool)
      requires Valid()
      modifies Repr
      ensures View() == old(View()).(ports := StepPorts(old(View()), Timed(ArtSync(from), now)))
      ensures accepted == exists j | 0 <= j < MAX_PORTS :: AcceptsSync(old(View()).ports[j], from)
    {
      ghost var n, t := View(), Timed(ArtSync(from), now);
      StepNext(n, t, 0);
      accepted := false;
      for i := 0 to MAX_PORTS
        invariant View() == n.(ports := Stepped(n, t, i))
        invariant accepted == exists j | 0 <= j < i :: AcceptsSync(n.ports[j], from)
      {
        StepNext(n, t, i);
        var ok := SyncOnPort(i, from);
        accepted := accepted || ok;
      }
    }

    method EnterSyncMode(now: int)
      requires Valid()
      modifies this`syncMode, this`lastSyncTime
      ensures View() == old(View()).(syncMode := true, lastSyncTime := now)
    {
      syncMode := true;
      lastSyncTime := now;
    }

    method HandleSync(from: Address, now: int)
      requires Valid()
      modifies this, Repr
      ensures View() == NodeStep(old(View()), Timed(ArtSync(from), now))
    {
      var accepted := SyncPorts(from, now);
      if accepted {
        EnterSyncMode(now);
      }
    }

    method CancelOnPort(i: nat)
      requires Valid() && i < MAX_PORTS
      modifies Repr
      ensures var p := old(View()).ports[i];
        View() == old(View()).(ports := old(View()).ports[i := if p.sources.merging then CancelNext(p) else p])
    {
      if ports[i].merging {
        ports[i].CancelNext();
      }
    }

    method CancelMerges(now: int)
      requires Valid()
      modifies Repr
      ensures View() == NodeStep(old(View()), Timed(ArtAddress(0x01), now))
    {
      ghost var n, t := View(), Timed(ArtAddress(0x01), now);
      StepNext(n, t, 0);
      for i := 0 to MAX_PORTS
        invariant View() == n.(ports := Stepped(n, t, i))
      {
        StepNext(n, t, i);
        CancelOnPort(i);
      }
    }

    method RecordOnPort(i: nat)
      requires Valid() && i < MAX_PORTS
      modifies Repr
      ensures var p := old(View()).ports[i];
        View() == old(View()).(ports := old(View()).ports[i := RecordScene(p)])
    {
      ports[i].RecordScene();
    }

    method RecordScenes(now: int)
      requires Valid()
      modifies Repr
      ensures View() == NodeStep(old(View()), Timed(ArtAddress(0x0c), now))
    {
      ghost var n, t := View(), Timed(ArtAddress(0x0c), now);
      StepNext(n, t, 0);
      for i := 0 to MAX_PORTS
        invariant View() == n.(ports := Stepped(n, t, i))
      {
        StepNext(n, t, i);
        RecordOnPort(i);
      }
    }

    /** The commands that name port 0. */
    method CommandOnPortZero(command: Byte, now: int)
      requires Valid()
      modifies Repr
      ensures var m := Moment(if command == 0x01 || command == 0x0c then Ignore else CommandOn(command, 0), syncMode, now);
        View() == old(View()).(ports := old(View()).ports[0 := PortStep(old(View()).ports[0], m)])
    {
      if command == 0x10 {
        ports[0].SetMode(Ltp);
      } else if command == 0x20 || command == 0x30 {
        ports[0].ForgetSources();
      } else if command == 0x50 {
        ports[0].SetMode(Htp);
      } else if command == 0x90 {
        ports[0].ClearOutput();
      }
    }

    /** The commands that choose a fail-safe mode. */
    method SetFailsafe(command: Byte)
      requires Valid()
      modifies this`failsafe
      ensures View() == old(View()).(failsafe := FailsafeAfter(command, old(failsafe)))
    {
      if command == 0x08 {
        failsafe := Hold;
      } else if command == 0x09 {
        failsafe := Zero;
      } else if command == 0x0a {
        failsafe := Full;
      } else if command == 0x0b {
        failsafe := Scene;
      }
    }

    /** The port and fail-safe commands of handle_address. */
    method HandleCommand(command: Byte, now: int)
      requires Valid()
      modifies this, Repr
      ensures View() == NodeStep(old(View()), Timed(ArtAddress(command), now))
    {
      if command == 0x01 {
        CancelMerges(now);
        return;
      }
      if command == 0x0c {
        RecordScenes(now);
        return;
      }
      ghost var n, t := View(), Timed(ArtAddress(command), now);
      CommandOnPortZero(command, now);
      assert View().ports == StepPorts(n, t);
      SetFailsafe(command);
    }

    method FailsafeOnPort(i: nat, now: int)
      requires Valid() && i < MAX_PORTS
      modifies Repr
      ensures View() == old(View()).(ports := old(View()).ports[i := Tick(old(View()).ports[i], failsafe, false, now)])
    {
      ports[i].CheckFailsafe(failsafe, now);
    }

    method CheckFailsafes(now: int)
      requires Valid()
      modifies Repr
      ensures View() == old(View()).(ports := Failsafed(old(View()), now, MAX_PORTS))
    {
      ghost var n := View();
      assert Failsafed(n, now, 0) == n.ports;
      for i := 0 to MAX_PORTS
        invariant View() == n.(ports := Failsafed(n, now, i))
      {
        FailsafeOnPort(i, now);
        assert Failsafed(n, now, i)[i := Tick(n.ports[i], n.failsafe, false, now)] == Failsafed(n, now, i + 1);
      }
    }

    method ReleaseOnPort(i: nat)
      requires Valid() && i < MAX_PORTS
      modifies Repr
      ensures View() == old(View()).(ports := old(View()).ports[i := Flush(old(View()).ports[i])])
    {
      ports[i].ReleasePending();
    }

    method ReleasePending()
      requires Valid()
      modifies Repr
      ensures View() == old(View()).(ports := Flushed(old(View()), MAX_PORTS))
    {
      ghost var n := View();
      assert Flushed(n, 0) == n.ports;
      for i := 0 to MAX_PORTS
        invariant View() == n.(ports := Flushed(n, i))
      {
        ReleaseOnPort(i);
        assert Flushed(n, i)[i := Flush(n.ports[i])] == Flushed(n, i + 1);
      }
    }

    /** The fail-safe and ArtSync parts of check_timeouts. */
    method HandleTimeouts(now: int)
      requires Valid()
      modifies this, Repr
      ensures View() == NodeStep(old(View()), Timed(CheckTimeouts, now))
    {
      TimersInTwoPasses(View(), now);
      CheckFailsafes(now);
      if syncMode && now - lastSyncTime >= ARTSYNC_TIMEOUT_MS {
        ReleasePending();
        syncMode := false;
      }
    }

    method BindPort(port: nat, addr: nat, now: int)
      requires Valid() && port < MAX_PORTS
      modifies Repr
      ensures View() == NodeStep(old(View()), Timed(SetPortAddress(port, addr), now))
    {
      ghost var n, t := View(), Timed(SetPortAddress(port, addr), now);
      BindOnPort(port, addr);
      assert View().ports == StepPorts(n, t);
    }

    method BindOnPort(i: nat, addr: nat)
      requires Valid() && i < MAX_PORTS
      modifies Repr
      ensures View() == old(View()).(ports := old(View()).ports[i := old(View()).ports[i].(enabled := true, addr := addr)])
    {
      ports[i].Rebind(addr);
    }
  }
}
