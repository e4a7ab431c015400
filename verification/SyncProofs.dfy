/** ArtSync: when frames are held back, and which frames come out. */
module SyncProofs {
  import opened Common
  import opened Ports
  import opened OutputNode
  import MergeProofs

  // ----- nothing is held back outside sync mode -----

  predicate NothingPending(n: Node) { forall i | 0 <= i < MAX_PORTS :: !n.ports[i].syncPending }

  lemma PendingOnPort(p: Port, m: Moment)
    ensures !p.syncPending && !m.sync ==> !PortStep(p, m).syncPending
    ensures m.action.Timers? && m.action.syncExpired ==> !PortStep(p, m).syncPending
  {
    if m.action.Dmx? {
      var (from, physical, frame) := (m.action.from, m.action.physical, m.action.frame);
      MergeProofs.AbsorbEffect(p, m.sync, from, physical, frame, m.now);
      MergeProofs.EndMergeOutput(Absorb(p, m.sync, from, physical, frame, m.now), from, physical, frame, m.now);
    }
  }

  lemma PendingStep(n: Node, t: Timed)
    requires n.syncMode || NothingPending(n)
    ensures NodeStep(n, t).syncMode || NothingPending(NodeStep(n, t))
  {
    forall i | 0 <= i < MAX_PORTS
      ensures NodeStep(n, t).syncMode || !NodeStep(n, t).ports[i].syncPending
    {
      PendingOnPort(n.ports[i], MomentOn(n, i, t));
      PortsStepAlone(n, i, t);
    }
  }

  /** In every reachable state of a node: out of sync mode, no port has a frame waiting. */
  lemma {:induction false} PendingOnlyInSyncMode(ts: seq<Timed>)
    ensures NodeRun(NEW_NODE, ts).syncMode || NothingPending(NodeRun(NEW_NODE, ts))
    decreases |ts|
  {
    if ts == [] {
    } else {
      PendingOnlyInSyncMode(ts[..|ts| - 1]);
      PendingStep(NodeRun(NEW_NODE, ts[..|ts| - 1]), ts[|ts| - 1]);
    }
  }

  // ----- one source in sync mode -----

  /** At most one slot is held, and by this source. */
  predicate Solo(s: Sources, ip: Address, physical: Byte) {
    && (s.a.Free() || s.b.Free())
    && (s.a.Free() || s.a.Is(ip, physical))
    && (s.b.Free() || s.b.Is(ip, physical))
  }

  lemma SoloStep(s: Sources, m: Moment, ip: Address, physical: Byte)
    requires ip != 0 && Solo(s, ip, physical)
    requires m.action.Sync? || (m.action.Dmx? && m.action.from == ip && m.action.physical == physical)
    ensures Solo(MergeProofs.SourcesStep(s, m), ip, physical)
    ensures m.action.Dmx? ==> MergeProofs.Alone(CaseOf(s.a, s.b, ip, physical))
  {
  }

  /** ArtDmx of one source and ArtSync from the same address, all while the node is in sync mode. */
  predicate FromOne(ms: seq<Moment>, ip: Address, physical: Byte) {
    forall m <- ms :: m.sync && (m.action == Sync(ip) ||
      (m.action.Dmx? && m.action.from == ip && m.action.physical == physical))
  }

  /** The last frame of the segment since the latest ArtSync. */
  function LastStaged(ms: seq<Moment>): Option<Payload> {
    if ms == [] || ms[|ms| - 1].action.Sync? then None
    else if ms[|ms| - 1].action.Dmx? then Some(ms[|ms| - 1].action.frame)
    else LastStaged(ms[..|ms| - 1])
  }

  /** The last frame of every segment that an ArtSync ends. */
  function LastOfSegments(ms: seq<Moment>): seq<Payload>
    decreases |ms|
  {
    if ms == [] then []
    else
      var before := ms[..|ms| - 1];
      LastOfSegments(before) +
        if ms[|ms| - 1].action.Sync? && LastStaged(before).Some? then [LastStaged(before).value] else []
  }

  /** The frames a run really commits: the live content after each flush of a pending frame. */
  function Committed(p: Port, ms: seq<Moment>): seq<Payload>
    decreases |ms|
  {
    if ms == [] then []
    else
      var before, m := PortRun(p, ms[..|ms| - 1]), ms[|ms| - 1];
      Committed(p, ms[..|ms| - 1]) +
        if before.syncPending && !PortStep(before, m).syncPending then [PortStep(before, m).live.Content()] else []
  }

  ghost predicate Listening(p: Port, ip: Address, physical: Byte) {
    && p.enabled && Solo(p.sources, ip, physical)
    && (p.lastDmxSource == 0 || p.lastDmxSource == ip)
  }

  /** One packet or sync of a single source. */
  lemma SoloPortStep(p: Port, m: Moment, ip: Address, physical: Byte)
    requires ip != 0 && Listening(p, ip, physical) && FromOne([m], ip, physical)
    ensures var p' := PortStep(p, m);
      && Listening(p', ip, physical)
      && (m.action.Dmx? ==> p'.live == p.live && p'.syncPending && p'.staged.Content() == m.action.frame)
      && (m.action.Sync? ==>
            && !p'.syncPending
            && p'.live.Content() == if p.syncPending then p.staged.Content() else p.live.Content())
  {
    assert m in [m];
    SoloStep(p.sources, m, ip, physical);
    MergeProofs.SourcesAlone(p, m);
    if m.action.Dmx? {
      MergeProofs.AbsorbEffect(p, m.sync, ip, physical, m.action.frame, m.now);
      MergeProofs.EndMergeOutput(Absorb(p, m.sync, ip, physical, m.action.frame, m.now), ip, physical, m.action.frame, m.now);
    }
  }

  /** On a port fed by one source in sync mode the frames committed are exactly the last ones of
      the segments between syncs, and between commits the output does not change. */
  lemma {:induction false} SyncStaging(p: Port, ms: seq<Moment>, ip: Address, physical: Byte)
    requires ip != 0 && Listening(p, ip, physical) && !p.syncPending && FromOne(ms, ip, physical)
    ensures var p', log := PortRun(p, ms), LastOfSegments(ms);
      && Listening(p', ip, physical)
      && Committed(p, ms) == log
      && p'.live.Content() == (if log == [] then p.live.Content() else log[|log| - 1])
      && (p'.syncPending <==> LastStaged(ms).Some?)
      && (p'.syncPending ==> p'.staged.Content() == LastStaged(ms).value)
    decreases |ms|
  {
    if ms == [] {
    } else {
      var before, m := ms[..|ms| - 1], ms[|ms| - 1];
      SyncStaging(p, before, ip, physical);
      assert m in ms;
      SoloPortStep(PortRun(p, before), m, ip, physical);
    }
  }
}
