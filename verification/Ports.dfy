/** One output port: what a packet, a command or a timer does to it. OutputPorts.dfy changes the
    fields and buffers of a port object exactly as these functions say; MergeProofs.dfy,
    SyncProofs.dfy and FailsafeProofs.dfy prove what they achieve over whole runs. */
module Ports {
  import opened Common

  const DMX_LENGTH := 512
  const MERGE_TIMEOUT_MS := 10000
  const DMX_FAILSAFE_TIMEOUT_MS := 800
  const ARTSYNC_TIMEOUT_MS := 4000

  type Address = nat    // an IPv4 address; 0 means "no source"
  type Frame = s: seq<Byte> | |s| == DMX_LENGTH witness seq(DMX_LENGTH, _ => 0)
  type Length = n: nat | n <= DMX_LENGTH
  type Payload = s: seq<Byte> | |s| <= DMX_LENGTH witness []

  datatype MergeMode = Htp | Ltp
  datatype Failsafe = Hold | Zero | Full | Scene

  /** A merge source: where it sends from, its Physical field, and when it was last heard. An
      address of 0 marks the slot as free. */
  datatype Slot = Slot(ip: Address, physical: Byte, time: int)
  {
    predicate Free() { ip == 0 }

    predicate Is(from: Address, phys: Byte) { ip == from && physical == phys }

    predicate Old(now: int) { now - time > MERGE_TIMEOUT_MS }
  }

  const EMPTY := Slot(0, 0, 0)

  /** Who feeds the port. `merging` is the MERGE bit of the port status. */
  datatype Sources = Sources(a: Slot, b: Slot, merging: bool, cancelPending: bool)

  const NO_SOURCES := Sources(EMPTY, EMPTY, false, false)

  /** A 512-byte buffer of which a front part is in use. */
  datatype Buffer = Buffer(data: Frame, length: Length)
  {
    function Content(): (c: Payload)
      ensures |c| == length
    {
      data[..length]
    }

    function Fill(frame: Payload): (r: Buffer)
      ensures r.Content() == frame
    {
      Buffer(Blit(data, frame), |frame|)
    }
  }

  /** Every channel at the same level. */
  function Level(b: Byte): Frame { seq(DMX_LENGTH, _ => b) }

  const CLEARED := Buffer(Level(0), 0)

  datatype Port = Port(
    enabled: bool, addr: nat, mode: MergeMode, sources: Sources, dataA: Frame, dataB: Frame,
    live: Buffer, staged: Buffer, syncPending: bool, scene: Buffer,
    lastDmxSource: Address, lastDmxTime: int, nzsStartCode: Byte, failsafeTriggered: bool)

  const NEW_PORT := Port(false, 0, Htp, NO_SOURCES, Level(0), Level(0), CLEARED, CLEARED, false, CLEARED,
                         0, 0, 0, false)

  /** memcpy to the front of a 512-byte buffer. */
  function Blit(dst: Frame, src: Payload): (r: Frame)
    ensures r[..|src|] == src
  {
    src + dst[|src|..]
  }

  function Highest(a: Frame, b: Frame, n: Length): (r: Payload)
    ensures |r| == n
  {
    seq(n, i requires 0 <= i < n => if a[i] > b[i] then a[i] else b[i])
  }

  // ----- staging, committing, flushing -----

  function Commit(p: Port, frame: Payload): Port {
    p.(live := p.live.Fill(frame))
  }

  function Stage(p: Port, sync: bool, frame: Payload): Port {
    if sync then p.(staged := p.staged.Fill(frame), syncPending := true)
    else Commit(p, frame)
  }

  function Flush(p: Port): Port
  {
    if p.syncPending then Commit(p, p.staged.Content()).(syncPending := false) else p
  }

  /** `merge`: the result goes through the sync buffer, and on to the output at once when the
      node is not in sync mode. */
  function Merge(p: Port, sync: bool, n: Length, latest: Frame): Port
  {
    var merged := if p.mode == Htp then Highest(p.dataA, p.dataB, n) else latest[..n];
    var p' := p.(staged := p.staged.Fill(merged), syncPending := true);
    if sync then p' else Flush(p')
  }

  // ----- sources -----

  /** The ten branches of handle_dmx. */
  datatype Case = FirstPacket | ContinueA | ContinueB | StartB | StartA
                | MergeA | MergeB | MatchesBoth | ThirdSource | NoCase

  function CaseOf(a: Slot, b: Slot, from: Address, physical: Byte): Case {
    if a.Free() && b.Free() then FirstPacket
    else if a.Is(from, physical) && b.Free() then ContinueA
    else if a.Free() && b.Is(from, physical) then ContinueB
    else if !a.Is(from, physical) && b.Free() then StartB
    else if a.Free() && !b.Is(from, physical) then StartA
    else if a.Is(from, physical) && !b.Is(from, physical) then MergeA
    else if !a.Is(from, physical) && b.Is(from, physical) then MergeB
    else if a.Is(from, physical) && b.Is(from, physical) then MatchesBoth
    else if !a.Is(from, physical) && !b.Is(from, physical) then ThirdSource
    else NoCase
  }

  /** check_merge_timeouts */
  function Expire(s: Sources, now: int): Sources {
    var a := if s.a.Old(now) then s.a.(ip := 0) else s.a;
    var b := if s.b.Old(now) then s.b.(ip := 0) else s.b;
    var ended := s.merging && !s.a.Free() && !s.b.Free() && (a.Free() || b.Free());
    Sources(a, b, s.merging && !ended, s.cancelPending)
  }

  function PutA(p: Port, source: Slot, frame: Payload): Port {
    p.(sources := p.sources.(a := source), dataA := Blit(p.dataA, frame))
  }

  function PutB(p: Port, source: Slot, frame: Payload): Port {
    p.(sources := p.sources.(b := source), dataB := Blit(p.dataB, frame))
  }

  function MergeIntoA(p: Port, source: Slot, sync: bool, frame: Payload, merging: bool): Port {
    var p' := PutA(p, source, frame);
    Merge(p'.(sources := p'.sources.(merging := merging)), sync, |frame|, p'.dataA)
  }

  function MergeIntoB(p: Port, source: Slot, sync: bool, frame: Payload, merging: bool): Port {
    var p' := PutB(p, source, frame);
    Merge(p'.(sources := p'.sources.(merging := merging)), sync, |frame|, p'.dataB)
  }

  function Accept(p: Port, c: Case, sync: bool, from: Address, physical: Byte, frame: Payload, now: int): Port {
    match c
    case FirstPacket => Stage(PutA(p, Slot(from, physical, now), frame), sync, frame)
    case ContinueA => Stage(PutA(p, p.sources.a.(time := now), frame), sync, frame)
    case ContinueB => Stage(PutB(p, p.sources.b.(time := now), frame), sync, frame)
    case StartB => MergeIntoB(p, Slot(from, physical, now), sync, frame, true)
    case StartA => MergeIntoA(p, Slot(from, physical, now), sync, frame, true)
    case MergeA => MergeIntoA(p, p.sources.a.(time := now), sync, frame, p.sources.merging)
    case MergeB => MergeIntoB(p, p.sources.b.(time := now), sync, frame, p.sources.merging)
    case MatchesBoth => p
    case ThirdSource => p
    case NoCase => p
  }

  /** The end of merging that an earlier AcCancelMerge asked for. */
  function EndMerge(p: Port, from: Address, physical: Byte, frame: Payload, now: int): Port {
    if p.sources.cancelPending then
      p.(sources := Sources(Slot(from, physical, now), EMPTY, false, false), dataA := Blit(p.dataA, frame), dataB := Level(0))
    else p
  }

  /** The branch is chosen from the sources held before expired ones are dropped. */
  function Absorb(p: Port, sync: bool, from: Address, physical: Byte, frame: Payload, now: int): Port {
    Accept(p.(sources := Expire(p.sources, now)), CaseOf(p.sources.a, p.sources.b, from, physical),
           sync, from, physical, frame, now)
  }

  /** handle_dmx for a port the packet matches. */
  function Receive(p: Port, sync: bool, from: Address, physical: Byte, frame: Payload, now: int): Port {
    EndMerge(Absorb(p, sync, from, physical, frame, now), from, physical, frame, now)
      .(nzsStartCode := 0, lastDmxSource := from, lastDmxTime := now, failsafeTriggered := false)
  }

  function ReceiveNzs(p: Port, startCode: Byte, frame: Payload, now: int): Port {
    Commit(p, frame).(nzsStartCode := startCode, lastDmxTime := now)
  }

  predicate AcceptsSync(p: Port, from: Address) {
    var s := p.sources;
    && p.enabled
    && !(s.merging && !s.a.Free() && !s.b.Free() && s.a.ip != s.b.ip)
    && (p.lastDmxSource == 0 || p.lastDmxSource == from)
  }

  function CancelNext(p: Port): Port { p.(sources := p.sources.(cancelPending := true)) }

  /** AcDirectionTx / AcDirectionRx forget both sources. */
  function Forget(p: Port): Port { p.(sources := NO_SOURCES) }

  function RecordScene(p: Port): Port { p.(scene := p.live) }

  predicate LosesData(p: Port, now: int) {
    && p.enabled && p.lastDmxTime != 0 && !p.failsafeTriggered
    && now - p.lastDmxTime >= DMX_FAILSAFE_TIMEOUT_MS
  }

  function ApplyFailsafe(p: Port, mode: Failsafe): Port {
    match mode
    case Hold => p
    case Zero => p.(live := Buffer(Level(0), DMX_LENGTH))
    case Full => p.(live := Buffer(Level(255), DMX_LENGTH))
    case Scene => if p.scene.length > 0 then p.(live := p.scene) else p
  }

  /** check_timeouts: fail-safe first, then whatever a sync timeout releases. */
  function Tick(p: Port, mode: Failsafe, syncExpired: bool, now: int): Port
  {
    var p' := if LosesData(p, now) then ApplyFailsafe(p, mode).(failsafeTriggered := true) else p;
    if syncExpired then Flush(p') else p'
  }

  // ----- runs of one port -----

  datatype Action =
    | Ignore
    | Dmx(from: Address, physical: Byte, frame: Payload)
    | Nzs(startCode: Byte, frame: Payload)
    | Sync(from: Address)
    | Cancel
    | SetMode(mode: MergeMode)
    | Redirect
    | Clear
    | Record
    | Timers(failsafe: Failsafe, syncExpired: bool)
    | Bind(addr: nat)

  /** An action, the node's sync mode when it happens, and the time. */
  datatype Moment = Moment(action: Action, sync: bool, now: int)

  function PortStep(p: Port, m: Moment): Port
  {
    match m.action
    case Ignore => p
    case Dmx(from, physical, frame) => Receive(p, m.sync, from, physical, frame, m.now)
    case Nzs(startCode, frame) => ReceiveNzs(p, startCode, frame, m.now)
    case Sync(from) => if AcceptsSync(p, from) then Flush(p) else p
    case Cancel => if p.sources.merging then CancelNext(p) else p
    case SetMode(mode) => p.(mode := mode)
    case Redirect => Forget(p)
    case Clear => p.(live := CLEARED)
    case Record => RecordScene(p)
    case Timers(failsafe, syncExpired) => Tick(p, failsafe, syncExpired, m.now)
    case Bind(addr) => p.(enabled := true, addr := addr)
  }

  function PortRun(p: Port, ms: seq<Moment>): Port
    decreases |ms|
  {
    if ms == [] then p else PortStep(PortRun(p, ms[..|ms| - 1]), ms[|ms| - 1])
  }

  lemma PortRunSnoc(p: Port, ms: seq<Moment>, m: Moment)
    ensures PortRun(p, ms + [m]) == PortStep(PortRun(p, ms), m)
  {
    assert (ms + [m])[..|ms|] == ms;
  }
}
