/** Inputs on which the program does not do what one would expect. The lemma that says exactly
    when it does is named with each. */
module Counterexamples {
  import opened Common
  import F = Firmware
  import P = FirmwareProtocol
  import opened Ports
  import M = MergeProofs
  import FailsafeProofs
  import Addressing
  import Discovery
  import Subscribers
  import Seqlock
  import Tods
  import TodData
  import Codec

  /** FirmwareProtocol.LockStep: an image of two full blocks is sent, acknowledged, and never done. */
  lemma TwoFullBlocksNeverComplete(clock: nat -> int)
    ensures var u := P.Upload(seq(2048, _ => 0), false, 1);
      var start := P.Start(u, F.IDLE, true);
      && P.Invariant(start, u)
      && var e := P.Exchange(start, u, clock);
         |e.replies| == |e.sent| > 0 && e.replies[|e.sent| - 1] == F.BlockGood && e.done == [] && e.deliveries == [] && e.tx.bytesCurrent == 2048
  {
    var u := P.Upload(seq(2048, _ => 0), false, 1);
    P.LockStep(u, F.IDLE, clock);
  }

  function DmxAt(from: Address, frame: Payload, now: int): Moment { Moment(Dmx(from, 0, frame), false, now) }

  /** A bound port. */
  const BIND := Moment(Bind(0), false, 0)

  /** A run, one moment longer. */
  lemma Then(ms: seq<Moment>, m: Moment, longer: seq<Moment>)
    requires longer == ms + [m]
    ensures PortRun(NEW_PORT, longer) == PortStep(PortRun(NEW_PORT, ms), m)
  {
    PortRunSnoc(NEW_PORT, ms, m);
  }

  lemma Bound() returns (p: Port)
    ensures p == PortRun(NEW_PORT, [BIND]) && p.sources == NO_SOURCES && p.mode == Htp
    ensures p.enabled && !p.failsafeTriggered
  {
    p := PortStep(NEW_PORT, BIND);
    Then([], BIND, [BIND]);
  }

  lemma FirstFrame(p: Port, from: Address, frame: Payload, now: int)
    requires p.sources == NO_SOURCES && from != 0
    ensures var p' := PortStep(p, DmxAt(from, frame, now));
      p'.sources == Sources(Slot(from, 0, now), EMPTY, false, false) && p'.dataA == Blit(p.dataA, frame) && p'.mode == p.mode
  {
    M.AbsorbEffect(p, false, from, 0, frame, now);
  }

  lemma SecondFrame(p: Port, from: Address, frame: Payload, now: int)
    requires p.sources.b == EMPTY && !p.sources.merging && !p.sources.cancelPending
    requires p.sources.a.ip != 0 && p.sources.a.ip != from && from != 0
    ensures var p' := PortStep(p, DmxAt(from, frame, now));
      && p'.sources == Sources(if p.sources.a.Old(now) then p.sources.a.(ip := 0) else p.sources.a, Slot(from, 0, now), true, false)
      && p'.dataA == p.dataA && p'.mode == p.mode
      && (p.mode == Htp ==> p'.live.Content() == Highest(p.dataA, Blit(p.dataB, frame), |frame|))
  {
    M.AbsorbEffect(p, false, from, 0, frame, now);
  }

  /** MergeProofs.MergeBitStep: the second source comes when the first has just gone stale. */
  lemma MergeBitLeftOn()
    ensures var s := PortRun(NEW_PORT, [BIND, DmxAt(1, [0, 0], 1), DmxAt(2, [0, 0], 20000)]).sources;
      s.merging && !M.BothHeld(s)
  {
    var m1, m2 := DmxAt(1, [0, 0], 1), DmxAt(2, [0, 0], 20000);
    var p := Bound();
    Then([BIND], m1, [BIND, m1]);
    FirstFrame(p, 1, [0, 0], 1);
    Then([BIND, m1], m2, [BIND, m1, m2]);
    SecondFrame(PortStep(p, m1), 2, [0, 0], 20000);
  }

  /** Source 1 held at full level since time 1, source 2 merged into it at 9000. */
  lemma TwoMerged() returns (p: Port)
    ensures p == PortRun(NEW_PORT, [BIND, DmxAt(1, Level(255), 1), DmxAt(2, [0, 0], 9000)])
    ensures p.sources == Sources(Slot(1, 0, 1), Slot(2, 0, 9000), true, false) && p.dataA == Level(255) && p.mode == Htp
  {
    var m1, m2 := DmxAt(1, Level(255), 1), DmxAt(2, [0, 0], 9000);
    p := Bound();
    Then([BIND], m1, [BIND, m1]);
    FirstFrame(p, 1, Level(255), 1);
    p := PortStep(p, m1);
    Then([BIND, m1], m2, [BIND, m1, m2]);
    SecondFrame(p, 2, [0, 0], 9000);
    p := PortStep(p, m2);
  }

  /** MergeProofs.StaleSourceMergedOnce: source 1 has been silent for too long and is no longer
      held after the last packet of source 2; its level is put out all the same. */
  lemma SilentSourceStillMerged()
    ensures var p := PortRun(NEW_PORT, [BIND, DmxAt(1, Level(255), 1), DmxAt(2, [0, 0], 9000), DmxAt(2, [0, 0], 12000)]);
      p.sources.a.Free() && p.live.Content() != [0, 0]
  {
    var p := TwoMerged();
    var m1, m2, m := DmxAt(1, Level(255), 1), DmxAt(2, [0, 0], 9000), DmxAt(2, [0, 0], 12000);
    Then([BIND, m1, m2], m, [BIND, m1, m2, m]);
    M.SourcesAlone(p, m);
    assert M.OtherData(p, MergeB)[0] > m.action.frame[0];
    M.StaleSourceMergedOnce(p, m);
  }

  lemma Tails(data: Frame, long: Payload, short: Payload)
    requires |short| <= |long|
    ensures Blit(Blit(data, long), short)[..|long|] == short + long[|short|..]
  {
  }

  /** A port after a long frame of source 1, AcDirectionTx and a short frame of source 2. */
  lemma LeftBehind() returns (p: Port)
    ensures p == PortRun(NEW_PORT, [BIND, DmxAt(1, [255, 255, 255, 255], 1), Moment(Redirect, false, 2), DmxAt(2, [1, 1], 3)])
    ensures p.sources == Sources(Slot(2, 0, 3), EMPTY, false, false) && p.mode == Htp
    ensures p.dataA[..4] == [1, 1] + [255, 255]
  {
    var m1, m2, m3 := DmxAt(1, [255, 255, 255, 255], 1), Moment(Redirect, false, 2), DmxAt(2, [1, 1], 3);
    p := Bound();
    Tails(p.dataA, [255, 255, 255, 255], [1, 1]);
    Then([BIND], m1, [BIND, m1]);
    FirstFrame(p, 1, [255, 255, 255, 255], 1);
    Then([BIND, m1], m2, [BIND, m1, m2]);
    Then([BIND, m1, m2], m3, [BIND, m1, m2, m3]);
    FirstFrame(PortStep(PortStep(p, m1), m2), 2, [1, 1], 3);
    p := PortStep(PortStep(PortStep(p, m1), m2), m3);
  }

  /** MergeProofs.MergeRefinement: sources 2 and 3 send [1, 1] and [0, 0, 0, 0]; two levels of
      source 1, long forgotten, come out with them. */
  lemma LeftoverMerged()
    ensures var ms := [BIND, DmxAt(1, [255, 255, 255, 255], 1), Moment(Redirect, false, 2), DmxAt(2, [1, 1], 3), DmxAt(3, [0, 0, 0, 0], 4)];
      PortRun(NEW_PORT, ms).live.Content() == [1, 1, 255, 255]
  {
    var m1, m2, m3, m4 := DmxAt(1, [255, 255, 255, 255], 1), Moment(Redirect, false, 2), DmxAt(2, [1, 1], 3), DmxAt(3, [0, 0, 0, 0], 4);
    var p := LeftBehind();
    Then([BIND, m1, m2, m3], m4, [BIND, m1, m2, m3, m4]);
    SecondFrame(p, 3, [0, 0, 0, 0], 4);
    HighestOverZeros(p.dataA, p.dataB, [0, 0, 0, 0]);
    assert p.dataA[..4] == [1, 1, 255, 255];
  }

  lemma HighestOverZeros(data: Frame, otherData: Frame, zeros: Payload)
    requires forall z <- zeros :: z == 0
    ensures Highest(data, Blit(otherData, zeros), |zeros|) == data[..|zeros|]
  {
    forall i | 0 <= i < |zeros| ensures Highest(data, Blit(otherData, zeros), |zeros|)[i] == data[i] {
      assert zeros[i] in zeros && Blit(otherData, zeros)[i] == zeros[i];
    }
  }

  lemma ZeroStrike(p: Port, now: int)
    requires LosesData(p, now)
    ensures var p' := PortStep(p, Moment(Timers(Zero, false), false, now)); p' == p.(live := Buffer(Level(0), DMX_LENGTH), failsafeTriggered := true)
  {
  }

  lemma NoStrike(p: Port, now: int)
    requires p.failsafeTriggered
    ensures PortStep(p, Moment(Timers(Zero, false), false, now)) == p
  {
  }

  lemma NzsShown(p: Port, frame: Payload, now: int)
    ensures var p' := PortStep(p, Moment(Nzs(7, frame), false, now));
      p'.live.Content() == frame && p'.failsafeTriggered == p.failsafeTriggered
  {
  }

  /** FailsafeProofs.LossAnswered: the fail-safe has struck, ArtNzs comes, and nothing comes after
      it; its frame stays on the output. */
  lemma NzsNeverGuarded()
    ensures var m1, check, nzs := DmxAt(1, [9, 9], 1000), Timers(Zero, false), Moment(Nzs(7, [7, 7]), false, 4000);
      && FailsafeProofs.Strikes(PortRun(NEW_PORT, [BIND, m1]), Moment(check, false, 3000))
      && PortRun(NEW_PORT, [BIND, m1, Moment(check, false, 3000), nzs, Moment(check, false, 90000)]).live.Content() == [7, 7]
  {
    var m1, m2, m3, m4 := DmxAt(1, [9, 9], 1000), Moment(Timers(Zero, false), false, 3000), Moment(Nzs(7, [7, 7]), false, 4000), Moment(Timers(Zero, false), false, 90000);
    var p := Bound();
    Then([BIND], m1, [BIND, m1]);
    FailsafeProofs.WatchStep(p, m1);
    p := PortStep(p, m1);
    Then([BIND, m1], m2, [BIND, m1, m2]);
    ZeroStrike(p, 3000);
    Then([BIND, m1, m2], m3, [BIND, m1, m2, m3]);
    NzsShown(PortStep(p, m2), [7, 7], 4000);
    Then([BIND, m1, m2, m3], m4, [BIND, m1, m2, m3, m4]);
    NoStrike(PortStep(PortStep(p, m2), m3), 90000);
  }

  lemma TwoHits(e: Subscribers.Entry, uni: nat)
    requires e.info.numPorts == 2 && Subscribers.PortMatches(e.info, 0, uni) && Subscribers.PortMatches(e.info, 1, uni)
    ensures Subscribers.Targets([e], uni, 0) == [Some(e.ip), None]
  {
    assert Subscribers.HitsUpTo(e.info, uni, 1) == 1;
    assert Subscribers.Hits(e.info, uni) == 2;
    assert Subscribers.Subscribes(e.info, uni);
    assert [e][..0] == [] && Subscribers.Query([], uni, 1) == Subscribers.Answer([], 0);
    assert Subscribers.Query([e], uni, 1) == Subscribers.Answer([e.ip], 2);
  }

  /** Subscribers.SendsToSubscribers: both outputs of the only known node are on the universe. A
      packet goes to it, and another one to whatever address is in the slot not filled in. */
  lemma UnfilledSlotRead(ip: Subscribers.Ip, net: Byte, sub: Byte, port: Byte, inputs: Subscribers.Quad)
    ensures var info := Subscribers.Info(net, sub, 2, Subscribers.Quad(0x80, 0x80, 0, 0), inputs, Subscribers.Quad(port, port, 0, 0));
      Subscribers.Targets([Subscribers.Entry(ip, info, 0)], Subscribers.MakeAddr(net, sub % 16, port % 16), 0) == [Some(ip), None]
  {
    var info := Subscribers.Info(net, sub, 2, Subscribers.Quad(0x80, 0x80, 0, 0), inputs, Subscribers.Quad(port, port, 0, 0));
    TwoHits(Subscribers.Entry(ip, info, 0), Subscribers.MakeAddr(net, sub % 16, port % 16));
  }

  /** `n` write sections that store nothing. */
  ghost function Sections(n: nat): seq<Seqlock.Action> {
    if n == 0 then [] else Sections(n - 1) + [Seqlock.Claim, Seqlock.Finish]
  }

  lemma OneSection(s: Seqlock.State)
    requires !s.writing && Seqlock.WellFormed(s.mem)
    ensures Seqlock.Run(s, [Seqlock.Claim, Seqlock.Finish]) == s.(count := s.count + 2)
  {
    Seqlock.Continued(s, [], Seqlock.Claim, [Seqlock.Claim]);
    Seqlock.Continued(s, [Seqlock.Claim], Seqlock.Finish, [Seqlock.Claim, Seqlock.Finish]);
  }

  lemma {:induction false} ManySections(s: Seqlock.State, n: nat)
    requires !s.writing && Seqlock.WellFormed(s.mem)
    ensures Seqlock.Run(s, Sections(n)) == s.(count := s.count + 2 * n)
  {
    if n == 0 {
    } else {
      ManySections(s, n - 1);
      Seqlock.RunConcat(s, Sections(n - 1), [Seqlock.Claim, Seqlock.Finish]);
      OneSection(s.(count := s.count + 2 * (n - 1)));
    }
  }

  /** The reader begins on an empty list, and the writer adds one entry. */
  ghost function FirstSection(mem: Seqlock.Memory): seq<Seqlock.Action> {
    [Seqlock.Begin, Seqlock.Head, Seqlock.Claim, Seqlock.Store(mem), Seqlock.Finish]
  }

  lemma EntryAdded(mem: Seqlock.Memory, uni: nat)
    requires Seqlock.WellFormed(mem)
    ensures var empty := Subscribers.Answer([], 0);
      var s0 := Seqlock.State(Seqlock.Memory(0, map[]), 0, false, Seqlock.Outside, 0, uni, 1);
      && Seqlock.Initial(s0)
      && Seqlock.Run(s0, FirstSection(mem)) == Seqlock.State(mem, 2, false, Seqlock.Walking(0, 0, empty), 0, uni, 1)
  {
    var s0 := Seqlock.State(Seqlock.Memory(0, map[]), 0, false, Seqlock.Outside, 0, uni, 1);
    assert Seqlock.IsList(s0.mem, s0.mem.first, []);
    var claimed := [Seqlock.Begin, Seqlock.Head, Seqlock.Claim];
    Seqlock.Continued(s0, [], Seqlock.Begin, [Seqlock.Begin]);
    Seqlock.Continued(s0, [Seqlock.Begin], Seqlock.Head, [Seqlock.Begin, Seqlock.Head]);
    Seqlock.Continued(s0, [Seqlock.Begin, Seqlock.Head], Seqlock.Claim, claimed);
    Seqlock.Continued(s0, claimed, Seqlock.Store(mem), claimed + [Seqlock.Store(mem)]);
    Seqlock.Continued(s0, claimed + [Seqlock.Store(mem)], Seqlock.Finish, FirstSection(mem));
  }

  /** Seqlock.CheckSeesResidueOnly: a run of 2^31 write sections while a reader is between two of
      its steps. The counter then looks as it did, and the reader returns that nobody subscribes,
      although the list has had a subscriber since the first section. */
  lemma WrappedCounter(e: Subscribers.Entry, uni: nat)
    requires Subscribers.Subscribes(e.info, uni)
    ensures var mem := Seqlock.Memory(1, map[1 := Seqlock.Cell(e, 0)]);
      var s0 := Seqlock.State(Seqlock.Memory(0, map[]), 0, false, Seqlock.Outside, 0, uni, 1);
      var t := Seqlock.Run(s0, FirstSection(mem) + Sections(TWO_TO_THE_31 - 1));
      && Seqlock.Initial(s0) && t.mem == mem && Seqlock.IsList(mem, 1, [1]) && !t.writing
      && Seqlock.Step(t, Seqlock.Check).reader == Seqlock.Returned(Subscribers.Answer([], 0))
      && Subscribers.Query(Seqlock.Contents(mem, [1]), uni, 1) != Subscribers.Answer([], 0)
  {
    var mem := Seqlock.Memory(1, map[1 := Seqlock.Cell(e, 0)]);
    var s0 := Seqlock.State(Seqlock.Memory(0, map[]), 0, false, Seqlock.Outside, 0, uni, 1);
    assert Seqlock.IsList(mem, 0, []);
    assert [1][1..] == [];
    assert Seqlock.IsList(mem, 1, [1]);
    EntryAdded(mem, uni);
    Seqlock.RunConcat(s0, FirstSection(mem), Sections(TWO_TO_THE_31 - 1));
    ManySections(Seqlock.Run(s0, FirstSection(mem)), TWO_TO_THE_31 - 1);
    assert Seqlock.Contents(mem, [1]) == [e] && [e][..0] == [];
  }

  /** Addressing.SubnetInRange: the setter promises to use the low four bits. The node holds, and
      reports, all of them. */
  lemma SubnetStoredWhole(nodeType: Addressing.NodeType, bindIndex: Byte, types: Subscribers.Quad)
    ensures var c := Addressing.SetSubnetAddr(Addressing.NewConfig(nodeType, bindIndex), 0x15);
      c.sub.value == 0x15 && Discovery.PollReply(c, types).subSwitch == 0x15
  {
  }

  /** Codec.NzsRoundTrip: the library sends what its own receiver refuses. */
  lemma BareVlcRefused(inputs: seq<Codec.Input>)
    requires |inputs| == Codec.MAX_PORTS
    ensures var built := Codec.BuildNzs(Codec.Sender(true, Codec.RawNode, inputs, false), 0, Codec.VLC_START_CODE, 1, [0]);
      built.Built? && Codec.Parse(Codec.Receive(built.bytes)) == None
  {
    Codec.NzsRoundTrip(Codec.Sender(true, Codec.RawNode, inputs, false), 0, Codec.VLC_START_CODE, 1, [0]);
  }

  /** TodData.Numbering: with 51201 entries there are two packets number 0. */
  lemma BlockNumberWraps(bytes: seq<Byte>)
    requires |bytes| >= Tods.UID_BYTES * 51201
    ensures var blocks := TodData.Blocks(bytes, 51201);
      |blocks| == 257 && blocks[0].blockCount == blocks[256].blockCount == 0
  {
  }
}
