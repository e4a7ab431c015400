/** What two-source merging achieves over whole runs of a port. */
module MergeProofs {
  import opened Common
  import opened Ports

  // ----- the two slots -----

  /** What the branches of handle_dmx do to the slots, the buffers left aside. */
  function Place(s: Sources, c: Case, source: Slot): Sources {
    match c
    case FirstPacket => s.(a := source)
    case ContinueA => s.(a := s.a.(time := source.time))
    case ContinueB => s.(b := s.b.(time := source.time))
    case StartB => s.(b := source, merging := true)
    case StartA => s.(a := source, merging := true)
    case MergeA => s.(a := s.a.(time := source.time))
    case MergeB => s.(b := s.b.(time := source.time))
    case _ => s
  }

  function SourcesStep(s: Sources, m: Moment): Sources {
    match m.action
    case Dmx(from, physical, frame) =>
      var source := Slot(from, physical, m.now);
      if s.cancelPending then Sources(source, EMPTY, false, false)
      else Place(Expire(s, m.now), CaseOf(s.a, s.b, from, physical), source)
    case Cancel => if s.merging then s.(cancelPending := true) else s
    case Redirect => NO_SOURCES
    case _ => s
  }

  predicate Alone(c: Case) { c.FirstPacket? || c.ContinueA? || c.ContinueB? }

  predicate Merges(c: Case) { c.StartA? || c.StartB? || c.MergeA? || c.MergeB? }

  predicate IntoA(c: Case) { c.FirstPacket? || c.ContinueA? || c.StartA? || c.MergeA? }

  predicate IntoB(c: Case) { c.ContinueB? || c.StartB? || c.MergeB? }

  /** Where a produced frame goes: to the sync buffer in sync mode, to the output otherwise. */
  function Produced(p: Port, sync: bool): seq<Byte> {
    if sync then p.staged.Content() else p.live.Content()
  }

  lemma StageEffect(p: Port, sync: bool, frame: Payload)
    ensures var p' := Stage(p, sync, frame);
      && p'.sources == p.sources && p'.dataA == p.dataA && p'.dataB == p.dataB && p'.mode == p.mode && p'.scene == p.scene
      && Produced(p', sync) == frame
      && (sync ==> p'.live == p.live && p'.syncPending)
  {
  }

  lemma MergeEffect(p: Port, sync: bool, n: Length, latest: Frame)
    ensures var p' := Merge(p, sync, n, latest);
      && p'.sources == p.sources && p'.dataA == p.dataA && p'.dataB == p.dataB && p'.mode == p.mode && p'.scene == p.scene
      && Produced(p', sync) == (if p.mode == Htp then Highest(p.dataA, p.dataB, n) else latest[..n])
      && p'.syncPending == sync && (sync ==> p'.live == p.live)
  {
  }

  /** What a branch does: to the slots, to the two input buffers, and to the output. */
  ghost predicate Effect(p: Port, p': Port, c: Case, sync: bool, source: Slot, frame: Payload) {
    && p'.sources == Place(p.sources, c, source)
    && p'.mode == p.mode && p'.scene == p.scene
    && p'.dataA == (if IntoA(c) then Blit(p.dataA, frame) else p.dataA)
    && p'.dataB == (if IntoB(c) then Blit(p.dataB, frame) else p.dataB)
    && (sync ==> p'.live == p.live)
    && (Alone(c) ==> Produced(p', sync) == frame && (sync ==> p'.syncPending))
    && (Merges(c) ==>
          && Produced(p', sync) == (if p.mode == Htp then Highest(p'.dataA, p'.dataB, |frame|) else frame)
          && p'.syncPending == sync)
    && (!Alone(c) && !Merges(c) ==>
          p'.live == p.live && p'.staged == p.staged && p'.syncPending == p.syncPending)
  }

  lemma OnlyEffect(p: Port, c: Case, sync: bool, from: Address, physical: Byte, frame: Payload, now: int)
    requires Alone(c)
    ensures Effect(p, Accept(p, c, sync, from, physical, frame, now), c, sync, Slot(from, physical, now), frame)
  {
    var source := Slot(from, physical, now);
    match c
    case FirstPacket => StageEffect(PutA(p, source, frame), sync, frame);
    case ContinueA => StageEffect(PutA(p, p.sources.a.(time := now), frame), sync, frame);
    case ContinueB => StageEffect(PutB(p, p.sources.b.(time := now), frame), sync, frame);
  }

  lemma MergeIntoAEffect(p: Port, source: Slot, sync: bool, frame: Payload, merging: bool)
    ensures var p' := MergeIntoA(p, source, sync, frame, merging);
      && p'.sources == p.sources.(a := source, merging := merging)
      && p'.dataA == Blit(p.dataA, frame) && p'.dataB == p.dataB && p'.mode == p.mode && p'.scene == p.scene
      && Produced(p', sync) == (if p.mode == Htp then Highest(p'.dataA, p'.dataB, |frame|) else frame)
      && p'.syncPending == sync && (sync ==> p'.live == p.live)
  {
    var p1 := PutA(p, source, frame);
    MergeEffect(p1.(sources := p1.sources.(merging := merging)), sync, |frame|, p1.dataA);
  }

  lemma MergeIntoBEffect(p: Port, source: Slot, sync: bool, frame: Payload, merging: bool)
    ensures var p' := MergeIntoB(p, source, sync, frame, merging);
      && p'.sources == p.sources.(b := source, merging := merging)
      && p'.dataA == p.dataA && p'.dataB == Blit(p.dataB, frame) && p'.mode == p.mode && p'.scene == p.scene
      && Produced(p', sync) == (if p.mode == Htp then Highest(p'.dataA, p'.dataB, |frame|) else frame)
      && p'.syncPending == sync && (sync ==> p'.live == p.live)
  {
    var p1 := PutB(p, source, frame);
    MergeEffect(p1.(sources := p1.sources.(merging := merging)), sync, |frame|, p1.dataB);
  }

  lemma StartsEffect(p: Port, c: Case, sync: bool, from: Address, physical: Byte, frame: Payload, now: int)
    requires c.StartA? || c.StartB?
    ensures Effect(p, Accept(p, c, sync, from, physical, frame, now), c, sync, Slot(from, physical, now), frame)
  {
    if c.StartA? {
      MergeIntoAEffect(p, Slot(from, physical, now), sync, frame, true);
    } else {
      MergeIntoBEffect(p, Slot(from, physical, now), sync, frame, true);
    }
  }

  lemma MergesEffect(p: Port, c: Case, sync: bool, from: Address, physical: Byte, frame: Payload, now: int)
    requires c.MergeA? || c.MergeB?
    ensures Effect(p, Accept(p, c, sync, from, physical, frame, now), c, sync, Slot(from, physical, now), frame)
  {
    if c.MergeA? {
      MergeIntoAEffect(p, p.sources.a.(time := now), sync, frame, p.sources.merging);
    } else {
      MergeIntoBEffect(p, p.sources.b.(time := now), sync, frame, p.sources.merging);
    }
  }

  lemma AbsorbEffect(p: Port, sync: bool, from: Address, physical: Byte, frame: Payload, now: int)
    ensures Effect(p.(sources := Expire(p.sources, now)), Absorb(p, sync, from, physical, frame, now),
                   CaseOf(p.sources.a, p.sources.b, from, physical), sync, Slot(from, physical, now), frame)
  {
    var c, p1 := CaseOf(p.sources.a, p.sources.b, from, physical), p.(sources := Expire(p.sources, now));
    if Alone(c) {
      OnlyEffect(p1, c, sync, from, physical, frame, now);
    } else if c.StartA? || c.StartB? {
      StartsEffect(p1, c, sync, from, physical, frame, now);
    } else if Merges(c) {
      MergesEffect(p1, c, sync, from, physical, frame, now);
    }
  }

  /** The slots never depend on the buffers. */
  lemma SourcesAlone(p: Port, m: Moment)
    ensures PortStep(p, m).sources == SourcesStep(p.sources, m)
  {
    match m.action
    case Dmx(from, physical, frame) => AbsorbEffect(p, m.sync, from, physical, frame, m.now);
    case _ =>
  }

  function SourcesRun(s: Sources, ms: seq<Moment>): Sources
    decreases |ms|
  {
    if ms == [] then s else SourcesStep(SourcesRun(s, ms[..|ms| - 1]), ms[|ms| - 1])
  }

  lemma {:induction false} SourcesRunAlone(p: Port, ms: seq<Moment>)
    ensures PortRun(p, ms).sources == SourcesRun(p.sources, ms)
    decreases |ms|
  {
    if ms == [] {
    } else {
      SourcesRunAlone(p, ms[..|ms| - 1]);
      SourcesAlone(PortRun(p, ms[..|ms| - 1]), ms[|ms| - 1]);
    }
  }

  predicate BothHeld(s: Sources) { !s.a.Free() && !s.b.Free() }

  /** Two held slots name two sources, and holding two means merging. */
  predicate SlotInvariant(s: Sources) {
    BothHeld(s) ==> !s.b.Is(s.a.ip, s.a.physical) && s.merging
  }

  predicate KnownSource(m: Moment) { m.action.Dmx? ==> m.action.from != 0 }

  lemma SlotInvariantStep(s: Sources, m: Moment)
    requires SlotInvariant(s) && KnownSource(m)
    ensures SlotInvariant(SourcesStep(s, m))
  {
  }

  lemma {:induction false} SlotInvariantHolds(ms: seq<Moment>)
    requires forall m <- ms :: KnownSource(m)
    ensures SlotInvariant(SourcesRun(NO_SOURCES, ms))
    decreases |ms|
  {
    if ms == [] {
    } else {
      SlotInvariantHolds(ms[..|ms| - 1]);
      SlotInvariantStep(SourcesRun(NO_SOURCES, ms[..|ms| - 1]), ms[|ms| - 1]);
    }
  }

  /** In every reachable state, whatever packets, commands and timers led to it, two held slots
      name two sources and the port is merging; so the two branches of handle_dmx that do
      nothing by design are never taken. */
  lemma SlotInvariantRun(ms: seq<Moment>, from: Address, physical: Byte)
    requires (forall m <- ms :: KnownSource(m)) && from != 0
    ensures var s := PortRun(NEW_PORT, ms).sources;
      SlotInvariant(s) && !CaseOf(s.a, s.b, from, physical).MatchesBoth? && !CaseOf(s.a, s.b, from, physical).NoCase?
  {
    SourcesRunAlone(NEW_PORT, ms);
    SlotInvariantHolds(ms);
  }

  /** Sources are told apart by address and Physical field. */
  type Source = (Address, Byte)

  function Name(s: Slot): Source { (s.ip, s.physical) }

  /** When this source last sent the port a packet. */
  function LastSent(ms: seq<Moment>, source: Source): Option<int>
    decreases |ms|
  {
    if ms == [] then None
    else
      var m := ms[|ms| - 1];
      if m.action.Dmx? && m.action.from == source.0 && m.action.physical == source.1 then Some(m.now)
      else LastSent(ms[..|ms| - 1], source)
  }

  /** The time in a held slot is that of the last packet of its source. */
  predicate Timed(s: Sources, ms: seq<Moment>) {
    && (!s.a.Free() ==> LastSent(ms, Name(s.a)) == Some(s.a.time))
    && (!s.b.Free() ==> LastSent(ms, Name(s.b)) == Some(s.b.time))
  }

  lemma SentNext(ms: seq<Moment>, m: Moment, source: Source)
    ensures LastSent(ms + [m], source) ==
      if m.action.Dmx? && (m.action.from, m.action.physical) == source then Some(m.now) else LastSent(ms, source)
  {
    assert (ms + [m])[..|ms|] == ms;
  }

  lemma TimedStep(s: Sources, ms: seq<Moment>, m: Moment)
    requires SlotInvariant(s) && KnownSource(m) && Timed(s, ms)
    ensures Timed(SourcesStep(s, m), ms + [m])
  {
    var s' := SourcesStep(s, m);
    SentNext(ms, m, Name(s'.a));
    SentNext(ms, m, Name(s'.b));
  }

  lemma {:induction false} TimedRun(ms: seq<Moment>)
    requires forall m <- ms :: KnownSource(m)
    ensures Timed(SourcesRun(NO_SOURCES, ms), ms)
    decreases |ms|
  {
    if ms == [] {
    } else {
      var before := ms[..|ms| - 1];
      TimedRun(before);
      SlotInvariantHolds(before);
      TimedStep(SourcesRun(NO_SOURCES, before), before, ms[|ms| - 1]);
      assert ms == before + [ms[|ms| - 1]];
    }
  }

  /** A held source is dropped while this packet is handled. */
  predicate ExpiresNow(s: Sources, m: Moment) {
    m.action.Dmx? && ((!s.a.Free() && s.a.Old(m.now)) || (!s.b.Free() && s.b.Old(m.now)))
  }

  /** The merge bit says exactly that both slots are held. */
  predicate MergeBitExact(s: Sources) { s.merging <==> BothHeld(s) }

  /** The one way for the bit to go wrong: a packet from another source arrives when the only
      held source has just gone stale. Only the newcomer is held afterwards, yet the port says it
      is merging. */
  predicate JoinsStaleSource(s: Sources, m: Moment) {
    && m.action.Dmx? && !s.cancelPending
    && ((s.b.Free() && !s.a.Free() && s.a.Old(m.now) && !s.a.Is(m.action.from, m.action.physical))
        || (s.a.Free() && !s.b.Free() && s.b.Old(m.now) && !s.b.Is(m.action.from, m.action.physical)))
  }

  lemma MergeBitStep(s: Sources, m: Moment)
    requires SlotInvariant(s) && MergeBitExact(s) && KnownSource(m)
    ensures MergeBitExact(SourcesStep(s, m)) <==> !JoinsStaleSource(s, m)
  {
  }

  ghost predicate NeverJoinsStale(s: Sources, ms: seq<Moment>)
    decreases |ms|
  {
    ms == [] || (NeverJoinsStale(s, ms[..|ms| - 1]) && !JoinsStaleSource(SourcesRun(s, ms[..|ms| - 1]), ms[|ms| - 1]))
  }

  /** On runs without that, which includes all runs where no source expires while a packet is
      handled, the bit is exact. */
  lemma {:induction false} MergeBitRun(ms: seq<Moment>)
    requires (forall m <- ms :: KnownSource(m)) && NeverJoinsStale(NO_SOURCES, ms)
    ensures MergeBitExact(PortRun(NEW_PORT, ms).sources)
    decreases |ms|
  {
    SourcesRunAlone(NEW_PORT, ms);
    if ms == [] {
    } else {
      var before := ms[..|ms| - 1];
      MergeBitRun(before);
      SourcesRunAlone(NEW_PORT, before);
      SlotInvariantHolds(before);
      MergeBitStep(SourcesRun(NO_SOURCES, before), ms[|ms| - 1]);
    }
  }

  lemma JoiningNeedsExpiry(s: Sources, m: Moment)
    ensures JoinsStaleSource(s, m) ==> ExpiresNow(s, m)
  {
  }

  // ----- the frame that comes out -----

  /** The meaning of merging: the latest frame of each of at most two sources, and whether the port
      says that it is merging. */
  datatype Meaning = Meaning(frames: map<Source, seq<Byte>>, mode: MergeMode, cancel: bool, merging: bool)

  const NOTHING_HELD := Meaning(map[], Htp, false, false)

  predicate Admits(s: Meaning, source: Source) {
    source in s.frames || |s.frames| < 2
  }

  /** The sources that have sent a packet in the last 10 seconds. */
  function Recent(frames: map<Source, seq<Byte>>, before: seq<Moment>, now: int): map<Source, seq<Byte>> {
    map k | k in frames && LastSent(before, k).Some? && now - LastSent(before, k).value <= 10000 :: frames[k]
  }

  /** A packet drops the sources that have been silent for too long, its own included, which then
      starts anew with its next packet. Otherwise it updates its own frame when it is admitted, and
      that is decided on the sources held before any was dropped. */
  function DmxMeaning(s: Meaning, before: seq<Moment>, source: Source, frame: seq<Byte>, now: int): Meaning {
    var recent := Recent(s.frames, before, now);
    var joins := source !in s.frames && |s.frames| < 2;
    if s.cancel then Meaning(map[source := frame], s.mode, false, false)
    else
      Meaning(if joins || source in recent then recent[source := frame] else recent, s.mode, false,
              (s.merging && !(|s.frames| == 2 && recent != s.frames)) || (joins && |s.frames| == 1))
  }

  function MeaningStep(s: Meaning, before: seq<Moment>, m: Moment): Meaning {
    match m.action
    case Dmx(from, physical, frame) => DmxMeaning(s, before, (from, physical), frame, m.now)
    case SetMode(mode) => s.(mode := mode)
    case Cancel => s.(cancel := s.cancel || s.merging)
    case Redirect => Meaning(map[], s.mode, false, false)
    case _ => s
  }

  /** The meaning of a run, from the packets and commands in it. */
  function MeaningRun(ms: seq<Moment>): Meaning
    decreases |ms|
  {
    if ms == [] then NOTHING_HELD else MeaningStep(MeaningRun(ms[..|ms| - 1]), ms[..|ms| - 1], ms[|ms| - 1])
  }

  /** With no source silent for too long it is the plain update of a map. */
  lemma NothingDropped(s: Meaning, before: seq<Moment>, source: Source, frame: seq<Byte>, now: int)
    requires !s.cancel && forall k | k in s.frames :: LastSent(before, k).Some? && now - LastSent(before, k).value <= 10000
    ensures DmxMeaning(s, before, source, frame, now).frames == if Admits(s, source) then s.frames[source := frame] else s.frames
  {
    assert Recent(s.frames, before, now) == s.frames;
  }

  /** What an admitted packet puts out: the frame itself when its source is alone; otherwise the
      channel-wise maximum of all latest frames (HTP), or the newest frame (LTP). */
  ghost predicate Produces(s: Meaning, source: Source, frame: seq<Byte>, out: seq<Byte>) {
    var frames := s.frames[source := frame];
    && |out| == |frame|
    && (|frames| == 1 || s.mode == Ltp ==> out == frame)
    && (|frames| != 1 && s.mode == Htp ==> forall c | 0 <= c < |out| :: IsHighest(frames, c, out[c]))
  }

  ghost predicate IsHighest(frames: map<Source, seq<Byte>>, c: nat, level: Byte) {
    && (forall k | k in frames && c < |frames[k]| :: frames[k][c] <= level)
    && (exists k :: k in frames && c < |frames[k]| && frames[k][c] == level)
  }

  function Names(s: Sources): set<Source> {
    (if s.a.Free() then {} else {Name(s.a)}) + if s.b.Free() then {} else {Name(s.b)}
  }

  /** The buffer of each held slot starts with the latest frame of its source; what an earlier,
      longer frame left behind it is still there. */
  ghost predicate HoldFrames(s: Sources, dataA: Frame, dataB: Frame, frames: map<Source, seq<Byte>>) {
    && frames.Keys == Names(s)
    && (!s.a.Free() ==> frames[Name(s.a)] <= dataA)
    && (!s.b.Free() ==> frames[Name(s.b)] <= dataB)
  }

  ghost predicate Represents(p: Port, s: Meaning) {
    && HoldFrames(p.sources, p.dataA, p.dataB, s.frames)
    && s.mode == p.mode && s.cancel == p.sources.cancelPending && s.merging == p.sources.merging
  }

  lemma Cardinality<K, V>(m: map<K, V>, keys: set<K>)
    requires m.Keys == keys
    ensures |m| == |keys|
  {
  }

  lemma HowMany(s: Sources, frames: map<Source, seq<Byte>>)
    requires SlotInvariant(s) && frames.Keys == Names(s)
    ensures |frames| == (if s.a.Free() then 0 else 1) + (if s.b.Free() then 0 else 1)
  {
    Cardinality(frames, Names(s));
    if BothHeld(s) {
      assert Name(s.a) != Name(s.b);
    }
  }

  lemma Updated(frames: map<Source, seq<Byte>>, source: Source, frame: seq<Byte>)
    ensures |(frames[source := frame])| == |frames| + (if source in frames then 0 else 1)
  {
    var frames' := frames[source := frame];
    Cardinality(frames', frames.Keys + {source});
  }

  /** Which branch the source of a packet selects, in terms of the frames held. */
  lemma CaseMeaning(s: Sources, frames: map<Source, seq<Byte>>, from: Address, physical: Byte, frame: seq<Byte>)
    requires SlotInvariant(s) && from != 0
    requires frames.Keys == Names(s)
    ensures var c, source, after := CaseOf(s.a, s.b, from, physical), (from, physical), |(frames[(from, physical) := frame])|;
      && (Alone(c) <==> after == 1)
      && (Merges(c) <==> after == 2)
      && (c.ThirdSource? <==> !(source in frames || |frames| < 2))
      && (Alone(c) || Merges(c) || c.ThirdSource?)
  {
    HowMany(s, frames);
    Updated(frames, (from, physical), frame);
  }

  /** Expiry drops the sources that are not recent. */
  lemma ExpireFrames(s: Sources, dataA: Frame, dataB: Frame, frames: map<Source, seq<Byte>>, before: seq<Moment>, now: int)
    requires SlotInvariant(s) && HoldFrames(s, dataA, dataB, frames) && Timed(s, before)
    ensures var s' := Expire(s, now);
      && HoldFrames(s', dataA, dataB, Recent(frames, before, now))
      && s'.merging == (s.merging && !(|frames| == 2 && Recent(frames, before, now) != frames))
  {
    HowMany(s, frames);
    var s', recent := Expire(s, now), Recent(frames, before, now);
    assert !s.a.Free() ==> (Name(s.a) in recent <==> !s.a.Old(now));
    assert !s.b.Free() ==> (Name(s.b) in recent <==> !s.b.Old(now));
    assert recent != frames ==> recent.Keys != frames.Keys by {
      assert forall k | k in recent :: recent[k] == frames[k];
    }
  }

  /** The packet then takes its place among what is left. */
  lemma PlaceFrames(s: Sources, dataA: Frame, dataB: Frame, frames: map<Source, seq<Byte>>, recent: map<Source, seq<Byte>>, source: Slot, frame: Payload)
    requires SlotInvariant(s) && !source.Free() && frames.Keys == Names(s)
    requires HoldFrames(Expire(s, source.time), dataA, dataB, recent)
    ensures var c := CaseOf(s.a, s.b, source.ip, source.physical);
      var joins := Name(source) !in frames && !c.ThirdSource?;
      HoldFrames(Place(Expire(s, source.time), c, source), if IntoA(c) then Blit(dataA, frame) else dataA, if IntoB(c) then Blit(dataB, frame) else dataB,
                 if joins || Name(source) in recent then recent[Name(source) := frame] else recent)
  {
  }

  lemma BitMeaning(s: Sources, frames: map<Source, seq<Byte>>, recent: map<Source, seq<Byte>>, source: Slot, frame: Payload)
    requires SlotInvariant(s) && !source.Free() && frames.Keys == Names(s)
    requires Expire(s, source.time).merging == (s.merging && !(|frames| == 2 && recent != frames))
    ensures Place(Expire(s, source.time), CaseOf(s.a, s.b, source.ip, source.physical), source).merging ==
      ((s.merging && !(|frames| == 2 && recent != frames)) || (Name(source) !in frames && |frames| == 1))
  {
    HowMany(s, frames);
  }

  /** What a packet does to the slots and input buffers is what it means. */
  lemma SourcesMeaning(s: Sources, dataA: Frame, dataB: Frame, st: Meaning, before: seq<Moment>, source: Slot, frame: Payload)
    requires SlotInvariant(s) && !source.Free() && HoldFrames(s, dataA, dataB, st.frames) && Timed(s, before)
    requires !st.cancel && st.merging == s.merging
    ensures var c, st' := CaseOf(s.a, s.b, source.ip, source.physical), DmxMeaning(st, before, Name(source), frame, source.time);
      var s' := Place(Expire(s, source.time), c, source);
      && HoldFrames(s', if IntoA(c) then Blit(dataA, frame) else dataA, if IntoB(c) then Blit(dataB, frame) else dataB, st'.frames)
      && s'.merging == st'.merging
  {
    var recent := Recent(st.frames, before, source.time);
    ExpireFrames(s, dataA, dataB, st.frames, before, source.time);
    BitMeaning(s, st.frames, recent, source, frame);
    ThirdMeaning(s, st.frames, source);
    PlaceFrames(s, dataA, dataB, st.frames, recent, source, frame);
  }

  lemma ThirdMeaning(s: Sources, frames: map<Source, seq<Byte>>, source: Slot)
    requires SlotInvariant(s) && !source.Free() && frames.Keys == Names(s)
    ensures CaseOf(s.a, s.b, source.ip, source.physical).ThirdSource? <==> Name(source) !in frames && |frames| >= 2
  {
    HowMany(s, frames);
  }

  lemma AbsorbedMeaning(p: Port, s: Meaning, before: seq<Moment>, m: Moment)
    requires SlotInvariant(p.sources) && m.action.Dmx? && KnownSource(m) && Represents(p, s) && Timed(p.sources, before) && !s.cancel
    ensures Represents(PortStep(p, m), MeaningStep(s, before, m))
  {
    var (from, physical, frame) := (m.action.from, m.action.physical, m.action.frame);
    AbsorbEffect(p, m.sync, from, physical, frame, m.now);
    NotCancelled(p, m);
    SourcesMeaning(p.sources, p.dataA, p.dataB, s, before, Slot(from, physical, m.now), frame);
  }

  lemma CancelStep(p: Port, m: Moment)
    requires m.action.Dmx? && p.sources.cancelPending
    ensures var p' := PortStep(p, m);
      && p'.sources == Sources(Slot(m.action.from, m.action.physical, m.now), Slot(0, 0, 0), false, false)
      && p'.dataB == Level(0) && m.action.frame <= p'.dataA && p'.mode == p.mode
  {
    var (from, physical, frame) := (m.action.from, m.action.physical, m.action.frame);
    AbsorbEffect(p, m.sync, from, physical, frame, m.now);
  }

  lemma CancelledMeaning(p: Port, s: Meaning, before: seq<Moment>, m: Moment)
    requires m.action.Dmx? && KnownSource(m) && Represents(p, s) && s.cancel
    ensures Represents(PortStep(p, m), MeaningStep(s, before, m))
  {
    CancelStep(p, m);
  }

  lemma NotCancelled(p: Port, m: Moment)
    requires m.action.Dmx? && !p.sources.cancelPending
    ensures var p1, p' := Absorb(p, m.sync, m.action.from, m.action.physical, m.action.frame, m.now), PortStep(p, m);
      p'.sources == p1.sources && p'.dataA == p1.dataA && p'.dataB == p1.dataB && p'.mode == p1.mode
  {
    AbsorbEffect(p, m.sync, m.action.from, m.action.physical, m.action.frame, m.now);
  }

  lemma EndMergeOutput(p: Port, from: Address, physical: Byte, frame: Payload, now: int)
    ensures var p' := EndMerge(p, from, physical, frame, now);
      p'.live == p.live && p'.staged == p.staged && p'.syncPending == p.syncPending && p'.scene == p.scene
  {
  }

  lemma TickInputs(p: Port, failsafe: Failsafe, syncExpired: bool, now: int)
    ensures var p' := Tick(p, failsafe, syncExpired, now);
      p'.dataA == p.dataA && p'.dataB == p.dataB && p'.mode == p.mode
  {
  }

  lemma QuietInputs(p: Port, m: Moment)
    requires !m.action.Dmx?
    ensures var p' := PortStep(p, m);
      p'.dataA == p.dataA && p'.dataB == p.dataB && p'.mode == if m.action.SetMode? then m.action.mode else p.mode
  {
    if m.action.Timers? {
      TickInputs(p, m.action.failsafe, m.action.syncExpired, m.now);
    }
  }

  lemma QuietMeaning(p: Port, s: Meaning, before: seq<Moment>, m: Moment)
    requires !m.action.Dmx? && Represents(p, s)
    ensures Represents(PortStep(p, m), MeaningStep(s, before, m))
  {
    QuietInputs(p, m);
    SourcesAlone(p, m);
  }

  /** One step of a port is one step of its meaning. */
  lemma MeaningStepHolds(p: Port, s: Meaning, before: seq<Moment>, m: Moment)
    requires SlotInvariant(p.sources) && KnownSource(m) && Represents(p, s) && Timed(p.sources, before)
    ensures Represents(PortStep(p, m), MeaningStep(s, before, m))
  {
    if m.action.Dmx? && s.cancel {
      CancelledMeaning(p, s, before, m);
    } else if m.action.Dmx? {
      AbsorbedMeaning(p, s, before, m);
    } else {
      QuietMeaning(p, s, before, m);
    }
  }

  /** What an earlier frame left in the buffer of the other source, behind its latest frame, is no
      higher than the new frame. */
  predicate TailLow(frame: seq<Byte>, other: seq<Byte>, otherData: Frame)
    requires |frame| <= DMX_LENGTH
  {
    forall i | |other| <= i < |frame| :: otherData[i] <= frame[i]
  }

  /** On one channel the merge stage agrees with the frames unless it picks up a leftover. */
  lemma OneChannel(frames: map<Source, seq<Byte>>, source: Source, other: Source, data: Frame, otherData: Frame, i: nat, level: Byte)
    requires source != other && frames.Keys == {source, other} && frames[source] <= data && frames[other] <= otherData
    requires i < |frames[source]| && level == if data[i] > otherData[i] then data[i] else otherData[i]
    ensures IsHighest(frames, i, level) <==> i < |frames[other]| || otherData[i] <= frames[source][i]
  {
    assert frames[source][i] == data[i];
    assert i < |frames[other]| ==> frames[other][i] == otherData[i];
    assert source in frames && other in frames;
  }

  lemma HighestOfBoth(frames: map<Source, seq<Byte>>, source: Source, other: Source, data: Frame, otherData: Frame, out: seq<Byte>)
    requires source != other && frames.Keys == {source, other} && frames[source] <= data && frames[other] <= otherData
    requires |out| == |frames[source]|
    requires forall i | 0 <= i < |out| :: out[i] == if data[i] > otherData[i] then data[i] else otherData[i]
    ensures (forall i | 0 <= i < |out| :: IsHighest(frames, i, out[i])) <==> TailLow(frames[source], frames[other], otherData)
  {
    forall i | 0 <= i < |out|
      ensures IsHighest(frames, i, out[i]) <==> i < |frames[other]| || otherData[i] <= frames[source][i]
    {
      OneChannel(frames, source, other, data, otherData, i, out[i]);
    }
  }

  function OtherSlot(s: Sources, c: Case): Slot { if IntoA(c) then s.b else s.a }

  /** The buffer of the other source, for a packet that is merged. */
  function OtherData(p: Port, c: Case): Frame { if IntoA(c) then p.dataB else p.dataA }

  /** Does the packet meet no leftovers that matter? */
  ghost predicate TailsAgree(p: Port, s: Meaning, m: Moment)
    requires m.action.Dmx?
  {
    var c := CaseOf(p.sources.a, p.sources.b, m.action.from, m.action.physical);
    var other := Name(OtherSlot(p.sources, c));
    Merges(c) && p.mode == Htp && other in s.frames ==> TailLow(m.action.frame, s.frames[other], OtherData(p, c))
  }

  /** Which frames a merged packet meets. */
  lemma MergedFrames(p: Port, s: Meaning, m: Moment)
    requires SlotInvariant(p.sources) && m.action.Dmx? && KnownSource(m) && Represents(p, s)
    requires Merges(CaseOf(p.sources.a, p.sources.b, m.action.from, m.action.physical))
    ensures var source, other := (m.action.from, m.action.physical), Name(OtherSlot(p.sources, CaseOf(p.sources.a, p.sources.b, m.action.from, m.action.physical)));
      && source != other && other in s.frames && s.frames[source := m.action.frame].Keys == {source, other}
  {
  }

  /** What the merge stage puts out is what the frames then held call for, exactly when no
      leftovers reach it. */
  lemma MergedOutput(p: Port, s: Meaning, m: Moment, out: seq<Byte>)
    requires SlotInvariant(p.sources) && m.action.Dmx? && KnownSource(m) && Represents(p, s)
    requires var c, frame := CaseOf(p.sources.a, p.sources.b, m.action.from, m.action.physical), m.action.frame;
      && Merges(c)
      && out == if p.mode == Ltp then frame
                else if IntoA(c) then Highest(Blit(p.dataA, frame), p.dataB, |frame|) else Highest(p.dataA, Blit(p.dataB, frame), |frame|)
    ensures Produces(s, (m.action.from, m.action.physical), m.action.frame, out) <==> TailsAgree(p, s, m)
  {
    var c, frame := CaseOf(p.sources.a, p.sources.b, m.action.from, m.action.physical), m.action.frame;
    var source, other := (m.action.from, m.action.physical), Name(OtherSlot(p.sources, c));
    MergedFrames(p, s, m);
    Cardinality(s.frames[source := frame], {source, other});
    if p.mode == Htp {
      HighestOfBoth(s.frames[source := frame], source, other, Blit(if IntoA(c) then p.dataA else p.dataB, frame), OtherData(p, c), out);
    }
  }

  /** The frame an ArtDmx packet puts out is the one the meaning calls for; a third source puts
      out nothing and disturbs nothing. In sync mode the output itself is left alone. */
  ghost predicate FrameFits(s: Meaning, source: Source, m: Moment, p: Port, p': Port)
    requires m.action.Dmx?
  {
    && (m.sync ==> p'.live == p.live)
    && if Admits(s, source) then
         Produces(s, source, m.action.frame, Produced(p', m.sync)) && (m.sync ==> p'.syncPending)
       else
         p'.live == p.live && p'.staged == p.staged && p'.syncPending == p.syncPending
  }

  lemma AbsorbedFrame(p: Port, s: Meaning, m: Moment)
    requires SlotInvariant(p.sources) && KnownSource(m) && m.action.Dmx? && Represents(p, s)
    ensures var p1 := Absorb(p, m.sync, m.action.from, m.action.physical, m.action.frame, m.now);
      FrameFits(s, (m.action.from, m.action.physical), m, p, p1) <==> TailsAgree(p, s, m)
  {
    var (from, physical, frame) := (m.action.from, m.action.physical, m.action.frame);
    var c, p1 := CaseOf(p.sources.a, p.sources.b, from, physical), Absorb(p, m.sync, from, physical, frame, m.now);
    AbsorbEffect(p, m.sync, from, physical, frame, m.now);
    CaseMeaning(p.sources, s.frames, from, physical, frame);
    if Merges(c) {
      MergedOutput(p, s, m, Produced(p1, m.sync));
    }
  }

  lemma FrameProduced(p: Port, s: Meaning, m: Moment)
    requires SlotInvariant(p.sources) && KnownSource(m) && m.action.Dmx? && Represents(p, s)
    ensures FrameFits(s, (m.action.from, m.action.physical), m, p, PortStep(p, m)) <==> TailsAgree(p, s, m)
  {
    var (from, physical, frame) := (m.action.from, m.action.physical, m.action.frame);
    AbsorbedFrame(p, s, m);
    EndMergeOutput(Absorb(p, m.sync, from, physical, frame, m.now), from, physical, frame, m.now);
  }

  /** Over any run the port holds exactly the sources and latest frames of its meaning. */
  lemma {:induction false} MeaningOfRun(ms: seq<Moment>)
    requires forall m <- ms :: KnownSource(m)
    ensures Represents(PortRun(NEW_PORT, ms), MeaningRun(ms))
    ensures SlotInvariant(PortRun(NEW_PORT, ms).sources) && Timed(PortRun(NEW_PORT, ms).sources, ms)
    decreases |ms|
  {
    SourcesRunAlone(NEW_PORT, ms);
    SlotInvariantHolds(ms);
    TimedRun(ms);
    if ms == [] {
    } else {
      var before, m := ms[..|ms| - 1], ms[|ms| - 1];
      MeaningOfRun(before);
      assert m in ms;
      MeaningStepHolds(PortRun(NEW_PORT, before), MeaningRun(before), before, m);
    }
  }

  /** Merge refinement: after any run of packets of any lengths, commands, syncs and timers, the
      next packet puts out the frame that the map-based meaning of that run calls for, exactly
      unless it is merged highest-takes-precedence, is longer than the latest frame of the other
      source, and meets a higher level that an earlier frame left behind that one. */
  lemma MergeRefinement(ms: seq<Moment>, m: Moment)
    requires (forall k <- ms + [m] :: KnownSource(k)) && m.action.Dmx?
    ensures var p, s := PortRun(NEW_PORT, ms), MeaningRun(ms);
      FrameFits(s, (m.action.from, m.action.physical), m, p, PortRun(NEW_PORT, ms + [m])) <==> TailsAgree(p, s, m)
  {
    assert m in ms + [m];
    PortRunSnoc(NEW_PORT, ms, m);
    MeaningOfRun(ms);
    FrameProduced(PortRun(NEW_PORT, ms), MeaningRun(ms), m);
  }

  /** So it does for packets no longer than the latest frame of the other source. */
  lemma MergeOfCoveredFrames(ms: seq<Moment>, m: Moment)
    requires (forall k <- ms + [m] :: KnownSource(k)) && m.action.Dmx?
    requires var source, frames := (m.action.from, m.action.physical), MeaningRun(ms).frames;
      forall k | k in frames && k != source :: |m.action.frame| <= |frames[k]|
    ensures FrameFits(MeaningRun(ms), (m.action.from, m.action.physical), m, PortRun(NEW_PORT, ms), PortRun(NEW_PORT, ms + [m]))
  {
    assert m in ms + [m];
    MeaningOfRun(ms);
    MergeRefinement(ms, m);
    var p, s := PortRun(NEW_PORT, ms), MeaningRun(ms);
    if Merges(CaseOf(p.sources.a, p.sources.b, m.action.from, m.action.physical)) {
      MergedFrames(p, s, m);
    }
  }

  // ----- sources that go silent -----

  lemma HeldAreNotOld(p: Port, m: Moment)
    requires m.action.Dmx?
    ensures var s := PortStep(p, m).sources;
      (s.a.Free() || m.now - s.a.time <= 10000) && (s.b.Free() || m.now - s.b.time <= 10000)
  {
    SourcesAlone(p, m);
  }

  /** Over any run, when a packet has been handled, every source still held has sent a packet in
      the last 10 seconds. */
  lemma HeldAreFresh(ms: seq<Moment>, m: Moment, slot: Slot)
    requires (forall k <- ms + [m] :: KnownSource(k)) && m.action.Dmx?
    requires var s := PortRun(NEW_PORT, ms + [m]).sources; !slot.Free() && (slot == s.a || slot == s.b)
    ensures var last := LastSent(ms + [m], Name(slot)); last.Some? && m.now - last.value <= 10000
  {
    PortRunSnoc(NEW_PORT, ms, m);
    HeldAreNotOld(PortRun(NEW_PORT, ms), m);
    SourcesRunAlone(NEW_PORT, ms + [m]);
    TimedRun(ms + [m]);
  }

  // ----- the end of a cancelled merge -----

  /** The packet that ends a cancelled merge leaves nothing of the other source behind: the second
      input buffer is dark, so whatever joins next, it is merged with no leftovers there. */
  lemma CancelLeavesNothing(ms: seq<Moment>, m: Moment, c: nat)
    requires (forall k <- ms + [m] :: KnownSource(k)) && m.action.Dmx? && MeaningRun(ms).cancel && c < 512
    ensures var p := PortRun(NEW_PORT, ms + [m]);
      && p.sources == Sources(Slot(m.action.from, m.action.physical, m.now), Slot(0, 0, 0), false, false)
      && p.dataB[c] == 0 && (c < |m.action.frame| ==> p.dataA[c] == m.action.frame[c])
  {
    MeaningOfRun(ms);
    PortRunSnoc(NEW_PORT, ms, m);
    CancelStep(PortRun(NEW_PORT, ms), m);
  }

  predicate OtherIsStale(p: Port, c: Case, now: int) {
    if IntoA(c) then !p.sources.b.Free() && p.sources.b.Old(now) else !p.sources.a.Free() && p.sources.a.Old(now)
  }

  /** The packet that finds the other source stale should be put out as it is. It is, exactly
      unless the port merges highest-takes-precedence and the stale source had some channel
      higher: its levels then reach the output one last time. */
  lemma StaleSourceMergedOnce(p: Port, m: Moment)
    requires m.action.Dmx? && SlotInvariant(p.sources) && KnownSource(m)
    requires var c := CaseOf(p.sources.a, p.sources.b, m.action.from, m.action.physical);
      Merges(c) && OtherIsStale(p, c, m.now)
    ensures var c, frame := CaseOf(p.sources.a, p.sources.b, m.action.from, m.action.physical), m.action.frame;
      Produced(PortStep(p, m), m.sync) == frame
      <==> !(p.mode == Htp && exists i | 0 <= i < |frame| :: OtherData(p, c)[i] > frame[i])
  {
    var (from, physical, frame) := (m.action.from, m.action.physical, m.action.frame);
    var c, p1 := CaseOf(p.sources.a, p.sources.b, from, physical), Absorb(p, m.sync, from, physical, frame, m.now);
    AbsorbEffect(p, m.sync, from, physical, frame, m.now);
    EndMergeOutput(p1, from, physical, frame, m.now);
    HighestIsFrame(p.dataA, p.dataB, frame);
  }

  lemma HighestIsFrame(dataA: Frame, dataB: Frame, frame: Payload)
    ensures Highest(Blit(dataA, frame), dataB, |frame|) == frame <==> !exists i | 0 <= i < |frame| :: dataB[i] > frame[i]
    ensures Highest(dataA, Blit(dataB, frame), |frame|) == frame <==> !exists i | 0 <= i < |frame| :: dataA[i] > frame[i]
  {
    var h, g := Highest(Blit(dataA, frame), dataB, |frame|), Highest(dataA, Blit(dataB, frame), |frame|);
    forall i | 0 <= i < |frame|
      ensures h[i] == (if frame[i] > dataB[i] then frame[i] else dataB[i])
      ensures g[i] == (if dataA[i] > frame[i] then dataA[i] else frame[i])
    {
      assert Blit(dataA, frame)[i] == frame[i] && Blit(dataB, frame)[i] == frame[i];
    }
  }
}
