/** How long an upload stays open at the receiving node, over runs of packets and timeout checks
    from the idle state, told from the events alone. */
module FirmwareLifetime {
  import opened Common
  import opened Firmware
  import opened FirmwareProtocol

  /** The receiver after the first `n` events. */
  function RxAt(events: seq<Event>, n: nat): (rx: Rx)
    requires Sourced(events) && n <= |events|
    ensures rx.Valid()
  {
    if n == 0 then IDLE else assert events[n - 1] in events; Receive(RxAt(events, n - 1), events[n - 1]).rx
  }

  lemma {:induction false} SameRun(events: seq<Event>, n: nat)
    requires Sourced(events) && n <= |events|
    ensures Sourced(events[n..]) && ReceiveAll(RxAt(events, n), events[n..]).rx == ReceiveAll(IDLE, events).rx
    decreases n
  {
    if n == 0 {
      assert events[0..] == events;
    } else {
      SameRun(events, n - 1);
      assert events[n - 1..][1..] == events[n..] && events[n - 1..][0] == events[n - 1];
    }
  }

  /** The reply to the packet at `j`. */
  function Answer(events: seq<Event>, j: nat): Code
    requires Sourced(events) && j < |events| && events[j].Packet?
  {
    Handle(RxAt(events, j), Read(events[j].p), events[j].now).code
  }

  /** The packet at `i` opened an upload. */
  predicate Opens(events: seq<Event>, i: nat)
    requires Sourced(events)
  {
    i < |events| && events[i].Packet? && KindOf(events[i].p.typ) == First && Answer(events, i) != Fail
  }

  /** An upload that was opened at `i` ends at `j`: with an accepted last packet, or with a check
      30 seconds or more after its first packet, whatever came in between. */
  predicate Ends(events: seq<Event>, i: nat, j: nat)
    requires Sourced(events) && i < j < |events|
  {
    match events[j]
    case Packet(p, now) => KindOf(p.typ) == Last && Answer(events, j) == AllGood
    case Timeout(now) => now - events[i].now >= 30000
  }

  lemma OpensUpload(events: seq<Event>, i: nat)
    requires Sourced(events) && Opens(events, i)
    ensures var rx := RxAt(events, i + 1); rx.peer == events[i].p.from && rx.lastTime == events[i].now
  {
    assert events[i] in events;
  }

  lemma WhileOpen(events: seq<Event>, i: nat, j: nat)
    requires Sourced(events) && i < j < |events| && events[i].Packet?
    requires RxAt(events, j).peer == events[i].p.from && RxAt(events, j).lastTime == events[i].now
    ensures var rx := RxAt(events, j + 1);
      if Ends(events, i, j) then rx.peer == 0 else rx.peer == events[i].p.from && rx.lastTime == events[i].now
  {
    assert events[i] in events && events[j] in events;
    assert RxAt(events, j + 1) == Receive(RxAt(events, j), events[j]).rx;
  }

  lemma {:induction false} OpenUntilEnd(events: seq<Event>, i: nat, n: nat)
    requires Sourced(events) && i < n <= |events| && Opens(events, i)
    requires forall j | i < j < n :: !Ends(events, i, j)
    ensures RxAt(events, n).peer == events[i].p.from && RxAt(events, n).lastTime == events[i].now
    decreases n
  {
    if n == i + 1 {
      OpensUpload(events, i);
    } else {
      OpenUntilEnd(events, i, n - 1);
      WhileOpen(events, i, n - 1);
    }
  }

  /** The receiver has held the upload ever since it was opened at `i`. */
  ghost predicate StillOpen(events: seq<Event>, i: nat)
    requires Sourced(events) && Opens(events, i)
  {
    forall n | i < n <= |events| :: RxAt(events, n).peer == events[i].p.from
  }

  lemma {:induction false} FirstEnd(events: seq<Event>, i: nat, j: nat) returns (first: nat)
    requires Sourced(events) && i < j < |events| && Ends(events, i, j)
    ensures i < first <= j && Ends(events, i, first) && forall k | i < k < first :: !Ends(events, i, k)
    decreases j
  {
    if k :| i < k < j && Ends(events, i, k) {
      first := FirstEnd(events, i, k);
    } else {
      first := j;
    }
  }

  /** An upload is still open exactly when nothing has ended it. */
  lemma UploadLifetime(events: seq<Event>, i: nat)
    requires Sourced(events) && Opens(events, i)
    ensures StillOpen(events, i) <==> forall j | i < j < |events| :: !Ends(events, i, j)
  {
    assert events[i] in events;
    if j :| i < j < |events| && Ends(events, i, j) {
      var first := FirstEnd(events, i, j);
      OpenUntilEnd(events, i, first);
      WhileOpen(events, i, first);
      assert RxAt(events, first + 1).peer != events[i].p.from;
    } else {
      forall n | i < n <= |events| ensures RxAt(events, n).peer == events[i].p.from {
        OpenUntilEnd(events, i, n);
      }
    }
  }

  /** Is this a first packet that a free receiver has to take? */
  predicate Proper(r: Request) { KindOf(r.typ) == First && r.length > 0 && r.payload > 0 && r.payload % 2 == 0 }

  /** A first packet is taken exactly when it is proper and no upload is open, not even one of its
      own sender; otherwise it changes nothing. */
  lemma FirstTaken(rx: Rx, r: Request, now: int)
    requires rx.Valid() && r.WellFormed() && KindOf(r.typ) == First
    ensures Handle(rx, r, now).code != Fail <==> rx.peer == 0 && Proper(r)
    ensures Handle(rx, r, now).code == Fail ==> Handle(rx, r, now) == Outcome(rx, Fail, None)
    ensures Handle(rx, r, now).code != Fail ==> Handle(rx, r, now).rx.peer == r.from
  {
  }

  /** The event that ends an upload leaves the receiver free for the first packet of any sender.
      Only the block counter stays as it was. */
  lemma EndedIsFree(events: seq<Event>, i: nat, j: nat, r: Request, now: int)
    requires Sourced(events) && Opens(events, i) && i < j < |events|
    requires Ends(events, i, j) && forall k | i < k < j :: !Ends(events, i, k)
    requires r.WellFormed() && Proper(r)
    ensures RxAt(events, j + 1) == Rx(0, [], 0, 0, false, 0, RxAt(events, j).expectedBlock)
    ensures Handle(RxAt(events, j + 1), r, now).code != Fail && Handle(RxAt(events, j + 1), r, now).rx.peer == r.from
  {
    OpenUntilEnd(events, i, j);
    WhileOpen(events, i, j);
    assert RxAt(events, j + 1) == Receive(RxAt(events, j), events[j]).rx;
    FirstTaken(RxAt(events, j + 1), r, now);
  }

  /** There are six types of packet; any other changes nothing and is answered with failure. */
  lemma OtherTypesFail(rx: Rx, r: Request, now: int)
    requires rx.Valid() && r.WellFormed() && r.typ > 5
    ensures Handle(rx, r, now) == Outcome(rx, Fail, None)
  {
  }

  /** Whatever is accepted was received in full, from the peer of the open upload, under its
      length: a middle block all of its 1024 bytes, a last one all that is left. */
  lemma AcceptedInFull(rx: Rx, r: Request, now: int)
    requires rx.Valid() && r.WellFormed() && Handle(rx, r, now).code != Fail && KindOf(r.typ) != First
    ensures rx.peer == r.from
    ensures r.length == rx.bytesTotal > 0 && r.payload % 2 == 0
    ensures KindOf(r.typ) == Cont ==> r.payload == 1024
    ensures KindOf(r.typ) == Last ==> r.payload >= rx.bytesTotal - rx.bytesTotal / 1024 * 1024 > 0
  {
  }
}
