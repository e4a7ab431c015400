/** One firmware transfer seen from both ends. The sender's packets reach the receiver in the
    order sent, up to some point after which nothing more arrives; replies reach the sender in
    any order, any number of times or not at all; the receiver's timeout may fire at any point;
    and other controllers may send it anything at any time. */
module FirmwareProtocol {
  import opened Common
  import opened Firmware

  /** What is being transferred, and by whom. */
  datatype Upload = Upload(bytes: seq<Byte>, ubea: bool, self: Address)
  {
    predicate Valid() {
      |bytes| % 2 == 0 && 0 < |bytes| < TWO_TO_THE_31 && self != 0
    }

    /** The sender after `k` packets have been sent. */
    function TxAt(k: nat): (tx: Tx)
      requires Valid()
      ensures tx.Valid()
    {
      Tx(bytes, Min(k * BLOCK_BYTES, |bytes|), |bytes|, ubea, k % 256)
    }

    function PacketAt(k: nat): Master
      requires Valid()
    {
      NextPacket(TxAt(k), self)
    }

    function Image(): Delivery { Delivery(ubea, Cells(bytes)) }

    /** Can the receiver ever answer this upload with AllGood? */
    predicate Completes() { |bytes| <= BLOCK_BYTES || |bytes| % BLOCK_BYTES != 0 }
  }

  datatype System = System(tx: Tx, sent: seq<Master>, arrived: nat, rx: Rx,
                           replies: seq<Code>, deliveries: seq<Delivery>, done: seq<Code>)
  {
    predicate Valid(self: Address) {
      && tx.Valid() && rx.Valid() && self != 0 && arrived <= |sent|
      && forall k | 0 <= k < |sent| :: sent[k].from == self
    }
  }

  /** `Reply`: some reply, of any code, reaches the sender (any source of replies is allowed).
      `Arrive`: the next packet reaches the receiver. `Tick`: the receiver checks its timeout.
      `Foreign`: the receiver gets a packet of any kind from another controller. */
  datatype Action = Reply(code: Code, sendOk: bool) | Arrive(now: int) | Tick(now: int) | Foreign(p: Master, now: int)

  function ToSeq<T>(o: Option<T>): seq<T> { if o.Some? then [o.value] else [] }

  function Step(s: System, a: Action, self: Address): (s': System)
    requires s.Valid(self)
    ensures s'.Valid(self)
  {
    match a
    case Reply(code, sendOk) =>
      var r := HandleReply(s.tx, code, self, sendOk);
      s.(tx := r.tx, sent := s.sent + ToSeq(r.packet), done := s.done + ToSeq(r.done))
    case Arrive(now) =>
      if s.arrived == |s.sent| then s
      else
        var o := Handle(s.rx, Read(s.sent[s.arrived]), now);
        s.(rx := o.rx, arrived := s.arrived + 1, replies := s.replies + [o.code],
           deliveries := s.deliveries + ToSeq(o.delivery))
    case Tick(now) => s.(rx := CheckTimeout(s.rx, now))
    case Foreign(p, now) => if p.from == 0 || p.from == self then s else s.(rx := Handle(s.rx, Read(p), now).rx)
  }

  /** artnet_send_firmware towards a receiver that holds no upload of this sender; it may hold one
      of another. `deliveries` are the images that the sender's own packets complete. */
  function Start(u: Upload, rx: Rx, sendOk: bool): (s: System)
    requires u.Valid() && rx.Valid() && rx.peer != u.self
    ensures s.Valid(u.self)
  {
    var r := Transmit(StartTransfer(u.bytes, u.ubea), u.self, sendOk);
    System(r.tx, ToSeq(r.packet), 0, rx, [], [], [])
  }

  function Run(s: System, actions: seq<Action>, self: Address): (s': System)
    requires s.Valid(self)
    ensures s'.Valid(self)
    decreases |actions|
  {
    if actions == [] then s
    else Step(Run(s, actions[..|actions| - 1], self), actions[|actions| - 1], self)
  }

  // ----- the invariant -----

  /** What the receiver holds when `k` packets have been accepted: exactly the bytes of the
      first `k` blocks, the rest of the buffer still unset. */
  ghost predicate Receiving(rx: Rx, u: Upload, k: nat)
    requires u.Valid()
  {
    var n := Min(k * BLOCK_BYTES, |u.bytes|);
    && rx.peer == u.self && rx.ubea == u.ubea
    && rx.bytesTotal == |u.bytes| && rx.bytesCurrent == n && rx.expectedBlock == k
    && rx.data == Cells(u.bytes[..n]) + Blank(|u.bytes| - n)
  }

  /** What the receiver has taken in after `k` packets, and what it has delivered. */
  ghost predicate TakenIn(rx: Rx, deliveries: seq<Delivery>, u: Upload, k: nat)
    requires u.Valid()
  {
    && rx.Valid()
    && (k == 0 ==> rx.peer != u.self && deliveries == [])
    && (rx.peer != u.self ==> deliveries == [] || deliveries == [u.Image()])
    && (rx.peer == u.self ==> Receiving(rx, u, k) && deliveries == if |u.bytes| <= BLOCK_BYTES then [u.Image()] else [])
  }

  ghost predicate Emitted(sent: seq<Master>, u: Upload)
    requires u.Valid()
  {
    forall k | 0 <= k < |sent| :: k * BLOCK_BYTES < |u.bytes| && sent[k] == u.PacketAt(k)
  }

  ghost predicate Invariant(s: System, u: Upload)
    requires u.Valid()
  {
    && s.Valid(u.self)
    && Emitted(s.sent, u)
    && (s.tx == NO_TRANSFER || s.tx == u.TxAt(|s.sent|))
    && TakenIn(s.rx, s.deliveries, u, s.arrived)
  }

  /** What the receiver can read off the packet that carries block `k`. */
  ghost predicate Carries(r: Request, u: Upload, k: nat) {
    var n := Min(|u.bytes| - k * BLOCK_BYTES, BLOCK_BYTES);
    && k * BLOCK_BYTES < |u.bytes|
    && r.from == u.self && r.blockId == k % 256
    && r.WellFormed() && r.length == |u.bytes| && r.payload == BLOCK_BYTES
    && KindOf(r.typ) == (if k == 0 then First else if n == BLOCK_BYTES then Cont else Last)
    && (k == 0 ==> (r.typ != 0) == u.ubea)
    && r.data[..n] == u.bytes[k * BLOCK_BYTES..k * BLOCK_BYTES + n]
  }

  lemma PacketData(u: Upload, k: nat)
    requires u.Valid() && k * BLOCK_BYTES < |u.bytes|
    ensures var n := Min(|u.bytes| - k * BLOCK_BYTES, BLOCK_BYTES);
      u.PacketAt(k).data[..n] == u.bytes[k * BLOCK_BYTES..k * BLOCK_BYTES + n]
      && forall c | n <= c < 1024 :: u.PacketAt(k).data[c] == 0
  {
    var from, n := k * BLOCK_BYTES, Min(|u.bytes| - k * BLOCK_BYTES, BLOCK_BYTES);
    assert Padded(u.bytes[from..from + n])[..n] == u.bytes[from..from + n];
  }

  /** The type codes of Art-Net: 0, 1 and 2 for firmware, 3, 4 and 5 for UBEA. */
  lemma PacketCode(u: Upload, k: nat)
    requires u.Valid() && k * BLOCK_BYTES < |u.bytes|
    ensures u.PacketAt(k).typ ==
      (if u.ubea then 3 else 0) + (if k == 0 then 0 else if (k + 1) * 1024 <= |u.bytes| then 1 else 2)
  {
  }

  lemma PacketCarriesBlock(u: Upload, k: nat)
    requires u.Valid() && k * BLOCK_BYTES < |u.bytes|
    ensures Carries(Read(u.PacketAt(k)), u, k)
  {
    SmallUnchanged(|u.bytes|);
    PacketData(u, k);
  }

  /** The first packet opens the upload; a one-block upload is complete at once. */
  lemma FirstArrives(rx: Rx, u: Upload, r: Request, now: int)
    requires u.Valid() && rx.Valid() && rx.peer == 0 && Carries(r, u, 0)
    ensures var o := Handle(rx, r, now);
      && Receiving(o.rx, u, 1)
      && if |u.bytes| <= BLOCK_BYTES then o.code == AllGood && o.delivery == Some(u.Image())
         else o.code == BlockGood && o.delivery == None
  {
    var n := Min(BLOCK_BYTES, |u.bytes|);
    assert |u.bytes| <= BLOCK_BYTES ==> u.bytes[..n] == u.bytes && Cells(u.bytes) + Blank(0) == Cells(u.bytes);
  }

  lemma CellsConcat(a: seq<Byte>, b: seq<Byte>)
    ensures Cells(a) + Cells(b) == Cells(a + b)
  {
  }

  /** Writing the next `n` bytes behind an initial segment extends that segment. */
  lemma OverwriteExtends(bytes: seq<Byte>, from: nat, n: nat)
    requires from + n <= |bytes|
    ensures Overwrite(Cells(bytes[..from]) + Blank(|bytes| - from), from, bytes[from..from + n])
         == Cells(bytes[..from + n]) + Blank(|bytes| - from - n)
  {
    CellsConcat(bytes[..from], bytes[from..from + n]);
    assert bytes[..from] + bytes[from..from + n] == bytes[..from + n];
  }

  /** A full block fills the next part of the buffer, although its id has only one byte. */
  lemma ContArrives(rx: Rx, u: Upload, k: nat, r: Request, now: int)
    requires u.Valid() && rx.Valid() && Receiving(rx, u, k) && Carries(r, u, k)
    requires 0 < k && (k + 1) * BLOCK_BYTES <= |u.bytes|
    ensures var o := Handle(rx, r, now);
      Receiving(o.rx, u, k + 1) && o.code == BlockGood && o.delivery == None
  {
    assert ResolveBlock(rx.expectedBlock, r.blockId) == k;
    assert r.data == r.data[..BLOCK_BYTES];
    OverwriteExtends(u.bytes, k * BLOCK_BYTES, BLOCK_BYTES);
  }

  /** A short last block completes the image and frees the receiver. */
  lemma LastArrives(rx: Rx, u: Upload, k: nat, r: Request, now: int)
    requires u.Valid() && rx.Valid() && Receiving(rx, u, k) && Carries(r, u, k)
    requires 0 < k && |u.bytes| < (k + 1) * BLOCK_BYTES
    ensures Handle(rx, r, now) == Outcome(rx.Reset(), AllGood, Some(u.Image()))
  {
    assert ResolveBlock(rx.expectedBlock, r.blockId) == k;
    var n := |u.bytes| - k * BLOCK_BYTES;
    OverwriteExtends(u.bytes, k * BLOCK_BYTES, n);
    assert u.bytes[..|u.bytes|] == u.bytes && Cells(u.bytes) + Blank(0) == Cells(u.bytes);
  }

  /** When the upload of the sender is not open, its later blocks change nothing; nor does its
      first one while someone else's is. */
  lemma StrayBlock(rx: Rx, u: Upload, k: nat, r: Request, now: int)
    requires rx.Valid() && rx.peer != u.self && u.self != 0 && Carries(r, u, k)
    requires k == 0 ==> rx.peer != 0
    ensures Handle(rx, r, now) == Outcome(rx, Fail, None)
  {
  }

  lemma BlockTakenIn(rx: Rx, deliveries: seq<Delivery>, u: Upload, k: nat, r: Request, now: int)
    requires u.Valid() && TakenIn(rx, deliveries, u, k) && Carries(r, u, k)
    ensures var o := Handle(rx, r, now); TakenIn(o.rx, deliveries + ToSeq(o.delivery), u, k + 1)
  {
    if rx.peer != u.self && (0 < k || rx.peer != 0) {
      StrayBlock(rx, u, k, r, now);
    } else if k == 0 {
      FirstArrives(rx, u, r, now);
    } else if (k + 1) * BLOCK_BYTES <= |u.bytes| {
      ContArrives(rx, u, k, r, now);
    } else {
      LastArrives(rx, u, k, r, now);
    }
  }

  lemma ForeignIgnored(rx: Rx, p: Master, now: int)
    requires rx.Valid() && rx.peer != 0 && p.from != rx.peer
    ensures Handle(rx, Read(p), now) == Outcome(rx, Fail, None)
  {
  }

  /** Another controller cannot touch the upload, and cannot open one in the sender's name. */
  lemma ForeignTakenIn(rx: Rx, deliveries: seq<Delivery>, u: Upload, k: nat, p: Master, now: int)
    requires u.Valid() && TakenIn(rx, deliveries, u, k) && p.from != 0 && p.from != u.self
    ensures TakenIn(Handle(rx, Read(p), now).rx, deliveries, u, k)
  {
    if rx.peer == u.self {
      ForeignIgnored(rx, p, now);
    }
  }

  lemma AdvanceIsNext(u: Upload, k: nat)
    requires u.Valid() && k * BLOCK_BYTES < |u.bytes|
    ensures Advance(u.TxAt(k)) == u.TxAt(k + 1)
  {
    assert (k % 256 + 1) % 256 == (k + 1) % 256;
  }

  lemma ReplyArrives(s: System, u: Upload, code: Code, sendOk: bool)
    requires u.Valid() && Invariant(s, u)
    ensures Invariant(Step(s, Reply(code, sendOk), u.self), u)
  {
    var r := HandleReply(s.tx, code, u.self, sendOk);
    if r.packet.Some? {
      AdvanceIsNext(u, |s.sent|);
      assert r.packet.value == u.PacketAt(|s.sent|);
    }
  }

  lemma PacketArrives(s: System, u: Upload, now: int)
    requires u.Valid() && Invariant(s, u)
    ensures Invariant(Step(s, Arrive(now), u.self), u)
  {
    if s.arrived < |s.sent| {
      PacketCarriesBlock(u, s.arrived);
      BlockTakenIn(s.rx, s.deliveries, u, s.arrived, Read(s.sent[s.arrived]), now);
    }
  }

  lemma InvariantStep(s: System, a: Action, u: Upload)
    requires u.Valid() && Invariant(s, u)
    ensures Invariant(Step(s, a, u.self), u)
  {
    match a
    case Reply(code, sendOk) => ReplyArrives(s, u, code, sendOk);
    case Arrive(now) => PacketArrives(s, u, now);
    case Tick(now) =>
    case Foreign(p, now) =>
      if p.from != 0 && p.from != u.self {
        ForeignTakenIn(s.rx, s.deliveries, u, s.arrived, p, now);
      }
  }

  lemma {:induction false} InvariantRun(u: Upload, rx: Rx, sendOk: bool, actions: seq<Action>)
    requires u.Valid() && rx.Valid() && rx.peer != u.self
    ensures Invariant(Run(Start(u, rx, sendOk), actions, u.self), u)
    decreases |actions|
  {
    if actions == [] {
    } else {
      var n := |actions| - 1;
      InvariantRun(u, rx, sendOk, actions[..n]);
      InvariantStep(Run(Start(u, rx, sendOk), actions[..n], u.self), actions[n], u);
    }
  }

  /** Under every interleaving, also with other controllers, the sender's packets make the
      receiver hand its application at most one image, and that image is exactly what the sender
      was given. */
  lemma EndToEnd(u: Upload, rx: Rx, sendOk: bool, actions: seq<Action>)
    requires u.Valid() && rx.Valid() && rx.peer != u.self
    ensures var d := Run(Start(u, rx, sendOk), actions, u.self).deliveries;
      d == [] || d == [Delivery(u.ubea, Cells(u.bytes))]
  {
    InvariantRun(u, rx, sendOk, actions);
  }

  // ----- the lock-step exchange -----

  /** Packet, reply, packet, reply... with nothing lost and no timeout, until nothing is in flight. */
  ghost function Exchange(s: System, u: Upload, clock: nat -> int): System
    requires u.Valid() && Invariant(s, u)
    decreases s.tx.bytesTotal - s.tx.bytesCurrent, |s.sent| - s.arrived
  {
    if s.arrived == |s.sent| then s
    else
      InvariantStep(s, Arrive(clock(s.arrived)), u);
      var s1 := Step(s, Arrive(clock(s.arrived)), u.self);
      var reply := Reply(s1.replies[|s1.replies| - 1], true);
      InvariantStep(s1, reply, u);
      Exchange(Step(s1, reply, u.self), u, clock)
  }

  /** Block `k` is on its way and every block before it was acknowledged. */
  ghost predicate InFlight(s: System, u: Upload, k: nat)
    requires u.Valid()
  {
    && Invariant(s, u)
    && s.arrived == k && |s.sent| == k + 1 && s.tx == u.TxAt(k + 1)
    && (if k == 0 then s.rx.peer == 0 else s.rx.peer == u.self && BLOCK_BYTES < |u.bytes|)
    && s.done == [] && s.replies == seq(k, _ => BlockGood)
  }

  lemma BlockAnswered(rx: Rx, u: Upload, k: nat, r: Request, now: int) returns (o: Outcome)
    requires u.Valid() && rx.Valid() && Carries(r, u, k)
    requires if k == 0 then rx.peer == 0 else Receiving(rx, u, k) && BLOCK_BYTES < |u.bytes|
    ensures o == Handle(rx, r, now)
    ensures o.code == if u.Completes() && |u.bytes| <= (k + 1) * BLOCK_BYTES then AllGood else BlockGood
    ensures o.delivery == if o.code == AllGood then Some(u.Image()) else None
    ensures o.code == BlockGood ==> o.rx.peer == u.self
  {
    o := Handle(rx, r, now);
    if k == 0 {
      FirstArrives(rx, u, r, now);
    } else if (k + 1) * BLOCK_BYTES <= |u.bytes| {
      ContArrives(rx, u, k, r, now);
    } else {
      LastArrives(rx, u, k, r, now);
    }
  }

  lemma Acknowledged(s: System, u: Upload, k: nat, now: int) returns (s1: System, code: Code)
    requires u.Valid() && InFlight(s, u, k)
    ensures s1 == Step(s, Arrive(now), u.self) && Invariant(s1, u)
    ensures code == if u.Completes() && |u.bytes| <= (k + 1) * BLOCK_BYTES then AllGood else BlockGood
    ensures s1.replies == s.replies + [code]
    ensures s1.deliveries == if code == AllGood then [u.Image()] else []
    ensures code == BlockGood ==> s1.rx.peer == u.self
  {
    PacketCarriesBlock(u, k);
    var o := BlockAnswered(s.rx, u, k, Read(s.sent[k]), now);
    code := o.code;
    s1 := Step(s, Arrive(now), u.self);
    InvariantStep(s, Arrive(now), u);
  }

  lemma ExchangeUnfolds(s: System, u: Upload, clock: nat -> int, s1: System, s2: System)
    requires u.Valid() && Invariant(s, u) && s.arrived < |s.sent|
    requires s1 == Step(s, Arrive(clock(s.arrived)), u.self) && Invariant(s1, u)
    requires s2 == Step(s1, Reply(s1.replies[|s1.replies| - 1], true), u.self) && Invariant(s2, u)
    ensures Exchange(s, u, clock) == Exchange(s2, u, clock)
    ensures s2.arrived == |s2.sent| ==> Exchange(s2, u, clock) == s2
  {
  }

  /** How a lock-step exchange ends. */
  ghost predicate Ended(s: System, u: Upload) {
    && s.arrived == |s.sent| > 0 && |s.replies| == |s.sent|
    && (forall i | 0 <= i < |s.replies| - 1 :: s.replies[i] == BlockGood)
    && if u.Completes() then
         s.replies[|s.replies| - 1] == AllGood && s.deliveries == [u.Image()] && s.done == [AllGood] && s.tx == NO_TRANSFER
       else
         s.replies[|s.replies| - 1] == BlockGood && s.deliveries == [] && s.done == []
         && s.tx.bytesCurrent == s.tx.bytesTotal == |u.bytes| && s.rx.peer == u.self
  }

  /** A "block good" reply puts the next block in flight, or finds nothing left to send. */
  lemma BlockGoodReply(s1: System, u: Upload, k: nat) returns (s2: System)
    requires u.Valid() && Invariant(s1, u)
    requires s1.arrived == k + 1 == |s1.sent| && s1.tx == u.TxAt(k + 1) && s1.rx.peer == u.self
    requires s1.done == [] && s1.replies == seq(k + 1, _ => BlockGood)
    ensures s2 == Step(s1, Reply(BlockGood, true), u.self) && Invariant(s2, u)
    ensures if (k + 1) * BLOCK_BYTES < |u.bytes| then InFlight(s2, u, k + 1) else s2 == s1
  {
    s2 := Step(s1, Reply(BlockGood, true), u.self);
    InvariantStep(s1, Reply(BlockGood, true), u);
    if (k + 1) * BLOCK_BYTES < |u.bytes| {
      AdvanceIsNext(u, k + 1);
    }
  }

  /** An "all good" reply ends the sender's transfer. */
  lemma AllGoodReply(s1: System, u: Upload, k: nat) returns (s2: System)
    requires u.Valid() && Invariant(s1, u)
    requires s1.arrived == k + 1 == |s1.sent| && s1.tx == u.TxAt(k + 1) && s1.done == []
    requires |u.bytes| <= (k + 1) * BLOCK_BYTES
    ensures s2 == Step(s1, Reply(AllGood, true), u.self) && Invariant(s2, u)
    ensures s2 == s1.(tx := NO_TRANSFER, done := [AllGood])
  {
    s2 := Step(s1, Reply(AllGood, true), u.self);
    InvariantStep(s1, Reply(AllGood, true), u);
  }

  lemma Answered(s1: System, u: Upload, k: nat, code: Code) returns (s2: System)
    requires u.Valid() && Invariant(s1, u) && s1.arrived == k + 1 == |s1.sent| && s1.tx == u.TxAt(k + 1) && s1.done == []
    requires code == if u.Completes() && |u.bytes| <= (k + 1) * BLOCK_BYTES then AllGood else BlockGood
    requires s1.replies == seq(k, _ => BlockGood) + [code]
    requires s1.deliveries == (if code == AllGood then [u.Image()] else []) && (code == BlockGood ==> s1.rx.peer == u.self)
    ensures s2 == Step(s1, Reply(code, true), u.self) && Invariant(s2, u)
    ensures if (k + 1) * BLOCK_BYTES < |u.bytes| then InFlight(s2, u, k + 1) else Ended(s2, u)
  {
    if code == BlockGood {
      assert s1.replies == seq(k + 1, _ => BlockGood);
      s2 := BlockGoodReply(s1, u, k);
    } else {
      s2 := AllGoodReply(s1, u, k);
    }
  }

  /** One packet and its reply: the next block is in flight, or the exchange is over. */
  lemma Round(s: System, u: Upload, k: nat, clock: nat -> int) returns (s2: System)
    requires u.Valid() && InFlight(s, u, k)
    ensures Invariant(s2, u) && Exchange(s, u, clock) == Exchange(s2, u, clock)
    ensures if (k + 1) * BLOCK_BYTES < |u.bytes| then InFlight(s2, u, k + 1) else Ended(s2, u) && Exchange(s2, u, clock) == s2
  {
    var s1, code := Acknowledged(s, u, k, clock(k));
    s2 := Answered(s1, u, k, code);
    ExchangeUnfolds(s, u, clock, s1, s2);
  }

  lemma {:induction false} ExchangeFrom(s: System, u: Upload, k: nat, clock: nat -> int)
    requires u.Valid() && InFlight(s, u, k)
    ensures Ended(Exchange(s, u, clock), u)
    decreases |u.bytes| - k
  {
    var s2 := Round(s, u, k, clock);
    if (k + 1) * BLOCK_BYTES < |u.bytes| {
      ExchangeFrom(s2, u, k + 1, clock);
    }
  }

  /** With nothing lost, the exchange ends with AllGood on both sides exactly when the image has
      at most one block or is not a whole number of blocks. Otherwise the sender has sent
      everything, was told "block good" every time, and neither side ever finishes. */
  lemma LockStep(u: Upload, rx: Rx, clock: nat -> int)
    requires u.Valid() && rx.Valid() && rx.peer == 0
    ensures Invariant(Start(u, rx, true), u) && Ended(Exchange(Start(u, rx, true), u, clock), u)
    ensures Exchange(Start(u, rx, true), u, clock).done == [AllGood] <==> u.Completes()
  {
    InvariantRun(u, rx, true, []);
    AdvanceIsNext(u, 0);
    ExchangeFrom(Start(u, rx, true), u, 0, clock);
  }

  // ----- the receiver under arbitrary traffic -----

  /** No packet of any kind, in any receiver state, is answered AllGood for a whole number of
      blocks greater than one; and what is delivered always has the length the packet names. */
  lemma AllGoodLengths(rx: Rx, r: Request, now: int)
    requires rx.Valid() && r.WellFormed() && Handle(rx, r, now).code == AllGood
    ensures r.length <= BLOCK_BYTES || r.length % BLOCK_BYTES != 0
    ensures Handle(rx, r, now).delivery.Some? && |Handle(rx, r, now).delivery.value.data| == r.length
  {
  }

  /** An accepted middle block lies inside the buffer and changes nothing else; an accepted last
      block ends exactly where the buffer ends. */
  lemma Placement(rx: Rx, r: Request, now: int)
    requires rx.Valid() && r.WellFormed() && KindOf(r.typ) != First
    ensures var o, at := Handle(rx, r, now), ResolveBlock(rx.expectedBlock, r.blockId) * BLOCK_BYTES;
      && (o.code == BlockGood ==>
            && at + BLOCK_BYTES <= rx.bytesTotal
            && o.rx.data[at..at + BLOCK_BYTES] == Cells(r.data)
            && o.rx.data[..at] == rx.data[..at] && o.rx.data[at + BLOCK_BYTES..] == rx.data[at + BLOCK_BYTES..])
      && (o.code == AllGood ==>
            && at + LastBlockBytes(rx.bytesTotal) == rx.bytesTotal
            && o.delivery.value.data == rx.data[..at] + Cells(r.data[..rx.bytesTotal - at]))
      && (o.code == Fail ==> o.rx == rx && o.delivery == None)
  {
  }

  datatype Event = Packet(p: Master, now: int) | Timeout(now: int)

  datatype Received = Received(rx: Rx, deliveries: seq<Delivery>)

  predicate Sourced(events: seq<Event>) {
    forall e <- events :: e.Packet? ==> e.p.from != 0
  }

  function Receive(rx: Rx, e: Event): (r: Received)
    requires rx.Valid() && (e.Packet? ==> e.p.from != 0)
    ensures r.rx.Valid()
  {
    match e
    case Packet(p, now) => var o := Handle(rx, Read(p), now); Received(o.rx, ToSeq(o.delivery))
    case Timeout(now) => Received(CheckTimeout(rx, now), [])
  }

  function ReceiveAll(rx: Rx, events: seq<Event>): (r: Received)
    requires rx.Valid() && Sourced(events)
    ensures r.rx.Valid()
    decreases |events|
  {
    if events == [] then Received(rx, [])
    else
      var first := Receive(rx, events[0]);
      var rest := ReceiveAll(first.rx, events[1..]);
      Received(rest.rx, first.deliveries + rest.deliveries)
  }

  /** Packets that arrive while an upload from someone else is open are left out. */
  function WithoutIntruders(rx: Rx, events: seq<Event>): (kept: seq<Event>)
    requires rx.Valid() && Sourced(events)
    ensures Sourced(kept)
    decreases |events|
  {
    if events == [] then []
    else
      var e, rest := events[0], WithoutIntruders(Receive(rx, events[0]).rx, events[1..]);
      if e.Packet? && rx.peer != 0 && e.p.from != rx.peer then rest else [e] + rest
  }

  lemma ReceiveAllCons(rx: Rx, e: Event, rest: seq<Event>)
    requires rx.Valid() && Sourced([e] + rest)
    ensures e in [e] + rest && Sourced(rest)
    ensures var first := Receive(rx, e);
      var after := ReceiveAll(first.rx, rest);
      ReceiveAll(rx, [e] + rest) == Received(after.rx, first.deliveries + after.deliveries)
  {
    var all := [e] + rest;
    assert all[0] == e && all[1..] == rest;
  }

  /** Over any run, with any number of uploads one after the other, packets from others than the
      peer of the open upload leave no trace. */
  lemma {:induction false} NonInterference(rx: Rx, events: seq<Event>)
    requires rx.Valid() && Sourced(events)
    ensures ReceiveAll(rx, WithoutIntruders(rx, events)) == ReceiveAll(rx, events)
    decreases |events|
  {
    if events == [] {
    } else {
      var e, rest := events[0], events[1..];
      assert events == [e] + rest;
      var next := Receive(rx, e);
      var kept := WithoutIntruders(next.rx, rest);
      NonInterference(next.rx, rest);
      ReceiveAllCons(rx, e, rest);
      if e.Packet? && rx.peer != 0 && e.p.from != rx.peer {
        ForeignIgnored(rx, e.p, e.now);
        assert next == Received(rx, []) && WithoutIntruders(rx, events) == kept;
      } else {
        assert WithoutIntruders(rx, events) == [e] + kept;
        ReceiveAllCons(rx, e, kept);
      }
    }
  }

  /** The upload from `peer` is still open when each of the events happens. */
  ghost predicate Busy(rx: Rx, events: seq<Event>, peer: Address)
    requires rx.Valid() && Sourced(events)
    decreases |events|
  {
    events == [] || (rx.peer == peer && Busy(Receive(rx, events[0]).rx, events[1..], peer))
  }

  function WithoutOthers(events: seq<Event>, peer: Address): seq<Event> {
    if events == [] then []
    else (if events[0].Packet? && events[0].p.from != peer then [] else [events[0]]) + WithoutOthers(events[1..], peer)
  }

  /** While the upload from one peer stays open these are the packets of everyone else. */
  lemma {:induction false} IntrudersAreOthers(rx: Rx, events: seq<Event>, peer: Address)
    requires rx.Valid() && Sourced(events) && peer != 0 && Busy(rx, events, peer)
    ensures WithoutIntruders(rx, events) == WithoutOthers(events, peer)
    decreases |events|
  {
    if events != [] {
      IntrudersAreOthers(Receive(rx, events[0]).rx, events[1..], peer);
    }
  }
}
