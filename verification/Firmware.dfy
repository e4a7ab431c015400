/** ArtFirmwareMaster / ArtFirmwareReply: what one packet does to the receiving node, and what
    one transfer step does to the sending node. The two classes in FirmwareNodes.dfy change
    their fields exactly as these functions say; FirmwareProtocol.dfy proves what the two ends
    achieve together. */
module Firmware {
  import opened Common

  const BLOCK_BYTES := 1024           // 512 words of two bytes
  const HEADER_BYTES := 40            // an ArtFirmwareMaster packet without its data
  const FIRMWARE_TIMEOUT_MS := 30000

  type Address = nat                  // an IPv4 address; 0 means "none"

  datatype Code = BlockGood | AllGood | Fail

  datatype Kind = First | Cont | Last | Unknown

  function KindOf(typ: Byte): Kind {
    if typ == 0 || typ == 3 then First
    else if typ == 1 || typ == 4 then Cont
    else if typ == 2 || typ == 5 then Last
    else Unknown
  }

  type Block = s: seq<Byte> | |s| == BLOCK_BYTES witness seq(BLOCK_BYTES, _ => 0)

  /** An ArtFirmwareMaster packet as the receiving node sees it. The data field of the packet
      buffer always has 1024 bytes; `size` is how many bytes of the packet were received. */
  datatype Datagram = Datagram(from: Address, typ: Byte, blockId: Byte, length: Be32, size: int, data: Block)

  /** The same with the value of its length field, a number of two-byte words. */
  datatype Master = Master(from: Address, typ: Byte, blockId: Byte, words: Int32, size: int, data: Block)

  function Encode(p: Master): Datagram {
    Datagram(p.from, p.typ, p.blockId, IntToBytes(p.words), p.size, p.data)
  }

  function Decode(d: Datagram): Master {
    Master(d.from, d.typ, d.blockId, BytesToInt32(d.length), d.size, d.data)
  }

  /** Packets can be told apart by their values exactly as they can by their bytes; so the
      protocol is about values. */
  lemma WireRoundTrip(p: Master, d: Datagram)
    ensures Decode(Encode(p)) == p && Encode(Decode(d)) == d
  {
    LengthFieldRoundTrip(p.words);
    LengthFieldInjective(d.length);
  }

  /** The same packet with the total length and the amount of data it carries worked out. */
  datatype Request = Request(from: Address, typ: Byte, blockId: Byte, length: int, payload: int, data: Block)
  {
    predicate Malformed() { length <= 0 || payload <= 0 || payload % 2 != 0 }

    predicate WellFormed() { payload <= BLOCK_BYTES }
  }

  function Read(p: Master): (r: Request)
    ensures r.WellFormed()
  {
    Request(p.from, p.typ, p.blockId, ToInt32(2 * p.words),
            Min(p.size - HEADER_BYTES, BLOCK_BYTES), p.data)
  }

  /** A byte of the upload buffer: allocation leaves it unset. */
  datatype Cell = Unset | Known(b: Byte)

  function Cells(bytes: seq<Byte>): (cells: seq<Cell>)
    ensures |cells| == |bytes|
  {
    seq(|bytes|, i requires 0 <= i < |bytes| => Known(bytes[i]))
  }

  function Blank(n: nat): seq<Cell> { seq(n, _ => Unset) }

  function Overwrite(cells: seq<Cell>, offset: nat, bytes: seq<Byte>): (r: seq<Cell>)
    requires offset + |bytes| <= |cells|
    ensures |r| == |cells|
  {
    cells[..offset] + Cells(bytes) + cells[offset + |bytes|..]
  }

  // ----- the receiving node -----

  datatype Rx = Rx(peer: Address, data: seq<Cell>, bytesCurrent: int, bytesTotal: int,
                   ubea: bool, lastTime: int, expectedBlock: nat)
  {
    predicate Valid() {
      |data| == bytesTotal && (peer == 0 <==> bytesTotal == 0)
    }

    /** reset_firmware_upload leaves the block counter alone. */
    function Reset(): Rx { Rx(0, [], 0, 0, false, 0, expectedBlock) }

    predicate TimedOut(now: int) { peer != 0 && now - lastTime >= FIRMWARE_TIMEOUT_MS }
  }

  const IDLE := Rx(0, [], 0, 0, false, 0, 0)

  /** What the application's firmware callback is given. */
  datatype Delivery = Delivery(ubea: bool, data: seq<Cell>)

  datatype Outcome = Outcome(rx: Rx, code: Code, delivery: Option<Delivery>)

  /** The block index a one-byte block id stands for. */
  function ResolveBlock(expected: nat, blockId: Byte): (k: nat) {
    if expected > 255 && expected % 256 == blockId then expected else blockId
  }

  function LastBlockBytes(total: nat): nat {
    if total % BLOCK_BYTES == 0 then BLOCK_BYTES else total % BLOCK_BYTES
  }

  function HandleFirst(rx: Rx, r: Request, now: int): Outcome
    requires r.WellFormed()
  {
    if rx.peer != 0 || r.Malformed() then
      Outcome(rx, Fail, None)
    else
      var length, n := r.length, Min(r.length, r.payload);
      var data := Cells(r.data[..n]) + Blank(length - n);
      var rx' := Rx(r.from, data, n, length, r.typ != 0, now, 1);
      if n == length then Outcome(rx', AllGood, Some(Delivery(rx'.ubea, data)))
      else Outcome(rx', BlockGood, None)
  }

  predicate AcceptsCont(rx: Rx, r: Request) {
    var k := ResolveBlock(rx.expectedBlock, r.blockId);
    && !r.Malformed()
    && rx.peer == r.from
    && r.length == rx.bytesTotal
    && k < r.length / BLOCK_BYTES
    && k * BLOCK_BYTES + BLOCK_BYTES <= rx.bytesTotal
    && r.payload >= BLOCK_BYTES
  }

  function HandleCont(rx: Rx, r: Request): Outcome
    requires rx.Valid()
  {
    if AcceptsCont(rx, r) then
      var k := ResolveBlock(rx.expectedBlock, r.blockId);
      Outcome(rx.(data := Overwrite(rx.data, k * BLOCK_BYTES, r.data),
                  bytesCurrent := rx.bytesCurrent + BLOCK_BYTES,
                  expectedBlock := rx.expectedBlock + 1),
              BlockGood, None)
    else
      Outcome(rx, Fail, None)
  }

  predicate AcceptsLast(rx: Rx, r: Request)
    requires rx.Valid()
  {
    var k := ResolveBlock(rx.expectedBlock, r.blockId);
    && !r.Malformed()
    && r.payload >= LastBlockBytes(rx.bytesTotal)
    && rx.peer == r.from
    && r.length == rx.bytesTotal
    && k == r.length / BLOCK_BYTES
    && k * BLOCK_BYTES + LastBlockBytes(rx.bytesTotal) <= rx.bytesTotal
  }

  function HandleLast(rx: Rx, r: Request): Outcome
    requires rx.Valid()
  {
    if AcceptsLast(rx, r) then
      var k := ResolveBlock(rx.expectedBlock, r.blockId);
      var data := Overwrite(rx.data, k * BLOCK_BYTES, r.data[..LastBlockBytes(rx.bytesTotal)]);
      Outcome(rx.Reset(), AllGood, Some(Delivery(rx.ubea, data)))
    else
      Outcome(rx, Fail, None)
  }

  function Handle(rx: Rx, r: Request, now: int): (o: Outcome)
    requires rx.Valid() && r.WellFormed()
    ensures r.from != 0 ==> o.rx.Valid()
  {
    match KindOf(r.typ)
    case First => HandleFirst(rx, r, now)
    case Cont => HandleCont(rx, r)
    case Last => HandleLast(rx, r)
    case Unknown => Outcome(rx, Fail, None)
  }

  function CheckTimeout(rx: Rx, now: int): Rx {
    if rx.TimedOut(now) then rx.Reset() else rx
  }

  // ----- the sending node -----

  /** A transfer held in a node-list entry. All zero when no transfer is in progress. */
  datatype Tx = Tx(data: seq<Byte>, bytesCurrent: nat, bytesTotal: nat, ubea: bool, expectedBlock: nat)
  {
    predicate Valid() {
      bytesCurrent <= bytesTotal == |data| && bytesTotal % 2 == 0 && bytesTotal < TWO_TO_THE_31
    }
  }

  const NO_TRANSFER := Tx([], 0, 0, false, 0)

  function NextBytes(tx: Tx): nat
    requires tx.Valid()
  {
    Min(tx.bytesTotal - tx.bytesCurrent, BLOCK_BYTES)
  }

  function PacketType(tx: Tx): Byte
    requires tx.Valid()
  {
    var base := if tx.ubea then 3 else 0;
    if tx.bytesCurrent == 0 then base
    else if NextBytes(tx) == BLOCK_BYTES then base + 1
    else base + 2
  }

  /** Bytes at the front of a packet buffer that was cleared first. */
  function Padded(bytes: seq<Byte>): (block: Block)
    requires |bytes| <= BLOCK_BYTES
  {
    bytes + seq(BLOCK_BYTES - |bytes|, _ => 0)
  }

  function NextPacket(tx: Tx, self: Address): Master
    requires tx.Valid()
  {
    Master(self, PacketType(tx), tx.expectedBlock % 256, tx.bytesTotal / 2,
           HEADER_BYTES + BLOCK_BYTES,
           Padded(tx.data[tx.bytesCurrent..tx.bytesCurrent + NextBytes(tx)]))
  }

  function Advance(tx: Tx): Tx
    requires tx.Valid()
  {
    tx.(bytesCurrent := tx.bytesCurrent + NextBytes(tx), expectedBlock := (tx.expectedBlock + 1) % 256)
  }

  datatype Sent = Sent(tx: Tx, packet: Option<Master>, done: Option<Code>)

  /** One attempt to send; `sendOk` is the network's answer. */
  function Transmit(tx: Tx, self: Address, sendOk: bool): (s: Sent)
    requires tx.Valid()
    ensures s.tx.Valid()
  {
    if sendOk then Sent(Advance(tx), Some(NextPacket(tx, self)), None) else Sent(tx, None, None)
  }

  function StartTransfer(firmware: seq<Byte>, ubea: bool): Tx {
    Tx(firmware, 0, |firmware|, ubea, 0)
  }

  function HandleReply(tx: Tx, code: Code, self: Address, sendOk: bool): (s: Sent)
    requires tx.Valid()
    ensures s.tx.Valid()
  {
    if tx.bytesTotal == 0 then
      Sent(tx, None, None)
    else
      match code
      case AllGood => if tx.bytesTotal == tx.bytesCurrent then Sent(NO_TRANSFER, None, Some(AllGood)) else Sent(tx, None, None)
      case Fail => Sent(NO_TRANSFER, None, Some(Fail))
      case BlockGood => if tx.bytesTotal != tx.bytesCurrent then Transmit(tx, self, sendOk) else Sent(tx, None, None)
  }
}
