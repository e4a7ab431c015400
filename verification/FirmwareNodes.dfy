/** The firmware fields of the two nodes, updated in place by the packet handlers. */
module FirmwareNodes {
  import opened Common
  import opened Firmware

  /** The receiving node's `firmware` struct. */
  class Receiver {
    var peer: Address
    var data: array?<Cell>
    var bytesCurrent: int
    var bytesTotal: int
    var ubea: bool
    var lastTime: int
    var expectedBlock: nat

    ghost predicate Valid()
      reads this
    {
      && (data == null <==> bytesTotal == 0)
      && (peer == 0 <==> bytesTotal == 0)
      && (data != null ==> data.Length == bytesTotal)
    }

    ghost function View(): (rx: Rx)
      requires Valid()
      reads this, data
      ensures rx.Valid()
    {
      Rx(peer, if data == null then [] else data[..], bytesCurrent, bytesTotal, ubea, lastTime, expectedBlock)
    }

    constructor ()
      ensures Valid() && View() == IDLE
    {
      peer, data, bytesCurrent, bytesTotal, ubea, lastTime, expectedBlock := 0, null, 0, 0, false, 0, 0;
    }

    method Reset()
      requires Valid()
      modifies this
      ensures Valid() && View() == old(View()).Reset()
    {
      bytesCurrent := 0;
      bytesTotal := 0;
      peer := 0;
      ubea := false;
      lastTime := 0;
      data := null;
    }

    method CheckTimeout(now: int)
      requires Valid()
      modifies this
      ensures Valid() && View() == Firmware.CheckTimeout(old(View()), now)
    {
      if peer != 0 && now - lastTime >= FIRMWARE_TIMEOUT_MS {
        Reset();
      }
    }

    method HandleFirst(p: Datagram, now: int) returns (code: Code, delivery: Option<Delivery>)
      requires Valid() && p.from != 0
      modifies this
      ensures Valid() && Outcome(View(), code, delivery) == Firmware.HandleFirst(old(View()), Read(Decode(p)), now)
    {
      if peer != 0 {
        return Fail, None;
      }
      var length, payload := ToInt32(2 * BytesToInt32(p.length)), Min(p.size - HEADER_BYTES, BLOCK_BYTES);
      if length <= 0 || payload <= 0 || payload % 2 != 0 {
        return Fail, None;
      }
      var buffer := new Cell[length](_ => Unset);
      peer, data, bytesTotal, lastTime, expectedBlock := p.from, buffer, length, now, 1;
      ubea := p.typ != 0;
      var n := Min(length, payload);
      forall i | 0 <= i < n { buffer[i] := Known(p.data[i]); }
      bytesCurrent := n;
      assert buffer[..] == Cells(p.data[..n]) + Blank(length - n);
      if n == length {
        return AllGood, Some(Delivery(ubea, buffer[..]));
      }
      return BlockGood, None;
    }

    /** memcpy of the first `n` bytes of a packet to an offset of the upload buffer. */
    method Store(offset: nat, bytes: Block, n: nat)
      requires Valid() && data != null && n <= BLOCK_BYTES && offset + n <= data.Length
      modifies data
      ensures Valid() && View() == old(View()).(data := Overwrite(old(View().data), offset, bytes[..n]))
    {
      forall i | 0 <= i < n { data[offset + i] := Known(bytes[i]); }
      assert data[..] == Overwrite(old(data[..]), offset, bytes[..n]);
    }

    method HandleCont(p: Datagram) returns (code: Code)
      requires Valid() && p.from != 0
      modifies this, data
      ensures Valid() && Outcome(View(), code, None) == Firmware.HandleCont(old(View()), Read(Decode(p)))
    {
      var length, payload := ToInt32(2 * BytesToInt32(p.length)), Min(p.size - HEADER_BYTES, BLOCK_BYTES);
      if length <= 0 || payload <= 0 || payload % 2 != 0 {
        return Fail;
      }
      var totalBlocks := length / BLOCK_BYTES + 1;
      var blockId := p.blockId;
      if expectedBlock > 255 && expectedBlock % 256 == p.blockId {
        blockId := expectedBlock;
      }
      var offset := blockId * BLOCK_BYTES;
      if peer == p.from && length == bytesTotal && blockId < totalBlocks - 1 &&
         offset >= 0 && offset + BLOCK_BYTES <= bytesTotal && payload >= BLOCK_BYTES {
        assert p.data[..BLOCK_BYTES] == p.data;
        Store(offset, p.data, BLOCK_BYTES);
        bytesCurrent := bytesCurrent + BLOCK_BYTES;
        expectedBlock := expectedBlock + 1;
        return BlockGood;
      }
      return Fail;
    }

    method HandleLast(p: Datagram) returns (code: Code, delivery: Option<Delivery>)
      requires Valid() && p.from != 0
      modifies this, data
      ensures Valid() && Outcome(View(), code, delivery) == Firmware.HandleLast(old(View()), Read(Decode(p)))
    {
      var length, payload := ToInt32(2 * BytesToInt32(p.length)), Min(p.size - HEADER_BYTES, BLOCK_BYTES);
      if length <= 0 || payload <= 0 || payload % 2 != 0 {
        return Fail, None;
      }
      var totalBlocks := length / BLOCK_BYTES + 1;
      var n := bytesTotal % BLOCK_BYTES;
      if n == 0 {
        n := BLOCK_BYTES;
      }
      if payload < n {
        return Fail, None;
      }
      var blockId := p.blockId;
      if expectedBlock > 255 && expectedBlock % 256 == p.blockId {
        blockId := expectedBlock;
      }
      var offset := blockId * BLOCK_BYTES;
      if peer == p.from && length == bytesTotal && blockId == totalBlocks - 1 &&
         offset >= 0 && offset + n <= bytesTotal {
        Store(offset, p.data, n);
        bytesCurrent := bytesCurrent + n;
        delivery := Some(Delivery(ubea, data[..]));
        Reset();
        return AllGood, delivery;
      }
      return Fail, None;
    }

    method HandleFirmware(p: Datagram, now: int) returns (code: Code, delivery: Option<Delivery>)
      requires Valid() && p.from != 0
      modifies this, data
      ensures Valid() && Outcome(View(), code, delivery) == Handle(old(View()), Read(Decode(p)), now)
    {
      code, delivery := Fail, None;
      if p.typ == 0 || p.typ == 3 {
        code, delivery := HandleFirst(p, now);
      } else if p.typ == 1 || p.typ == 4 {
        code := HandleCont(p);
      } else if p.typ == 2 || p.typ == 5 {
        code, delivery := HandleLast(p);
      }
    }
  }

  /** The `firmware` struct of a node-list entry on the sending side. */
  class Sender {
    var data: seq<Byte>
    var bytesCurrent: nat
    var bytesTotal: nat
    var ubea: bool
    var expectedBlock: nat

    ghost function View(): Tx
      reads this
    {
      Tx(data, bytesCurrent, bytesTotal, ubea, expectedBlock)
    }

    ghost predicate Valid()
      reads this
    {
      View().Valid()
    }

    /** The transfer stands as `s` says, and this is what went out. */
    ghost predicate Answers(packet: Option<Datagram>, done: Option<Code>, s: Sent)
      reads this
    {
      View() == s.tx && done == s.done && packet == if s.packet.Some? then Some(Encode(s.packet.value)) else None
    }

    constructor ()
      ensures Valid() && View() == NO_TRANSFER
    {
      data, bytesCurrent, bytesTotal, ubea, expectedBlock := [], 0, 0, false, 0;
    }

    method TxFirmwarePacket(self: Address, sendOk: bool) returns (packet: Option<Datagram>)
      requires Valid()
      modifies this
      ensures Valid() && Answers(packet, None, Transmit(old(View()), self, sendOk))
    {
      var n := Min(bytesTotal - bytesCurrent, BLOCK_BYTES);
      var typ: Byte;
      if ubea {
        typ := if bytesCurrent == 0 then 3 else if n == BLOCK_BYTES then 4 else 5;
      } else {
        typ := if bytesCurrent == 0 then 0 else if n == BLOCK_BYTES then 1 else 2;
      }
      var buffer := new Byte[BLOCK_BYTES](_ => 0);
      forall i | 0 <= i < n { buffer[i] := data[bytesCurrent + i]; }
      assert buffer[..] == Padded(data[bytesCurrent..bytesCurrent + n]);
      if !sendOk {
        return None;
      }
      packet := Some(Datagram(self, typ, expectedBlock % 256, IntToBytes(bytesTotal / 2),
                            HEADER_BYTES + BLOCK_BYTES, buffer[..]));
      bytesCurrent := bytesCurrent + n;
      expectedBlock := expectedBlock + 1;
      expectedBlock := expectedBlock % 256;
    }

    method SendFirmware(firmware: seq<Byte>, isUbea: bool, self: Address, sendOk: bool) returns (packet: Option<Datagram>)
      requires |firmware| % 2 == 0 && |firmware| < TWO_TO_THE_31
      modifies this
      ensures Valid() && Answers(packet, None, Transmit(StartTransfer(firmware, isUbea), self, sendOk))
    {
      data, bytesCurrent, bytesTotal, ubea, expectedBlock := firmware, 0, |firmware|, isUbea, 0;
      packet := TxFirmwarePacket(self, sendOk);
    }

    method HandleFirmwareReply(code: Code, self: Address, sendOk: bool) returns (packet: Option<Datagram>, done: Option<Code>)
      requires Valid()
      modifies this
      ensures Valid() && Answers(packet, done, HandleReply(old(View()), code, self, sendOk))
    {
      packet, done := None, None;
      if bytesTotal == 0 {
        return;
      }
      if code == AllGood {
        if bytesTotal == bytesCurrent {
          done := Some(AllGood);
          data, bytesCurrent, bytesTotal, ubea, expectedBlock := [], 0, 0, false, 0;
        }
      } else if code == Fail {
        done := Some(Fail);
        data, bytesCurrent, bytesTotal, ubea, expectedBlock := [], 0, 0, false, 0;
      } else if bytesTotal != bytesCurrent {
        packet := TxFirmwarePacket(self, sendOk);
      }
    }
  }
}
