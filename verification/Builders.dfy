/** The builders as they are in the program: they fill a cleared packet buffer in place. */
module Builders {
  import opened Common
  import opened Tods
  import opened TodData
  import opened Codec

  /** Writing over a run of zeros. */
  lemma OverZeros(front: Bytes, m: nat, k: nat, bytes: Bytes)
    requires k + |bytes| <= m
    ensures Patched(front + Zeros(m), |front| + k, bytes) == front + Zeros(k) + bytes + Zeros(m - k - |bytes|)
  {
    var all := front + Zeros(m);
    assert all[..|front| + k] == front + Zeros(k);
    assert all[|front| + k + |bytes|..] == Zeros(m - k - |bytes|);
  }

  method Header(buffer: array<Byte>, op: nat)
    requires buffer.Length == BUFFER_BYTES && op < 0x1_0000
    modifies buffer
    ensures buffer[..] == Codec.Header(op) + old(buffer[..])[12..]
  {
    Copy(buffer, 0, ArtNet());
    buffer[8] := Low(op);
    buffer[9] := High(op);
    buffer[10] := 0;
    buffer[11] := PROTOCOL_VERSION;
  }

  method BuildFrame(op: nat, sequence: Byte, byte13: Byte, universe: nat, length: nat, data: Bytes) returns (bytes: Bytes)
    requires op < 0x1_0000 && universe < 0x1_0000 && length <= DMX_LENGTH && length <= |data|
    ensures bytes == Frame(op, sequence, byte13, universe, data[..length])
  {
    var buffer := new Byte[BUFFER_BYTES](_ => 0);
    Header(buffer, op);
    buffer[12] := sequence;
    buffer[13] := byte13;
    buffer[14] := Low(universe);
    buffer[15] := High(universe);
    buffer[16] := High(length);
    buffer[17] := Low(length);
    assert buffer[..DMX_HEADER] == Codec.Header(op) + [sequence, byte13, Low(universe), High(universe), High(length), Low(length)];
    Copy(buffer, DMX_HEADER, data[..length]);
    bytes := buffer[..DMX_HEADER + length];
  }

  /** artnet_send_dmx, up to the choice of receivers. */
  method SendDmx(n: Sender, portId: int, length: int, data: Bytes) returns (built: Built)
    requires n.Valid() && length <= |data|
    ensures built == BuildDmx(n, portId, length, data)
  {
    if !n.on {
      return Refused(EAction);
    }
    if portId < 0 || portId >= MAX_PORTS {
      return Refused(EArg);
    }
    var port := n.inputs[portId];
    if length < 2 || length > DMX_LENGTH || length % 2 == 1 {
      return Refused(EArg);
    }
    if port.disabled {
      return Refused(EArg);
    }
    var bytes := BuildFrame(OP_DMX, port.sequence, portId, port.addr, length, data);
    built := Built(bytes);
  }

  /** artnet_send_nzs and artnet_tx_nzs, up to the choice of receivers. */
  method SendNzs(n: Sender, universe: nat, startCode: Byte, length: int, data: Bytes) returns (built: Built)
    requires n.Valid() && universe < 0x1_0000 && length <= |data|
    ensures built == BuildNzs(n, universe, startCode, length, data)
  {
    if !n.on {
      return Refused(EAction);
    }
    if startCode == 0x00 || startCode == 0xcc || length < 1 || length > DMX_LENGTH {
      return Refused(EArg);
    }
    var uni := universe % 0x8000;
    if n.role == Server {
      built := SendThroughInput(n, uni, startCode, length, data);
      return;
    }
    if n.role != RawNode {
      return Refused(EState);
    }
    var bytes := BuildFrame(OP_NZS, 0, startCode, uni, length, data);
    built := Built(bytes);
  }

  /** The search of a server for its input, and artnet_tx_nzs. */
  method SendThroughInput(n: Sender, uni: nat, startCode: Byte, length: nat, data: Bytes) returns (built: Built)
    requires n.Valid() && uni < 0x8000 && 1 <= length <= DMX_LENGTH && length <= |data|
    ensures var k := InputOn(n.inputs, uni);
      built == if k == MAX_PORTS || n.inputs[k].disabled then Refused(EArg)
               else Built(Frame(OP_NZS, n.inputs[k].sequence, startCode, uni, data[..length]))
  {
    var i := 0;
    while i < MAX_PORTS && !(n.inputs[i].enabled && n.inputs[i].addr == uni)
      invariant 0 <= i <= MAX_PORTS
      invariant forall j | 0 <= j < i :: !(n.inputs[j].enabled && n.inputs[j].addr == uni)
    {
      i := i + 1;
    }
    FirstInput(n.inputs, uni, i);
    if i == MAX_PORTS || n.inputs[i].disabled {
      return Refused(EArg);
    }
    var bytes := BuildFrame(OP_NZS, n.inputs[i].sequence, startCode, n.inputs[i].addr, length, data);
    built := Built(bytes);
  }

  lemma FirstInput(inputs: seq<Input>, uni: nat, i: nat)
    requires i <= |inputs| && (i < |inputs| ==> inputs[i].enabled && inputs[i].addr == uni)
    requires forall j | 0 <= j < i :: !(inputs[j].enabled && inputs[j].addr == uni)
    ensures InputOn(inputs, uni) == i
  {
  }

  method SendTod(id: nat, bindIndex: Byte, addr: nat, block: TodBlock) returns (bytes: Bytes)
    requires id < MAX_PORTS && addr < 0x8000 && block.Valid()
    ensures bytes == BuildTod(id, bindIndex, addr, block)
  {
    var buffer := new Byte[BUFFER_BYTES](_ => 0);
    Header(buffer, OP_TOD_DATA);
    Copy(buffer, 12, [RDM_VERSION, id + 1, 0, 0, 0, 0, 0, 0]);
    Copy(buffer, 20, [if bindIndex == 0 then 1 else bindIndex, High(addr) % 128, TOD_FULL, Low(addr)]);
    Copy(buffer, 24, [High(block.uidTotal), Low(block.uidTotal), block.blockCount, block.uidCount]);
    assert buffer[..TOD_HEADER] == TodHeader(id, bindIndex, addr, block);
    Copy(buffer, TOD_HEADER, block.slots);
    bytes := buffer[..TOD_HEADER + BLOCK_SLOTS];
  }

  lemma CutZeros(front: Bytes, m: nat, n: nat)
    requires n <= m
    ensures (front + Zeros(m))[..|front| + n] == front + Zeros(n)
  {
  }

  method SendFileFn(n: Sender, name: Option<Bytes>) returns (built: Built)
    ensures built == BuildFileFn(n, name)
  {
    if !n.on {
      return Refused(EAction);
    }
    if name.None? || name.value == [] {
      return Refused(EArg);
    }
    var length := if |name.value| > 255 then 255 else |name.value|;
    var buffer := new Byte[BUFFER_BYTES](_ => 0);
    assert buffer[..] == Zeros(BUFFER_BYTES);
    Header(buffer, OP_FILE_FN_MASTER);
    assert buffer[..] == Codec.Header(OP_FILE_FN_MASTER) + Zeros(BUFFER_BYTES - 12);
    OverZeros(Codec.Header(OP_FILE_FN_MASTER), BUFFER_BYTES - 12, 13, [High(length), Low(length)]);
    Copy(buffer, 25, [High(length), Low(length)]);
    OverZeros(FileFnHeader(length), BUFFER_BYTES - FILE_FN_HEADER, 0, name.value[..length]);
    Copy(buffer, FILE_FN_HEADER, name.value[..length]);
    ghost var front := FileFnHeader(length) + name.value[..length];
    assert buffer[..] == front + Zeros(BUFFER_BYTES - FILE_FN_HEADER - length);
    buffer[FILE_FN_HEADER + length] := 0;
    assert buffer[..] == front + Zeros(BUFFER_BYTES - FILE_FN_HEADER - length);
    CutZeros(front, BUFFER_BYTES - FILE_FN_HEADER - length, FILENAME_BYTES - length);
    built := Built(buffer[..FILE_FN_HEADER + FILENAME_BYTES]);
  }
}
