/** Packets as bytes: the builders, and the two validators and field reads on the receiving side,
    for ArtDmx, ArtNzs (and ArtVlc), ArtTodData and ArtFileFnMaster. */
module Codec {
  import opened Common
  import opened Subscribers
  import opened Tods
  import opened TodData

  type Bytes = seq<Byte>

  const BUFFER_BYTES := 2068       // the largest packet, ArtDirectoryReply
  const DMX_LENGTH := 512
  const DMX_HEADER := 18
  const TOD_HEADER := 28
  const FILENAME_BYTES := 256
  const FILE_FN_HEADER := 27
  const MIN_PACKET := 10
  const MAX_PORTS := 4

  const PROTOCOL_VERSION: Byte := 14
  const RDM_VERSION: Byte := 1
  const VLC_START_CODE: Byte := 0x91
  const VLC_MIN_LENGTH := 22
  const TOD_FULL: Byte := 0x00
  const TOD_NAK: Byte := 0xff

  const OP_DMX := 0x5000
  const OP_NZS := 0x5100
  const OP_TOD_DATA := 0x8100
  const OP_FILE_FN_MASTER := 0xf500

  function ArtNet(): Bytes { [0x41, 0x72, 0x74, 0x2d, 0x4e, 0x65, 0x74, 0x00] }

  function High(x: int): Byte { x / 256 % 256 }

  function Low(x: int): Byte { x % 256 }

  function Short(high: Byte, low: Byte): nat { high * 256 + low }

  function Zeros(n: nat): (r: Bytes)
    ensures |r| == n
  {
    seq(n, _ => 0)
  }

  lemma ShortOfBytes(x: nat)
    requires x < 0x1_0000
    ensures Short(High(x), Low(x)) == x
  {
  }

  // ----- receiving -----

  /** A receive buffer, of which `length` bytes came from the network. */
  datatype Packet = Packet(data: Bytes, length: nat)
  {
    predicate Valid() { |data| == BUFFER_BYTES && length <= BUFFER_BYTES }
  }

  /** The buffer is cleared before a datagram is read into it; what does not fit is cut off. */
  function Receive(bytes: Bytes): (p: Packet)
    ensures p.Valid()
  {
    var n := Min(|bytes|, BUFFER_BYTES);
    Packet(bytes[..n] + Zeros(BUFFER_BYTES - n), n)
  }

  /** 0 stands for "not an Art-Net packet". */
  function TypeOf(p: Packet): nat
    requires p.Valid()
  {
    if p.length < MIN_PACKET || p.data[..8] != ArtNet() then 0 else Short(p.data[9], p.data[8])
  }

  function MinLength(op: nat): nat
    requires op == OP_DMX || op == OP_NZS || op == OP_TOD_DATA || op == OP_FILE_FN_MASTER
  {
    if op == OP_DMX || op == OP_NZS then DMX_HEADER else if op == OP_TOD_DATA then TOD_HEADER else FILE_FN_HEADER
  }

  /** The shape of ArtVlc data: magic bytes, and a payload count that matches the length. */
  predicate VlcShaped(data: Bytes) {
    && |data| >= VLC_MIN_LENGTH
    && data[0] == 0x41 && data[1] == 0x4c && data[2] == 0x45
    && Short(data[8], data[9]) == |data| - VLC_MIN_LENGTH
  }

  predicate DmxFieldsValid(p: Packet)
    requires p.Valid()
  {
    var n := Short(p.data[16], p.data[17]);
    2 <= n <= DMX_LENGTH && n % 2 == 0 && p.length >= DMX_HEADER + n
  }

  predicate NzsFieldsValid(p: Packet)
    requires p.Valid()
  {
    var n, startCode := Short(p.data[16], p.data[17]), p.data[13];
    && 1 <= n <= DMX_LENGTH && p.length >= DMX_HEADER + n
    && startCode != 0x00 && startCode != 0xcc
    && (startCode == VLC_START_CODE ==> VlcShaped(p.data[DMX_HEADER..DMX_HEADER + n]))
  }

  predicate TodFieldsValid(p: Packet)
    requires p.Valid()
  {
    var uidCount: nat := p.data[27];
    && p.data[12] == RDM_VERSION && 1 <= p.data[13] <= MAX_PORTS && p.data[20] != 0
    && (p.data[22] == TOD_FULL || p.data[22] == TOD_NAK)
    && uidCount <= BLOCK_UIDS && p.length >= TOD_HEADER + uidCount * UID_BYTES
  }

  predicate FileFnFieldsValid(p: Packet)
    requires p.Valid()
  {
    var n := Short(p.data[25], p.data[26]);
    1 <= n <= 255 && p.length >= FILE_FN_HEADER + n + 1 && p.data[FILE_FN_HEADER + n] == 0
  }

  predicate VersionValid(p: Packet)
    requires p.Valid()
  {
    Short(p.data[10], p.data[11]) >= PROTOCOL_VERSION
  }

  /** What the handlers read off a packet. */
  datatype Message =
    | Dmx(sequence: Byte, physical: Byte, universe: nat, payload: Bytes)
    | Nzs(sequence: Byte, startCode: Byte, universe: nat, payload: Bytes)
    | Tod(port: Byte, bindIndex: Byte, address: nat, cmdRes: Byte, block: TodBlock)
    | FileFn(name: Bytes)

  function Parse(p: Packet): Option<Message>
    requires p.Valid()
  {
    var op := TypeOf(p);
    if !(op == OP_DMX || op == OP_NZS || op == OP_TOD_DATA || op == OP_FILE_FN_MASTER) then None
    else if p.length < MinLength(op) || !VersionValid(p) then None
    else if op == OP_DMX then if DmxFieldsValid(p) then Some(ReadDmx(p)) else None
    else if op == OP_NZS then if NzsFieldsValid(p) then Some(ReadNzs(p)) else None
    else if op == OP_TOD_DATA then if TodFieldsValid(p) then Some(ReadTod(p)) else None
    else if FileFnFieldsValid(p) then Some(FileFn(p.data[FILE_FN_HEADER..FILE_FN_HEADER + Short(p.data[25], p.data[26])]))
    else None
  }

  function ReadDmx(p: Packet): Message
    requires p.Valid() && DmxFieldsValid(p)
  {
    Dmx(p.data[12], p.data[13], Short(p.data[15], p.data[14]), p.data[DMX_HEADER..DMX_HEADER + Short(p.data[16], p.data[17])])
  }

  function ReadNzs(p: Packet): Message
    requires p.Valid() && NzsFieldsValid(p)
  {
    Nzs(p.data[12], p.data[13], Short(p.data[15], p.data[14]), p.data[DMX_HEADER..DMX_HEADER + Short(p.data[16], p.data[17])])
  }

  function ReadTod(p: Packet): Message
    requires p.Valid() && TodFieldsValid(p)
  {
    Tod(p.data[13], p.data[20], MakeAddr(p.data[21], p.data[23] / 16, p.data[23] % 16), p.data[22],
        TodBlock(Short(p.data[24], p.data[25]), p.data[26], p.data[27], p.data[TOD_HEADER..TOD_HEADER + BLOCK_SLOTS]))
  }

  // ----- building -----

  function Header(op: nat): (h: Bytes)
    requires op < 0x1_0000
    ensures |h| == 12
  {
    ArtNet() + [Low(op), High(op), 0, PROTOCOL_VERSION]
  }

  /** ArtDmx and ArtNzs differ in their fourteenth byte only: Physical, or the start code. */
  function Frame(op: nat, sequence: Byte, byte13: Byte, universe: nat, data: Bytes): (r: Bytes)
    requires op < 0x1_0000 && universe < 0x1_0000 && |data| < 0x1_0000
    ensures |r| == DMX_HEADER + |data|
  {
    Header(op) + [sequence, byte13, Low(universe), High(universe), High(|data|), Low(|data|)] + data
  }

  /** An input port: may it send, and what goes into its packets. */
  datatype Input = Input(enabled: bool, disabled: bool, addr: PortAddress, sequence: Byte)

  type PortAddress = a: nat | a < 0x8000

  datatype Role = Server | RawNode | OtherNode

  /** What the senders look at in a node. */
  datatype Sender = Sender(on: bool, role: Role, inputs: seq<Input>, vlcDisabled: bool)
  {
    predicate Valid() { |inputs| == MAX_PORTS }
  }

  datatype Error = EAction | EArg | EState

  datatype Built = Built(bytes: Bytes) | Refused(error: Error)

  /** artnet_send_dmx */
  function BuildDmx(n: Sender, portId: int, length: int, data: Bytes): Built
    requires n.Valid() && length <= |data|
  {
    if !n.on then Refused(EAction)
    else if !(0 <= portId < MAX_PORTS) || length < 2 || length > DMX_LENGTH || length % 2 == 1 || n.inputs[portId].disabled then Refused(EArg)
    else Built(Frame(OP_DMX, n.inputs[portId].sequence, portId, n.inputs[portId].addr, data[..length]))
  }

  /** The first enabled input on a universe, or none. */
  function InputOn(inputs: seq<Input>, universe: nat): (k: nat)
    ensures k <= |inputs| && (k < |inputs| ==> inputs[k].enabled && inputs[k].addr == universe)
    ensures forall i | 0 <= i < k :: !(inputs[i].enabled && inputs[i].addr == universe)
  {
    if inputs == [] || (inputs[0].enabled && inputs[0].addr == universe) then 0 else 1 + InputOn(inputs[1..], universe)
  }

  /** artnet_send_nzs: a server sends through its input on the universe, a raw node directly. */
  function BuildNzs(n: Sender, universe: nat, startCode: Byte, length: int, data: Bytes): Built
    requires n.Valid() && universe < 0x1_0000 && length <= |data|
  {
    var uni, k := universe % 0x8000, InputOn(n.inputs, universe % 0x8000);
    if !n.on then Refused(EAction)
    else if startCode == 0x00 || startCode == 0xcc || length < 1 || length > DMX_LENGTH then Refused(EArg)
    else
      match n.role
      case Server =>
        if k == MAX_PORTS || n.inputs[k].disabled then Refused(EArg)
        else Built(Frame(OP_NZS, n.inputs[k].sequence, startCode, uni, data[..length]))
      case RawNode => Built(Frame(OP_NZS, 0, startCode, uni, data[..length]))
      case OtherNode => Refused(EState)
  }

  /** artnet_send_vlc */
  function BuildVlc(n: Sender, universe: nat, length: int, data: Bytes): Built
    requires n.Valid() && universe < 0x1_0000 && length <= |data|
  {
    if n.vlcDisabled then Refused(EAction)
    else if length < VLC_MIN_LENGTH || length > DMX_LENGTH || data[..3] != [0x41, 0x4c, 0x45] then Refused(EArg)
    else
      var count := Short(data[8], data[9]);
      if count != length - VLC_MIN_LENGTH || count > DMX_LENGTH - VLC_MIN_LENGTH then Refused(EArg)
      else BuildNzs(n, universe, VLC_START_CODE, length, data)
  }

  function TodHeader(id: nat, bindIndex: Byte, addr: nat, block: TodBlock): (r: Bytes)
    requires id < MAX_PORTS && addr < 0x8000 && block.Valid()
    ensures |r| == TOD_HEADER
  {
    Header(OP_TOD_DATA)
    + [RDM_VERSION, id + 1, 0, 0, 0, 0, 0, 0, if bindIndex == 0 then 1 else bindIndex, High(addr) % 128, TOD_FULL, Low(addr),
       High(block.uidTotal), Low(block.uidTotal), block.blockCount, block.uidCount]
  }

  /** artnet_tx_tod_data, one packet */
  function BuildTod(id: nat, bindIndex: Byte, addr: nat, block: TodBlock): (r: Bytes)
    requires id < MAX_PORTS && addr < 0x8000 && block.Valid()
    ensures |r| == TOD_HEADER + BLOCK_SLOTS
  {
    TodHeader(id, bindIndex, addr, block) + block.slots
  }

  function FileFnHeader(n: nat): (r: Bytes)
    ensures |r| == FILE_FN_HEADER
  {
    Header(OP_FILE_FN_MASTER) + Zeros(13) + [High(n), Low(n)]
  }

  /** artnet_tx_file_fn_master: a missing or empty name is refused, a long one cut. */
  function BuildFileFn(n: Sender, name: Option<Bytes>): Built {
    if !n.on then Refused(EAction)
    else if name.None? || name.value == [] then Refused(EArg)
    else
      var length := Min(|name.value|, 255);
      Built(FileFnHeader(length) + name.value[..length] + Zeros(FILENAME_BYTES - length))
  }

  // ----- what is built is understood -----

  lemma FrameReceived(op: nat, sequence: Byte, byte13: Byte, universe: nat, data: Bytes)
    requires (op == OP_DMX || op == OP_NZS) && universe < 0x1_0000 && 1 <= |data| <= DMX_LENGTH
    ensures var p := Receive(Frame(op, sequence, byte13, universe, data));
      && TypeOf(p) == op && p.length == DMX_HEADER + |data| && VersionValid(p)
      && p.data[12] == sequence && p.data[13] == byte13
      && Short(p.data[15], p.data[14]) == universe
      && Short(p.data[16], p.data[17]) == |data|
      && p.data[DMX_HEADER..DMX_HEADER + |data|] == data
  {
    var p := Receive(Frame(op, sequence, byte13, universe, data));
    ShortOfBytes(universe);
    ShortOfBytes(|data|);
    ShortOfBytes(op);
    assert p.data[..8] == ArtNet();
  }

  /** artnet_send_dmx takes every even length from 2 to 512 on a port that may send. */
  lemma DmxRoundTrip(n: Sender, portId: int, length: int, data: Bytes)
    requires n.Valid() && length <= |data|
    ensures var built := BuildDmx(n, portId, length, data);
      && (built.Built? <==> n.on && 0 <= portId <= 3 && 2 <= length <= 512 && length % 2 == 0 && !n.inputs[portId].disabled)
      && built != Refused(EState) && (built == Refused(EAction) <==> !n.on)
      && (built.Built? ==> Parse(Receive(built.bytes)) == Some(Dmx(n.inputs[portId].sequence, portId, n.inputs[portId].addr, data[..length])))
  {
    if BuildDmx(n, portId, length, data).Built? {
      FrameReceived(OP_DMX, n.inputs[portId].sequence, portId, n.inputs[portId].addr, data[..length]);
    }
  }

  function NzsSequence(n: Sender, universe: nat): Byte
    requires n.Valid()
  {
    var k := InputOn(n.inputs, universe % 0x8000);
    if n.role == Server && k < MAX_PORTS then n.inputs[k].sequence else 0
  }

  /** The lowest enabled input on the universe is not barred from sending. */
  predicate SendsAt(inputs: seq<Input>, universe: nat, k: int)
    requires |inputs| == MAX_PORTS
  {
    && 0 <= k < MAX_PORTS && inputs[k].enabled && inputs[k].addr == universe && !inputs[k].disabled
    && forall i | 0 <= i < k :: !(inputs[i].enabled && inputs[i].addr == universe)
  }

  /** A raw node may send on any universe, a server where it has such an input. */
  ghost predicate MaySendOn(n: Sender, universe: nat)
    requires n.Valid()
  {
    n.role == RawNode || (n.role == Server && exists k :: SendsAt(n.inputs, universe, k))
  }

  lemma InputSendsAt(inputs: seq<Input>, universe: nat)
    requires |inputs| == MAX_PORTS
    ensures var k := InputOn(inputs, universe);
      (k < MAX_PORTS && !inputs[k].disabled) <==> exists j :: SendsAt(inputs, universe, j)
  {
    var k := InputOn(inputs, universe);
    if j :| SendsAt(inputs, universe, j) {
      assert k <= j && !(j < k);
    }
    assert k < MAX_PORTS && !inputs[k].disabled ==> SendsAt(inputs, universe, k);
  }

  /** artnet_send_nzs takes 1 to 512 bytes under any start code but those of ArtDmx and RDM. */
  lemma NzsTaken(n: Sender, universe: nat, startCode: Byte, length: int, data: Bytes)
    requires n.Valid() && universe < 0x1_0000 && length <= |data|
    ensures var built := BuildNzs(n, universe, startCode, length, data);
      && (built.Built? <==> n.on && startCode != 0 && startCode != 0xcc && 1 <= length <= 512 && MaySendOn(n, universe % 0x8000))
      && (built == Refused(EAction) <==> !n.on)
      && (built == Refused(EState) ==> n.role == OtherNode)
  {
    InputSendsAt(n.inputs, universe % 0x8000);
  }

  /** A receiver takes an ArtNzs packet that the library sends exactly when it is not marked as
      VLC, or has the shape of VLC data. */
  lemma NzsRoundTrip(n: Sender, universe: nat, startCode: Byte, length: int, data: Bytes)
    requires n.Valid() && universe < 0x1_0000 && length <= |data|
    ensures var built := BuildNzs(n, universe, startCode, length, data);
      built.Built? ==>
        Parse(Receive(built.bytes)) ==
          if startCode != 0x91 || VlcShaped(data[..length])
          then Some(Nzs(NzsSequence(n, universe), startCode, universe % 0x8000, data[..length])) else None
  {
    if BuildNzs(n, universe, startCode, length, data).Built? {
      FrameReceived(OP_NZS, NzsSequence(n, universe), startCode, universe % 0x8000, data[..length]);
    }
  }

  /** artnet_send_vlc takes exactly the data that receivers take as VLC, and passes it on. */
  lemma VlcRoundTrip(n: Sender, universe: nat, length: int, data: Bytes)
    requires n.Valid() && universe < 0x1_0000 && length <= |data|
    ensures var built := BuildVlc(n, universe, length, data);
      && built == (if n.vlcDisabled then Refused(EAction) else if 0 <= length <= DMX_LENGTH && VlcShaped(data[..length]) then BuildNzs(n, universe, VLC_START_CODE, length, data) else Refused(EArg))
      && (built.Built? ==>
            Parse(Receive(built.bytes)) == Some(Nzs(NzsSequence(n, universe), VLC_START_CODE, universe % 0x8000, data[..length])))
  {
    if length >= VLC_MIN_LENGTH {
      assert data[..length][..3] == data[..3] == [data[0], data[1], data[2]];
    }
    NzsRoundTrip(n, universe, VLC_START_CODE, length, data);
  }

  /** What a receiver takes is well formed and was received in full, from a sender of protocol
      version 14 or later. */
  lemma ParsedIsSound(p: Packet)
    requires p.Valid() && Parse(p).Some?
    ensures p.length >= 10 && p.data[0] == 0x41 && p.data[7] == 0 && Short(p.data[10], p.data[11]) >= 14
    ensures match Parse(p).value
      case Dmx(_, _, universe, payload) =>
        && p.data[9] == 0x50 && p.data[8] == 0 && universe == Short(p.data[15], p.data[14])
        && 2 <= |payload| <= 512 && |payload| % 2 == 0 && p.length >= 18 + |payload|
      case Nzs(_, startCode, universe, payload) =>
        && p.data[9] == 0x51 && p.data[8] == 0 && universe == Short(p.data[15], p.data[14])
        && 1 <= |payload| <= 512 && p.length >= 18 + |payload| && startCode != 0 && startCode != 0xcc
        && (startCode == 0x91 ==> |payload| >= 22 && payload[..3] == [0x41, 0x4c, 0x45])
      case Tod(port, bindIndex, address, cmdRes, block) =>
        && p.data[9] == 0x81 && p.data[8] == 0 && 1 <= port <= 4 && bindIndex != 0 && (cmdRes == 0 || cmdRes == 0xff)
        && address < 0x8000 && block.Valid() && p.data[12] == 1 && p.length >= 28 + 6 * (block.uidCount as int)
      case FileFn(name) => p.data[9] == 0xf5 && p.data[8] == 0 && 1 <= |name| <= 255 && p.length > 27 + |name| && p.data[27 + |name|] == 0
  {
  }

  lemma Nibbles(net: nat, low: nat)
    requires net < 128 && low < 256
    ensures MakeAddr(net, low / 16, low % 16) == net * 256 + low
  {
    assert low == low / 16 * 16 + low % 16 && low / 16 < 16;
  }

  lemma SmallHigh(addr: nat)
    requires addr < 0x8000
    ensures High(addr) % 128 == addr / 256
  {
    assert addr / 256 < 128;
  }

  lemma AddressOfBytes(addr: nat)
    requires addr < 0x8000
    ensures MakeAddr(High(addr) % 128, Low(addr) / 16, Low(addr) % 16) == addr
  {
    var net, low := addr / 256, addr % 256;
    SmallHigh(addr);
    Nibbles(net, low);
  }

  lemma TodReceived(id: nat, bindIndex: Byte, addr: nat, block: TodBlock)
    requires id < MAX_PORTS && addr < 0x8000 && block.Valid()
    ensures var p := Receive(BuildTod(id, bindIndex, addr, block));
      && TypeOf(p) == OP_TOD_DATA && p.length == TOD_HEADER + BLOCK_SLOTS && VersionValid(p)
      && p.data[12] == RDM_VERSION && p.data[13] == id + 1 && p.data[20] == (if bindIndex == 0 then 1 else bindIndex)
      && p.data[21] == High(addr) % 128 && p.data[22] == TOD_FULL && p.data[23] == Low(addr)
      && p.data[24] == High(block.uidTotal) && p.data[25] == Low(block.uidTotal)
      && p.data[26] == block.blockCount && p.data[27] == block.uidCount
      && p.data[TOD_HEADER..TOD_HEADER + BLOCK_SLOTS] == block.slots
  {
    var p := Receive(BuildTod(id, bindIndex, addr, block));
    assert p.data[..8] == ArtNet();
    assert p.data[TOD_HEADER..TOD_HEADER + BLOCK_SLOTS] == block.slots;
  }

  lemma TodRoundTrip(id: nat, bindIndex: Byte, addr: nat, block: TodBlock)
    requires id < MAX_PORTS && addr < 0x8000 && block.Valid()
    ensures Parse(Receive(BuildTod(id, bindIndex, addr, block))) ==
      Some(Tod(id + 1, if bindIndex == 0 then 1 else bindIndex, addr, 0, block))
  {
    TodReceived(id, bindIndex, addr, block);
    ShortOfBytes(block.uidTotal);
    AddressOfBytes(addr);
  }

  /** The datagrams of these blocks. */
  function TodDatagrams(id: nat, bindIndex: Byte, addr: nat, blocks: seq<TodBlock>): (r: seq<Bytes>)
    requires id < MAX_PORTS && addr < 0x8000 && forall b <- blocks :: b.Valid()
    ensures |r| == |blocks|
  {
    seq(|blocks|, k requires 0 <= k < |blocks| => BuildTod(id, bindIndex, addr, blocks[k]))
  }

  /** The devices in a datagram, if it is ArtTodData for this address. */
  function DevicesIn(datagram: Bytes, addr: nat): Table {
    var m := Parse(Receive(datagram));
    if m.Some? && m.value.Tod? && m.value.address == addr && m.value.block.Valid() then m.value.block.Contents() else []
  }

  lemma DevicesInBlock(id: nat, bindIndex: Byte, addr: nat, block: TodBlock)
    requires id < MAX_PORTS && addr < 0x8000 && block.Valid()
    ensures DevicesIn(BuildTod(id, bindIndex, addr, block), addr) == block.Contents()
  {
    TodRoundTrip(id, bindIndex, addr, block);
  }

  /** The devices in all datagrams, one behind the other. */
  function Heard(datagrams: seq<Bytes>, addr: nat): Table {
    if datagrams == [] then []
    else Heard(datagrams[..|datagrams| - 1], addr) + DevicesIn(datagrams[|datagrams| - 1], addr)
  }

  lemma HeardNext(datagrams: seq<Bytes>, addr: nat, n: nat)
    requires n + 1 == |datagrams|
    ensures Heard(datagrams, addr) == Heard(datagrams[..n], addr) + DevicesIn(datagrams[n], addr)
  {
  }

  lemma {:induction false} BlocksHeard(id: nat, bindIndex: Byte, addr: nat, blocks: seq<TodBlock>)
    requires id < MAX_PORTS && addr < 0x8000 && forall b <- blocks :: b.Valid()
    ensures Heard(TodDatagrams(id, bindIndex, addr, blocks), addr) == Received(blocks)
  {
    if blocks == [] {
    } else {
      var n := |blocks| - 1;
      var datagrams := TodDatagrams(id, bindIndex, addr, blocks);
      BlocksHeard(id, bindIndex, addr, blocks[..n]);
      HeardNext(datagrams, addr, n);
      assert datagrams[..n] == TodDatagrams(id, bindIndex, addr, blocks[..n]);
      DevicesInBlock(id, bindIndex, addr, blocks[n]);
    }
  }

  /** A table sent in full is heard in full, byte by byte over the wire. */
  lemma TableOverTheWire(id: nat, bindIndex: Byte, addr: nat, bytes: Bytes, n: nat)
    requires id < MAX_PORTS && addr < 0x8000 && UID_BYTES * n <= |bytes|
    ensures Heard(TodDatagrams(id, bindIndex, addr, Blocks(bytes, n)), addr) == Uids(bytes, n)
  {
    BlocksHeard(id, bindIndex, addr, Blocks(bytes, n));
    WholeTable(bytes, n);
  }

  lemma Middle(a: Bytes, b: Bytes, c: Bytes)
    ensures (a + b + c)[|a|..|a| + |b|] == b
  {
  }

  lemma HeaderRead(p: Packet, op: nat, rest: Bytes)
    requires p.Valid() && p.length >= MIN_PACKET && op < 0x1_0000 && p.data == Header(op) + rest
    ensures TypeOf(p) == op && VersionValid(p)
  {
    assert p.data[..8] == ArtNet();
    assert p.data[8] == Low(op) && p.data[9] == High(op);
    ShortOfBytes(op);
  }

  lemma FileFnLengthRead(p: Packet, length: nat, rest: Bytes)
    requires p.Valid() && p.data == FileFnHeader(length) + rest && length <= 255
    ensures Short(p.data[25], p.data[26]) == length
  {
    assert p.data[25] == FileFnHeader(length)[25] == High(length) && p.data[26] == FileFnHeader(length)[26] == Low(length);
    ShortOfBytes(length);
  }

  /** How a file request lies in the receive buffer. */
  lemma FileFnLayout(length: nat, name: Bytes) returns (p: Packet, tail: Bytes)
    requires 1 <= length == |name| <= 255
    ensures p == Receive(FileFnHeader(length) + name + Zeros(FILENAME_BYTES - length))
    ensures p.length == FILE_FN_HEADER + FILENAME_BYTES && p.data == FileFnHeader(length) + name + tail
    ensures tail != [] && tail[0] == 0
  {
    p := Receive(FileFnHeader(length) + name + Zeros(FILENAME_BYTES - length));
    tail := Zeros(FILENAME_BYTES - length) + Zeros(BUFFER_BYTES - FILE_FN_HEADER - FILENAME_BYTES);
  }

  lemma FileFnReceived(length: nat, name: Bytes)
    requires 1 <= length == |name| <= 255
    ensures Parse(Receive(FileFnHeader(length) + name + Zeros(FILENAME_BYTES - length))) == Some(FileFn(name))
  {
    var p, tail := FileFnLayout(length, name);
    var h := FileFnHeader(length);
    assert h + name + tail == h + (name + tail);
    assert h + (name + tail) == Header(OP_FILE_FN_MASTER) + (Zeros(13) + [High(length), Low(length)] + (name + tail));
    HeaderRead(p, OP_FILE_FN_MASTER, Zeros(13) + [High(length), Low(length)] + (name + tail));
    FileFnLengthRead(p, length, name + tail);
    Middle(h, name, tail);
    assert p.data[FILE_FN_HEADER + length] == tail[0];
  }

  lemma FileFnTaken(n: Sender, name: Option<Bytes>)
    ensures BuildFileFn(n, name).Built? <==> n.on && name.Some? && name.value != []
    ensures BuildFileFn(n, name) == Refused(EAction) <==> !n.on
  {
  }

  lemma FileFnRoundTrip(n: Sender, name: Bytes)
    requires n.on && name != []
    ensures var built := BuildFileFn(n, Some(name));
      built.Built? && Parse(Receive(built.bytes)) == Some(FileFn(name[..Min(|name|, 255)]))
  {
    var length := Min(|name|, 255);
    var cut := name[..length];
    assert BuildFileFn(n, Some(name)) == Built(FileFnHeader(length) + cut + Zeros(FILENAME_BYTES - length));
    FileFnReceived(length, cut);
  }
}
