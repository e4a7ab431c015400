/** How a Table of Devices goes out in ArtTodData packets. */
module TodData {
  import opened Common
  import opened Tods

  const BLOCK_SLOTS := BLOCK_UIDS * UID_BYTES

  /** The parts of an ArtTodData packet that differ from one packet of a table to the next.
      `slots` is the whole 1200-byte field. */
  datatype TodBlock = TodBlock(uidTotal: nat, blockCount: Byte, uidCount: Byte, slots: seq<Byte>)
  {
    predicate Valid() { |slots| == BLOCK_SLOTS && uidCount <= BLOCK_UIDS && uidTotal < 0x1_0000 }

    /** The devices a receiver reads off the packet. */
    function Contents(): (t: Table)
      requires Valid()
      ensures |t| == uidCount
    {
      Uids(slots, uidCount)
    }
  }

  function NumBlocks(n: nat): nat { if n == 0 then 1 else (n + BLOCK_UIDS - 1) / BLOCK_UIDS }

  /** The `k`-th packet for a table of `n` entries kept in a flat array. */
  function BlockAt(bytes: seq<Byte>, n: nat, k: nat): (b: TodBlock)
    requires UID_BYTES * n <= |bytes| && k * BLOCK_UIDS <= n
    ensures b.Valid()
  {
    var size, from := Min(BLOCK_UIDS, n - k * BLOCK_UIDS), k * BLOCK_SLOTS;
    TodBlock(n % 0x1_0000, k % 256, size, bytes[from..from + UID_BYTES * size] + seq(BLOCK_SLOTS - UID_BYTES * size, _ => 0))
  }

  function Blocks(bytes: seq<Byte>, n: nat): (blocks: seq<TodBlock>)
    requires UID_BYTES * n <= |bytes|
    ensures |blocks| == NumBlocks(n) && forall b <- blocks :: b.Valid()
  {
    seq(NumBlocks(n), k requires 0 <= k < NumBlocks(n) => BlockAt(bytes, n, k))
  }

  /** What a receiver has when it puts the packets one behind the other. */
  function Received(blocks: seq<TodBlock>): Table
    requires forall b <- blocks :: b.Valid()
  {
    if blocks == [] then [] else Received(blocks[..|blocks| - 1]) + blocks[|blocks| - 1].Contents()
  }

  function UidSum(blocks: seq<TodBlock>): nat {
    if blocks == [] then 0 else UidSum(blocks[..|blocks| - 1]) + blocks[|blocks| - 1].uidCount
  }

  lemma SliceOfSlice(s: seq<Byte>, from: nat, to: nat, i: nat, j: nat)
    requires from <= to <= |s| && i <= j <= to - from
    ensures s[from..to][i..j] == s[from + i..from + j]
  {
    var part := s[from..to];
    assert forall k | 0 <= k < |part| :: part[k] == s[from + k];
    assert forall k | 0 <= k < j - i :: part[i..j][k] == s[from + i..from + j][k];
  }

  lemma EntryAt(bytes: seq<Byte>, from: nat, size: nat, rest: seq<Byte>, i: nat)
    requires UID_BYTES * (from + size) <= |bytes| && i < size
    ensures UidAt(bytes[UID_BYTES * from..UID_BYTES * from + UID_BYTES * size] + rest, i) == UidAt(bytes, from + i)
  {
    var part := bytes[UID_BYTES * from..UID_BYTES * from + UID_BYTES * size];
    SliceOfSlice(part + rest, 0, |part|, UID_BYTES * i, UID_BYTES * i + UID_BYTES);
    assert (part + rest)[0..|part|] == part;
    SliceOfSlice(bytes, UID_BYTES * from, UID_BYTES * from + UID_BYTES * size, UID_BYTES * i, UID_BYTES * i + UID_BYTES);
  }

  lemma BlockContents(bytes: seq<Byte>, n: nat, k: nat)
    requires UID_BYTES * n <= |bytes| && k * BLOCK_UIDS <= n
    ensures BlockAt(bytes, n, k).Contents() == Uids(bytes, n)[k * BLOCK_UIDS..Min(n, (k + 1) * BLOCK_UIDS)]
  {
    var b := BlockAt(bytes, n, k);
    forall i | 0 <= i < b.uidCount ensures b.Contents()[i] == Uids(bytes, n)[k * BLOCK_UIDS + i] {
      EntryAt(bytes, k * BLOCK_UIDS, b.uidCount, seq(BLOCK_SLOTS - UID_BYTES * b.uidCount, _ => 0), i);
    }
  }

  /** The first `m` packets carry the first entries of the table, in order. */
  lemma {:induction false} PrefixReceived(bytes: seq<Byte>, n: nat, m: nat)
    requires UID_BYTES * n <= |bytes| && m <= NumBlocks(n)
    ensures Received(Blocks(bytes, n)[..m]) == Uids(bytes, n)[..Min(n, m * BLOCK_UIDS)]
  {
    if m > 0 {
      PrefixReceived(bytes, n, m - 1);
      assert Blocks(bytes, n)[..m][..m - 1] == Blocks(bytes, n)[..m - 1];
      BlockContents(bytes, n, m - 1);
    }
  }

  lemma {:induction false} SumReceived(blocks: seq<TodBlock>)
    requires forall b <- blocks :: b.Valid()
    ensures UidSum(blocks) == |Received(blocks)|
  {
    if blocks != [] {
      SumReceived(blocks[..|blocks| - 1]);
    }
  }

  /** The packets together carry the table, whatever its size. */
  lemma WholeTable(bytes: seq<Byte>, n: nat)
    requires UID_BYTES * n <= |bytes|
    ensures var blocks := Blocks(bytes, n);
      && Received(blocks) == Uids(bytes, n)
      && UidSum(blocks) == n
      && (forall k | 0 <= k < |blocks| - 1 :: blocks[k].uidCount == 200)
      && (n == 0 ==> |blocks| == 1 && blocks[0].uidCount == 0)
      && (n > 0 ==> blocks[|blocks| - 1].uidCount > 0)
  {
    var blocks := Blocks(bytes, n);
    PrefixReceived(bytes, n, |blocks|);
    assert blocks[..|blocks|] == blocks;
    SumReceived(blocks);
  }

  /** The packets are numbered 0, 1, 2... exactly when there are no more than 51200 entries; the
      total is right exactly when it fits the field. */
  lemma Numbering(bytes: seq<Byte>, n: nat)
    requires UID_BYTES * n <= |bytes|
    ensures var blocks := Blocks(bytes, n);
      && ((forall k | 0 <= k < |blocks| :: blocks[k].blockCount == k) <==> n <= 51200)
      && ((forall k | 0 <= k < |blocks| :: blocks[k].uidTotal == n) <==> n < 0x1_0000)
  {
    var blocks := Blocks(bytes, n);
    assert blocks[0].uidTotal == n % 0x1_0000;
    if n > 256 * BLOCK_UIDS {
      assert blocks[256].blockCount == 0;
    }
  }

  // ----- sending -----

  datatype Result = Sent | NobodyAsked | SendFailed

  /** How many of the first `n` sends are made before one fails; all of them if none does. */
  function Successes(sendOk: nat -> bool, n: nat): (m: nat)
    ensures m <= n && (forall k | 0 <= k < m :: sendOk(k)) && (m < n ==> !sendOk(m))
  {
    if n == 0 then 0
    else
      var m := Successes(sendOk, n - 1);
      if m == n - 1 && sendOk(m) then n else m
  }

  method BuildBlock(tod: Tod, lim: nat, remaining: nat, block: nat) returns (packet: TodBlock)
    requires tod.Valid() && block * BLOCK_UIDS <= tod.length
    requires remaining == tod.length - block * BLOCK_UIDS && lim == Min(BLOCK_UIDS, remaining)
    ensures packet == BlockAt(if tod.data == null then [] else tod.data[..], tod.length, block)
  {
    var offset := (tod.length - remaining) * UID_BYTES;
    assert offset == block * BLOCK_SLOTS && lim * UID_BYTES == UID_BYTES * lim;
    var slots := (if tod.data != null then tod.data[offset..offset + lim * UID_BYTES] else []) + seq(BLOCK_SLOTS - lim * UID_BYTES, _ => 0);
    packet := TodBlock(tod.length % 0x1_0000, block % 256, lim, slots);
  }

  /** artnet_tx_tod_data: `sendOk` is the network's answer to each packet. Once a packet cannot
      be sent, no more are tried. */
  method TxTodData(tod: Tod, requester: nat, sendOk: nat -> bool) returns (result: Result, sent: seq<TodBlock>)
    requires tod.Valid()
    ensures var bytes := if tod.data == null then [] else tod.data[..];
      if requester == 0 then result == NobodyAsked && sent == []
      else
        var m, all := Successes(sendOk, NumBlocks(tod.length)), Blocks(bytes, tod.length);
        sent == all[..m] && result == if m == |all| then Sent else SendFailed
  {
    if requester == 0 {
      return NobodyAsked, [];
    }
    ghost var bytes := if tod.data == null then [] else tod.data[..];
    ghost var all := Blocks(bytes, tod.length);
    result, sent := Sent, [];
    var remaining, block, more := tod.length, 0, true;
    while more
      invariant remaining == tod.length - Min(tod.length, block * BLOCK_UIDS)
      invariant block <= |all| && more == (block < |all|)
      invariant sent == all[..Successes(sendOk, block)]
      invariant result == if Successes(sendOk, block) == block then Sent else SendFailed
      decreases |all| - block
    {
      var lim := Min(BLOCK_UIDS, remaining);
      var packet := BuildBlock(tod, lim, remaining, block);
      if result == Sent && sendOk(block) {
        sent := sent + [packet];
      } else {
        result := SendFailed;
      }
      block := block + 1;
      remaining := remaining - lim;
      more := remaining > 0;
    }
  }

  /** Whatever the network does, a receiver gets the first entries of the table in order, and all
      of it when nothing fails. */
  lemma SentInOrder(bytes: seq<Byte>, n: nat, sendOk: nat -> bool)
    requires UID_BYTES * n <= |bytes|
    ensures var m := Successes(sendOk, NumBlocks(n));
      && Received(Blocks(bytes, n)[..m]) == Uids(bytes, n)[..Min(n, m * BLOCK_UIDS)]
      && ((forall k | 0 <= k < NumBlocks(n) :: sendOk(k)) <==> m == NumBlocks(n))
  {
    PrefixReceived(bytes, n, Successes(sendOk, NumBlocks(n)));
  }
}
