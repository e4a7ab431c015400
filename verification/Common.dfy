/** Types and byte arithmetic shared by the whole model. */
module Common {

  type Byte = b: int | 0 <= b < 256

  datatype Option<+T> = None | Some(value: T)

  const TWO_TO_THE_31 := 0x8000_0000
  const TWO_TO_THE_32 := 0x1_0000_0000

  function Min(a: int, b: int): int { if a < b then a else b }

  type Int32 = x: int | -TWO_TO_THE_31 <= x < TWO_TO_THE_31

  /** The signed 32-bit value that an integer is cut down to. */
  function ToInt32(x: int): Int32 {
    var u := x % TWO_TO_THE_32;
    if u < TWO_TO_THE_31 then u else u - TWO_TO_THE_32
  }

  /** Four bytes, most significant first. */
  datatype Be32 = Be32(b0: Byte, b1: Byte, b2: Byte, b3: Byte)

  function Split(u: int): Be32
    requires 0 <= u < TWO_TO_THE_32
  {
    Be32(u / 256 / 256 / 256, u / 256 / 256 % 256, u / 256 % 256, u % 256)
  }

  function Join(b: Be32): (u: int)
    ensures 0 <= u < TWO_TO_THE_32
  {
    ((b.b0 * 256 + b.b1) * 256 + b.b2) * 256 + b.b3
  }

  function IntToBytes(w: int): Be32 { Split(w % TWO_TO_THE_32) }

  function BytesToInt32(b: Be32): Int32 { ToInt32(Join(b)) }

  lemma SplitThenJoin(u: int)
    requires 0 <= u < TWO_TO_THE_32
    ensures Join(Split(u)) == u
  {
  }

  lemma JoinThenSplit(b: Be32)
    ensures Split(Join(b)) == b
  {
    var u := Join(b);
    assert u / 256 == (b.b0 * 256 + b.b1) * 256 + b.b2;
    assert u / 256 / 256 == b.b0 * 256 + b.b1;
  }

  lemma ToInt32KeepsResidue(x: int)
    ensures ToInt32(x) % TWO_TO_THE_32 == x % TWO_TO_THE_32
    ensures -TWO_TO_THE_31 <= x < TWO_TO_THE_31 ==> ToInt32(x) == x == ToInt32(x % TWO_TO_THE_32)
  {
  }

  /** The length field of a firmware packet carries any 32-bit value unchanged... */
  lemma LengthFieldRoundTrip(w: Int32)
    ensures BytesToInt32(IntToBytes(w)) == w
  {
    ToInt32KeepsResidue(w);
    SplitThenJoin(w % TWO_TO_THE_32);
  }

  lemma SmallUnchanged(x: int)
    requires 0 <= x < TWO_TO_THE_31
    ensures ToInt32(x) == x
  {
  }

  lemma SplitResidue(x: int, u: int)
    requires 0 <= u < TWO_TO_THE_32 && x % TWO_TO_THE_32 == u % TWO_TO_THE_32
    ensures IntToBytes(x) == Split(u)
  {
    assert u % TWO_TO_THE_32 == u;
  }

  /** ... and no two fields carry the same value. */
  lemma LengthFieldInjective(b: Be32)
    ensures IntToBytes(BytesToInt32(b)) == b
  {
    var u := Join(b);
    ToInt32KeepsResidue(u);
    SplitResidue(ToInt32(u), u);
    JoinThenSplit(b);
  }

  /** A buffer with some bytes written over it. */
  function Patched(buffer: seq<Byte>, at: nat, bytes: seq<Byte>): (r: seq<Byte>)
    requires at + |bytes| <= |buffer|
    ensures |r| == |buffer|
  {
    buffer[..at] + bytes + buffer[at + |bytes|..]
  }

  lemma PatchNext(buffer: seq<Byte>, at: nat, bytes: seq<Byte>, i: nat)
    requires at + |bytes| <= |buffer| && i < |bytes|
    ensures Patched(buffer, at, bytes[..i])[at + i := bytes[i]] == Patched(buffer, at, bytes[..i + 1])
  {
  }

  /** Only the bytes written over are different. */
  lemma PatchedSlice(buffer: seq<Byte>, at: nat, bytes: seq<Byte>, from: nat, to: nat)
    requires at + |bytes| <= |buffer| && from <= to <= |buffer|
    ensures Patched(buffer, at, bytes)[at..at + |bytes|] == bytes
    ensures to <= at || at + |bytes| <= from ==> Patched(buffer, at, bytes)[from..to] == buffer[from..to]
  {
    var after := Patched(buffer, at, bytes);
    assert forall k | 0 <= k < |buffer| && (k < at || at + |bytes| <= k) :: after[k] == buffer[k];
  }

  /** memcpy into a buffer. */
  method Copy(buffer: array<Byte>, at: nat, bytes: seq<Byte>)
    requires at + |bytes| <= buffer.Length
    modifies buffer
    ensures buffer[..] == Patched(old(buffer[..]), at, bytes)
  {
    ghost var before := buffer[..];
    for i := 0 to |bytes|
      invariant buffer[..] == Patched(before, at, bytes[..i])
    {
      PatchNext(before, at, bytes, i);
      buffer[at + i] := bytes[i];
    }
    assert bytes[..|bytes|] == bytes;
  }
}
