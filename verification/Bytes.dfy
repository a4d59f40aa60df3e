/**
  Bytes, little-endian words and the 512-byte blocks the disk is made of.
  A C buffer that is overwritten in place is a value of type `Block`
  held in a variable; `Splice` is `memcpy` into the middle of it.
 */
module Bytes {

  type byte = x: int | 0 <= x < 0x100
  type u16 = x: int | 0 <= x < 0x1_0000
  type u32 = x: int | 0 <= x < 0x1_0000_0000

  const BLOCK_SIZE: nat := 512

  type Block = b: seq<byte> | |b| == 512 witness seq(512, _ => 0)

  function Zeros(n: nat): (r: seq<byte>)
    ensures |r| == n && forall i :: 0 <= i < n ==> r[i] == 0
  {
    seq(n, _ => 0)
  }

  function ZeroBlock(): (r: Block)
    ensures forall i :: 0 <= i < 512 ==> r[i] == 0
  {
    Zeros(512)
  }

  /** `memcpy(b + o, s, |s|)`. */
  function Splice(b: seq<byte>, o: nat, s: seq<byte>): (r: seq<byte>)
    requires o + |s| <= |b|
    ensures |r| == |b|
    ensures forall i :: 0 <= i < |b| ==> r[i] == if o <= i < o + |s| then s[i - o] else b[i]
  {
    seq(|b|, i requires 0 <= i < |b| => if o <= i < o + |s| then s[i - o] else b[i])
  }

  function U16(b: seq<byte>, o: nat): (v: u16)
    requires o + 2 <= |b|
  {
    var b0: int, b1: int := b[o], b[o + 1];
    b0 + 0x100 * b1
  }

  function U32(b: seq<byte>, o: nat): (v: u32)
    requires o + 4 <= |b|
  {
    var b0: int, b1: int, b2: int, b3: int := b[o], b[o + 1], b[o + 2], b[o + 3];
    b0 + 0x100 * b1 + 0x1_0000 * b2 + 0x100_0000 * b3
  }

  /** A word depends only on its own bytes. */
  lemma SameWord(a: seq<byte>, i: nat, b: seq<byte>, j: nat)
    requires i + 4 <= |a| && j + 4 <= |b|
    requires a[i] == b[j] && a[i + 1] == b[j + 1] && a[i + 2] == b[j + 2] && a[i + 3] == b[j + 3]
    ensures U32(a, i) == U32(b, j)
  {
  }

  lemma SameHalf(a: seq<byte>, i: nat, b: seq<byte>, j: nat)
    requires i + 2 <= |a| && j + 2 <= |b| && a[i] == b[j] && a[i + 1] == b[j + 1]
    ensures U16(a, i) == U16(b, j)
  {
  }

  /** The low byte comes first, in words, half words and block pointers. */
  lemma LowByteFirst(b: seq<byte>, o: nat)
    requires o + 4 <= |b|
    ensures U16(b, o) % 0x100 == b[o] && U16(b, o) / 0x100 == b[o + 1]
    ensures U32(b, o) % 0x1_0000 == U16(b, o) && U32(b, o) / 0x1_0000 == U16(b, o + 2)
  {
    var lo: int, hi: int, w: int := U16(b, o), U16(b, o + 2), U32(b, o);
    assert w == lo + 0x1_0000 * hi;
  }

  function Enc16(v: u16): (r: seq<byte>)
    ensures |r| == 2 && U16(r, 0) == v
  {
    [v % 0x100, v / 0x100]
  }

  function Enc32(v: u32): (r: seq<byte>)
    ensures |r| == 4 && U32(r, 0) == v
  {
    var q1: int := v / 0x100;
    var q2: int := q1 / 0x100;
    [v % 0x100, q1 % 0x100, q2 % 0x100, q2 / 0x100]
  }

  /** Writing a 32-bit word through a pointer into a buffer. */
  function Put32(b: seq<byte>, o: nat, v: u32): (r: seq<byte>)
    requires o + 4 <= |b|
    ensures |r| == |b| && U32(r, o) == v
    ensures forall i :: 0 <= i < |b| && !(o <= i < o + 4) ==> r[i] == b[i]
  {
    Splice(b, o, Enc32(v))
  }

  /** Writing a 16-bit word through a pointer into a buffer. */
  function Put16(b: seq<byte>, o: nat, v: u16): (r: seq<byte>)
    requires o + 2 <= |b|
    ensures |r| == |b| && U16(r, o) == v
    ensures forall i :: 0 <= i < |b| && !(o <= i < o + 2) ==> r[i] == b[i]
  {
    Splice(b, o, Enc16(v))
  }

  /** A block seen as 128 block pointers. */
  function Ptr(b: Block, i: nat): (v: u32)
    requires i < 128
  {
    U32(b, 4 * i)
  }

  function SetPtr(b: Block, i: nat, v: u32): (r: Block)
    requires i < 128
    ensures forall j :: 0 <= j < 128 ==> Ptr(r, j) == if j == i then v else Ptr(b, j)
  {
    Put32(b, 4 * i, v)
  }

  /** Pointer i takes bytes 4 i to 4 i + 3 of its block. */
  lemma PtrBytes(b: Block, i: nat)
    requires i < 128
    ensures Ptr(b, i) % 0x1_0000 == U16(b[4 * i..4 * i + 2], 0) &&
      Ptr(b, i) / 0x1_0000 == U16(b[4 * i + 2..4 * i + 4], 0)
  {
    LowByteFirst(b, 4 * i);
    SameHalf(b, 4 * i, b[4 * i..4 * i + 2], 0);
    SameHalf(b, 4 * i + 2, b[4 * i + 2..4 * i + 4], 0);
  }

  lemma ZeroPtrs()
    ensures forall j :: 0 <= j < 128 ==> Ptr(ZeroBlock(), j) == 0
  {
  }
}
