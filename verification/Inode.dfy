/** The 70-byte packed inode and its slot in the inode table. */
module Inodes {
  import opened Bytes
  import opened Bitmap
  import opened Geometry

  type Pointers = p: seq<u32> | |p| == 15 witness seq<u32>(15, _ => 0)

  datatype Inode = Inode(mode: u16, size: u32, blocks: u32, block: Pointers)

  const MODE_FILE: u16 := 0x8200
  const MODE_DIR: u16 := 0x4000

  /** i_mode & 0xF000 */
  function FileType(mode: u16): (t: u16)
  {
    mode - mode % 0x1000
  }

  function NoPointers(): (p: Pointers)
    ensures forall i :: 0 <= i < 15 ==> p[i] == 0
  {
    seq<u32>(15, _ => 0)
  }

  function EncodePointers(p: seq<u32>): (r: seq<byte>)
    ensures |r| == 4 * |p|
    ensures forall i :: 0 <= i < |p| ==> U32(r, 4 * i) == p[i]
  {
    if p == [] then []
    else
      var tail := EncodePointers(p[1..]);
      var r := Enc32(p[0]) + tail;
      assert U32(r, 0) == p[0] by { SameWord(r, 0, Enc32(p[0]), 0); }
      assert forall i :: 1 <= i < |p| ==> U32(r, 4 * i) == p[i] by {
        forall i | 1 <= i < |p|
          ensures U32(r, 4 * i) == p[i]
        {
          SameWord(r, 4 * i, tail, 4 * (i - 1));
        }
      }
      r
  }

  function EncodeInode(n: Inode): (r: seq<byte>)
    ensures |r| == 70
  {
    Enc16(n.mode) + Enc32(n.size) + Enc32(n.blocks) + EncodePointers(n.block)
  }

  function DecodeInode(b: seq<byte>, o: nat): (n: Inode)
    requires o + 70 <= |b|
  {
    Inode(U16(b, o), U32(b, o + 2), U32(b, o + 6),
          seq<u32>(15, i requires 0 <= i < 15 => U32(b, o + 10 + 4 * i)))
  }

  lemma EncodedFields(n: Inode)
    ensures var e := EncodeInode(n);
      U16(e, 0) == n.mode && U32(e, 2) == n.size && U32(e, 6) == n.blocks &&
      forall i :: 0 <= i < 15 ==> U32(e, 10 + 4 * i) == n.block[i]
  {
    hide U32, U16, Enc16, Enc32;
    var e := EncodeInode(n);
    var p := EncodePointers(n.block);
    assert U16(e, 0) == U16(Enc16(n.mode), 0) by { SameHalf(e, 0, Enc16(n.mode), 0); }
    SameWord(e, 2, Enc32(n.size), 0);
    SameWord(e, 6, Enc32(n.blocks), 0);
    forall i | 0 <= i < 15
      ensures U32(e, 10 + 4 * i) == n.block[i]
    {
      SameWord(e, 10 + 4 * i, p, 4 * i);
    }
  }

  lemma DecodeEncoded(b: seq<byte>, o: nat, n: Inode)
    requires o + 70 <= |b|
    ensures DecodeInode(Splice(b, o, EncodeInode(n)), o) == n
  {
    hide U32, EncodeInode;
    var e := EncodeInode(n);
    var r := Splice(b, o, e);
    assert forall i :: 0 <= i < 70 ==> r[o + i] == e[i];
    EncodedFields(n);
    SameWord(r, o + 2, e, 2);
    SameWord(r, o + 6, e, 6);
    forall i | 0 <= i < 15
      ensures U32(r, o + 10 + 4 * i) == n.block[i]
    {
      SameWord(r, o + 10 + 4 * i, e, 10 + 4 * i);
    }
    assert DecodeInode(r, o).block == n.block;
  }

  lemma DecodeAgrees(b: seq<byte>, c: seq<byte>, o: nat)
    requires o + 70 <= |b| && |c| == |b|
    requires forall i :: o <= i < o + 70 ==> b[i] == c[i]
    ensures DecodeInode(b, o) == DecodeInode(c, o)
  {
    assert DecodeInode(b, o).block == DecodeInode(c, o).block;
  }

  /** The inode stored on disk under number k (read_inode). */
  function InodeAt(d: Disk, k: nat): (n: Inode)
    requires IsInode(k)
  {
    SlotInTable(k, 0);
    DecodeInode(d[SlotBlock(k)], SlotOffset(k))
  }

  /** The bit of inode k in its group's inode bitmap. */
  predicate InodeUsed(d: Disk, k: nat)
    requires IsInode(k)
  {
    BitmapsAreMeta(InodeGroup(k));
    Bit(d[InodeBitmapOf(InodeGroup(k))], InodeLocal(k))
  }

  function MarkInode(d: Disk, k: nat, value: bool): (r: Disk)
    requires IsInode(k)
  {
    BitmapsAreMeta(InodeGroup(k));
    var a := InodeBitmapOf(InodeGroup(k));
    d[a := SetBit(d[a], InodeLocal(k), value)]
  }

  function StoreInode(d: Disk, k: nat, n: Inode): (r: Disk)
    requires IsInode(k)
  {
    SlotInTable(k, 0);
    d[SlotBlock(k) := Splice(d[SlotBlock(k)], SlotOffset(k), EncodeInode(n))]
  }

  lemma MarkInodeEffect(d: Disk, k: nat, value: bool, j: nat)
    requires IsInode(k) && IsInode(j)
    ensures InodeUsed(MarkInode(d, k, value), j) == if j == k then value else InodeUsed(d, j)
    ensures InodeAt(MarkInode(d, k, value), j) == InodeAt(d, j)
  {
    SlotInTable(j, InodeGroup(k));
    if InodeGroup(j) == InodeGroup(k) {
      assert InodeLocal(j) == InodeLocal(k) ==> j == k;
    }
  }

  /** Inode slots are independent registers. */
  lemma StoreInodeEffect(d: Disk, k: nat, n: Inode, j: nat)
    requires IsInode(k) && IsInode(j)
    ensures InodeAt(StoreInode(d, k, n), j) == if j == k then n else InodeAt(d, j)
    ensures InodeUsed(StoreInode(d, k, n), j) == InodeUsed(d, j)
  {
    SlotInTable(k, InodeGroup(j));
    SlotInTable(j, 0);
    if j == k {
      DecodeEncoded(d[SlotBlock(k)], SlotOffset(k), n);
    } else {
      SlotsDisjoint(j, k);
      DecodeAgrees(StoreInode(d, k, n)[SlotBlock(j)], d[SlotBlock(j)], SlotOffset(j));
    }
  }
}
