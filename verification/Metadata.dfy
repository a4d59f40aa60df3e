/** The cached descriptor table and superblock as bytes, and the blocks they are written to. */
module Metadata {
  import opened Bytes
  import opened Geometry
  import opened Inodes
  import opened Space
  import opened Volumes
  import opened InodeTable

  function EncodeDesc(g: GroupDesc): (r: seq<byte>)
    ensures |r| == 32
  {
    Enc32(g.blockBitmap) + Enc32(g.inodeBitmap) + Enc32(g.inodeTable) + Enc16(g.freeBlocks) + Enc16(g.freeInodes)
      + Enc16(g.usedDirs) + Zeros(14)
  }

  /** Where the fields of a descriptor lie in its 32 bytes; the last fourteen are zero. */
  lemma DescLayout(g: GroupDesc)
    ensures var e := EncodeDesc(g);
      && U32(e, 0) == g.blockBitmap && U32(e, 4) == g.inodeBitmap && U32(e, 8) == g.inodeTable
      && U16(e, 12) == g.freeBlocks && U16(e, 14) == g.freeInodes && U16(e, 16) == g.usedDirs
      && forall i :: 18 <= i < 32 ==> e[i] == 0
  {
    hide U32, U16;
    var e := EncodeDesc(g);
    SameWord(e, 0, Enc32(g.blockBitmap), 0);
    SameWord(e, 4, Enc32(g.inodeBitmap), 0);
    SameWord(e, 8, Enc32(g.inodeTable), 0);
    SameHalf(e, 12, Enc16(g.freeBlocks), 0);
    SameHalf(e, 14, Enc16(g.freeInodes), 0);
    SameHalf(e, 16, Enc16(g.usedDirs), 0);
  }

  function DecodeDesc(b: seq<byte>, o: nat): (g: GroupDesc)
    requires o + 32 <= |b|
  {
    GroupDesc(U32(b, o), U32(b, o + 4), U32(b, o + 8), U16(b, o + 12), U16(b, o + 14), U16(b, o + 16))
  }

  lemma DescFields(g: GroupDesc)
    ensures DecodeDesc(EncodeDesc(g), 0) == g
  {
    hide U32, U16;
    var e := EncodeDesc(g);
    SameWord(e, 0, Enc32(g.blockBitmap), 0);
    SameWord(e, 4, Enc32(g.inodeBitmap), 0);
    SameWord(e, 8, Enc32(g.inodeTable), 0);
    SameHalf(e, 12, Enc16(g.freeBlocks), 0);
    SameHalf(e, 14, Enc16(g.freeInodes), 0);
    SameHalf(e, 16, Enc16(g.usedDirs), 0);
  }

  function EncodeTable(t: seq<GroupDesc>): (r: seq<byte>)
    ensures |r| == 32 * |t|
    ensures forall g, i :: 0 <= g < |t| && 0 <= i < 32 ==> r[32 * g + i] == EncodeDesc(t[g])[i]
  {
    if t == [] then [] else
      var r := EncodeTable(t[..|t| - 1]) + EncodeDesc(t[|t| - 1]);
      r
  }

  function DecodeTable(b: Block): (t: seq<GroupDesc>)
    ensures |t| == 16
  {
    seq<GroupDesc>(16, g requires 0 <= g < 16 => DecodeDesc(b, 32 * g))
  }

  lemma DecodeEncodedTable(t: seq<GroupDesc>)
    requires |t| == 16
    ensures |EncodeTable(t)| == 512 && DecodeTable(EncodeTable(t)) == t
  {
    hide U32, U16, EncodeTable;
    var b := EncodeTable(t);
    forall g | 0 <= g < 16
      ensures DecodeDesc(b, 32 * g) == t[g]
    {
      var e := EncodeDesc(t[g]);
      assert forall i :: 0 <= i < 32 ==> b[32 * g + i] == e[i];
      DescFields(t[g]);
      var o := 32 * g;
      SameWord(b, o, e, 0);
      SameWord(b, o + 4, e, 4);
      SameWord(b, o + 8, e, 8);
      SameHalf(b, o + 12, e, 12);
      SameHalf(b, o + 14, e, 14);
      SameHalf(b, o + 16, e, 16);
    }
  }

  /** The ten words the superblock starts with; all but the two free counters is fixed. */
  function SuperWords(sb: Superblock): (w: seq<u32>)
  {
    [1792, 8192, 0, sb.freeBlocks, sb.freeInodes, 1, 2, 512, 512, 112]
  }

  /** The superblock as stored. */
  function EncodeSuper(sb: Superblock): (b: Block)
  {
    EncodePointers(SuperWords(sb)) + Enc16(0xEF53) + Zeros(470)
  }

  /** Where the fields of the superblock lie: 1792 inodes, 8192 blocks, the two counters, and the magic number. */
  lemma SuperLayout(sb: Superblock)
    ensures var e := EncodeSuper(sb);
      && U32(e, 0) == 16 * 112 && U32(e, 4) == 16 * 512 && U32(e, 8) == 0 && U32(e, 12) == sb.freeBlocks
      && U32(e, 16) == sb.freeInodes && U32(e, 20) == 1 && U32(e, 24) == 2 && U32(e, 28) == 512 && U32(e, 32) == 512
      && U32(e, 36) == 112 && U16(e, 40) == 0xEF53 && forall i :: 42 <= i < 512 ==> e[i] == 0
  {
    hide U32, U16, Enc16, EncodePointers;
    SuperWord(sb, 0);
    SuperWord(sb, 1);
    SuperWord(sb, 2);
    SuperWord(sb, 3);
    SuperWord(sb, 4);
    SuperWord(sb, 5);
    SuperWord(sb, 6);
    SuperWord(sb, 7);
    SuperWord(sb, 8);
    SuperWord(sb, 9);
    SameHalf(EncodeSuper(sb), 40, Enc16(0xEF53), 0);
  }

  lemma SuperWord(sb: Superblock, i: nat)
    requires i < 10
    ensures U32(EncodeSuper(sb), 4 * i) == SuperWords(sb)[i]
  {
    hide U32, Enc16, EncodePointers;
    SameWord(EncodeSuper(sb), 4 * i, EncodePointers(SuperWords(sb)), 4 * i);
  }

  /** The two counters read back from a stored superblock. */
  function DecodeSuper(b: Block): (sb: Superblock)
  {
    Superblock(U32(b, 12), U32(b, 16))
  }

  lemma DecodeEncodedSuper(sb: Superblock)
    ensures DecodeSuper(EncodeSuper(sb)) == sb
  {
    hide U32, EncodeSuper;
    SuperWord(sb, 3);
    SuperWord(sb, 4);
  }

  /** The descriptor table and its copies in the other groups. */
  predicate IsTableCopy(b: nat)
  {
    b == 2 || (512 <= b < 8192 && b % 512 == 0)
  }

  /** Signature, superblock and table copies: written without regard to files. */
  ghost predicate HeadersOnly(d: Disk, e: Disk)
  {
    forall c: nat :: c < 8192 && c != 1 && !IsTableCopy(c) ==> e[c] == d[c]
  }

  lemma HeadersHarmless(d: Disk, e: Disk)
    requires HeadersOnly(d, e)
    ensures MetaOnly(d, e)
    ensures forall j: nat :: IsInode(j) ==> InodeAt(e, j) == InodeAt(d, j) && InodeUsed(e, j) == InodeUsed(d, j)
  {
    forall g: nat | g < 16
      ensures e[BlockBitmapOf(g)] == d[BlockBitmapOf(g)]
    {
      BitmapsAreMeta(g);
    }
    forall j: nat | IsInode(j)
      ensures InodeAt(e, j) == InodeAt(d, j) && InodeUsed(e, j) == InodeUsed(d, j)
    {
      SlotInTable(j, InodeGroup(j));
      BitmapsAreMeta(InodeGroup(j));
    }
  }

  /** update_bgdt: every copy of the table. */
  method UpdateBgdt(fs: Volume)
    requires |fs.bgdt| == 16
    modifies fs`blocks
    ensures |EncodeTable(fs.bgdt)| == 512
    ensures forall c: nat :: c < 8192 ==>
      fs.blocks[c] == if IsTableCopy(c) then EncodeTable(fs.bgdt) else old(fs.blocks)[c]
    ensures fs.blocks[2] == EncodeTable(fs.bgdt)
    ensures forall g: nat :: 0 < g < 16 ==> 512 * g < 8192 && fs.blocks[512 * g] == EncodeTable(fs.bgdt)
  {
    hide EncodeTable;
    var b := EncodeTable(fs.bgdt);
    for group := 0 to GROUPS_COUNT
      invariant forall c: nat :: c < 8192 ==>
        fs.blocks[c] == if IsTableCopy(c) && (if c == 2 then group > 0 else c < 512 * group) then b
          else old(fs.blocks)[c]
    {
      if group == 0 {
        fs.blocks := fs.blocks[2 := b];
      } else {
        fs.blocks := fs.blocks[group * 512 := b];
      }
    }
  }

  /** The descriptor table on disk is the cached one. */
  ghost predicate TableCurrent(d: Disk, bgdt: seq<GroupDesc>)
  {
    DecodeTable(d[2]) == bgdt
  }

  /** update_superblock */
  method UpdateSuperblock(fs: Volume)
    modifies fs`blocks
    ensures fs.blocks == old(fs.blocks)[1 := EncodeSuper(fs.sb)]
  {
    fs.blocks := fs.blocks[1 := EncodeSuper(fs.sb)];
  }

  /** Both updates, as every write and delete ends. */
  method FlushHeaders(fs: Volume)
    requires fs.SpaceValid()
    modifies fs`blocks
    ensures fs.SpaceValid() && HeadersOnly(old(fs.blocks), fs.blocks) &&
      FreeTotal(fs.blocks) == FreeTotal(old(fs.blocks))
    ensures TableCurrent(fs.blocks, fs.bgdt) && DecodeSuper(fs.blocks[1]) == fs.sb
  {
    hide DecodeSuper, EncodeTable, EncodeSuper, IsMeta, Used, FreeTotal, SpaceOk, DecodeTable;
    ghost var d := fs.blocks;
    SpaceSize(d, fs.bgdt, fs.sb, fs.account);
    UpdateBgdt(fs);
    DecodeEncodedTable(fs.bgdt);
    UpdateSuperblock(fs);
    DecodeEncodedSuper(fs.sb);
    HeadersHarmless(d, fs.blocks);
    MetaKeepsSpace(d, fs.blocks, fs.bgdt, fs.sb, fs.account);
  }

  lemma SpaceSize(d: Disk, bgdt: seq<GroupDesc>, sb: Superblock, a: Account)
    requires SpaceOk(d, bgdt, sb, a)
    ensures |bgdt| == 16
  {
  }

  /** initialize_filesystem_ext2 on a formatted disk: reload the table; the superblock is read but not kept. */
  method ReloadTable(fs: Volume)
    modifies fs`bgdt
    ensures fs.bgdt == DecodeTable(fs.blocks[2])
  {
    var table: seq<GroupDesc> := [];
    for i := 0 to GROUPS_COUNT
      invariant |table| == i && forall g :: 0 <= g < i ==> table[g] == DecodeDesc(fs.blocks[2], 32 * g)
    {
      table := table + [DecodeDesc(fs.blocks[2], 32 * i)];
    }
    fs.bgdt := table;
    assert fs.bgdt == DecodeTable(fs.blocks[2]);
  }
}
