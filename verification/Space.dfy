/** Free space: block bitmaps, free counts, and what marking one block changes. */
module Space {
  import opened Bytes
  import opened Bitmap
  import opened Geometry

  /** Where the driver starts the superblock's block counter: the whole disk but ten blocks. */
  const INITIAL_FREE: nat := 8182

  datatype GroupDesc = GroupDesc(blockBitmap: u32, inodeBitmap: u32, inodeTable: u32,
                                 freeBlocks: u16, freeInodes: u16, usedDirs: u16)

  /** The two counters of the superblock that change. */
  datatype Superblock = Superblock(freeBlocks: u32, freeInodes: u32)

  /**
    How the counters stand to the bitmaps: by how much each group's counter exceeds its clear bits, how far the
    superblock's runs ahead of the free blocks, and the signature expected in block 0.
   */
  datatype Account = Account(slack: seq<nat>, lead: nat, mark: Block)

  /** Counters in step: no group counts a block that is not free. */
  function Exact(lead: nat, mark: Block): (a: Account)
  {
    Account(seq(16, _ => 0), lead, mark)
  }

  /** Counters of 16 and 32 bits can be raised n times more. */
  predicate Roomy(a: Account, n: nat)
  {
    |a.slack| == 16 && (forall g :: 0 <= g < 16 ==> a.slack[g] + n <= 65023) && a.lead + n <= 0x1000_0000
  }

  function Ascii(s: string): (r: seq<byte>)
    ensures |r| == |s|
  {
    seq<byte>(|s|, i requires 0 <= i < |s| => (s[i] as int) % 0x100)
  }

  /** The mark in block 0 by which a formatted disk is recognised. */
  function Signature(): (b: Block)
  {
    var text := Ascii("Developed by    OSusumeNanDesukaIF2130          ITB             -----------2025\n");
    Splice(Splice(ZeroBlock(), 0, text), 510, Ascii("Ok"))
  }

  predicate Used(d: Disk, b: nat)
    requires b < 8192
  {
    BitmapsAreMeta(b / 512);
    Bit(d[BlockBitmapOf(b / 512)], b % 512)
  }

  function MarkBlock(d: Disk, b: nat, value: bool): (r: Disk)
    requires b < 8192
  {
    BitmapsAreMeta(b / 512);
    var a := BlockBitmapOf(b / 512);
    d[a := SetBit(d[a], b % 512, value)]
  }

  lemma MarkBlockEffect(d: Disk, b: nat, value: bool)
    requires b < 8192
    ensures forall c: nat :: c < 8192 ==> Used(MarkBlock(d, b, value), c) == if c == b then value else Used(d, c)
  {
    BitmapsAreMeta(b / 512);
    forall c: nat | c < 8192
      ensures Used(MarkBlock(d, b, value), c) == if c == b then value else Used(d, c)
    {
      BitmapsAreMeta(c / 512);
    }
  }

  /** Number of clear bits in the block bitmap of group g. */
  function GroupFree(d: Disk, g: nat): (c: nat)
    requires g < 16
    ensures c <= 512
  {
    BitmapsAreMeta(g);
    CountClear(d[BlockBitmapOf(g)], 512)
  }

  function FreeUpTo(d: Disk, n: nat): (c: nat)
    requires n <= 16
    ensures c <= 512 * n
  {
    if n == 0 then 0 else FreeUpTo(d, n - 1) + GroupFree(d, n - 1)
  }

  /** Number of free blocks on the disk. */
  function FreeTotal(d: Disk): (c: nat)
    ensures c <= 8192
  {
    FreeUpTo(d, 16)
  }

  lemma MarkGroupFree(d: Disk, b: nat, value: bool, g: nat)
    requires b < 8192 && g < 16
    ensures GroupFree(MarkBlock(d, b, value), g) ==
            GroupFree(d, g) + if g != b / 512 || Used(d, b) == value then 0 else if value then -1 else 1
  {
    BitmapsAreMeta(b / 512);
    BitmapsAreMeta(g);
    CountAfterSet(d[BlockBitmapOf(b / 512)], b % 512, value, 512);
  }

  lemma {:induction false} MarkFreeUpTo(d: Disk, b: nat, value: bool, n: nat)
    requires b < 8192 && n <= 16
    ensures FreeUpTo(MarkBlock(d, b, value), n) ==
            FreeUpTo(d, n) + if n <= b / 512 || Used(d, b) == value then 0 else if value then -1 else 1
  {
    if n > 0 {
      MarkFreeUpTo(d, b, value, n - 1);
      MarkGroupFree(d, b, value, n - 1);
    }
  }

  /** Disks with the same block bitmaps have the same free counts. */
  lemma {:induction false} SameBitmaps(d: Disk, e: Disk, n: nat)
    requires n <= 16
    requires forall g: nat :: g < 16 ==> d[BlockBitmapOf(g)] == e[BlockBitmapOf(g)]
    ensures FreeUpTo(d, n) == FreeUpTo(e, n)
  {
    if n > 0 {
      SameBitmaps(d, e, n - 1);
    }
  }

  /** The descriptor of group g points at the group's own bitmaps and inode table. */
  predicate DescriptorOk(bgd: GroupDesc, g: nat)
  {
    bgd.blockBitmap == BlockBitmapOf(g) && bgd.inodeBitmap == InodeBitmapOf(g) && bgd.inodeTable == InodeTableOf(g)
  }

  /**
    The counters stand to the bitmaps as the account says, and reserved blocks are never free.  The superblock
    counter runs ahead even of exact group counters: the driver starts it from a total that leaves out
    most of the reserved blocks, and never reloads it.
   */
  ghost predicate SpaceOk(d: Disk, bgdt: seq<GroupDesc>, sb: Superblock, a: Account)
  {
    && |bgdt| == 16 && Roomy(a, 0)
    && (forall g: nat :: g < 16 ==> DescriptorOk(bgdt[g], g) && bgdt[g].freeBlocks == GroupFree(d, g) + a.slack[g])
    && sb.freeBlocks == FreeTotal(d) + a.lead
    && (forall b: nat :: b < 8192 && IsMeta(b) ==> Used(d, b))
    && d[0] == a.mark
  }

  function Counted(bgdt: seq<GroupDesc>, g: nat, delta: int): (r: seq<GroupDesc>)
    requires g < |bgdt| && 0 <= bgdt[g].freeBlocks + delta < 0x1_0000
  {
    bgdt[g := bgdt[g].(freeBlocks := bgdt[g].freeBlocks + delta)]
  }

  /** Everything in the descriptors but the free block count. */
  ghost predicate OnlyCounts(a: seq<GroupDesc>, b: seq<GroupDesc>)
  {
    |a| == |b| && forall g: nat :: g < |a| ==> b[g] == a[g].(freeBlocks := b[g].freeBlocks)
  }

  /** Taking a free block, or returning a used one, keeps the accounting when both counters move by one. */
  lemma MarkKeepsSpace(d: Disk, bgdt: seq<GroupDesc>, sb: Superblock, a: Account, b: nat, value: bool)
    requires SpaceOk(d, bgdt, sb, a) && IsData(b) && Used(d, b) != value
    ensures var delta := if value then -1 else 1;
      && 0 <= bgdt[b / 512].freeBlocks + delta < 0x1_0000
      && 0 <= sb.freeBlocks + delta < 0x1_0000_0000
      && SpaceOk(MarkBlock(d, b, value), Counted(bgdt, b / 512, delta), sb.(freeBlocks := sb.freeBlocks + delta), a)
      && FreeTotal(MarkBlock(d, b, value)) == FreeTotal(d) + delta
  {
    MarkFreeUpTo(d, b, value, 16);
    MarkBlockEffect(d, b, value);
    forall g: nat | g < 16
      ensures GroupFree(MarkBlock(d, b, value), g) ==
              GroupFree(d, g) + if g == b / 512 then if value then -1 else 1 else 0
    {
      MarkGroupFree(d, b, value, g);
    }
  }

  /** Account after counting a block of group g as freed that was free already. */
  function Over(a: Account, g: nat): (r: Account)
    requires g < |a.slack|
  {
    a.(slack := a.slack[g := a.slack[g] + 1], lead := a.lead + 1)
  }

  lemma OverFree(d: Disk, bgdt: seq<GroupDesc>, sb: Superblock, a: Account, b: nat)
    requires SpaceOk(d, bgdt, sb, a) && IsData(b) && !Used(d, b) && Roomy(a, 1)
    ensures 0 <= bgdt[b / 512].freeBlocks + 1 < 0x1_0000 && sb.freeBlocks + 1 < 0x1_0000_0000
    ensures MarkBlock(d, b, false) == d
    ensures SpaceOk(d, Counted(bgdt, b / 512, 1), sb.(freeBlocks := sb.freeBlocks + 1), Over(a, b / 512))
  {
    hide FreeTotal, GroupFree, IsMeta;
    ClearClear(d, b);
  }

  lemma ClearClear(d: Disk, b: nat)
    requires b < 8192 && !Used(d, b)
    ensures MarkBlock(d, b, false) == d
  {
    hide SetBit;
    BitmapsAreMeta(b / 512);
    var a := BlockBitmapOf(b / 512);
    SetSame(d[a], b % 512);
    assert d[a := d[a]] == d;
  }

  /** A write that misses every block bitmap changes nothing about free space. */
  lemma WriteKeepsSpace(d: Disk, e: Disk, bgdt: seq<GroupDesc>, sb: Superblock, a: Account)
    requires SpaceOk(d, bgdt, sb, a) && d[0] == e[0]
    requires forall g: nat :: g < 16 ==> d[BlockBitmapOf(g)] == e[BlockBitmapOf(g)]
    ensures SpaceOk(e, bgdt, sb, a) && FreeTotal(e) == FreeTotal(d)
    ensures forall b: nat :: b < 8192 ==> Used(e, b) == Used(d, b)
  {
    SameBitmaps(d, e, 16);
    forall b: nat | b < 8192
      ensures Used(e, b) == Used(d, b)
    {
      BitmapsAreMeta(b / 512);
    }
  }

  lemma {:induction false} FewerClear(b: Block, c: Block, n: nat)
    requires n <= 512 && forall i: nat :: i < n && Bit(b, i) ==> Bit(c, i)
    ensures CountClear(c, n) <= CountClear(b, n)
  {
    if n > 0 { FewerClear(b, c, n - 1); }
  }

  /** No group has more free blocks when only bits were set. */
  lemma MoreUsed(d: Disk, e: Disk, g: nat)
    requires g < 16 && forall c: nat :: c < 8192 && Used(d, c) ==> Used(e, c)
    ensures GroupFree(e, g) <= GroupFree(d, g)
  {
    BitmapsAreMeta(g);
    forall i: nat | i < 512 && Bit(d[BlockBitmapOf(g)], i)
      ensures Bit(e[BlockBitmapOf(g)], i)
    {
      var c := 512 * g + i;
      assert c / 512 == g && c % 512 == i;
      assert Used(d, c);
    }
    FewerClear(d[BlockBitmapOf(g)], e[BlockBitmapOf(g)], 512);
  }

  /** Then no group lost more free blocks than the disk did. */
  lemma {:induction false} GroupDrop(d: Disk, e: Disk, g: nat, n: nat)
    requires g < 16 && n <= 16 && forall c: nat :: c < 8192 && Used(d, c) ==> Used(e, c)
    ensures FreeUpTo(e, n) <= FreeUpTo(d, n)
    ensures g < n ==> GroupFree(d, g) - GroupFree(e, g) <= FreeUpTo(d, n) - FreeUpTo(e, n)
  {
    hide Used, GroupFree;
    if n > 0 {
      GroupDrop(d, e, g, n - 1);
      MoreUsed(d, e, n - 1);
      MoreUsed(d, e, g);
    }
  }

  /** If every group below n is full, nothing is free there, and conversely. */
  lemma {:induction false} NoneFree(d: Disk, n: nat)
    requires n <= 16
    ensures FreeUpTo(d, n) == 0 <==> forall g: nat :: g < n ==> GroupFree(d, g) == 0
  {
    if n > 0 {
      NoneFree(d, n - 1);
    }
  }
}
