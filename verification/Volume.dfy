/**
  The mounted file system: the disk and the two structures the driver caches in
  memory, the superblock and the block group descriptor table.
 */
module Volumes {
  import opened Bytes
  import opened Bitmap
  import opened Geometry
  import opened Inodes
  import opened Space
  import opened BlockTree
  import opened Ownership
  import opened DirRecords

  class Volume {
    var blocks: Disk
    var sb: Superblock
    var bgdt: seq<GroupDesc>

    /** How far the superblock's counter runs ahead of the free blocks while the group counters are exact. */
    ghost const lead: nat

    /** The signature by which a formatted disk is recognised. */
    const mark: Block

    /**
      Inodes as last held in memory, their trees, who owns each used block, the records of
      each directory, and the directory each inode but the root is listed in.
     */
    ghost var nodes: map<nat, Inode>
    ghost var trees: map<nat, Tree>
    ghost var owner: map<nat, nat>
    ghost var dirs: map<nat, seq<Rec>>
    ghost var up: map<nat, nat>

    /** How the counters stand to the bitmaps now. */
    ghost var account: Account

    /**
      Power-on state: a disk image, and the driver's initial counters; `free` blocks will be free once it is mounted.
     */
    constructor (image: Disk, ghost free: nat)
      requires free <= INITIAL_FREE
      ensures blocks == image && lead == INITIAL_FREE - free && mark == Signature()
      ensures sb == Superblock(INITIAL_FREE, 1791) && bgdt == seq(16, _ => GroupDesc(0, 0, 0, 0, 0, 0))
      ensures account == Exact(lead, mark)
    {
      blocks := image;
      lead := INITIAL_FREE - free;
      mark := Signature();
      sb := Superblock(INITIAL_FREE, 1791);
      bgdt := seq(16, _ => GroupDesc(0, 0, 0, 0, 0, 0));
      nodes, trees, owner, dirs, up := map[], map[], map[], map[], map[];
      account := Exact(INITIAL_FREE - free, Signature());
    }

    ghost predicate SpaceValid()
      reads this
    {
      SpaceOk(blocks, bgdt, sb, account) && account.mark == mark && lead <= INITIAL_FREE
    }

    /** The block store is consistent and the counters are exact. */
    ghost predicate Own()
      reads this
    {
      SpaceValid() && account == Exact(lead, mark) && Owned(blocks, nodes, trees, owner)
    }
  }

  /** find_free_in_bgd: take the first free block of group g; 0 if the group is full. */
  method FindFreeInGroup(fs: Volume, g: nat) returns (block: nat)
    requires fs.SpaceValid()
    modifies fs`blocks, fs`bgdt, fs`sb
    ensures fs.SpaceValid()
    ensures block == 0 <==> g >= 16 || GroupFree(old(fs.blocks), g) == 0
    ensures block == 0 ==> fs.blocks == old(fs.blocks) && fs.bgdt == old(fs.bgdt) && fs.sb == old(fs.sb)
    ensures block != 0 ==>
      IsData(block) && !Used(old(fs.blocks), block) && fs.blocks == MarkBlock(old(fs.blocks), block, true) &&
      FreeTotal(fs.blocks) == FreeTotal(old(fs.blocks)) - 1
    ensures OnlyCounts(old(fs.bgdt), fs.bgdt)
    ensures block != 0 ==> block / 512 == g && forall b: nat :: b / 512 == g && b < block ==> Used(old(fs.blocks), b)
  {
    hide MarkBlock, Counted, IsMeta, SetBit;
    block := 0;
    SpaceGroup(fs.blocks, fs.bgdt, fs.sb, fs.account, g);
    if g >= GROUPS_COUNT || fs.bgdt[g].freeBlocks == 0 {
      return;
    }
    hide SpaceOk, Used, FreeTotal, GroupFree;
    BitmapsAreMeta(g);
    var bitmapBlock := fs.bgdt[g].blockBitmap;
    var bitmap := fs.blocks[bitmapBlock];
    for i := 0 to BLOCKS_PER_GROUP
      invariant fs.blocks == old(fs.blocks) && fs.bgdt == old(fs.bgdt) && fs.sb == old(fs.sb)
      invariant bitmap == fs.blocks[bitmapBlock] && block == 0
      invariant forall j: nat :: j < i ==> Bit(bitmap, j)
    {
      if !Bit(bitmap, i) {
        TakeFirst(fs.blocks, fs.bgdt, fs.sb, fs.account, g, i);
        bitmap := SetBit(bitmap, i, true);
        fs.blocks := fs.blocks[bitmapBlock := bitmap];
        fs.bgdt := Counted(fs.bgdt, g, -1);
        fs.sb := fs.sb.(freeBlocks := fs.sb.freeBlocks - 1);
        block := g * 512 + i;
        return;
      }
    }
    GroupFull(fs.blocks, g);
  }

  lemma SpaceGroup(d: Disk, bgdt: seq<GroupDesc>, sb: Superblock, a: Account, g: nat)
    requires SpaceOk(d, bgdt, sb, a)
    ensures |bgdt| == 16 && |a.slack| == 16
    ensures g < 16 ==> bgdt[g].blockBitmap == BlockBitmapOf(g) && (bgdt[g].freeBlocks == 0 ==> GroupFree(d, g) == 0)
  {
  }

  lemma GroupFull(d: Disk, g: nat)
    requires g < 16 && BlockBitmapOf(g) < 8192 && forall i: nat :: i < 512 ==> Bit(d[BlockBitmapOf(g)], i)
    ensures GroupFree(d, g) == 0
  {
    CountZero(d[BlockBitmapOf(g)], 512);
  }

  /** Taking the first clear bit of a group. */
  lemma TakeFirst(d: Disk, bgdt: seq<GroupDesc>, sb: Superblock, a: Account, g: nat, i: nat)
    requires SpaceOk(d, bgdt, sb, a) && g < 16 && i < 512 && BlockBitmapOf(g) < 8192
    requires !Bit(d[BlockBitmapOf(g)], i) && forall j: nat :: j < i ==> Bit(d[BlockBitmapOf(g)], j)
    ensures var b := g * 512 + i;
      && IsData(b) && b != 0 && !Used(d, b) && b / 512 == g && (forall c: nat :: c / 512 == g && c < b ==> Used(d, c))
      && MarkBlock(d, b, true) == d[BlockBitmapOf(g) := SetBit(d[BlockBitmapOf(g)], i, true)]
      && FreeTotal(MarkBlock(d, b, true)) == FreeTotal(d) - 1
      && |bgdt| == 16 && 0 <= bgdt[g].freeBlocks - 1 && 0 <= sb.freeBlocks - 1
      && SpaceOk(MarkBlock(d, b, true), Counted(bgdt, g, -1), sb.(freeBlocks := sb.freeBlocks - 1), a)
      && OnlyCounts(bgdt, Counted(bgdt, g, -1))
    ensures GroupFree(d, g) != 0
  {
    hide GroupFree, FreeTotal;
    var b := g * 512 + i;
    assert b / 512 == g && b % 512 == i;
    assert !Used(d, b);
    MarkKeepsSpace(d, bgdt, sb, a, b, true);
    forall c: nat | c / 512 == g && c < b
      ensures Used(d, c)
    {
      assert c % 512 < i;
    }
    NotFull(d, g, i);
  }

  lemma NotFull(d: Disk, g: nat, i: nat)
    requires g < 16 && i < 512 && BlockBitmapOf(g) < 8192 && !Bit(d[BlockBitmapOf(g)], i)
    ensures GroupFree(d, g) != 0
  {
    CountZero(d[BlockBitmapOf(g)], 512);
  }

  /** No block of group g is free. */
  ghost predicate Full(d: Disk, g: nat)
  {
    forall b: nat :: b < 8192 && b / 512 == g ==> Used(d, b)
  }

  /**
    The free block that comes next: the lowest of the preferred group, or the lowest of the whole disk when that group
    is full or none.
   */
  ghost predicate Nearest(d: Disk, preferred: nat, block: nat)
  {
    && block < 8192 && !Used(d, block)
    && (forall c: nat :: c < block && c / 512 == block / 512 ==> Used(d, c))
    && if preferred < 16 && !Full(d, preferred) then block / 512 == preferred
       else forall c: nat :: c < block ==> Used(d, c)
  }

  lemma FullIsNone(d: Disk, g: nat)
    requires g < 16
    ensures Full(d, g) <==> GroupFree(d, g) == 0
  {
    BitmapsAreMeta(g);
    CountZero(d[BlockBitmapOf(g)], 512);
    if GroupFree(d, g) == 0 {
      forall b: nat | b < 8192 && b / 512 == g
        ensures Used(d, b)
      {
        assert b % 512 < 512;
      }
    }
    if Full(d, g) {
      forall i: nat | i < 512
        ensures Bit(d[BlockBitmapOf(g)], i)
      {
        var b := 512 * g + i;
        assert b / 512 == g && b % 512 == i;
        assert Used(d, b);
      }
    }
  }

  /** What a search that tried the preferred group and then all groups below its result found. */
  lemma NearestFound(d: Disk, preferred: nat, block: nat, first: bool)
    requires block < 8192 && !Used(d, block) && forall c: nat :: c / 512 == block / 512 && c < block ==> Used(d, c)
    requires if first then block / 512 == preferred else
      (preferred < 16 ==> GroupFree(d, preferred) == 0) && forall g: nat :: g < block / 512 ==> GroupFree(d, g) == 0
    ensures Nearest(d, preferred, block)
  {
    hide Used, GroupFree;
    if !first {
      if preferred < 16 { FullIsNone(d, preferred); }
      forall c: nat | c < block
        ensures Used(d, c)
      {
        if c / 512 < block / 512 { FullIsNone(d, c / 512); }
      }
    } else {
      assert block / 512 == preferred && preferred < 16;
    }
  }

  /**
    From d to e blocks were taken with a preference for group g: all from that group, or else more than it had free.
   */
  ghost predicate LocalTo(d: Disk, e: Disk, g: nat)
  {
    && (forall c: nat :: c < 8192 && Used(d, c) ==> Used(e, c)) && FreeTotal(e) <= FreeTotal(d)
    && (g < 16 ==>
         FreeTotal(d) > FreeTotal(e) + GroupFree(d, g) ||
         (GroupFree(e, g) + FreeTotal(d) == GroupFree(d, g) + FreeTotal(e) &&
          forall c: nat :: New(d, e, c) ==> c / 512 == g))
  }

  lemma LocalTrans(d: Disk, e: Disk, f: Disk, g: nat)
    requires LocalTo(d, e, g) && LocalTo(e, f, g)
    ensures LocalTo(d, f, g)
  {
    hide Used, FreeTotal, GroupFree;
    assert forall c: nat :: New(d, f, c) ==> New(d, e, c) || New(e, f, c);
  }

  lemma LocalTake(d: Disk, b: nat, g: nat)
    requires Nearest(d, g, b) && FreeTotal(MarkBlock(d, b, true)) == FreeTotal(d) - 1
    ensures LocalTo(d, MarkBlock(d, b, true), g)
  {
    hide Used, FreeTotal, GroupFree, MarkBlock;
    MarkBlockEffect(d, b, true);
    if g < 16 {
      MarkGroupFree(d, b, true, g);
      FullIsNone(d, g);
    }
  }

  /** Writes that miss the bitmaps take nothing. */
  lemma LocalWrite(d: Disk, e: Disk, g: nat)
    requires forall h: nat :: h < 16 ==> d[BlockBitmapOf(h)] == e[BlockBitmapOf(h)]
    ensures LocalTo(d, e, g)
  {
    SameBitmaps(d, e, 16);
    forall b: nat | b < 8192
      ensures Used(e, b) == Used(d, b)
    {
      BitmapsAreMeta(b / 512);
    }
  }

  lemma LocalDataWrite(d: Disk, b: nat, buf: Block, g: nat)
    requires IsData(b)
    ensures LocalTo(d, d[b := buf], g)
  {
    forall h: nat | h < 16
      ensures d[BlockBitmapOf(h)] == d[b := buf][BlockBitmapOf(h)]
    {
      BitmapsAreMeta(h);
    }
    LocalWrite(d, d[b := buf], g);
  }

  /** find_free_anywhere: the preferred group first, then the others in order; 0 only when the disk is full. */
  method FindFreeAnywhere(fs: Volume, preferred: nat) returns (block: nat)
    requires fs.SpaceValid()
    modifies fs`blocks, fs`bgdt, fs`sb
    ensures fs.SpaceValid()
    ensures block == 0 <==> FreeTotal(old(fs.blocks)) == 0
    ensures block == 0 ==> fs.blocks == old(fs.blocks) && fs.bgdt == old(fs.bgdt) && fs.sb == old(fs.sb)
    ensures block != 0 ==>
      IsData(block) && !Used(old(fs.blocks), block) && fs.blocks == MarkBlock(old(fs.blocks), block, true) &&
      FreeTotal(fs.blocks) == FreeTotal(old(fs.blocks)) - 1
    ensures OnlyCounts(old(fs.bgdt), fs.bgdt)
    ensures block != 0 ==> Nearest(old(fs.blocks), preferred, block)
    ensures LocalTo(old(fs.blocks), fs.blocks, preferred)
  {
    hide SpaceOk, Used, IsMeta, MarkBlock, Nearest, LocalTo, GroupFree, FreeTotal;
    NoneLeft(fs.blocks);
    LocalWrite(fs.blocks, fs.blocks, preferred);
    block := FindFreeInGroup(fs, preferred);
    if block != 0 {
      NearestFound(old(fs.blocks), preferred, block, true);
      LocalTake(old(fs.blocks), block, preferred);
      return;
    }
    for i := 0 to GROUPS_COUNT
      invariant fs.blocks == old(fs.blocks) && fs.bgdt == old(fs.bgdt) && fs.sb == old(fs.sb) && block == 0
      invariant forall g: nat :: g < i ==> GroupFree(fs.blocks, g) == 0
    {
      if i != preferred {
        block := FindFreeInGroup(fs, i);
        if block != 0 {
          NearestFound(old(fs.blocks), preferred, block, false);
          LocalTake(old(fs.blocks), block, preferred);
          return;
        }
      }
    }
  }

  lemma NoneLeft(d: Disk)
    ensures FreeTotal(d) == 0 <==> forall g: nat :: g < 16 ==> GroupFree(d, g) == 0
  {
    NoneFree(d, 16);
  }

  /** exists_n_free_blocks: counts clear bits until n are seen; block 0 being reserved makes it right for n == 0 too. */
  method ExistFreeBlocks(fs: Volume, n: nat) returns (exist: bool)
    requires fs.SpaceValid()
    ensures exist <==> FreeTotal(fs.blocks) >= n
  {
    assert Used(fs.blocks, 0) by { assert IsMeta(0); }
    var total := 0;
    for g := 0 to GROUPS_COUNT
      invariant total == FreeUpTo(fs.blocks, g)
      invariant total < n || (g == 0 && n == 0)
    {
      BitmapsAreMeta(g);
      var bitmap := fs.blocks[fs.bgdt[g].blockBitmap];
      for i := 0 to BLOCKS_PER_GROUP
        invariant total == FreeUpTo(fs.blocks, g) + CountClear(bitmap, i)
        invariant total < n || (g == 0 && i == 0 && n == 0)
      {
        if !Bit(bitmap, i) {
          total := total + 1;
        }
        if total == n {
          CountMonotone(bitmap, i + 1, 512);
          FreeMonotone(fs.blocks, g + 1, 16);
          return true;
        }
      }
    }
    return false;
  }

  lemma {:induction false} CountMonotone(b: Block, m: nat, n: nat)
    requires m <= n <= 512
    ensures CountClear(b, m) <= CountClear(b, n)
  {
    if m < n { CountMonotone(b, m, n - 1); }
  }

  lemma {:induction false} FreeMonotone(d: Disk, m: nat, n: nat)
    requires m <= n <= 16
    ensures FreeUpTo(d, m) <= FreeUpTo(d, n)
  {
    if m < n { FreeMonotone(d, m, n - 1); }
  }
}
