/** Formatting an empty disk: the first valid file system. */
module Format {
  import opened Bytes
  import opened Bitmap
  import opened Geometry
  import opened Inodes
  import opened Space
  import opened BlockTree
  import opened Ownership
  import opened DirRecords
  import opened Volumes
  import opened Allocation
  import opened InodeTable
  import opened Directory
  import opened Metadata
  import opened Invariant
  import opened FileSystem
  import opened ReadDelete

  lemma {:induction false} ZeroByte(k: nat)
    ensures !ByteBit(0, k)
  {
    if k > 0 { ZeroByte(k - 1); }
  }

  lemma ZeroBits()
    ensures forall i: nat :: i < 4096 ==> !Bit(ZeroBlock(), i)
  {
    forall i: nat | i < 4096
      ensures !Bit(ZeroBlock(), i)
    {
      ZeroByte(i % 8);
    }
  }

  /** Exactly the first n bits are set. */
  ghost predicate FirstBits(b: Block, n: nat)
  {
    forall i: nat :: i < 512 ==> (Bit(b, i) <==> i < n)
  }

  lemma {:induction false} CountFirst(b: Block, k: nat, n: nat)
    requires FirstBits(b, k) && n <= 512
    ensures CountClear(b, n) == if n <= k then 0 else n - k
  {
    if n > 0 { CountFirst(b, k, n - 1); }
  }

  /** Reserved blocks at the start of group g. */
  function ReservedOf(g: nat): (n: nat)
  {
    if g == 0 then 21 else 19
  }

  ghost predicate FreshBitmaps(d: Disk)
  {
    && (forall g: nat :: g < 16 ==> FirstBits(d[BlockBitmapOf(g)], ReservedOf(g)))
    && (forall g: nat :: g < 16 ==> d[InodeBitmapOf(g)] == ZeroBlock())
  }

  lemma {:induction false} FreshFree(d: Disk, n: nat)
    requires FreshBitmaps(d) && n <= 16
    ensures FreeUpTo(d, n) == if n == 0 then 0 else 493 * n - 2
  {
    if n > 0 {
      FreshFree(d, n - 1);
      BitmapsAreMeta(n - 1);
      CountFirst(d[BlockBitmapOf(n - 1)], ReservedOf(n - 1), 512);
    }
  }

  function FreshDesc(g: nat): (bgd: GroupDesc)
    requires g < 16
  {
    GroupDesc(BlockBitmapOf(g), InodeBitmapOf(g), InodeTableOf(g), 512 - ReservedOf(g), 112, 0)
  }

  /** On a freshly laid out disk the accounting holds and no allocatable block is in use. */
  lemma FreshSpace(d: Disk, bgdt: seq<GroupDesc>, sb: Superblock, a: Account)
    requires FreshBitmaps(d) && d[0] == a.mark && |bgdt| == 16 && sb.freeBlocks == INITIAL_FREE &&
      a == Exact(296, a.mark)
    requires forall g: nat :: g < 16 ==> bgdt[g] == FreshDesc(g)
    ensures SpaceOk(d, bgdt, sb, a) && Owned(d, map[], map[], map[]) && FreeTotal(d) == 7886
    ensures forall j: nat :: IsInode(j) ==> !InodeUsed(d, j)
    ensures forall b: nat :: b < 8192 ==> (Used(d, b) <==> IsMeta(b))
  {
    FreshFree(d, 16);
    forall g: nat | g < 16
      ensures GroupFree(d, g) == 512 - ReservedOf(g)
    {
      BitmapsAreMeta(g);
      CountFirst(d[BlockBitmapOf(g)], ReservedOf(g), 512);
    }
    forall b: nat | b < 8192
      ensures Used(d, b) <==> IsMeta(b)
    {
      var g := b / 512;
      BitmapsAreMeta(g);
      assert FirstBits(d[BlockBitmapOf(g)], ReservedOf(g));
    }
    ZeroBits();
    forall j: nat | IsInode(j)
      ensures !InodeUsed(d, j)
    {
      BitmapsAreMeta(InodeGroup(j));
    }
  }

  /** First loop of create_ext2: the descriptor of every group. */
  method FillDescriptors(fs: Volume)
    requires |fs.bgdt| == 16
    modifies fs`bgdt
    ensures |fs.bgdt| == 16 && forall g: nat :: g < 16 ==> fs.bgdt[g] == FreshDesc(g)
  {
    var initialGroupBlocks := 5 + 16;
    for i := 0 to GROUPS_COUNT
      invariant |fs.bgdt| == 16 && forall g: nat :: g < i ==> fs.bgdt[g] == FreshDesc(g)
    {
      var desc :=
        if i == 0 then GroupDesc(3, 4, 5, 512 - initialGroupBlocks, 112, 0)
        else GroupDesc(1 + i * 512, 2 + i * 512, 3 + i * 512, 512 - (initialGroupBlocks - 2), 112, 0);
      fs.bgdt := fs.bgdt[i := desc];
    }
  }

  /** The bitmap with the first n bits set. */
  method FirstBitmap(n: nat) returns (b: Block)
    requires n <= 512
    ensures FirstBits(b, n)
  {
    ZeroBits();
    b := ZeroBlock();
    for i := 0 to n
      invariant forall j: nat :: j < 512 ==> (Bit(b, j) <==> j < i)
    {
      b := SetBit(b, i, true);
    }
  }

  /** Blocks of the inode tables. */
  predicate IsTableBlock(c: nat)
  {
    c < 8192 && if c < 512 then 5 <= c < 21 else 3 <= c % 512 < 19
  }

  lemma TableSlots(d: Disk, e: Disk)
    requires forall c: nat :: IsTableBlock(c) ==> e[c] == d[c]
    ensures SlotsKept(d, e, {})
  {
    forall j: nat | IsInode(j)
      ensures InodeAt(e, j) == InodeAt(d, j)
    {
      SlotTable(j);
    }
  }

  lemma SlotTable(j: nat)
    requires IsInode(j)
    ensures IsTableBlock(SlotBlock(j))
  {
    SlotAt(j);
    SlotInTable(j, 0);
    var g, q := InodeGroup(j), InodeLocal(j) / 7;
    assert SlotBlock(j) == InodeTableOf(g) + q && q < 16;
    hide InodeGroup, InodeLocal;
  }

  lemma BitmapsDiffer(g: nat, h: nat)
    requires g < 16 && h < 16
    ensures BlockBitmapOf(g) != InodeBitmapOf(h)
    ensures g != h ==> BlockBitmapOf(g) != BlockBitmapOf(h) && InodeBitmapOf(g) != InodeBitmapOf(h)
    ensures !IsTableBlock(BlockBitmapOf(g)) && !IsTableBlock(InodeBitmapOf(g))
    ensures BlockBitmapOf(g) < 8192 && InodeBitmapOf(g) < 8192
  {
  }

  lemma TableInDisk()
    ensures forall c: nat :: IsTableBlock(c) ==> 2 < c < 8192 && !IsTableCopy(c)
  {
  }

  /** The bitmap loops of create_ext2. */
  method WriteBitmaps(fs: Volume)
    requires |fs.bgdt| == 16 && forall g: nat :: g < 16 ==> fs.bgdt[g] == FreshDesc(g)
    modifies fs`blocks
    ensures FreshBitmaps(fs.blocks) && fs.blocks[0] == old(fs.blocks)[0]
    ensures forall c: nat :: IsTableBlock(c) ==> fs.blocks[c] == old(fs.blocks)[c]
  {
    TableInDisk();
    hide Bit, SetBit, IsTableBlock;
    for group := 0 to GROUPS_COUNT
      invariant forall g: nat :: g < group ==> fs.blocks[InodeBitmapOf(g)] == ZeroBlock()
      invariant fs.blocks[0] == old(fs.blocks)[0]
      invariant forall c: nat :: IsTableBlock(c) ==> c < 8192 && fs.blocks[c] == old(fs.blocks)[c]
    {
      BitmapsDiffer(group, group);
      fs.blocks := fs.blocks[fs.bgdt[group].inodeBitmap := ZeroBlock()];
    }
    var b := FirstBitmap(21);
    BitmapsDiffer(0, 0);
    forall g: nat | g < 16
      ensures InodeBitmapOf(g) != BlockBitmapOf(0)
    {
      BitmapsDiffer(0, g);
    }
    fs.blocks := fs.blocks[fs.bgdt[0].blockBitmap := b];
    b := SetBit(b, 20, false);
    b := SetBit(b, 19, false);
    for group := 1 to GROUPS_COUNT
      invariant forall g: nat :: g < 16 ==> fs.blocks[InodeBitmapOf(g)] == ZeroBlock()
      invariant forall g: nat :: g < group ==> FirstBits(fs.blocks[BlockBitmapOf(g)], ReservedOf(g))
      invariant fs.blocks[0] == old(fs.blocks)[0]
      invariant forall c: nat :: IsTableBlock(c) ==> c < 8192 && fs.blocks[c] == old(fs.blocks)[c]
    {
      forall g: nat | g < 16
        ensures InodeBitmapOf(g) != BlockBitmapOf(group) && (g != group ==> BlockBitmapOf(g) != BlockBitmapOf(group))
      {
        BitmapsDiffer(group, g);
      }
      BitmapsDiffer(group, group);
      fs.blocks := fs.blocks[fs.bgdt[group].blockBitmap := b];
    }
  }

  /** The driver's own data as `create_ext2` expects it. */
  ghost predicate PoweredOn(fs: Volume)
    reads fs
  {
    |fs.bgdt| == 16 && fs.sb.freeBlocks == INITIAL_FREE && fs.mark == Signature() &&
    fs.account == Exact(fs.lead, fs.mark) && fs.lead <= INITIAL_FREE
  }

  /** First part of create_ext2: headers and bitmaps, no inode yet. */
  method LayOut(fs: Volume)
    requires PoweredOn(fs) && fs.lead == 296
    modifies fs
    ensures fs.Own() && FreeTotal(fs.blocks) == 7886
    ensures fs.nodes == map[] && fs.trees == map[] && fs.owner == map[] && fs.dirs == map[] && fs.up == map[]
    ensures |fs.bgdt| == 16 && forall g: nat :: g < 16 ==> fs.bgdt[g].freeInodes == 112
    ensures forall j: nat :: IsInode(j) ==> !InodeUsed(fs.blocks, j)
    ensures forall b: nat :: b < 8192 ==> (Used(fs.blocks, b) <==> IsMeta(b))
    ensures fs.blocks[0] == Signature() && SlotsKept(old(fs.blocks), fs.blocks, {})
  {
    hide InodeAt, SlotsKept, IsMeta, Used, FreeTotal, Owned, SpaceOk, InodeUsed, FreshBitmaps, FreshDesc, Signature,
      EncodeSuper, EncodeTable;
    TableInDisk();
    hide IsTableBlock;
    fs.blocks := fs.blocks[0 := Signature()];
    UpdateSuperblock(fs);
    FillDescriptors(fs);
    UpdateBgdt(fs);
    WriteBitmaps(fs);
    fs.nodes, fs.trees, fs.owner, fs.dirs, fs.up := map[], map[], map[], map[], map[];
    fs.account := Exact(296, fs.mark);
    FreshSpace(fs.blocks, fs.bgdt, fs.sb, fs.account);
    FreshInodes();
    TableSlots(old(fs.blocks), fs.blocks);
  }

  lemma FreshInodes()
    ensures forall g: nat :: g < 16 ==> FreshDesc(g).freeInodes == 112
  {
  }

  lemma OneDirectory(d: Disk, bgdt: seq<GroupDesc>, sb: Superblock, a: Account, b: seq<GroupDesc>, s: Superblock)
    requires SpaceOk(d, bgdt, sb, a) && |bgdt| == 16 && |b| == 16
    requires b == bgdt[0 := bgdt[0].(usedDirs := b[0].usedDirs)] && s.freeBlocks == sb.freeBlocks
    ensures SpaceOk(d, b, s, a)
  {
    hide IsMeta, Used, GroupFree, FreeTotal;
  }

  /** The counter updates create_ext2 makes for the root, and the last time it writes the table. */
  method CountRoot(fs: Volume)
    requires fs.SpaceValid()
    modifies fs`blocks, fs`bgdt, fs`sb
    ensures fs.SpaceValid() && FreeTotal(fs.blocks) == FreeTotal(old(fs.blocks))
    ensures HeadersOnly(old(fs.blocks), fs.blocks) && fs.blocks[0] == old(fs.blocks)[0]
    ensures TableCurrent(fs.blocks, fs.bgdt)
    ensures |fs.bgdt| == |old(fs.bgdt)| == 16
    ensures forall g: nat :: g < 16 ==> fs.bgdt[g].freeInodes == old(fs.bgdt)[g].freeInodes
  {
    hide IsMeta, Used, FreeTotal, SpaceOk, InodeAt, InodeUsed, EncodeTable, DecodeTable, MetaOnly;
    ghost var d := fs.blocks;
    SpaceSize(fs.blocks, fs.bgdt, fs.sb, fs.account);
    ghost var bgdt, sb := fs.bgdt, fs.sb;
    var dirs: int := fs.bgdt[0].usedDirs;
    fs.bgdt := fs.bgdt[0 := fs.bgdt[0].(usedDirs := (dirs + 1) % 0x1_0000)];
    OneDirectory(d, bgdt, sb, fs.account, fs.bgdt, sb);
    UpdateBgdt(fs);
    UpdateBgdt(fs);
    DecodeEncodedTable(fs.bgdt);
    HeadersHarmless(d, fs.blocks);
    MetaKeepsSpace(d, fs.blocks, fs.bgdt, fs.sb, fs.account);
    fs.sb := fs.sb.(freeInodes := LessOne(fs.sb.freeInodes));
    OneDirectory(fs.blocks, fs.bgdt, sb, fs.account, fs.bgdt, fs.sb);
  }

  /**
    The table on disk describes the groups and their free blocks as they are, so that a start from this disk takes it
    over.
   */
  ghost predicate TableAgrees(d: Disk)
  {
    forall g: nat :: g < 16 ==>
      DescriptorOk(DecodeTable(d[2])[g], g) && DecodeTable(d[2])[g].freeBlocks == GroupFree(d, g)
  }

  lemma {:induction false} SameGroups(d: Disk, e: Disk, n: nat)
    requires n <= 16 && forall g: nat :: g < n ==> GroupFree(d, g) == GroupFree(e, g)
    ensures FreeUpTo(d, n) == FreeUpTo(e, n)
  {
    if n > 0 { SameGroups(d, e, n - 1); }
  }

  /** Once the free total has moved on, a table that agreed no longer does. */
  lemma TableFellBehind(d: Disk, e: Disk)
    requires TableAgrees(d) && e[2] == d[2] && FreeTotal(e) != FreeTotal(d)
    ensures !TableAgrees(e)
  {
    hide GroupFree, DecodeTable, DescriptorOk;
    if TableAgrees(e) {
      forall g: nat | g < 16
        ensures GroupFree(d, g) == GroupFree(e, g)
      {
        assert DecodeTable(d[2])[g].freeBlocks == GroupFree(d, g) && DecodeTable(e[2])[g].freeBlocks == GroupFree(e, g);
      }
      SameGroups(d, e, 16);
    }
  }

  /** With exact counters in memory, a current table agrees. */
  lemma CurrentAgrees(d: Disk, bgdt: seq<GroupDesc>, sb: Superblock, a: Account, lead: nat, mark: Block)
    requires SpaceOk(d, bgdt, sb, a) && a == Exact(lead, mark) && TableCurrent(d, bgdt)
    ensures TableAgrees(d)
  {
    hide DecodeTable, GroupFree;
  }

  /** Second part of create_ext2: the root directory, inode 2. */
  method MakeRoot(fs: Volume)
    requires fs.Own() && FreeTotal(fs.blocks) == 7886
    requires fs.nodes == map[] && fs.trees == map[] && fs.owner == map[] && fs.dirs == map[] && fs.up == map[]
    requires |fs.bgdt| == 16 && forall g: nat :: g < 16 ==> fs.bgdt[g].freeInodes == 112
    requires forall j: nat :: IsInode(j) ==> !InodeUsed(fs.blocks, j)
    requires forall b: nat :: b < 8192 ==> (Used(fs.blocks, b) <==> IsMeta(b))
    modifies fs
    ensures fs.Own() && FreeTotal(fs.blocks) == 7885
    ensures 2 in fs.trees && fs.trees[2].data == [21]
    ensures ROOT in fs.nodes && fs.nodes == map[ROOT := fs.nodes[ROOT]] && fs.nodes[ROOT].mode == MODE_DIR
    ensures fs.dirs == map[ROOT := DotRecs(ROOT, ROOT)] && fs.up == map[]
    ensures Contents(fs.blocks, fs.trees, fs.dirs) && Synced(fs.blocks, fs.nodes)
    ensures fs.blocks[0] == old(fs.blocks)[0] && !TableAgrees(fs.blocks)
    ensures |fs.bgdt| == 16 && forall g: nat :: 0 < g < 16 ==> fs.bgdt[g].freeInodes == 112
    ensures SlotsKept(old(fs.blocks), fs.blocks, {ROOT})
  {
    hide IsMeta, Used, FreeTotal, Owned, SpaceOk, Chain, InodeAt, InodeUsed, Layout, DotRecs, Nearest, DotBlock,
      TableCurrent, TableAgrees, KeptUsed, AllNew, StoreInode, MarkInode, PtrCount, MetaOnly, Synced, Contents,
      HeadersOnly, Exact, InodeGroup, Claimed;
    ghost var d, lead, mark := fs.blocks, fs.lead, fs.mark;
    var root := Inode(MODE_DIR, BLOCK_SIZE, 1, NoPointers());
    SyncNode(fs, ROOT, root);
    ghost var d1 := fs.blocks;
    CountRoot(fs);
    ghost var d2 := fs.blocks;
    CurrentAgrees(d2, fs.bgdt, fs.sb, fs.account, lead, mark);
    ghost var t;
    root, t := InitDirectoryTable(fs, root, ROOT, ROOT);
    RootBlock(d, d1, d2, t);
    ghost var d3 := fs.blocks;
    SyncNode(fs, ROOT, root);
    RootOwned(d, d1, d2, d3, fs.blocks, root, t);
    fs.nodes, fs.trees, fs.owner := map[ROOT := root], map[ROOT := t], Claimed(map[], d2, d3, ROOT);
    fs.dirs := map[ROOT := DotRecs(ROOT, ROOT)];
    KeptMeta(d2, d3);
    DotBlockChain(ROOT, ROOT);
    RootSynced(d, d1, d2, d3, fs.blocks, Inode(MODE_DIR, BLOCK_SIZE, 1, NoPointers()), root);
    RootContents(d3, fs.blocks, fs.nodes, fs.trees, fs.owner, fs.dirs);
    Block0(d, Inode(MODE_DIR, BLOCK_SIZE, 1, NoPointers()));
    Block0(d3, root);
    TableFellBehind(d2, fs.blocks);
    RootSlots(d, d1, d2, d3, fs.blocks, Inode(MODE_DIR, BLOCK_SIZE, 1, NoPointers()), root);
  }

  /** The first block of the disk that is not reserved is the root's. */
  lemma RootBlock(d: Disk, d1: Disk, d2: Disk, t: Tree)
    requires forall b: nat :: b < 8192 ==> (Used(d, b) <==> IsMeta(b))
    requires MetaOnly(d, d1) && HeadersOnly(d1, d2) && |t.data| == 1 && Nearest(d2, InodeGroup(2), t.data[0])
    ensures t.data == [21]
  {
    hide Used, FreeTotal, HeadersOnly, MetaOnly;
    HeadersHarmless(d1, d2);
    SameUse(d, d1);
    SameUse(d1, d2);
    assert IsMeta(20) && !IsMeta(21);
    assert !Used(d2, 21);
    assert 21 / 512 == 0;
    assert !Full(d2, 0);
    assert t.data[0] / 512 == 0;
    assert forall b: nat :: b < 21 ==> IsMeta(b);
  }

  lemma RootSlots(d: Disk, d1: Disk, d2: Disk, d3: Disk, e: Disk, n: Inode, m: Inode)
    requires d1 == StoreInode(MarkInode(d, ROOT, true), ROOT, n) && HeadersOnly(d1, d2)
    requires forall c: nat :: c < 8192 && IsMeta(c) && !IsBlockBitmap(c) ==> d3[c] == d2[c]
    requires e == StoreInode(MarkInode(d3, ROOT, true), ROOT, m)
    ensures SlotsKept(d, e, {ROOT})
  {
    hide IsMeta, InodeAt, InodeUsed, StoreInode, MarkInode, HeadersOnly;
    HeadersHarmless(d1, d2);
    MetaSlots(d2, d3);
    forall j: nat | IsInode(j) && j != ROOT
      ensures InodeAt(e, j) == InodeAt(d, j)
    {
      SyncEffect(d, ROOT, n, j);
      SyncEffect(d3, ROOT, m, j);
    }
  }

  lemma RootOwned(d: Disk, d1: Disk, d2: Disk, d3: Disk, e: Disk, m: Inode, t: Tree)
    requires Owned(d, map[], map[], map[]) && MetaOnly(d, d1) && HeadersOnly(d1, d2) && Laid(d2, d3, m, t) &&
      MetaOnly(d3, e)
    ensures Owned(e, map[ROOT := m], map[ROOT := t], Claimed(map[], d2, d3, ROOT))
  {
    hide IsMeta, Used, FreeTotal, Owned, Layout, MetaOnly, Claimed, HeadersOnly, KeptUsed, AllNew, Sole;
    HeadersHarmless(d1, d2);
    MetaKeepsOwned(d, d1, map[], map[], map[]);
    MetaKeepsOwned(d1, d2, map[], map[], map[]);
    var m0 := m.(size := 0, blocks := 0, block := NoPointers());
    AddEmpty(d2, map[], map[], map[], ROOT, m0);
    var nodes: map<nat, Inode>, trees: map<nat, Tree> := map[][ROOT := m0], map[][ROOT := EMPTY_TREE];
    StoredOwned(d2, nodes, trees, map[], ROOT, d3, m, t);
    assert nodes[ROOT := m] == map[ROOT := m] && trees[ROOT := t] == map[ROOT := t];
    MetaKeepsOwned(d3, e, map[ROOT := m], map[ROOT := t], Claimed(map[], d2, d3, ROOT));
  }

  lemma Block0(d: Disk, n: Inode)
    ensures var e := StoreInode(MarkInode(d, ROOT, true), ROOT, n); e[0] == d[0] && e[2] == d[2]
    ensures IsMeta(0) && !IsBlockBitmap(0) && IsMeta(2) && !IsBlockBitmap(2) && InodeGroup(ROOT) == 0
  {
    SlotInTable(ROOT, 0);
  }

  lemma RootSynced(d: Disk, d1: Disk, d2: Disk, d3: Disk, e: Disk, n: Inode, m: Inode)
    requires forall j: nat :: IsInode(j) ==> !InodeUsed(d, j)
    requires d1 == StoreInode(MarkInode(d, ROOT, true), ROOT, n)
    requires HeadersOnly(d1, d2)
    requires forall c: nat :: c < 8192 && IsMeta(c) && !IsBlockBitmap(c) ==> d3[c] == d2[c]
    requires e == StoreInode(MarkInode(d3, ROOT, true), ROOT, m)
    ensures Synced(e, map[ROOT := m])
  {
    hide IsMeta, InodeAt, InodeUsed, StoreInode, MarkInode, HeadersOnly;
    HeadersHarmless(d1, d2);
    forall j: nat | IsInode(j)
      ensures InodeUsed(e, j) <==> j == ROOT
      ensures j == ROOT ==> InodeAt(e, j) == m
    {
      SyncEffect(d, ROOT, n, j);
      InodesKept(d2, d3, j);
      SyncEffect(d3, ROOT, m, j);
    }
  }

  lemma RootContents(d: Disk, e: Disk, nodes: map<nat, Inode>, trees: map<nat, Tree>, owner: map<nat, nat>,
                     dirs: map<nat, seq<Rec>>)
    requires MetaOnly(d, e) && ROOT in nodes && ROOT in trees && dirs == map[ROOT := DotRecs(ROOT, ROOT)]
    requires Owned(e, nodes, trees, owner)
    requires Chain(FileBlocks(d, trees[ROOT].data), DotRecs(ROOT, ROOT))
    ensures Contents(e, trees, dirs)
  {
    hide IsMeta, Used, Chain, FileBlocks, DotRecs, Layout, TreeOk;
    OwnedTreeAt(e, nodes, trees, owner, ROOT);
    DataSameBlocks(d, e, trees[ROOT]);
  }

  /** The root alone is a tidy graph. */
  lemma RootTidy(nodes: map<nat, Inode>)
    requires ROOT in nodes && nodes == map[ROOT := nodes[ROOT]] && nodes[ROOT].mode == MODE_DIR
    ensures Tidy(nodes, map[ROOT := DotRecs(ROOT, ROOT)], map[])
  {
    DotShape(ROOT, ROOT);
    assert Heights(map[], map[]);
  }

  /**
    create_ext2: from any image to the valid file system holding just the root directory, with a table on disk already
    out of date.
   */
  method CreateExt2(fs: Volume)
    requires PoweredOn(fs) && fs.lead == 296
    modifies fs
    ensures Valid(fs) && !TableAgrees(fs.blocks)
    ensures fs.nodes.Keys == {ROOT} && fs.dirs == map[ROOT := DotRecs(ROOT, ROOT)]
    ensures fs.nodes.Keys == {2} && 2 in fs.trees && fs.trees[2].data == [21]
    ensures FreeTotal(fs.blocks) == 7885
    ensures |fs.bgdt| == 16 && forall g: nat :: 0 < g < 16 ==> fs.bgdt[g].freeInodes == 112
    ensures fs.blocks[0] == Signature() && SlotsKept(old(fs.blocks), fs.blocks, {ROOT})
  {
    hide IsMeta, Used, FreeTotal, Owned, SpaceOk, Chain, InodeAt, InodeUsed, Tidy, FileBlocks, DotRecs, Signature,
      Synced, Contents, TableAgrees, Exact;
    hide SlotsKept;
    LayOut(fs);
    ghost var laid := fs.blocks;
    MakeRoot(fs);
    SlotsKeptTrans(old(fs.blocks), laid, fs.blocks, {}, {ROOT});
    assert {} + {ROOT} == {ROOT};
    RootTidy(fs.nodes);
  }

  /**
    initialize_filesystem_ext2: format a disk without the signature, else take over the descriptor table found on it.
   */
  method Initialize(fs: Volume)
    requires PoweredOn(fs) && (fs.blocks[0] != Signature() ==> fs.lead == 296)
    modifies fs
    ensures old(fs.blocks)[0] != Signature() ==>
      Valid(fs) && fs.nodes.Keys == {ROOT} && fs.dirs == map[ROOT := DotRecs(ROOT, ROOT)] &&
      FreeTotal(fs.blocks) == 7885 &&
      !TableAgrees(fs.blocks) && SlotsKept(old(fs.blocks), fs.blocks, {ROOT}) &&
      |fs.bgdt| == 16 && forall g: nat :: 0 < g < 16 ==> fs.bgdt[g].freeInodes == 112
    ensures old(fs.blocks)[0] == Signature() ==>
      fs.blocks == old(fs.blocks) && fs.bgdt == DecodeTable(fs.blocks[2]) && fs.sb == old(fs.sb) &&
        fs.account == old(fs.account)
  {
    hide Valid, FreeTotal, DotRecs, Signature, DecodeTable, TableAgrees, SlotsKept;
    if fs.blocks[0] != Signature() {
      CreateExt2(fs);
    } else {
      ReloadTable(fs);
    }
  }

  lemma {:induction false} CountReserved(b: Block, k: nat, n: nat)
    requires n <= 512 && forall i: nat :: i < k && i < n ==> Bit(b, i)
    ensures CountClear(b, n) <= if n <= k then 0 else n - k
  {
    if n > 0 { CountReserved(b, k, n - 1); }
  }

  /** The reserved blocks alone keep the free count below the driver's initial counter. */
  lemma {:induction false} FreeBound(d: Disk, n: nat)
    requires n <= 16 && forall b: nat :: b < 8192 && IsMeta(b) ==> Used(d, b)
    ensures FreeUpTo(d, n) <= if n == 0 then 0 else 493 * n - 2
  {
    if n > 0 {
      var g := n - 1;
      FreeBound(d, g);
      BitmapsAreMeta(g);
      forall i: nat | i < ReservedOf(g)
        ensures Bit(d[BlockBitmapOf(g)], i)
      {
        var b := 512 * g + i;
        assert b / 512 == g && b % 512 == i && IsMeta(b);
        assert Used(d, b);
      }
      CountReserved(d[BlockBitmapOf(g)], ReservedOf(g), 512);
    }
  }

  /**
    With the free blocks as they are and the block counter started anew, the accounting holds exactly if the table
    agrees.
   */
  lemma Reloaded(d: Disk, bgdt: seq<GroupDesc>, sb: Superblock, a: Account, restarted: Superblock)
    requires SpaceOk(d, bgdt, sb, a) && restarted.freeBlocks == INITIAL_FREE
    ensures FreeTotal(d) <= 7886 && d[0] == a.mark
    ensures SpaceOk(d, DecodeTable(d[2]), restarted, Exact(INITIAL_FREE - FreeTotal(d), a.mark)) <==> TableAgrees(d)
  {
    hide GroupFree, Used, IsMeta, DecodeDesc;
    FreeBound(d, 16);
  }

  /** Starting on any image without the signature formats it. */
  method FirstStart(image: Disk) returns (fs: Volume)
    requires image[0] != Signature()
    ensures fresh(fs) && Valid(fs) && fs.nodes.Keys == {ROOT} && fs.dirs == map[ROOT := DotRecs(ROOT, ROOT)]
    ensures FreeTotal(fs.blocks) == 7885 && fs.mark == Signature()
    ensures !TableAgrees(fs.blocks) && !TableCurrent(fs.blocks, fs.bgdt) && SlotsKept(image, fs.blocks, {ROOT})
    ensures |fs.bgdt| == 16 && forall g: nat :: 0 < g < 16 ==> fs.bgdt[g].freeInodes == 112
  {
    hide FreeTotal, DotRecs, Signature, TableAgrees, TableCurrent, SpaceOk, Owned, Synced, Contents, Tidy, Exact,
      SlotsKept;
    fs := new Volume(image, 7886);
    Initialize(fs);
    if TableCurrent(fs.blocks, fs.bgdt) {
      CurrentAgrees(fs.blocks, fs.bgdt, fs.sb, fs.account, fs.lead, fs.mark);
    }
  }

  /**
    Shutting down and starting again keeps the disk, and gives the same files exactly when the table on disk agrees with
    the bitmaps, as it does once it is current.  The driver's superblock counter starts over with another lead.
   */
  method Restart(was: Volume) returns (fs: Volume)
    requires Valid(was) && was.mark == Signature()
    ensures fresh(fs) && fs.blocks == was.blocks && fs.bgdt == DecodeTable(was.blocks[2])
    ensures fs.nodes == was.nodes && fs.trees == was.trees && fs.dirs == was.dirs && fs.up == was.up
    ensures fs.sb.freeBlocks == INITIAL_FREE && fs.mark == Signature()
    ensures Valid(fs) <==> TableAgrees(was.blocks)
    ensures TableCurrent(was.blocks, was.bgdt) ==> TableAgrees(was.blocks)
  {
    hide Used, FreeTotal, Owned, SpaceOk, Tidy, Signature, DecodeTable, Synced, Contents, TableAgrees;
    Reloaded(was.blocks, was.bgdt, was.sb, was.account, Superblock(INITIAL_FREE, 1791));
    if TableCurrent(was.blocks, was.bgdt) {
      CurrentAgrees(was.blocks, was.bgdt, was.sb, was.account, was.lead, was.mark);
    }
    fs := new Volume(was.blocks, FreeTotal(was.blocks));
    Initialize(fs);
    fs.nodes, fs.trees, fs.owner, fs.dirs, fs.up := was.nodes, was.trees, was.owner, was.dirs, was.up;
  }

  /**
    A disk formatted and then started again before anything was written comes up with a free count the bitmap does not
    bear out.
   */
  method FormatThenRestart(image: Disk) returns (fs: Volume)
    requires image[0] != Signature()
    ensures !Valid(fs) && fs.bgdt == DecodeTable(fs.blocks[2]) && FreeTotal(fs.blocks) == 7885
  {
    hide Valid, FreeTotal, Signature, TableAgrees, TableCurrent, DecodeTable;
    var first := FirstStart(image);
    fs := Restart(first);
  }
}
