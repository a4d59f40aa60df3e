/** Reading and writing inodes through the group descriptors. */
module InodeTable {
  import opened Bytes
  import opened Bitmap
  import opened Geometry
  import opened Inodes
  import opened Space
  import opened BlockTree
  import opened Ownership
  import opened Volumes

  /** read_inode */
  method ReadInode(fs: Volume, k: nat) returns (node: Inode)
    requires fs.SpaceValid() && IsInode(k)
    ensures node == InodeAt(fs.blocks, k)
  {
    SlotInTable(k, 0);
    var group, local := InodeGroup(k), InodeLocal(k);
    var b := fs.blocks[fs.bgdt[group].inodeTable + local / INODES_PER_TABLE];
    node := DecodeInode(b, (local % INODES_PER_TABLE) * INODE_SIZE);
  }

  /** Counters of free inodes wrap round in their 16 and 32 bits. */
  function InodeTaken(bgdt: seq<GroupDesc>, g: nat): (r: seq<GroupDesc>)
    requires g < |bgdt|
    ensures |r| == |bgdt| && forall h :: 0 <= h < |bgdt| && h != g ==> r[h] == bgdt[h]
    ensures r[g] == bgdt[g].(freeInodes := r[g].freeInodes)
    ensures if bgdt[g].freeInodes == 0 then r[g].freeInodes == 65535 else r[g].freeInodes + 1 == bgdt[g].freeInodes
  {
    var n: int := bgdt[g].freeInodes;
    bgdt[g := bgdt[g].(freeInodes := (n + 0xFFFF) % 0x1_0000)]
  }

  function LessOne(n: u32): (r: u32)
    ensures if n == 0 then r == 4294967295 else r + 1 == n
  {
    var m: int := n;
    (m + 0xFFFF_FFFF) % 0x1_0000_0000
  }

  /** A reserved block that is no block bitmap may change without disturbing the block store. */
  ghost predicate MetaOnly(d: Disk, e: Disk)
  {
    && (forall c: nat :: IsData(c) ==> e[c] == d[c])
    && (forall g: nat :: g < 16 ==> e[BlockBitmapOf(g)] == d[BlockBitmapOf(g)])
    && e[0] == d[0]
  }

  lemma MetaKeepsSpace(d: Disk, e: Disk, bgdt: seq<GroupDesc>, sb: Superblock, a: Account)
    requires SpaceOk(d, bgdt, sb, a) && MetaOnly(d, e)
    ensures SpaceOk(e, bgdt, sb, a) && FreeTotal(e) == FreeTotal(d)
  {
    hide IsMeta, Used, FreeTotal, SpaceOk;
    WriteKeepsSpace(d, e, bgdt, sb, a);
  }

  lemma SameUse(d: Disk, e: Disk)
    requires MetaOnly(d, e)
    ensures FreeTotal(e) == FreeTotal(d)
    ensures forall c: nat :: c < 8192 ==> Used(e, c) == Used(d, c)
  {
    SameBitmaps(d, e, 16);
    forall b: nat | b < 8192
      ensures Used(e, b) == Used(d, b)
    {
      BitmapsAreMeta(b / 512);
    }
  }

  lemma MetaKeepsOwned(d: Disk, e: Disk, nodes: map<nat, Inode>, trees: map<nat, Tree>, owner: map<nat, nat>)
    requires MetaOnly(d, e) && Owned(d, nodes, trees, owner)
    ensures Owned(e, nodes, trees, owner)
  {
    hide IsMeta, Used, Layout, FreeTotal;
    SameUse(d, e);
    forall k | k in nodes
      ensures Layout(e, nodes[k], trees[k])
    {
      DataSameLayout(d, e, nodes[k], trees[k]);
    }
  }

  /** Inodes live in reserved blocks that are no block bitmaps. */
  lemma InodesKept(d: Disk, e: Disk, j: nat)
    requires IsInode(j)
    requires forall c: nat :: c < 8192 && IsMeta(c) && !IsBlockBitmap(c) ==> e[c] == d[c]
    ensures InodeAt(e, j) == InodeAt(d, j) && InodeUsed(e, j) == InodeUsed(d, j)
  {
    SlotInTable(j, InodeGroup(j));
    BitmapsAreMeta(InodeGroup(j));
  }

  lemma InodeWritesMetaOnly(d: Disk, k: nat, value: bool, n: Inode)
    requires IsInode(k)
    ensures MetaOnly(d, MarkInode(d, k, value)) && MetaOnly(d, StoreInode(d, k, n))
  {
    BitmapsAreMeta(InodeGroup(k));
    forall g: nat | g < 16
      ensures BlockBitmapOf(g) != InodeBitmapOf(InodeGroup(k)) && BlockBitmapOf(g) != SlotBlock(k)
    {
      SlotInTable(k, g);
    }
    SlotInTable(k, 0);
  }

  lemma MetaOnlyTrans(d: Disk, e: Disk, f: Disk)
    requires MetaOnly(d, e) && MetaOnly(e, f)
    ensures MetaOnly(d, f)
  {
  }

  /** sync_node: mark the inode used and store it; numbers out of range are ignored. */
  method SyncNode(fs: Volume, k: nat, node: Inode)
    requires fs.SpaceValid()
    modifies fs`blocks, fs`bgdt, fs`sb
    ensures fs.SpaceValid() && FreeTotal(fs.blocks) == FreeTotal(old(fs.blocks))
    ensures !IsInode(k) ==> fs.blocks == old(fs.blocks) && fs.bgdt == old(fs.bgdt) && fs.sb == old(fs.sb)
    ensures IsInode(k) ==> fs.blocks == StoreInode(MarkInode(old(fs.blocks), k, true), k, node)
    ensures IsInode(k) ==> fs.bgdt == InodeTaken(old(fs.bgdt), InodeGroup(k))
    ensures IsInode(k) ==> fs.sb == old(fs.sb).(freeInodes := LessOne(old(fs.sb).freeInodes))
    ensures MetaOnly(old(fs.blocks), fs.blocks)
  {
    hide IsMeta, Used, FreeTotal, SlotBlock, SlotOffset;
    if k < 1 || k > INODES_COUNT {
      return;
    }
    ghost var d := fs.blocks;
    var group, local := InodeGroup(k), InodeLocal(k);
    SlotInTable(k, group);
    SlotAt(k);
    BitmapsAreMeta(group);
    var block: Block := fs.blocks[fs.bgdt[group].inodeBitmap];
    block := SetBit(block, local, true);
    fs.blocks := fs.blocks[fs.bgdt[group].inodeBitmap := block];
    ghost var d1 := fs.blocks;
    InodeWritesMetaOnly(d, k, true, node);
    InodeWritesMetaOnly(d1, k, true, node);
    var tableBlock := fs.bgdt[group].inodeTable + local / INODES_PER_TABLE;
    var offset := (local % INODES_PER_TABLE) * INODE_SIZE;
    block := fs.blocks[tableBlock];
    block := Splice(block, offset, EncodeInode(node));
    fs.blocks := fs.blocks[tableBlock := block];
    MetaOnlyTrans(d, d1, fs.blocks);
    MetaKeepsSpace(d, fs.blocks, fs.bgdt, fs.sb, fs.account);
    fs.bgdt := InodeTaken(fs.bgdt, group);
    fs.sb := fs.sb.(freeInodes := LessOne(fs.sb.freeInodes));
  }

  lemma SlotAt(k: nat)
    requires IsInode(k)
    ensures SlotBlock(k) == InodeTableOf(InodeGroup(k)) + InodeLocal(k) / 7
    ensures SlotOffset(k) == (InodeLocal(k) % 7) * 70
  {
  }

  /** What a sync does to every inode: its own slot and bit change, no other. */
  lemma SyncEffect(d: Disk, k: nat, n: Inode, j: nat)
    requires IsInode(k) && IsInode(j)
    ensures var e := StoreInode(MarkInode(d, k, true), k, n);
      InodeAt(e, j) == (if j == k then n else InodeAt(d, j)) && InodeUsed(e, j) == (j == k || InodeUsed(d, j))
  {
    MarkInodeEffect(d, k, true, j);
    StoreInodeEffect(MarkInode(d, k, true), k, n, j);
  }

  /** From d to e, inodes k and p were stored and marked used, and no file or block count was touched. */
  ghost predicate Finished(d: Disk, e: Disk, k: nat, node: Inode, p: nat, pnode: Inode)
  {
    && MetaOnly(d, e)
    && forall j: nat :: IsInode(j) ==>
         InodeAt(e, j) == (if j == p then pnode else if j == k then node else InodeAt(d, j)) &&
         InodeUsed(e, j) == (j == k || j == p || InodeUsed(d, j))
  }

  /** All inode slots but these read the same. */
  ghost predicate SlotsKept(d: Disk, e: Disk, except: set<nat>)
  {
    forall j: nat :: IsInode(j) && j !in except ==> InodeAt(e, j) == InodeAt(d, j)
  }

  lemma SlotsKeptTrans(d: Disk, e: Disk, f: Disk, x: set<nat>, y: set<nat>)
    requires SlotsKept(d, e, x) && SlotsKept(e, f, y)
    ensures SlotsKept(d, f, x + y)
  {
    hide InodeAt;
  }

  lemma MetaSlots(d: Disk, e: Disk)
    requires forall c: nat :: c < 8192 && IsMeta(c) && !IsBlockBitmap(c) ==> e[c] == d[c]
    ensures SlotsKept(d, e, {})
  {
    hide InodeAt, IsMeta;
    forall j: nat | IsInode(j)
      ensures InodeAt(e, j) == InodeAt(d, j)
    {
      InodesKept(d, e, j);
    }
  }

  /** The inode allocate_node hands out: the first whose bit is clear, skipping groups whose counter reads zero. */
  ghost predicate NextInode(d: Disk, bgdt: seq<GroupDesc>, k: nat)
  {
    && |bgdt| == 16 && IsInode(k) && !InodeUsed(d, k) && bgdt[InodeGroup(k)].freeInodes != 0
    && forall j: nat :: 1 <= j < k ==> InodeUsed(d, j) || bgdt[InodeGroup(j)].freeInodes == 0
  }

  /** No inode can be allocated: every bit is set, or hidden behind a zero counter. */
  ghost predicate NoInode(d: Disk, bgdt: seq<GroupDesc>)
    requires |bgdt| == 16
  {
    forall j: nat :: IsInode(j) ==> InodeUsed(d, j) || bgdt[InodeGroup(j)].freeInodes == 0
  }

  /**
    allocate_node: the first inode whose bit is clear, skipping groups whose (unreliable) counter reads zero; 0 if none.
   */
  method AllocateNode(fs: Volume) returns (k: nat)
    requires fs.SpaceValid()
    ensures |fs.bgdt| == 16 && (k == 0 <==> NoInode(fs.blocks, fs.bgdt))
    ensures k == 0 ==> forall j: nat :: 1 <= j <= 1792 ==>
      InodeUsed(fs.blocks, j) || fs.bgdt[(j - 1) / 112].freeInodes == 0
    ensures k != 0 ==> 1 <= k <= 1792 && !InodeUsed(fs.blocks, k) && fs.bgdt[(k - 1) / 112].freeInodes != 0
    ensures k != 0 ==>
      forall j: nat :: 1 <= j < k ==> InodeUsed(fs.blocks, j) || fs.bgdt[(j - 1) / 112].freeInodes == 0
    ensures k != 0 ==> NextInode(fs.blocks, fs.bgdt, k)
  {
    var group := GROUPS_COUNT;
    var bitmap := ZeroBlock();
    for n := 1 to INODES_COUNT + 1
      invariant group == GROUPS_COUNT || (group < 16 && bitmap == fs.blocks[InodeBitmapOf(group)])
      invariant forall j: nat :: 1 <= j < n ==> InodeUsed(fs.blocks, j) || fs.bgdt[InodeGroup(j)].freeInodes == 0
    {
      if group != InodeGroup(n) {
        group := InodeGroup(n);
        bitmap := fs.blocks[fs.bgdt[group].inodeBitmap];
      }
      if fs.bgdt[group].freeInodes != 0 && !Bit(bitmap, InodeLocal(n)) {
        return n;
      }
    }
    return 0;
  }
}
