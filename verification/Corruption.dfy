/**
  Disks that are no file system at all: whatever one takes the inodes' trees, the owners of the blocks and the records
  of the directories to be, something of the invariant fails.
 */
module Corruption {
  import opened Bytes
  import opened Bitmap
  import opened Geometry
  import opened Inodes
  import opened Space
  import opened BlockTree
  import opened Ownership
  import opened DirRecords
  import opened Volumes
  import opened Allocation
  import opened InodeTable
  import opened Directory
  import opened Deallocation
  import opened Invariant

  /** The part of the invariant that speaks of the disk alone, for one choice of what cannot be seen on it. */
  ghost predicate Mounted(d: Disk, nodes: map<nat, Inode>, trees: map<nat, Tree>, owner: map<nat, nat>,
                          dirs: map<nat, seq<Rec>>, up: map<nat, nat>)
  {
    Owned(d, nodes, trees, owner) && Synced(d, nodes) && Contents(d, trees, dirs) && Tidy(nodes, dirs, up)
  }

  /** No choice makes this disk a file system. */
  ghost predicate Broken(d: Disk)
  {
    forall nodes: map<nat, Inode>, trees: map<nat, Tree>, owner: map<nat, nat>, dirs: map<nat, seq<Rec>>,
      up: map<nat, nat> :: !Mounted(d, nodes, trees, owner, dirs, up)
  }

  lemma ValidMounted(fs: Volume)
    requires Valid(fs)
    ensures Mounted(fs.blocks, fs.nodes, fs.trees, fs.owner, fs.dirs, fs.up)
  {
    hide SpaceOk, Owned, Synced, Contents, Tidy;
  }

  lemma BrokenInvalid(fs: Volume)
    requires Broken(fs.blocks)
    ensures !Valid(fs)
  {
    hide SpaceOk, Owned, Synced, Contents, Tidy;
    assert !Mounted(fs.blocks, fs.nodes, fs.trees, fs.owner, fs.dirs, fs.up);
  }

  lemma EmptyDir(d: Disk, nodes: map<nat, Inode>, trees: map<nat, Tree>, owner: map<nat, nat>,
                 dirs: map<nat, seq<Rec>>, up: map<nat, nat>, k: nat)
    requires IsInode(k) && InodeUsed(d, k) && InodeAt(d, k).mode == MODE_DIR && InodeAt(d, k).size == 0
    ensures !Mounted(d, nodes, trees, owner, dirs, up)
  {
    hide InodeAt, InodeUsed, Chain, NoDangling, ListedOnce, DotDots, Rooted, PtrsOk, TreeOk, DirShape;
    if Mounted(d, nodes, trees, owner, dirs, up) {
      assert k in nodes && nodes[k] == InodeAt(d, k);
      assert k in dirs && trees[k].data == [];
      ChainStart(FileBlocks(d, trees[k].data), dirs[k]);
    }
  }

  /** A directory without a block has no room for its dots. */
  lemma EmptyDirBroken(d: Disk, k: nat)
    requires IsInode(k) && InodeUsed(d, k) && InodeAt(d, k).mode == MODE_DIR && InodeAt(d, k).size == 0
    ensures Broken(d)
  {
    hide InodeAt, InodeUsed, Mounted;
    forall nodes: map<nat, Inode>, trees: map<nat, Tree>, owner: map<nat, nat>, dirs: map<nat, seq<Rec>>,
      up: map<nat, nat>
      ensures !Mounted(d, nodes, trees, owner, dirs, up)
    {
      if Mounted(d, nodes, trees, owner, dirs, up) {
        EmptyDir(d, nodes, trees, owner, dirs, up, k);
      }
    }
  }

  /** A directory whose blocks hold no chain of records is none. */
  lemma NoChainBroken(d: Disk, nodes: map<nat, Inode>, trees: map<nat, Tree>, owner: map<nat, nat>, p: nat)
    requires Owned(d, nodes, trees, owner) && Synced(d, nodes) && p in nodes && p in trees && nodes[p].mode == MODE_DIR
    requires NoChain(FileBlocks(d, trees[p].data))
    ensures Broken(d)
  {
    hide Owned, Synced, FileBlocks, Mounted, Chain;
    forall nodes': map<nat, Inode>, trees': map<nat, Tree>, owner': map<nat, nat>, dirs: map<nat, seq<Rec>>,
      up: map<nat, nat>
      ensures !Mounted(d, nodes', trees', owner', dirs, up)
    {
      if Mounted(d, nodes', trees', owner', dirs, up) {
        DirHasChain(d, nodes, trees, owner, nodes', trees', owner', dirs, up, p);
      }
    }
  }

  lemma DirHasChain(d: Disk, nodes: map<nat, Inode>, trees: map<nat, Tree>, owner: map<nat, nat>,
                    nodes': map<nat, Inode>, trees': map<nat, Tree>, owner': map<nat, nat>, dirs: map<nat, seq<Rec>>,
                    up: map<nat, nat>, p: nat)
    requires Owned(d, nodes, trees, owner) && Synced(d, nodes) && p in nodes && p in trees && nodes[p].mode == MODE_DIR
    requires Mounted(d, nodes', trees', owner', dirs, up)
    ensures p in dirs && Chain(FileBlocks(d, trees[p].data), dirs[p])
  {
    hide Owned, FileBlocks, Chain, NoDangling, ListedOnce, DotDots, Rooted, DirShape, InodeAt, InodeUsed, Used, IsMeta;
    SameTree(d, nodes, trees, owner, d, nodes', trees', owner', p);
  }

  /** Blocks the inodes numbered below n take up. */
  function BlocksBelow(nodes: map<nat, Inode>, n: nat): (c: nat)
  {
    if n == 0 then 0 else BlocksBelow(nodes, n - 1) + if n - 1 in nodes then nodes[n - 1].blocks else 0
  }

  lemma {:induction false} BlocksBelowAdd(nodes: map<nat, Inode>, k: nat, m: Inode, n: nat)
    requires k !in nodes
    ensures BlocksBelow(nodes[k := m], n) == BlocksBelow(nodes, n) + if k < n then m.blocks else 0
  {
    if n > 0 { BlocksBelowAdd(nodes, k, m, n - 1); }
  }

  ghost function OwnedBelow(owner: map<nat, nat>, n: nat): (s: set<nat>)
  {
    set b | b in owner && owner[b] < n
  }

  lemma {:induction false} SeqAsSet(s: seq<nat>, r: set<nat>)
    requires Distinct(s) && forall c :: c in r <==> c in s
    ensures |r| == |s|
    decreases |s|
  {
    if s == [] {
      assert r == {};
    } else {
      var n := |s| - 1;
      assert s == s[..n] + [s[n]];
      SeqAsSet(s[..n], r - {s[n]});
    }
  }

  ghost function OwnedOf(owner: map<nat, nat>, k: nat): (s: set<nat>)
  {
    set b | b in owner && owner[b] == k
  }

  lemma TreeCount(d: Disk, nodes: map<nat, Inode>, trees: map<nat, Tree>, owner: map<nat, nat>, k: nat)
    requires Owned(d, nodes, trees, owner)
    ensures |OwnedOf(owner, k)| == if k in nodes then nodes[k].blocks else 0
  {
    hide Used, IsMeta, TreeOrder;
    if k in nodes {
      OwnedTreeAt(d, nodes, trees, owner, k);
      TreeOrderOk(trees[k]);
      hide TreeOk, PtrsOk, InTree;
      SeqAsSet(TreeOrder(trees[k], 15), OwnedOf(owner, k));
    } else {
      assert OwnedOf(owner, k) == {};
    }
  }

  lemma OwnedStep(owner: map<nat, nat>, n: nat)
    ensures |OwnedBelow(owner, n + 1)| == |OwnedBelow(owner, n)| + |OwnedOf(owner, n)|
  {
    assert OwnedBelow(owner, n + 1) == OwnedBelow(owner, n) + OwnedOf(owner, n);
  }

  /** The blocks of the inodes below n are as many as their block counts say. */
  lemma {:induction false} OwnedCount(d: Disk, nodes: map<nat, Inode>, trees: map<nat, Tree>, owner: map<nat, nat>,
                                      n: nat)
    requires Owned(d, nodes, trees, owner)
    ensures |OwnedBelow(owner, n)| == BlocksBelow(nodes, n)
  {
    hide Owned, OwnedOf;
    if n > 0 {
      OwnedCount(d, nodes, trees, owner, n - 1);
      OwnedStep(owner, n - 1);
      TreeCount(d, nodes, trees, owner, n - 1);
    } else {
      assert OwnedBelow(owner, 0) == {};
    }
  }

  ghost function UsedBelow(d: Disk, n: nat): (s: set<nat>)
  {
    set b: nat | b < n && b < 8192 && Used(d, b)
  }

  lemma UsedStep(d: Disk, b: nat)
    requires b < 8192
    ensures |UsedBelow(d, b + 1)| == |UsedBelow(d, b)| + if Used(d, b) then 1 else 0
  {
    hide Used;
    assert UsedBelow(d, b + 1) == UsedBelow(d, b) + if Used(d, b) then {b} else {};
  }

  /** Used and free blocks make up the disk, counted group by group and bit by bit. */
  lemma {:induction false} UsedCount(d: Disk, g: nat, i: nat)
    requires g < 16 && i <= 512
    ensures BlockBitmapOf(g) < 8192
    ensures |UsedBelow(d, 512 * g + i)| + FreeUpTo(d, g) + CountClear(d[BlockBitmapOf(g)], i) == 512 * g + i
    decreases g, i
  {
    hide Bit, IsMeta, UsedBelow;
    BitmapsAreMeta(g);
    if i > 0 {
      var b := 512 * g + (i - 1);
      UsedCount(d, g, i - 1);
      assert b / 512 == g && b % 512 == i - 1;
      UsedStep(d, b);
    } else if g > 0 {
      UsedCount(d, g - 1, 512);
    } else {
      NoneBelow(d);
    }
  }

  lemma NoneBelow(d: Disk)
    ensures UsedBelow(d, 0) == {}
  {
  }

  lemma UsedTotal(d: Disk)
    ensures |UsedBelow(d, 8192)| + FreeTotal(d) == 8192
  {
    UsedCount(d, 15, 512);
  }

  ghost function Reserved(): (s: set<nat>)
  {
    set b: nat | b < 8192 && IsMeta(b)
  }

  ghost predicate ReservedUsed(d: Disk)
  {
    forall b: nat :: b < 8192 && IsMeta(b) ==> Used(d, b)
  }

  /** Conservation: the blocks the inodes count, the free ones and the reserved ones make up the disk. */
  lemma BlocksConserved(d: Disk, nodes: map<nat, Inode>, trees: map<nat, Tree>, owner: map<nat, nat>)
    requires Owned(d, nodes, trees, owner) && ReservedUsed(d)
    ensures BlocksBelow(nodes, 1793) + FreeTotal(d) + |Reserved()| == 8192
  {
    hide Used, IsMeta, Layout, TreeOk, FreeTotal, BlocksBelow;
    OwnedCount(d, nodes, trees, owner, 1793);
    UsedTotal(d);
    var own := OwnedBelow(owner, 1793);
    forall b: nat | b < 8192
      ensures b in UsedBelow(d, 8192) <==> b in own || b in Reserved()
    {
      if b in owner { assert owner[b] in nodes; }
    }
    forall b | b in own
      ensures IsData(b) && b in UsedBelow(d, 8192)
    {
    }
    assert UsedBelow(d, 8192) == own + Reserved();
    assert own !! Reserved();
  }

  /** An inode and the disk determine its tree. */
  lemma LayoutUnique(d: Disk, node: Inode, t: Tree, r: Tree)
    requires TreeOk(t) && TreeOk(r) && Layout(d, node, t) && Layout(d, node, r)
    ensures t == r
  {
    hide Ptr, IsMeta, PtrCount, InTree;
    assert |t.data| == |r.data|;
    forall j | 0 <= j < |t.leaves|
      ensures t.leaves[j] == r.leaves[j]
    {
      LeafCountSmall(t);
      assert TopOk(d, t) && TopOk(d, r);
      assert Ptr(d[t.double], j) == t.leaves[j];
    }
    assert t.leaves == r.leaves;
    forall i: nat | i < |t.data|
      ensures t.data[i] == r.data[i]
    {
      SameAt(d, node, t, r, i);
    }
  }

  lemma LeafCountSmall(t: Tree)
    requires TreeOk(t)
    ensures |t.leaves| <= 63 && (|t.leaves| > 0 ==> |t.data| > 140)
  {
    TreeBound(t);
  }

  lemma SameAt(d: Disk, node: Inode, t: Tree, r: Tree, i: nat)
    requires TreeOk(t) && TreeOk(r) && Layout(d, node, t) && Layout(d, node, r) && t.leaves == r.leaves && i < |t.data|
    ensures At(t, i) == At(r, i)
  {
    hide Ptr, IsMeta, PtrCount, InTree;
    if 12 <= i < 140 {
      assert Ptr(d[t.single], i - 12) == At(t, 12 + (i - 12)) == At(r, 12 + (i - 12));
    } else if i >= 140 {
      var j, x := (i - 140) / 128, (i - 140) % 128;
      assert LeafOk(d, t, j) && LeafOk(d, r, j);
      assert Ptr(d[t.leaves[j]], x) == At(t, 140 + 128 * j + x) == At(r, 140 + 128 * j + x);
    }
  }

  /** The bytes of a directory determine its records. */
  lemma {:induction false} ChainPrefix(c: seq<Block>, x: seq<Rec>, y: seq<Rec>, i: nat)
    requires Chain(c, x) && Chain(c, y) && i < |x|
    ensures i < |y| && x[i] == y[i]
  {
    hide EntryMatches, Matches, Chain, U16, U32, EntryLen;
    ChainStart(c, x);
    ChainStart(c, y);
    if i > 0 {
      ChainPrefix(c, x, y, i - 1);
      var p := x[i - 1].pos;
      AtRecord(c, x, i - 1, p / 512, p % 512, [], true);
      AtRecord(c, y, i - 1, p / 512, p % 512, [], true);
    }
    SameRecord(c, x, y, i);
  }

  lemma SameRecord(c: seq<Block>, x: seq<Rec>, y: seq<Rec>, i: nat)
    requires Chain(c, x) && Chain(c, y) && i < |x| && i < |y| && x[i].pos == y[i].pos
    ensures x[i] == y[i]
  {
    hide U16, U32, EntryLen;
    assert RecAt(c, x, i) && RecAt(c, y, i);
  }

  lemma ChainUnique(c: seq<Block>, x: seq<Rec>, y: seq<Rec>)
    requires Chain(c, x) && Chain(c, y)
    ensures x == y
  {
    hide Chain;
    forall i: nat | i < |x|
      ensures i < |y| && x[i] == y[i]
    {
      ChainPrefix(c, x, y, i);
    }
    if |x| < |y| {
      ChainPrefix(c, y, x, |x|);
    } else if |y| < |x| {
      ChainPrefix(c, x, y, |y|);
    }
  }

  /** Blocks in use on d read the same on e. */
  ghost predicate KeptData(d: Disk, e: Disk)
  {
    forall c: nat :: IsData(c) && Used(d, c) ==> e[c] == d[c]
  }

  lemma SameTree(d: Disk, nodes: map<nat, Inode>, trees: map<nat, Tree>, owner: map<nat, nat>,
                 e: Disk, nodes': map<nat, Inode>, trees': map<nat, Tree>, owner': map<nat, nat>, j: nat)
    requires Owned(d, nodes, trees, owner) && Owned(e, nodes', trees', owner') && KeptData(d, e)
    requires j in nodes && j in nodes' && nodes'[j] == nodes[j]
    ensures j in trees && j in trees' && trees'[j] == trees[j]
    ensures FileBlocks(e, trees[j].data) == FileBlocks(d, trees[j].data)
  {
    hide Used, IsMeta, Layout, TreeOk, Owned;
    OwnedTreeAt(d, nodes, trees, owner, j);
    OwnedTreeAt(e, nodes', trees', owner', j);
    OwnedSole(d, nodes, trees, owner, j);
    SoleInTree(d, nodes[j], trees[j]);
    LayoutFrame(d, e, nodes[j], trees[j]);
    LayoutUnique(e, nodes[j], trees[j], trees'[j]);
    var data := trees[j].data;
    forall i | 0 <= i < |data|
      ensures FileBlocks(e, data)[i] == FileBlocks(d, data)[i]
    {
      assert InTree(trees[j], data[i]);
    }
  }

  lemma SameDir(d: Disk, nodes: map<nat, Inode>, trees: map<nat, Tree>, owner: map<nat, nat>, dirs: map<nat, seq<Rec>>,
                up: map<nat, nat>, e: Disk, nodes': map<nat, Inode>, trees': map<nat, Tree>, owner': map<nat, nat>,
                dirs': map<nat, seq<Rec>>, up': map<nat, nat>, j: nat)
    requires Mounted(d, nodes, trees, owner, dirs, up) && Mounted(e, nodes', trees', owner', dirs', up') &&
      KeptData(d, e)
    requires j in nodes && j in nodes' && nodes'[j] == nodes[j]
    ensures j in dirs <==> j in dirs'
    ensures j in dirs ==> dirs'[j] == dirs[j]
  {
    hide Used, IsMeta, Owned, Chain, DirShape, NoDangling, ListedOnce, DotDots, Rooted, FileBlocks, InodeAt, InodeUsed;
    SameTree(d, nodes, trees, owner, e, nodes', trees', owner', j);
    if j in dirs && j in dirs' {
      ChainUnique(FileBlocks(d, trees[j].data), dirs[j], dirs'[j]);
    }
  }

  /** The parents are what the records say. */
  lemma SameUp(nodes: map<nat, Inode>, dirs: map<nat, seq<Rec>>, up: map<nat, nat>, up': map<nat, nat>)
    requires ListedOnce(nodes, dirs, up) && ListedOnce(nodes, dirs, up')
    ensures up == up'
  {
    forall k | k in up
      ensures k in up' && up'[k] == up[k]
    {
      assert Lists(dirs[up[k]], k) && ListedBy(dirs[up[k]], up', up[k]);
    }
    assert up.Keys == up'.Keys;
  }

  /**
    A disk is a file system in at most one way: its inodes, their trees, the owners, the directories and their nesting
    can all be read off it.
   */
  lemma OneReading(d: Disk, nodes: map<nat, Inode>, trees: map<nat, Tree>, owner: map<nat, nat>,
                   dirs: map<nat, seq<Rec>>, up: map<nat, nat>, nodes': map<nat, Inode>, trees': map<nat, Tree>,
                   owner': map<nat, nat>, dirs': map<nat, seq<Rec>>, up': map<nat, nat>)
    requires Mounted(d, nodes, trees, owner, dirs, up) && Mounted(d, nodes', trees', owner', dirs', up')
    ensures nodes == nodes' && trees == trees' && owner == owner' && dirs == dirs' && up == up'
  {
    hide Used, IsMeta, Owned, DirShape, NoDangling, ListedOnce, DotDots, Rooted, InodeAt, InodeUsed, Contents, Mounted;
    SameNodes(d, nodes, trees, owner, dirs, up, nodes', trees', owner', dirs', up');
    forall j | j in nodes
      ensures j in trees && j in trees' && trees[j] == trees'[j]
      ensures j in dirs <==> j in dirs'
      ensures j in dirs ==> dirs'[j] == dirs[j]
    {
      SameDir(d, nodes, trees, owner, dirs, up, d, nodes', trees', owner', dirs', up', j);
      MountedParts(d, nodes, trees, owner, dirs, up);
      MountedParts(d, nodes', trees', owner', dirs', up');
      SameTree(d, nodes, trees, owner, d, nodes', trees', owner', j);
    }
    MountedParts(d, nodes, trees, owner, dirs, up);
    MountedParts(d, nodes', trees', owner', dirs', up');
    assert dirs.Keys == dirs'.Keys && dirs == dirs';
    assert trees.Keys == trees'.Keys && trees == trees';
    SameUp(nodes, dirs, up, up');
    SameOwner(d, nodes, trees, owner, owner');
  }

  lemma MountedParts(d: Disk, nodes: map<nat, Inode>, trees: map<nat, Tree>, owner: map<nat, nat>,
                     dirs: map<nat, seq<Rec>>, up: map<nat, nat>)
    requires Mounted(d, nodes, trees, owner, dirs, up)
    ensures Owned(d, nodes, trees, owner) && nodes.Keys == trees.Keys && (forall k :: k in dirs ==> k in nodes)
    ensures ListedOnce(nodes, dirs, up) && NoDangling(nodes, dirs) && ROOT in nodes
  {
    hide Used, IsMeta, TreeOk, Layout, InodeAt, InodeUsed, Contents, DirShape, DotDots, Rooted;
  }

  lemma SameNodes(d: Disk, nodes: map<nat, Inode>, trees: map<nat, Tree>, owner: map<nat, nat>,
                  dirs: map<nat, seq<Rec>>, up: map<nat, nat>, nodes': map<nat, Inode>, trees': map<nat, Tree>,
                  owner': map<nat, nat>, dirs': map<nat, seq<Rec>>, up': map<nat, nat>)
    requires Mounted(d, nodes, trees, owner, dirs, up) && Mounted(d, nodes', trees', owner', dirs', up')
    ensures nodes == nodes'
  {
    hide InodeAt, InodeUsed, Owned, Contents, Tidy;
    assert nodes.Keys == nodes'.Keys;
  }

  lemma SameOwner(d: Disk, nodes: map<nat, Inode>, trees: map<nat, Tree>, owner: map<nat, nat>, owner': map<nat, nat>)
    requires Owned(d, nodes, trees, owner) && Owned(d, nodes, trees, owner')
    ensures owner == owner'
  {
    hide Used, IsMeta, TreeOk, Layout, InTree;
    forall b | b in owner
      ensures b in owner' && owner'[b] == owner[b]
    {
      assert InTree(trees[owner[b]], b);
    }
    assert owner.Keys == owner'.Keys;
  }

  /** Clearing bits never lowers the free count, and keeps it only where every bit was clear already. */
  lemma {:induction false} ClearAllMore(d: Disk, bs: seq<nat>)
    ensures FreeTotal(ClearAll(d, bs)) >= FreeTotal(d)
    ensures FreeTotal(ClearAll(d, bs)) == FreeTotal(d) ==> ClearAll(d, bs) == d
    decreases |bs|
  {
    hide Used, IsMeta, MarkBlock, FreeTotal;
    if bs != [] {
      var n := |bs| - 1;
      ClearAllMore(d, bs[..n]);
      if bs[n] < 8192 {
        ClearMore(ClearAll(d, bs[..n]), bs[n]);
      }
    }
  }

  lemma ClearMore(d: Disk, b: nat)
    requires b < 8192
    ensures FreeTotal(MarkBlock(d, b, false)) > FreeTotal(d) || MarkBlock(d, b, false) == d
  {
    hide Used, MarkBlock;
    if Used(d, b) {
      MarkFreeUpTo(d, b, false, 16);
    } else {
      ClearClear(d, b);
    }
  }

  /**
    What `write` does in the branch for an existing file when it was sent there with the number k of a free inode:
    frees what the stale slot of k names, stores the data under k, and records the result m as a used inode.
   */
  ghost predicate Strayed(d: Disk, k: nat, p: nat, pnode: Inode, needed: nat, d2: Disk, m: Inode, t: Tree, e: Disk)
  {
    && IsInode(k) && IsInode(p) && p != k && Tame(d, InodeAt(d, k))
    && var d1 := GivenBack(d, k);
       KeptUsed(d1, d2) && Sole(d2, m, t) && Stored(FreeTotal(d1), FreeTotal(d2), needed, |t.data|) &&
       Finished(d2, e, k, m, p, pnode)
  }

  lemma StrayInode(d: Disk, k: nat, p: nat, pnode: Inode, needed: nat, d2: Disk, m: Inode, t: Tree, e: Disk, j: nat)
    requires Strayed(d, k, p, pnode, needed, d2, m, t, e) && IsInode(j)
    ensures InodeAt(e, j) == if j == p then pnode else if j == k then m else InodeAt(d, j)
    ensures InodeUsed(e, j) == (j == k || j == p || InodeUsed(d, j))
  {
    hide IsMeta, Used, InodeAt, InodeUsed, ClearAll, MarkInode, Sole, Stored, FreeTotal, Tame, GivenBack, MetaOnly;
    var d1 := GivenBack(d, k);
    GivenBackInode(d, k, j);
    InodesKept(d1, d2, j);
  }

  lemma GivenBackInode(d: Disk, k: nat, j: nat)
    requires IsInode(k) && IsInode(j) && Tame(d, InodeAt(d, k))
    ensures InodeAt(GivenBack(d, k), j) == InodeAt(d, j) && InodeUsed(GivenBack(d, k), j) == (j != k && InodeUsed(d, j))
  {
    hide IsMeta, Used, InodeAt, InodeUsed, ClearAll, MarkInode, PointersOnData, PointerOrder, Stop;
    var p := InodeAt(d, k).block;
    ClearedKeeps(d, PointerOrder(d, p, Stop(p)));
    GivenBackKeeps(d, ClearAll(d, PointerOrder(d, p, Stop(p))), k, InodeAt(d, k));
  }

  /** Clearing bits, of used blocks or not, writes block bitmaps alone. */
  lemma {:induction false} ClearedKeeps(d: Disk, bs: seq<nat>)
    ensures forall c: nat :: c < 8192 && !IsBlockBitmap(c) ==> ClearAll(d, bs)[c] == d[c]
    decreases |bs|
  {
    hide SetBit;
    if bs != [] {
      var n := |bs| - 1;
      ClearedKeeps(d, bs[..n]);
      if bs[n] < 8192 {
        BitmapsAreMeta(bs[n] / 512);
        assert IsBlockBitmap(BlockBitmapOf(bs[n] / 512));
      }
    }
  }

  lemma StrayNodes(d: Disk, nodes: map<nat, Inode>, k: nat, p: nat, needed: nat, d2: Disk, m: Inode, t: Tree, e: Disk,
                   nodes': map<nat, Inode>)
    requires Synced(d, nodes) && k !in nodes && p in nodes && Synced(e, nodes')
    requires Strayed(d, k, p, nodes[p], needed, d2, m, t, e)
    ensures nodes' == nodes[k := m]
  {
    hide InodeAt, InodeUsed, Strayed;
    StrayNumbers(d, k, p, nodes[p], needed, d2, m, t, e);
    forall j: nat | IsInode(j)
      ensures j in nodes' <==> j == k || j in nodes
      ensures j in nodes' ==> nodes'[j] == if j == k then m else nodes[j]
    {
      StrayInode(d, k, p, nodes[p], needed, d2, m, t, e, j);
    }
    assert nodes'.Keys == nodes[k := m].Keys;
  }

  lemma StrayNumbers(d: Disk, k: nat, p: nat, pnode: Inode, needed: nat, d2: Disk, m: Inode, t: Tree, e: Disk)
    requires Strayed(d, k, p, pnode, needed, d2, m, t, e)
    ensures IsInode(k) && IsInode(p) && p != k
  {
  }

  /** If the books balance afterwards, nothing in use was freed, so nothing could be stored either. */
  lemma StrayKept(d: Disk, k: nat, p: nat, pnode: Inode, needed: nat, d2: Disk, m: Inode, t: Tree, e: Disk)
    requires Strayed(d, k, p, pnode, needed, d2, m, t, e) && FreeTotal(d) < 4
    requires FreeTotal(e) + m.blocks == FreeTotal(d)
    ensures KeptData(d, e) && m.size == 0
  {
    hide IsMeta, Used, InodeAt, InodeUsed, ClearAll, MarkInode, FreeTotal, PointersOnData, PointerOrder, Stop, PtrsOk,
      TreeOk;
    var q := InodeAt(d, k).block;
    var bs := PointerOrder(d, q, Stop(q));
    var c, d1 := ClearAll(d, bs), GivenBack(d, k);
    InodeWritesMetaOnly(c, k, false, m);
    SameUse(c, d1);
    SameUse(d2, e);
    ClearAllMore(d, bs);
    assert FreeTotal(d1) == FreeTotal(d);
  }

  lemma StrayListed(d: Disk, nodes: map<nat, Inode>, trees: map<nat, Tree>, owner: map<nat, nat>,
                    dirs: map<nat, seq<Rec>>, up: map<nat, nat>, e: Disk, trees': map<nat, Tree>,
                    owner': map<nat, nat>, dirs': map<nat, seq<Rec>>, up': map<nat, nat>, k: nat, m: Inode)
    requires Mounted(d, nodes, trees, owner, dirs, up) && k !in nodes && KeptData(d, e) && m.size == 0
    ensures !Mounted(e, nodes[k := m], trees', owner', dirs', up')
  {
    hide IsMeta, Used, InodeAt, InodeUsed, Owned, Synced, FileBlocks, Rooted, DotDots, DirShape, EntryOk;
    var nodes' := nodes[k := m];
    if Mounted(e, nodes', trees', owner', dirs', up') {
      if k in dirs' {
        EmptyDirAt(e, nodes', trees', owner', dirs', k);
      }
      assert k in up';
      var q := up'[k];
      assert q in nodes && nodes'[q] == nodes[q];
      SameDir(d, nodes, trees, owner, dirs, up, e, nodes', trees', owner', dirs', up', q);
      var i :| 2 <= i < |dirs'[q]| && dirs'[q][i].ino == k;
      assert EntriesOk(nodes, dirs, dirs[q]);
      Dangling(nodes, dirs, dirs[q], i);
    }
  }

  lemma Dangling(nodes: map<nat, Inode>, dirs: map<nat, seq<Rec>>, recs: seq<Rec>, i: nat)
    requires EntriesOk(nodes, dirs, recs) && i < |recs|
    ensures recs[i].ino in nodes
  {
    assert EntryOk(nodes, dirs, recs[i]);
  }

  lemma EmptyDirAt(d: Disk, nodes: map<nat, Inode>, trees: map<nat, Tree>, owner: map<nat, nat>,
                   dirs: map<nat, seq<Rec>>, k: nat)
    requires Owned(d, nodes, trees, owner) && Contents(d, trees, dirs) && k in nodes && k in dirs
    ensures nodes[k].size != 0
  {
    hide IsMeta, Used, Chain;
    ChainStart(FileBlocks(d, trees[k].data), dirs[k]);
  }

  /**
    Whatever the stale slot named, the result is no file system: if a block in use was freed, the books no longer
    balance, and if not, inode k is in use but no directory lists it.
   */
  lemma StrayBroken(d: Disk, nodes: map<nat, Inode>, trees: map<nat, Tree>, owner: map<nat, nat>,
                    dirs: map<nat, seq<Rec>>, up: map<nat, nat>, k: nat, p: nat, needed: nat, d2: Disk, m: Inode,
                    t: Tree, e: Disk)
    requires Mounted(d, nodes, trees, owner, dirs, up) && ReservedUsed(d) && ReservedUsed(e)
    requires k !in nodes && p in nodes && FreeTotal(d) < 4
    requires Strayed(d, k, p, nodes[p], needed, d2, m, t, e)
    ensures Broken(e)
  {
    hide Owned, Synced, Contents, Tidy, Strayed, KeptData, FreeTotal, Mounted, ReservedUsed;
    forall nodes': map<nat, Inode>, trees': map<nat, Tree>, owner': map<nat, nat>, dirs': map<nat, seq<Rec>>,
      up': map<nat, nat>
      ensures !Mounted(e, nodes', trees', owner', dirs', up')
    {
      if Mounted(e, nodes', trees', owner', dirs', up') {
        MountedSynced(d, nodes, trees, owner, dirs, up);
        MountedSynced(e, nodes', trees', owner', dirs', up');
        StrayNodes(d, nodes, k, p, needed, d2, m, t, e, nodes');
        BlocksConserved(d, nodes, trees, owner);
        BlocksConserved(e, nodes', trees', owner');
        BlocksBelowAdd(nodes, k, m, 1793);
        StrayNumbers(d, k, p, nodes[p], needed, d2, m, t, e);
        StrayKept(d, k, p, nodes[p], needed, d2, m, t, e);
        StrayListed(d, nodes, trees, owner, dirs, up, e, trees', owner', dirs', up', k, m);
      }
    }
  }

  lemma MountedSynced(d: Disk, nodes: map<nat, Inode>, trees: map<nat, Tree>, owner: map<nat, nat>,
                      dirs: map<nat, seq<Rec>>, up: map<nat, nat>)
    requires Mounted(d, nodes, trees, owner, dirs, up)
    ensures Owned(d, nodes, trees, owner) && Synced(d, nodes)
  {
  }
}
