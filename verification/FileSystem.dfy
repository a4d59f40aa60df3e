/** Writing and deleting files and directories on a valid file system. */
module FileSystem {
  import opened Bytes
  import opened Geometry
  import opened Inodes
  import opened Space
  import opened BlockTree
  import opened Ownership
  import opened DirRecords
  import opened Volumes
  import opened Allocation
  import opened InodeTable
  import opened Directory
  import opened Deallocation
  import opened Metadata
  import opened Invariant
  import opened Corruption

  /** The blocks of a file read the same on both disks. */
  ghost predicate SameFile(d: Disk, e: Disk, t: Tree)
  {
    FileBlocks(e, t.data) == FileBlocks(d, t.data)
  }

  /** Every file but those excepted reads the same on both disks. */
  ghost predicate SameFiles(d: Disk, e: Disk, trees: map<nat, Tree>, except: set<nat>)
  {
    forall k :: k in trees && k !in except ==> SameFile(d, e, trees[k])
  }

  lemma SameFilesChain(d: Disk, d1: Disk, d2: Disk, e: Disk, ts: map<nat, Tree>, us: map<nat, Tree>,
                       vs: map<nat, Tree>, k: nat)
    requires SameFiles(d, d1, ts, {}) && SameFiles(d1, d2, us, {}) && SameFiles(d2, e, vs, {})
    requires forall j :: j in ts && j != k ==> j in us && us[j] == ts[j] && j in vs && vs[j] == ts[j]
    ensures SameFiles(d, e, ts, {k})
  {
    hide FileBlocks;
    forall j | j in ts && j != k
      ensures SameFile(d, e, ts[j])
    {
      assert SameFile(d, d1, ts[j]) && SameFile(d1, d2, us[j]) && SameFile(d2, e, vs[j]);
    }
  }

  /** Blocks in use were kept, so every file was. */
  lemma KeptFiles(d: Disk, nodes: map<nat, Inode>, trees: map<nat, Tree>, owner: map<nat, nat>, e: Disk)
    requires Owned(d, nodes, trees, owner) && KeptUsed(d, e)
    ensures SameFiles(d, e, trees, {})
  {
    hide Used, IsMeta, Layout, TreeOk;
    forall k | k in trees
      ensures SameFile(d, e, trees[k])
    {
      forall i | 0 <= i < |trees[k].data|
        ensures FileBlocks(e, trees[k].data)[i] == FileBlocks(d, trees[k].data)[i]
      {
        assert InTree(trees[k], trees[k].data[i]);
      }
    }
  }

  /** Only the tree of p was written, so every other file was kept. */
  lemma OtherFiles(d: Disk, nodes: map<nat, Inode>, trees: map<nat, Tree>, owner: map<nat, nat>, p: nat, e: Disk)
    requires Owned(d, nodes, trees, owner) && p in trees && OthersKept(d, e, trees[p])
    ensures SameFiles(d, e, trees, {p})
  {
    hide Used, IsMeta, Layout, TreeOk;
    forall k | k in trees && k != p
      ensures SameFile(d, e, trees[k])
    {
      forall i | 0 <= i < |trees[k].data|
        ensures FileBlocks(e, trees[k].data)[i] == FileBlocks(d, trees[k].data)[i]
      {
        var c := trees[k].data[i];
        assert InTree(trees[k], c) && c in owner;
        assert !InTree(trees[p], c);
      }
    }
  }

  /** No data block was written at all. */
  lemma DataFiles(d: Disk, nodes: map<nat, Inode>, trees: map<nat, Tree>, owner: map<nat, nat>, e: Disk)
    requires Owned(d, nodes, trees, owner) && forall c: nat :: IsData(c) ==> e[c] == d[c]
    ensures SameFiles(d, e, trees, {})
  {
    hide Used, IsMeta, Layout, TreeOk;
    forall k | k in trees
      ensures SameFile(d, e, trees[k])
    {
      forall i | 0 <= i < |trees[k].data|
        ensures FileBlocks(e, trees[k].data)[i] == FileBlocks(d, trees[k].data)[i]
      {
        assert InTree(trees[k], trees[k].data[i]);
      }
    }
  }

  lemma SameContents(d: Disk, e: Disk, trees: map<nat, Tree>, us: map<nat, Tree>, dirs: map<nat, seq<Rec>>, x: set<nat>)
    requires Contents(d, trees, dirs) && SameFiles(d, e, trees, x)
    requires forall k :: k in dirs && k !in x && k in trees ==> k in us && us[k] == trees[k]
    requires forall k :: k in dirs && k in x ==> k in us && Chain(FileBlocks(e, us[k].data), dirs[k])
    ensures Contents(e, us, dirs)
  {
    hide FileBlocks, Chain;
    forall k | k in dirs
      ensures k in us && Chain(FileBlocks(e, us[k].data), dirs[k])
    {
      if k !in x { assert SameFile(d, e, trees[k]); }
    }
  }

  /** Bits and inodes agree with memory, except that inodes p and k are still to be stored, and k's bit to be set. */
  ghost predicate HalfSynced(d: Disk, nodes: map<nat, Inode>, p: nat, k: nat)
  {
    && p in nodes && k in nodes
    && (forall j :: j in nodes ==> IsInode(j))
    && (forall j: nat :: IsInode(j) && j != k ==> (InodeUsed(d, j) <==> j in nodes))
    && (forall j :: j in nodes && j != p && j != k ==> nodes[j] == InodeAt(d, j))
  }

  /** The counters of free inodes in groups other than those of k and p are as they were. */
  ghost predicate InodeCountsKept(a: seq<GroupDesc>, b: seq<GroupDesc>, k: nat, p: nat)
    requires IsInode(k) && IsInode(p)
  {
    |a| == 16 && |b| == 16 &&
    forall g: nat :: g < 16 && g != InodeGroup(k) && g != InodeGroup(p) ==> b[g].freeInodes == a[g].freeInodes
  }

  /** Last part of `write`: store the new inode and the parent's, then the headers. */
  method Finish(fs: Volume, parent: nat, pnode: Inode, k: nat, node: Inode)
    requires fs.SpaceValid() && IsInode(parent) && IsInode(k) && k != parent
    modifies fs`blocks, fs`bgdt, fs`sb
    ensures fs.SpaceValid() && FreeTotal(fs.blocks) == FreeTotal(old(fs.blocks))
    ensures Finished(old(fs.blocks), fs.blocks, k, node, parent, pnode)
    ensures TableCurrent(fs.blocks, fs.bgdt) && InodeCountsKept(old(fs.bgdt), fs.bgdt, k, parent)
  {
    hide IsMeta, Used, FreeTotal, SpaceOk, InodeAt, InodeUsed, StoreInode, MarkInode, TableCurrent, HeadersOnly,
      InodeGroup;
    ghost var d := fs.blocks;
    SpaceSize(d, fs.bgdt, fs.sb, fs.account);
    SyncNode(fs, k, node);
    ghost var d1 := fs.blocks;
    SyncNode(fs, parent, pnode);
    ghost var d2 := fs.blocks;
    FlushHeaders(fs);
    HeadersHarmless(d2, fs.blocks);
    MetaOnlyTrans(d, d1, d2);
    MetaOnlyTrans(d, d2, fs.blocks);
    forall j: nat | IsInode(j)
      ensures InodeAt(fs.blocks, j) == if j == parent then pnode else if j == k then node else InodeAt(d, j)
      ensures InodeUsed(fs.blocks, j) == (j == k || j == parent || InodeUsed(d, j))
    {
      SyncEffect(d, k, node, j);
      SyncEffect(d1, parent, pnode, j);
    }
  }

  /** After it, disk and memory agree again. */
  lemma FinishedValid(d: Disk, nodes: map<nat, Inode>, trees: map<nat, Tree>, owner: map<nat, nat>,
                      dirs: map<nat, seq<Rec>>, e: Disk, k: nat, p: nat)
    requires Owned(d, nodes, trees, owner) && Contents(d, trees, dirs) && HalfSynced(d, nodes, p, k) && k != p
    requires IsInode(k) && IsInode(p) && Finished(d, e, k, nodes[k], p, nodes[p])
    ensures Owned(e, nodes, trees, owner) && Contents(e, trees, dirs) && Synced(e, nodes) && SameFiles(d, e, trees, {})
  {
    hide IsMeta, Used, Owned, Chain, InodeAt, InodeUsed, FileBlocks;
    MetaKeepsOwned(d, e, nodes, trees, owner);
    DataFiles(d, nodes, trees, owner, e);
    SameContents(d, e, trees, trees, dirs, {});
  }

  /** An inode with an empty tree owns nothing, so it can be recorded at any time. */
  lemma AddEmpty(d: Disk, nodes: map<nat, Inode>, trees: map<nat, Tree>, owner: map<nat, nat>, k: nat, m: Inode)
    requires Owned(d, nodes, trees, owner) && IsInode(k) && k !in nodes
    requires m.size == 0 && m.blocks == 0 && m.block == NoPointers()
    ensures Owned(d, nodes[k := m], trees[k := EMPTY_TREE], owner)
  {
    hide Used, IsMeta, FreeTotal, TreeOk, Layout, InTree;
    EmptyLayout(d, m);
    EmptyHolds(EMPTY_TREE);
    OwnedKeys(d, nodes, trees, owner);
    var ts := trees[k := EMPTY_TREE];
    forall j, b | j in ts && InTree(ts[j], b)
      ensures b in owner && owner[b] == j
    {
      assert j != k && InTree(trees[j], b);
    }
  }

  lemma EmptyLayout(d: Disk, m: Inode)
    requires m.size == 0 && m.blocks == 0 && m.block == NoPointers()
    ensures TreeOk(EMPTY_TREE) && Layout(d, m, EMPTY_TREE)
  {
  }

  lemma MapBack<V>(m: map<nat, V>, k: nat, v: V)
    requires k in m
    ensures (m - {k})[k := v] == m[k := v]
  {
  }

  /** Right after `DeallocateNode`: the file's own tree is gone, every other file and inode is as before. */
  lemma AfterDealloc(d: Disk, nodes: map<nat, Inode>, trees: map<nat, Tree>, owner: map<nat, nat>,
                     dirs: map<nat, seq<Rec>>, e: Disk, k: nat, p: nat, m: Inode)
    requires Owned(d, nodes, trees, owner) && Synced(d, nodes) && Contents(d, trees, dirs)
    requires k in nodes && k !in dirs && p in nodes && p != k
    requires forall c: nat :: IsData(c) ==> e[c] == d[c]
    requires forall j: nat :: IsInode(j) ==>
      InodeAt(e, j) == InodeAt(d, j) && InodeUsed(e, j) == (j != k && InodeUsed(d, j))
    ensures SameFiles(d, e, trees, {})
    ensures Contents(e, trees[k := EMPTY_TREE], dirs)
    ensures HalfSynced(e, nodes[k := m], p, k)
  {
    hide Used, IsMeta, FreeTotal, Owned, Chain, FileBlocks, InodeAt, InodeUsed;
    DataFiles(d, nodes, trees, owner, e);
    SameContents(d, e, trees, trees[k := EMPTY_TREE], dirs, {});
  }

  /** Storing touches no inode slot or bit, so what was half synced stays so. */
  lemma StoredHalfSynced(d: Disk, nodes: map<nat, Inode>, e: Disk, p: nat, k: nat, m: Inode)
    requires HalfSynced(d, nodes, p, k)
    requires forall c: nat :: c < 8192 && IsMeta(c) && !IsBlockBitmap(c) ==> e[c] == d[c]
    ensures HalfSynced(e, nodes[k := m], p, k)
  {
    hide IsMeta, InodeAt, InodeUsed;
    forall j: nat | IsInode(j)
      ensures InodeAt(e, j) == InodeAt(d, j) && InodeUsed(e, j) == InodeUsed(d, j)
    {
      InodesKept(d, e, j);
    }
  }

  /** Tree t, taken from free blocks alone, is the only thing on e that was not on d. */
  ghost predicate Laid(d: Disk, e: Disk, m: Inode, t: Tree)
  {
    Sole(e, m, t) && KeptUsed(d, e) && AllNew(d, e, t)
  }

  /** If the group had this many free blocks, a tree that takes no more of them lies in the group. */
  ghost predicate Home(t: Tree, g: nat, room: int)
  {
    |t.data| + PtrCount(|t.data|) <= room ==> InGroup(t, g)
  }

  /** The free blocks of the group of inode k. */
  function FreeNear(d: Disk, k: nat): (n: nat)
  {
    if IsInode(k) then GroupFree(d, InodeGroup(k)) else 0
  }

  /** The group of inode k. */
  function GroupOf(k: nat): (g: nat)
  {
    if IsInode(k) then (k - 1) / 112 else 16
  }

  /** Storing a file's data and then the inodes, as both branches of `write` end. */
  method StoreFile(fs: Volume, parent: nat, pnode: Inode, k: nat, node: Inode, buf: seq<byte>)
      returns (ghost d: Disk, ghost m: Inode, ghost t: Tree)
    requires fs.SpaceValid() && IsInode(parent) && IsInode(k) && k != parent && node.block == NoPointers()
    requires |buf| >= 512 * BlocksFor(node.size)
    modifies fs`blocks, fs`bgdt, fs`sb
    ensures fs.SpaceValid() && Laid(old(fs.blocks), d, m, t) && m.mode == node.mode
    ensures Finished(d, fs.blocks, k, m, parent, pnode) && FreeTotal(fs.blocks) == FreeTotal(d)
    ensures Holds(d, t.data, buf) && Stored(FreeTotal(old(fs.blocks)), FreeTotal(d), BlocksFor(node.size), |t.data|)
    ensures TableCurrent(fs.blocks, fs.bgdt) && InodeCountsKept(old(fs.bgdt), fs.bgdt, k, parent)
    ensures Home(t, GroupOf(parent), FreeNear(old(fs.blocks), parent))
  {
    hide IsMeta, Used, FreeTotal, SpaceOk, InodeAt, InodeUsed, TableCurrent, Holds, Stored, BlocksFor, Sole, KeptUsed,
      AllNew, Finished, InodeGroup, Nearest, LocalTo, InGroup, GroupFree;
    SpaceSize(fs.blocks, fs.bgdt, fs.sb, fs.account);
    GroupIs(parent);
    var node';
    node', t := StoreBlocks(fs, buf, node, InodeGroup(parent));
    d, m := fs.blocks, node';
    Finish(fs, parent, pnode, k, node');
  }

  lemma GroupIs(k: nat)
    requires IsInode(k)
    ensures GroupOf(k) == InodeGroup(k)
  {
  }

  lemma DirHome(d: Disk, t: Tree, k: nat)
    requires IsInode(k) && TreeOk(t) && |t.data| <= 1 && (|t.data| == 1 ==> Nearest(d, InodeGroup(k), t.data[0]))
    ensures Home(t, GroupOf(k), FreeNear(d, k))
  {
    hide Used, GroupFree;
    GroupIs(k);
    FullIsNone(d, InodeGroup(k));
  }

  /** An inode recorded with an empty tree, its parent linked, both waiting to be stored. */
  ghost predicate Started(d: Disk, nodes: map<nat, Inode>, trees: map<nat, Tree>, owner: map<nat, nat>,
                          dirs: map<nat, seq<Rec>>, p: nat, k: nat)
  {
    && Owned(d, nodes, trees, owner) && Contents(d, trees, dirs) && HalfSynced(d, nodes, p, k) && p != k
    && p in dirs && k in trees && k !in dirs && trees[k] == EMPTY_TREE && IsInode(p) && IsInode(k)
  }

  /** Once the inode has its blocks and both inodes are stored, all is well again. */
  lemma StoredValid(d: Disk, nodes: map<nat, Inode>, trees: map<nat, Tree>, owner: map<nat, nat>,
                    dirs: map<nat, seq<Rec>>, p: nat, k: nat, d2: Disk, m: Inode, t: Tree, e: Disk)
    requires Started(d, nodes, trees, owner, dirs, p, k) && Laid(d, d2, m, t) && Finished(d2, e, k, m, p, nodes[p])
    ensures Owned(e, nodes[k := m], trees[k := t], Claimed(owner, d, d2, k))
    ensures Synced(e, nodes[k := m]) && Contents(e, trees[k := t], dirs)
    ensures SameFiles(d, e, trees, {k}) && SameFile(d2, e, t)
  {
    hide IsMeta, Used, FreeTotal, Owned, Chain, FileBlocks, Layout, SameFiles, Contents, HalfSynced, KeptUsed, AllNew,
      Finished, Claimed, SameFile;
    KeptFiles(d, nodes, trees, owner, d2);
    KeptMeta(d, d2);
    SameContents(d, d2, trees, trees[k := t], dirs, {});
    StoredHalfSynced(d, nodes, d2, p, k, m);
    HalfInode(d, nodes, p, k);
    StoredOwned(d, nodes, trees, owner, k, d2, m, t);
    FinishedValid(d2, nodes[k := m], trees[k := t], Claimed(owner, d, d2, k), dirs, e, k, p);
    SameFilesNone(d, trees);
    SameFilesChain(d, d, d2, e, trees, trees, trees[k := t], k);
    SameFilesAt(d2, e, trees[k := t], k);
  }

  lemma SameFilesAt(d: Disk, e: Disk, trees: map<nat, Tree>, k: nat)
    requires SameFiles(d, e, trees, {}) && k in trees
    ensures SameFile(d, e, trees[k])
  {
    hide FileBlocks;
  }

  lemma SameFilesNone(d: Disk, trees: map<nat, Tree>)
    ensures SameFiles(d, d, trees, {})
  {
  }

  lemma HalfInode(d: Disk, nodes: map<nat, Inode>, p: nat, k: nat)
    requires HalfSynced(d, nodes, p, k)
    ensures IsInode(p) && IsInode(k) && p in nodes && k in nodes
  {
  }

  /** Storing a new directory's first block and then the inodes; without four free blocks the directory stays empty. */
  method StoreDir(fs: Volume, parent: nat, pnode: Inode, k: nat, node: Inode)
      returns (ghost d: Disk, ghost m: Inode, ghost t: Tree)
    requires fs.SpaceValid() && IsInode(parent) && IsInode(k) && k != parent && node.block == NoPointers() &&
      node.size == 512
    modifies fs`blocks, fs`bgdt, fs`sb
    ensures fs.SpaceValid() && Laid(old(fs.blocks), d, m, t) && m.mode == node.mode
    ensures Finished(d, fs.blocks, k, m, parent, pnode) && FreeTotal(fs.blocks) == FreeTotal(d)
    ensures FreeTotal(old(fs.blocks)) >= 4 ==> FileBlocks(d, t.data) == [DotBlock(k, parent)]
    ensures FreeTotal(old(fs.blocks)) < 4 ==> m.size == 0
    ensures TableCurrent(fs.blocks, fs.bgdt) && InodeCountsKept(old(fs.bgdt), fs.bgdt, k, parent)
    ensures Home(t, GroupOf(k), FreeNear(old(fs.blocks), k))
  {
    hide IsMeta, Used, FreeTotal, SpaceOk, InodeAt, InodeUsed, TableCurrent, KeptUsed, AllNew, Finished, InodeGroup,
      DotBlock, PtrsOk, TreeOk, Nearest, Home;
    SpaceSize(fs.blocks, fs.bgdt, fs.sb, fs.account);
    var node';
    ghost var before := fs.blocks;
    node', t := InitDirectoryTable(fs, node, k, parent);
    d, m := fs.blocks, node';
    SoleShape(d, m, t);
    DirHome(before, t, k);
    Finish(fs, parent, pnode, k, node');
  }

  lemma AddContents(d: Disk, trees: map<nat, Tree>, dirs: map<nat, seq<Rec>>, k: nat, recs: seq<Rec>)
    requires Contents(d, trees, dirs) && k in trees && Chain(FileBlocks(d, trees[k].data), recs)
    ensures Contents(d, trees, dirs[k := recs])
  {
  }

  /**
    The existing-file branch of `write`: free the old blocks, then store the new ones under the same inode.  A new name
    that could not be listed ends up here too, with the number of a free inode, whose slot may still name blocks of
    others.
   */
  method OverwriteFile(fs: Volume, parent: nat, pnode: Inode, k: nat, buf: seq<byte>, size: u32)
    requires Valid(fs) && parent in fs.nodes && fs.nodes[parent] == pnode && parent in fs.dirs
    requires |buf| >= 512 * BlocksFor(size) && IsInode(k) && k !in fs.dirs
    requires k !in fs.nodes ==> FreeTotal(fs.blocks) < 4 && Tame(fs.blocks, InodeAt(fs.blocks, k))
    modifies fs
    ensures old(k in fs.nodes) ==>
      Valid(fs) && Replaced(fs, old(fs.blocks), old(fs.nodes), old(fs.trees), old(fs.dirs), old(fs.up), k) &&
      StoredAs(fs, k, buf, size, FreeTotal(old(fs.blocks)) + SpaceOf(old(fs.trees), k))
    ensures old(k in fs.nodes) ==> k in fs.trees && Home(fs.trees[k], GroupOf(parent), FreeNear(old(fs.blocks), parent))
    ensures old(k !in fs.nodes) ==> Broken(fs.blocks)
    ensures TableCurrent(fs.blocks, fs.bgdt)
  {
    hide IsMeta, Used, FreeTotal, Owned, SpaceOk, Chain, InodeAt, InodeUsed, Tidy, FileBlocks, TableCurrent, Holds,
      Stored, PtrCount, BlocksFor, Layout, Deallocated, SameFiles, Contents, HalfSynced, Tame, GivenBack, Laid,
      Finished, Synced, Broken, Spent, PointerOrder, Stop, Exact, InodeCountsKept, Replaced, StoredAs, Mounted, Home,
      FreeNear;
    ghost var d0, nodes, trees, owner, dirs, up := fs.blocks, fs.nodes, fs.trees, fs.owner, fs.dirs, fs.up;
    ghost var live := k in nodes;
    SyncedAt(d0, nodes, parent);
    ValidMounted(fs);
    SpaceReserved(d0, fs.bgdt, fs.sb, fs.account);
    if live {
      LiveSlot(d0, nodes, trees, owner, k, fs.account);
    }
    GiveBack(fs, k);
    ghost var d1 := fs.blocks;
    var node := ReadInode(fs, k);
    node := node.(block := NoPointers(), size := size);
    ghost var d2, m, t := StoreFile(fs, parent, pnode, k, node, buf);
    if live {
      ReplacedValid(d0, nodes, trees, owner, dirs, up, parent, k, d2, m, t, fs.blocks);
      HoldsSame(d2, fs.blocks, t, buf);
      fs.nodes, fs.trees, fs.owner := nodes[k := m], trees[k := t], Claimed(Remaining(owner, k), d1, d2, k);
      ReplacedIs(fs, d0, nodes, trees, dirs, up, k, buf, size, FreeTotal(d0) + SpaceOf(trees, k));
      FreedNear(d0, nodes, trees, owner, k, parent);
      HomeMore(t, GroupOf(parent), FreeNear(d1, parent), FreeNear(d0, parent));
    } else {
      SpaceReserved(fs.blocks, fs.bgdt, fs.sb, fs.account);
      StrayIs(d0, k, parent, pnode, BlocksFor(size), d2, m, t, fs.blocks);
      StrayBroken(d0, nodes, trees, owner, dirs, up, k, parent, BlocksFor(size), d2, m, t, fs.blocks);
    }
  }

  lemma HomeMore(t: Tree, g: nat, room: int, less: int)
    requires Home(t, g, room) && less <= room
    ensures Home(t, g, less)
  {
  }

  lemma FreedNear(d: Disk, nodes: map<nat, Inode>, trees: map<nat, Tree>, owner: map<nat, nat>, k: nat, p: nat)
    requires Owned(d, nodes, trees, owner) && k in nodes && k in trees && IsInode(k)
    ensures FreeNear(d, p) <= FreeNear(Deallocated(d, k, trees[k]), p)
  {
    hide Used, IsMeta, GroupFree, TreeOrder, ClearAll, MarkInode, Owned, TreeOk, FreeTotal;
    OwnedTree(d, nodes, trees, owner, k);
    FreeableTree(d, trees[k]);
    ClearAllEffect(d, TreeOrder(trees[k], 15));
    InodeWritesMetaOnly(ClearAll(d, TreeOrder(trees[k], 15)), k, false, nodes[k]);
    SameUse(ClearAll(d, TreeOrder(trees[k], 15)), Deallocated(d, k, trees[k]));
    if IsInode(p) { MoreUsed(Deallocated(d, k, trees[k]), d, InodeGroup(p)); }
  }

  lemma StrayIs(d: Disk, k: nat, p: nat, pnode: Inode, needed: nat, d2: Disk, m: Inode, t: Tree, e: Disk)
    requires IsInode(k) && IsInode(p) && p != k && Tame(d, InodeAt(d, k)) && Laid(GivenBack(d, k), d2, m, t)
    requires Stored(FreeTotal(GivenBack(d, k)), FreeTotal(d2), needed, |t.data|) && Finished(d2, e, k, m, p, pnode)
    ensures Strayed(d, k, p, pnode, needed, d2, m, t, e)
  {
    hide FreeTotal, Tame, GivenBack, KeptUsed, Sole, Stored, Finished, InodeAt;
  }

  /** The slot of a live inode names its own tree. */
  lemma LiveSlot(d: Disk, nodes: map<nat, Inode>, trees: map<nat, Tree>, owner: map<nat, nat>, k: nat, a: Account)
    requires Owned(d, nodes, trees, owner) && Synced(d, nodes) && k in nodes && |a.slack| == 16
    ensures IsInode(k) && k in trees && Tame(d, InodeAt(d, k)) && GivenBack(d, k) == Deallocated(d, k, trees[k]) &&
      nodes[k] == InodeAt(d, k)
    ensures var p := InodeAt(d, k).block; Spent(a, d, PointerOrder(d, p, Stop(p))) == a
  {
    hide IsMeta, Used, Owned, InodeAt, InodeUsed, Layout, TreeOk, Deallocated, GivenBack, Spent, PointerOrder,
      PointersOnData, Stop, Synced;
    SyncedAt(d, nodes, k);
    OwnedTree(d, nodes, trees, owner, k);
    LiveTame(d, nodes[k], trees[k], k, a);
  }

  /** A live file with its old blocks freed and new ones stored in their place. */
  lemma ReplacedValid(d: Disk, nodes: map<nat, Inode>, trees: map<nat, Tree>, owner: map<nat, nat>,
                      dirs: map<nat, seq<Rec>>, up: map<nat, nat>, p: nat, k: nat, d2: Disk, m: Inode, t: Tree, e: Disk)
    requires Owned(d, nodes, trees, owner) && Synced(d, nodes) && Contents(d, trees, dirs) && Tidy(nodes, dirs, up)
    requires k in nodes && k in trees && IsInode(k) && k !in dirs && p in nodes && IsInode(p) && p in dirs &&
      m.mode == nodes[k].mode
    requires Laid(Deallocated(d, k, trees[k]), d2, m, t) && Finished(d2, e, k, m, p, nodes[p])
    ensures Owned(e, nodes[k := m], trees[k := t], Claimed(Remaining(owner, k), Deallocated(d, k, trees[k]), d2, k))
    ensures Synced(e, nodes[k := m]) && Contents(e, trees[k := t], dirs) && Tidy(nodes[k := m], dirs, up)
    ensures SameFiles(d, e, trees, {k}) && SameFile(d2, e, t)
    ensures FreeTotal(Deallocated(d, k, trees[k])) == FreeTotal(d) + SpaceOf(trees, k)
  {
    hide IsMeta, Used, FreeTotal, Owned, Chain, FileBlocks, Layout, SameFiles, Contents, HalfSynced, Laid, Finished,
      Claimed, SameFile, Deallocated, InodeAt, InodeUsed, Tidy, Remaining, Synced, PtrCount;
    var d1 := Deallocated(d, k, trees[k]);
    var m0 := m.(size := 0, blocks := 0, block := NoPointers());
    DeallocatedEffect(d, nodes, trees, owner, k);
    AfterDealloc(d, nodes, trees, owner, dirs, d1, k, p, m0);
    AddEmpty(d1, nodes - {k}, trees - {k}, Remaining(owner, k), k, m0);
    MapBack(nodes, k, m0);
    MapBack(trees, k, EMPTY_TREE);
    TidyUpdate(nodes, dirs, up, k, m);
    StoredValid(d1, nodes[k := m0], trees[k := EMPTY_TREE], Remaining(owner, k), dirs, p, k, d2, m, t, e);
    assert nodes[k := m0][k := m] == nodes[k := m] && trees[k := EMPTY_TREE][k := t] == trees[k := t];
    SameFilesPair(d, d1, e, trees, trees[k := EMPTY_TREE], k);
  }

  lemma ReplacedIs(fs: Volume, d: Disk, nodes: map<nat, Inode>, trees: map<nat, Tree>, dirs: map<nat, seq<Rec>>,
                   up: map<nat, nat>, k: nat, buf: seq<byte>, size: u32, before: int)
    requires k in nodes && k !in dirs && k in fs.nodes && k in fs.trees && fs.dirs == dirs && fs.up == up
    requires fs.nodes == nodes[k := fs.nodes[k]] && fs.trees == trees[k := fs.trees[k]] &&
      SameFiles(d, fs.blocks, trees, {k})
    requires before >= 0 && Holds(fs.blocks, fs.trees[k].data, buf)
    requires Stored(before, FreeTotal(fs.blocks), BlocksFor(size), |fs.trees[k].data|)
    ensures Replaced(fs, d, nodes, trees, dirs, up, k) && StoredAs(fs, k, buf, size, before)
  {
    hide SameFiles, Holds, Stored, BlocksFor;
  }

  lemma SpaceReserved(d: Disk, bgdt: seq<GroupDesc>, sb: Superblock, a: Account)
    requires SpaceOk(d, bgdt, sb, a)
    ensures ReservedUsed(d) && |a.slack| == 16
  {
  }

  lemma SameFilesPair(d: Disk, d1: Disk, e: Disk, ts: map<nat, Tree>, us: map<nat, Tree>, k: nat)
    requires SameFiles(d, d1, ts, {}) && SameFiles(d1, e, us, {k})
    requires forall j :: j in ts && j != k ==> j in us && us[j] == ts[j]
    ensures SameFiles(d, e, ts, {k})
  {
    hide FileBlocks;
    forall j | j in ts && j != k
      ensures SameFile(d, e, ts[j])
    {
      assert SameFile(d, d1, ts[j]) && SameFile(d1, e, us[j]);
    }
  }

  lemma SyncedAt(d: Disk, nodes: map<nat, Inode>, k: nat)
    requires Synced(d, nodes) && k in nodes
    ensures IsInode(k) && nodes[k] == InodeAt(d, k)
  {
  }

  lemma KeptMeta(d: Disk, e: Disk)
    requires KeptUsed(d, e)
    ensures forall c: nat :: c < 8192 && IsMeta(c) && !IsBlockBitmap(c) ==> e[c] == d[c]
  {
  }

  lemma HoldsSame(d: Disk, e: Disk, t: Tree, src: seq<byte>)
    requires SameFile(d, e, t) && Holds(d, t.data, src)
    ensures Holds(e, t.data, src)
  {
    hide Chunk;
    forall i: nat | i < |t.data|
      ensures e[t.data[i]] == d[t.data[i]]
    {
      assert FileBlocks(e, t.data)[i] == FileBlocks(d, t.data)[i];
    }
  }

  /** Blocks the parent directory takes to list one more name. */
  function LinkCost(recs: seq<Rec>, t: Tree, name: seq<byte>): (c: nat)
    requires |recs| > 0
  {
    if Fits(recs, name) then 0 else 1 + ExtraPtrs(|t.data|)
  }

  /** The parent's last block is full and the store refuses another one, so a new name cannot be listed. */
  ghost predicate Stuck(d: Disk, recs: seq<Rec>, name: seq<byte>)
    requires |recs| > 0
  {
    !Fits(recs, name) && FreeTotal(d) < 4
  }

  /**
    Enough free blocks for what the code does not see to: a new file can be listed, and a new directory that can be
    listed gets its first block as well (each wants to see four).
   */
  ghost predicate RoomToLink(d: Disk, recs: seq<Rec>, t: Tree, name: seq<byte>, directory: bool)
    requires |recs| > 0
  {
    Absent(recs, name, directory) ==>
      (if directory then Stuck(d, recs, name) || FreeTotal(d) >= LinkCost(recs, t, name) + 4 else !Stuck(d, recs, name))
  }

  /** The name is not there and can be listed. */
  ghost predicate Linkable(d: Disk, recs: seq<Rec>, name: seq<byte>, directory: bool)
    requires |recs| > 0
  {
    Absent(recs, name, directory) && !Stuck(d, recs, name)
  }

  /** After `AddEntry` listed a new name in p: p's chain grew, every other file is as before. */
  lemma AfterLink(d: Disk, nodes: map<nat, Inode>, trees: map<nat, Tree>, owner: map<nat, nat>,
                  dirs: map<nat, seq<Rec>>, e: Disk, p: nat, pnode: Inode, t: Tree, recs: seq<Rec>, k: nat, m: Inode)
    requires p in nodes && p in trees && p in dirs && IsInode(k) && !InodeUsed(d, k) && k !in dirs
    requires Owned(d, nodes, trees, owner) && Synced(d, nodes) && Contents(d, trees, dirs)
    requires OthersKept(d, e, trees[p]) && Chain(FileBlocks(e, t.data), recs)
    ensures p != k && k !in nodes
    ensures SameFiles(d, e, trees, {p})
    ensures Contents(e, With(trees, p, t, k, EMPTY_TREE), dirs[p := recs])
    ensures HalfSynced(e, With(nodes, p, pnode, k, m), p, k)
  {
    hide Used, IsMeta, FreeTotal, Owned, Chain, FileBlocks, InodeAt, InodeUsed, Layout, TreeOk, SameFiles;
    OwnedTreeAt(d, nodes, trees, owner, p);
    OtherFiles(d, nodes, trees, owner, p, e);
    LinkContents(d, trees, dirs, e, p, t, recs, k);
    forall j: nat | IsInode(j)
      ensures InodeAt(e, j) == InodeAt(d, j) && InodeUsed(e, j) == InodeUsed(d, j)
    {
      InodesKept(d, e, j);
    }
  }

  lemma LinkContents(d: Disk, trees: map<nat, Tree>, dirs: map<nat, seq<Rec>>, e: Disk, p: nat, t: Tree,
                     recs: seq<Rec>, k: nat)
    requires Contents(d, trees, dirs) && p in dirs && k !in dirs
    requires SameFiles(d, e, trees, {p}) && Chain(FileBlocks(e, t.data), recs)
    ensures Contents(e, With(trees, p, t, k, EMPTY_TREE), dirs[p := recs])
  {
    hide FileBlocks, Chain;
    forall j | j in dirs && j != p
      ensures Chain(FileBlocks(e, trees[j].data), dirs[j])
    {
      assert SameFile(d, e, trees[j]);
    }
  }

  /** What storing under a name that did not exist leaves behind. */
  ghost predicate Created(fs: Volume, d: Disk, nodes: map<nat, Inode>, trees: map<nat, Tree>, dirs: map<nat, seq<Rec>>,
                          up: map<nat, nat>, parent: nat, name: seq<byte>, directory: bool, k: nat)
    requires parent in dirs && |dirs[parent]| > 0 && parent in trees
    reads fs
  {
    && k !in nodes && IsInode(k) && k in fs.nodes && parent in fs.nodes && k in fs.trees && parent in fs.trees
    && fs.dirs == AddTo(dirs, parent, NewRec(dirs[parent], k, if directory then 2 else 1, name))
    && fs.up == up[k := parent]
    && fs.nodes == With(nodes, parent, fs.nodes[parent], k, fs.nodes[k])
    && fs.trees == With(trees, parent, fs.trees[parent], k, fs.trees[k])
    && (Fits(dirs[parent], name) ==> fs.trees[parent] == trees[parent])
    && SameFiles(d, fs.blocks, trees, {parent})
  }

  /** Ghost bookkeeping between listing a new name and storing what it names. */
  lemma StartNew(d: Disk, nodes: map<nat, Inode>, trees: map<nat, Tree>, owner: map<nat, nat>, dirs: map<nat, seq<Rec>>,
                 up: map<nat, nat>, e: Disk, owner': map<nat, nat>, p: nat, pnode: Inode, t: Tree, m: Inode, r: Rec)
    requires p in nodes && p in trees && p in dirs && |dirs[p]| >= 2
    requires Owned(d, nodes, trees, owner) && Synced(d, nodes) && Contents(d, trees, dirs) && Tidy(nodes, dirs, up)
    requires IsInode(r.ino) && !InodeUsed(d, r.ino) && Absent(dirs[p], r.name, r.kind == 2)
    requires Owned(e, nodes[p := pnode], trees[p := t], owner') && pnode.mode == nodes[p].mode
    requires OthersKept(d, e, trees[p]) && Chain(FileBlocks(e, t.data), dirs[p] + [r])
    requires (r.kind == 1 && m.mode == MODE_FILE) || (r.kind == 2 && m.mode == MODE_DIR)
    requires m.size == 0 && m.blocks == 0 && m.block == NoPointers()
    ensures p != r.ino && r.ino !in nodes && r.ino !in trees && r.ino !in dirs
    ensures Owned(e, With(nodes, p, pnode, r.ino, m), With(trees, p, t, r.ino, EMPTY_TREE), owner')
    ensures Contents(e, With(trees, p, t, r.ino, EMPTY_TREE), dirs[p := dirs[p] + [r]])
    ensures HalfSynced(e, With(nodes, p, pnode, r.ino, m), p, r.ino)
    ensures Tidy(With(nodes, p, pnode, r.ino, m), AddTo(dirs, p, r), up[r.ino := p])
    ensures SameFiles(d, e, trees, {p})
  {
    hide IsMeta, Used, FreeTotal, Owned, Chain, InodeAt, InodeUsed, Tidy, FileBlocks, SameFiles, Contents, HalfSynced,
      Absent, Synced, OthersKept, AddTo;
    TidyFresh(d, nodes, dirs, up, r.ino);
    AfterLink(d, nodes, trees, owner, dirs, e, p, pnode, t, dirs[p] + [r], r.ino, m);
    AddEmpty(e, nodes[p := pnode], trees[p := t], owner', r.ino, m);
    OwnedKeys(d, nodes, trees, owner);
    TidyMode(nodes, dirs, up, p);
    TidyAdd(nodes, dirs, up, p, pnode, m, r);
  }

  lemma OwnedKeys(d: Disk, nodes: map<nat, Inode>, trees: map<nat, Tree>, owner: map<nat, nat>)
    requires Owned(d, nodes, trees, owner)
    ensures nodes.Keys == trees.Keys
    ensures forall k :: k in nodes <==> k in trees
  {
  }

  lemma WithAgain<V>(m: map<nat, V>, j: nat, v: V, k: nat, w: V, w': V)
    ensures With(m, j, v, k, w)[k := w'] == With(m, j, v, k, w')
  {
  }

  /** Once a new inode has its blocks, and a new directory its dots, all is well again. */
  lemma StoredNew(d: Disk, nodes: map<nat, Inode>, trees: map<nat, Tree>, owner: map<nat, nat>,
                  dirs: map<nat, seq<Rec>>, dirs': map<nat, seq<Rec>>, up: map<nat, nat>, p: nat, k: nat, d2: Disk,
                  m: Inode, t: Tree, e: Disk)
    requires Started(d, nodes, trees, owner, dirs, p, k) && Laid(d, d2, m, t) && Finished(d2, e, k, m, p, nodes[p])
    requires Tidy(nodes, dirs', up) && m.mode == nodes[k].mode
    requires dirs' == dirs || (k in dirs' && dirs' == dirs[k := dirs'[k]] && Chain(FileBlocks(d2, t.data), dirs'[k]))
    ensures Owned(e, nodes[k := m], trees[k := t], Claimed(owner, d, d2, k))
    ensures Synced(e, nodes[k := m]) && Contents(e, trees[k := t], dirs') && Tidy(nodes[k := m], dirs', up)
    ensures SameFiles(d, e, trees, {k}) && SameFile(d2, e, t)
  {
    hide IsMeta, Used, FreeTotal, Owned, Chain, FileBlocks, Layout, SameFiles, Contents, Synced, Laid, Finished,
      Claimed, Tidy;
    StoredValid(d, nodes, trees, owner, dirs, p, k, d2, m, t, e);
    TidyUpdate(nodes, dirs', up, k, m);
    if dirs' != dirs {
      AddContents(e, trees[k := t], dirs, k, dirs'[k]);
    }
  }

  /** A name listed in p for a fresh inode, and that inode stored: what was a file system is one again. */
  lemma NewValid(d: Disk, nodes: map<nat, Inode>, trees: map<nat, Tree>, owner: map<nat, nat>, dirs: map<nat, seq<Rec>>,
                 up: map<nat, nat>, e: Disk, owner': map<nat, nat>, p: nat, pnode: Inode, t: Tree, r: Rec,
                 d2: Disk, m: Inode, s: Tree, f: Disk)
    requires p in nodes && p in trees && p in dirs && |dirs[p]| >= 2
    requires Owned(d, nodes, trees, owner) && Synced(d, nodes) && Contents(d, trees, dirs) && Tidy(nodes, dirs, up)
    requires IsInode(r.ino) && IsInode(p) && !InodeUsed(d, r.ino) && Absent(dirs[p], r.name, r.kind == 2)
    requires Owned(e, nodes[p := pnode], trees[p := t], owner') && pnode.mode == nodes[p].mode
    requires OthersKept(d, e, trees[p]) && Chain(FileBlocks(e, t.data), dirs[p] + [r])
    requires (r.kind == 1 && m.mode == MODE_FILE) || (r.kind == 2 && m.mode == MODE_DIR)
    requires r.kind == 2 ==> FileBlocks(d2, s.data) == [DotBlock(r.ino, p)]
    requires Laid(e, d2, m, s) && Finished(d2, f, r.ino, m, p, pnode)
    ensures p != r.ino && r.ino !in nodes
    ensures var ns, ts := With(nodes, p, pnode, r.ino, m), With(trees, p, t, r.ino, s);
      Owned(f, ns, ts, Claimed(owner', e, d2, r.ino)) && Synced(f, ns) && Contents(f, ts, AddTo(dirs, p, r)) &&
      Tidy(ns, AddTo(dirs, p, r), up[r.ino := p])
    ensures SameFiles(d, f, trees, {p}) && SameFile(d2, f, s)
  {
    hide IsMeta, Used, FreeTotal, Owned, Chain, InodeAt, InodeUsed, Tidy, FileBlocks, Laid, Finished, SameFiles,
      SameFile, Contents, HalfSynced, Absent, Synced, OthersKept, Claimed, DotBlock, DotRecs;
    var m0 := m.(size := 0, blocks := 0, block := NoPointers());
    StartNew(d, nodes, trees, owner, dirs, up, e, owner', p, pnode, t, m0, r);
    if r.kind == 2 { DotBlockChain(r.ino, p); }
    var nodes1, trees1 := With(nodes, p, pnode, r.ino, m0), With(trees, p, t, r.ino, EMPTY_TREE);
    StoredNew(e, nodes1, trees1, owner', dirs[p := dirs[p] + [r]], AddTo(dirs, p, r), up[r.ino := p], p, r.ino,
      d2, m, s, f);
    WithAgain(nodes, p, pnode, r.ino, m0, m);
    WithAgain(trees, p, t, r.ino, EMPTY_TREE, s);
    SameFilesNew(d, e, f, trees, trees1, p, r.ino);
  }

  lemma NoDirBlock(d: Disk, e: Disk, k: nat, m: Inode, p: nat, pnode: Inode)
    requires IsInode(k) && IsInode(p) && k != p && Finished(d, e, k, m, p, pnode) && m.mode == MODE_DIR && m.size == 0
    ensures Broken(e)
  {
    hide InodeAt, InodeUsed, Broken;
    EmptyDirBroken(e, k);
  }

  /**
    The new-name branch of `write`, once the name is listed in the parent.  A new directory that finds no room for its
    own block leaves a disk that is no file system.
   */
  method StoreNew(fs: Volume, parent: nat, pnode: Inode, k: nat, name: seq<byte>, directory: bool, buf: seq<byte>,
                  size: u32, ghost d: Disk, ghost nodes: map<nat, Inode>, ghost trees: map<nat, Tree>,
                  ghost owner: map<nat, nat>, ghost recs: seq<Rec>)
    requires parent in nodes && parent in trees && parent in fs.dirs && recs == fs.dirs[parent] && |recs| >= 2
    requires Owned(d, nodes, trees, owner) && Synced(d, nodes) && Contents(d, trees, fs.dirs) &&
      Tidy(nodes, fs.dirs, fs.up)
    requires IsInode(k) && !InodeUsed(d, k) && Absent(recs, name, directory)
    requires fs.Own() && fs.nodes == nodes[parent := pnode] && pnode.mode == nodes[parent].mode
    requires parent in fs.trees && fs.trees == trees[parent := fs.trees[parent]]
    requires Fits(recs, name) ==> fs.trees == trees
    requires OthersKept(d, fs.blocks, trees[parent])
    requires Chain(FileBlocks(fs.blocks, fs.trees[parent].data),
      recs + [NewRec(recs, k, if directory then 2 else 1, name)])
    requires !directory ==> |buf| >= 512 * BlocksFor(size)
    modifies fs
    ensures directory && FreeTotal(old(fs.blocks)) < 4 ==> Broken(fs.blocks)
    ensures !directory || FreeTotal(old(fs.blocks)) >= 4 ==>
      Valid(fs) && Created(fs, d, nodes, trees, old(fs.dirs), old(fs.up), parent, name, directory, k)
    ensures !directory ==> StoredAs(fs, k, buf, size, FreeTotal(old(fs.blocks)))
    ensures SlotsKept(d, fs.blocks, {k, parent})
    ensures !directory || FreeTotal(old(fs.blocks)) >= 4 ==>
      var near := if directory then k else parent;
      k in fs.trees && Home(fs.trees[k], GroupOf(near), FreeNear(old(fs.blocks), near)) &&
      parent in fs.trees && fs.trees[parent] == old(fs.trees)[parent]
    ensures TableCurrent(fs.blocks, fs.bgdt) && IsInode(parent) && InodeCountsKept(old(fs.bgdt), fs.bgdt, k, parent)
  {
    hide IsMeta, Used, FreeTotal, Owned, SpaceOk, Chain, InodeAt, InodeUsed, Tidy, FileBlocks, TableCurrent, Holds,
      Stored, Finished, PtrCount, BlocksFor, Layout, SameFiles, Contents, HalfSynced, DotRecs, DotBlock, Absent,
      Synced, Fits, KeysUnique, OthersKept, Created, Laid, Exact, Claimed, InodeCountsKept, Broken, SameFile, NewRec,
      SlotsKept, Home, FreeNear;
    ghost var e, dirs, t := fs.blocks, fs.dirs, fs.trees[parent];
    ghost var r := NewRec(recs, k, if directory then 2 else 1, name);
    NewRecIs(recs, k, if directory then 2 else 1, name);
    var node := if directory then Inode(MODE_DIR, BLOCK_SIZE, 0, NoPointers())
      else Inode(MODE_FILE, size, 0, NoPointers());
    SyncedAt(d, nodes, parent);
    TidyFresh(d, nodes, dirs, fs.up, k);
    ghost var d2, m, s;
    if directory {
      d2, m, s := StoreDir(fs, parent, pnode, k, node);
    } else {
      d2, m, s := StoreFile(fs, parent, pnode, k, node, buf);
    }
    NewSlots(d, e, trees[parent], d2, m, s, fs.blocks, k, parent, pnode);
    if directory && FreeTotal(e) < 4 {
      NoDirBlock(d2, fs.blocks, k, m, parent, pnode);
    } else {
      NewValid(d, nodes, trees, owner, dirs, fs.up, e, fs.owner, parent, pnode, t, r, d2, m, s, fs.blocks);
      fs.nodes, fs.trees, fs.owner := With(nodes, parent, pnode, k, m), With(trees, parent, t, k, s),
        Claimed(fs.owner, e, d2, k);
      fs.dirs, fs.up := AddTo(dirs, parent, r), fs.up[k := parent];
      CreatedIs(fs, d, nodes, trees, dirs, old(fs.up), parent, name, directory, k, pnode, t);
      if !directory {
        HoldsSame(d2, fs.blocks, s, buf);
        StoredIs(fs, k, s, buf, size, FreeTotal(e));
      }
    }
  }

  lemma CreatedIs(fs: Volume, d: Disk, nodes: map<nat, Inode>, trees: map<nat, Tree>, dirs: map<nat, seq<Rec>>,
                  up: map<nat, nat>, parent: nat, name: seq<byte>, directory: bool, k: nat, pnode: Inode, t: Tree)
    requires parent in dirs && |dirs[parent]| > 0 && parent in trees && parent in nodes
    requires k !in nodes && k != parent && IsInode(k) && k in fs.nodes && k in fs.trees
    requires fs.dirs == AddTo(dirs, parent, NewRec(dirs[parent], k, if directory then 2 else 1, name)) &&
      fs.up == up[k := parent]
    requires fs.nodes == With(nodes, parent, pnode, k, fs.nodes[k]) &&
      fs.trees == With(trees, parent, t, k, fs.trees[k])
    requires Fits(dirs[parent], name) ==> t == trees[parent]
    requires SameFiles(d, fs.blocks, trees, {parent})
    ensures Created(fs, d, nodes, trees, dirs, up, parent, name, directory, k)
  {
    hide SameFiles, AddTo, NewRec, Fits;
  }

  lemma NewSlots(d: Disk, e: Disk, u: Tree, d2: Disk, m: Inode, t: Tree, f: Disk, k: nat, p: nat, pnode: Inode)
    requires OthersKept(d, e, u) && Laid(e, d2, m, t) && IsInode(k) && IsInode(p) && Finished(d2, f, k, m, p, pnode)
    ensures SlotsKept(d, f, {k, p})
  {
    hide InodeAt, InodeUsed, IsMeta, Used, Sole, AllNew;
    MetaSlots(d, e);
    MetaSlots(e, d2);
  }

  lemma StoredIs(fs: Volume, k: nat, t: Tree, buf: seq<byte>, size: u32, before: int)
    requires k in fs.trees && fs.trees[k] == t && before >= 0 && Holds(fs.blocks, t.data, buf)
    requires Stored(before, FreeTotal(fs.blocks), BlocksFor(size), |t.data|)
    ensures StoredAs(fs, k, buf, size, before)
  {
    hide Holds, Stored, BlocksFor;
  }

  lemma NewRecIs(recs: seq<Rec>, k: nat, kind: nat, name: seq<byte>)
    requires |recs| > 0
    ensures var r := NewRec(recs, k, kind, name); r.ino == k && r.kind == kind && r.name == name
  {
  }

  lemma TidyFresh(d: Disk, nodes: map<nat, Inode>, dirs: map<nat, seq<Rec>>, up: map<nat, nat>, k: nat)
    requires Synced(d, nodes) && Tidy(nodes, dirs, up) && IsInode(k) && !InodeUsed(d, k)
    ensures k !in nodes && k !in dirs
  {
  }

  lemma TidyMode(nodes: map<nat, Inode>, dirs: map<nat, seq<Rec>>, up: map<nat, nat>, p: nat)
    requires Tidy(nodes, dirs, up) && p in nodes
    ensures nodes[p].mode == if p in dirs then MODE_DIR else MODE_FILE
  {
  }

  lemma SameFilesNew(d: Disk, e: Disk, f: Disk, ts: map<nat, Tree>, us: map<nat, Tree>, p: nat, k: nat)
    requires SameFiles(d, e, ts, {p}) && SameFiles(e, f, us, {k}) && k !in ts
    requires forall j :: j in ts && j != p ==> j in us && us[j] == ts[j]
    ensures SameFiles(d, f, ts, {p})
  {
    hide FileBlocks;
    forall j | j in ts && j != p
      ensures SameFile(d, f, ts[j])
    {
      assert SameFile(d, e, ts[j]) && SameFile(e, f, us[j]);
    }
  }

  /** Nothing of the file system changed. */
  twostate predicate Unchanged(fs: Volume)
    reads fs
  {
    fs.blocks == old(fs.blocks) && fs.bgdt == old(fs.bgdt) && fs.sb == old(fs.sb) &&
    fs.nodes == old(fs.nodes) && fs.trees == old(fs.trees) && fs.dirs == old(fs.dirs) && fs.up == old(fs.up)
  }

  lemma ValidDir(fs: Volume, k: nat)
    requires Valid(fs) && k in fs.nodes
    ensures k in fs.trees && IsInode(k) && fs.nodes[k] == InodeAt(fs.blocks, k)
    ensures FileType(fs.nodes[k].mode) == 0x4000 <==> k in fs.dirs
    ensures TreeOk(fs.trees[k]) && Layout(fs.blocks, fs.nodes[k], fs.trees[k])
    ensures k in fs.dirs ==> DirOn(fs.blocks, fs.nodes[k], fs.trees[k], fs.dirs[k]) && DirShape(k, fs.dirs[k])
  {
    hide Used, IsMeta, Layout, TreeOk, Chain, FileBlocks, DirShape, InodeAt, InodeUsed;
    OwnedTreeAt(fs.blocks, fs.nodes, fs.trees, fs.owner, k);
    SyncedAt(fs.blocks, fs.nodes, k);
    TidyMode(fs.nodes, fs.dirs, fs.up, k);
  }

  lemma FirstIsDot(k: nat, recs: seq<Rec>, name: seq<byte>, directory: bool)
    requires DirShape(k, recs) && !(name == DOT && directory)
    ensures |recs| >= 2 && !Matches(recs[0], name, directory)
  {
  }

  /** The inode a matching record leads to is live, and a directory exactly when the record says so. */
  lemma EntryLeads(fs: Volume, p: nat, at: nat)
    requires Valid(fs) && p in fs.dirs && at < |fs.dirs[p]|
    ensures var r := fs.dirs[p][at];
      r.ino in fs.nodes && (r.kind == 2 <==> r.ino in fs.dirs) && (r.kind == 1 || r.kind == 2)
    ensures p in fs.nodes
  {
    assert EntriesOk(fs.nodes, fs.dirs, fs.dirs[p]);
    assert EntryOk(fs.nodes, fs.dirs, fs.dirs[p][at]);
  }

  /** The directory lists inode k under this key. */
  ghost predicate LooksUp(recs: seq<Rec>, name: seq<byte>, directory: bool, k: nat)
  {
    exists i :: 0 <= i < |recs| && Matches(recs[i], name, directory) && recs[i].ino == k
  }

  /** What storing under an existing file name leaves behind. */
  ghost predicate Replaced(fs: Volume, d: Disk, nodes: map<nat, Inode>, trees: map<nat, Tree>, dirs: map<nat, seq<Rec>>,
                           up: map<nat, nat>, k: nat)
    reads fs
  {
    && k in nodes && k !in dirs && k in fs.nodes && k in fs.trees
    && fs.dirs == dirs && fs.up == up
    && fs.nodes == nodes[k := fs.nodes[k]] && fs.trees == trees[k := fs.trees[k]]
    && SameFiles(d, fs.blocks, trees, {k})
  }

  /** The blocks of inode k hold the leading blocks of buf, as many as `before` free blocks afforded. */
  ghost predicate StoredAs(fs: Volume, k: nat, buf: seq<byte>, size: u32, before: int)
    reads fs
  {
    && k in fs.trees && before >= 0
    && Holds(fs.blocks, fs.trees[k].data, buf)
    && Stored(before, FreeTotal(fs.blocks), BlocksFor(size), |fs.trees[k].data|)
  }

  /** Blocks the tree of k takes up. */
  function SpaceOf(trees: map<nat, Tree>, k: nat): (n: nat)
  {
    if k in trees then |trees[k].data| + PtrCount(|trees[k].data|) else 0
  }

  /** Listing a new name took these free blocks from the store. */
  function AfterListing(d: Disk, dirs: map<nat, seq<Rec>>, trees: map<nat, Tree>, p: nat, name: seq<byte>): (n: int)
  {
    if p in dirs && p in trees && |dirs[p]| > 0 then FreeTotal(d) - LinkCost(dirs[p], trees[p], name) else FreeTotal(d)
  }

  /**
    Where a new name's blocks are: a file in the group of its parent's inode, a directory in that of its own, if there
    was room; and the parent's new block, if listing took any, next to its first one.
   */
  ghost predicate Settled(fs: Volume, d: Disk, trees: map<nat, Tree>, parent: nat, directory: bool, k: nat,
                          listing: int)
    reads fs
  {
    var near := if directory then k else parent;
    && k in fs.trees && Home(fs.trees[k], GroupOf(near), FreeNear(d, near) - listing)
    && (listing != 0 ==>
         parent in trees && parent in fs.trees && NextBlock(d, trees[parent], fs.trees[parent]))
  }

  /** A new name is not there yet, and its record fits behind the last one or four blocks are free. */
  ghost predicate Listable(d: Disk, dirs: map<nat, seq<Rec>>, p: nat, name: seq<byte>, directory: bool)
  {
    p in dirs && |dirs[p]| > 0 && Absent(dirs[p], name, directory) &&
    var last := dirs[p][|dirs[p]| - 1];
    last.pos % 512 + EntryLen(|last.name|) + EntryLen(|name|) <= 512 || FreeTotal(d) >= 4
  }

  /** Inode k is that of a file or a directory. */
  ghost predicate HasMode(nodes: map<nat, Inode>, k: nat, directory: bool)
  {
    k in nodes && nodes[k].mode == if directory then 0x4000 else 0x8200
  }

  /** The part of `write` after all checks passed: list the name, then store. */
  method WriteLinked(fs: Volume, parent: nat, pnode: Inode, unused: nat, name: seq<byte>, directory: bool,
                     buf: seq<byte>, size: u32)
      returns (code: int, ghost k: nat)
    requires Valid(fs) && parent in fs.dirs && parent in fs.nodes && fs.nodes[parent] == pnode && parent in fs.trees
    requires 0 < |name| <= 255 && |fs.dirs[parent]| >= 2 && !Matches(fs.dirs[parent][0], name, directory)
    requires IsInode(unused) && !InodeUsed(fs.blocks, unused)
    requires !directory ==> |buf| >= 512 * BlocksFor(size)
    requires !directory && Absent(fs.dirs[parent], name, directory) && Stuck(fs.blocks, fs.dirs[parent], name) ==>
      Tame(fs.blocks, InodeAt(fs.blocks, unused))
    modifies fs
    ensures code == if Linkable(old(fs.blocks), old(fs.dirs[parent]), name, directory) then 0 else 1
    ensures if old(RoomToLink(fs.blocks, fs.dirs[parent], fs.trees[parent], name, directory)) then Valid(fs)
      else Broken(fs.blocks)
    ensures code == 0 ==> k == unused && IsInode(parent) && InodeCountsKept(old(fs.bgdt), fs.bgdt, k, parent)
    ensures code == 0 ==> SlotsKept(old(fs.blocks), fs.blocks, {k, parent})
    ensures Valid(fs) && code == 0 ==>
      Created(fs, old(fs.blocks), old(fs.nodes), old(fs.trees), old(fs.dirs), old(fs.up), parent, name, directory, k)
    ensures Valid(fs) && code == 0 && !directory ==>
      StoredAs(fs, k, buf, size, AfterListing(old(fs.blocks), old(fs.dirs), old(fs.trees), parent, name))
    ensures code == 1 && directory ==> Unchanged(fs)
    ensures Valid(fs) && code == 1 && !directory ==>
      LooksUp(old(fs.dirs[parent]), name, directory, k) &&
      Replaced(fs, old(fs.blocks), old(fs.nodes), old(fs.trees), old(fs.dirs), old(fs.up), k)
    ensures Valid(fs) && code == 1 && !directory ==>
      StoredAs(fs, k, buf, size, FreeTotal(old(fs.blocks)) + SpaceOf(old(fs.trees), k))
    ensures Valid(fs) && code == 0 ==>
      Settled(fs, old(fs.blocks), old(fs.trees), parent, directory, k,
              FreeTotal(old(fs.blocks)) - AfterListing(old(fs.blocks), old(fs.dirs), old(fs.trees), parent, name))
    ensures Valid(fs) && code == 1 && !directory ==>
      k in fs.trees && Home(fs.trees[k], GroupOf(parent), FreeNear(old(fs.blocks), parent))
    ensures code == 0 || !directory ==> TableCurrent(fs.blocks, fs.bgdt)
  {
    hide IsMeta, Used, FreeTotal, Owned, SpaceOk, Chain, InodeAt, InodeUsed, Tidy, FileBlocks, TableCurrent, Holds,
      Stored, InodeCountsKept, PtrCount, BlocksFor, Layout, SameFiles, DotRecs, Absent, Synced, Fits, KeysUnique,
      OthersKept, Matches, TreeOk, AddTo, DirShape, EntryLen, Tame, Broken, Replaced, StoredAs, Created, SlotsKept,
      Home, FreeNear, GroupOf, NextBlock, LocalTo;
    ghost var d, nodes, trees, owner, dirs := fs.blocks, fs.nodes, fs.trees, fs.owner, fs.dirs;
    ghost var recs := fs.dirs[parent];
    ghost var at;
    var pnode', ino;
    k := unused;
    UnusedIsNew(fs, unused);
    var kind := if directory then KIND_DIR else KIND_FILE;
    code, pnode', ino, at := AddEntry(fs, parent, pnode, name, directory, unused, kind, recs);
    if code == 2 {
      assert fs.nodes == nodes;
      code := 1;
      if !directory {
        k := ino;
        if !Absent(recs, name, directory) {
          EntryLeads(fs, parent, at);
          MatchesKind(recs[at], name, directory);
          SyncedAt(d, nodes, k);
        }
        OverwriteFile(fs, parent, pnode, ino, buf, size);
        if Broken(fs.blocks) { BrokenInvalid(fs); }
      }
      return;
    }
    ghost var bgdt, e := fs.bgdt, fs.blocks;
    StoreNew(fs, parent, pnode', unused, name, directory, buf, size, d, nodes, trees, owner, recs);
    if Broken(fs.blocks) { BrokenInvalid(fs); }
    CountsTrans(old(fs.bgdt), bgdt, fs.bgdt, k, parent);
    ghost var near := if directory then k else parent;
    ListedNear(d, e, trees[parent], near);
    if Valid(fs) {
      HomeMore(fs.trees[k], GroupOf(near), FreeNear(e, near), FreeNear(d, near) - (FreeTotal(d) - FreeTotal(e)));
    }
    code := 0;
  }

  lemma ListedNear(d: Disk, e: Disk, t: Tree, k: nat)
    requires OthersKept(d, e, t)
    ensures FreeNear(d, k) - FreeNear(e, k) <= FreeTotal(d) - FreeTotal(e)
  {
    hide Used, GroupFree, IsMeta;
    GroupDrop(d, e, 0, 16);
    if IsInode(k) { GroupDrop(d, e, InodeGroup(k), 16); }
  }

  lemma CountsTrans(a: seq<GroupDesc>, b: seq<GroupDesc>, c: seq<GroupDesc>, k: nat, p: nat)
    requires OnlyCounts(a, b) && IsInode(k) && IsInode(p) && InodeCountsKept(b, c, k, p)
    ensures InodeCountsKept(a, c, k, p)
  {
  }

  lemma UnusedIsNew(fs: Volume, k: nat)
    requires Valid(fs) && IsInode(k) && !InodeUsed(fs.blocks, k)
    ensures k !in fs.nodes && k !in fs.dirs
  {
    hide InodeUsed, InodeAt, SpaceOk, Owned, Contents, NoDangling, ListedOnce, DotDots, Rooted, DirShape;
  }

  lemma MatchesKind(r: Rec, name: seq<byte>, directory: bool)
    requires Matches(r, name, directory)
    ensures (r.kind == 2) == directory
  {
  }

  /** The tests of `write` before it touches the disk pass. */
  ghost predicate Reaches(fs: Volume, parent: nat, name: seq<byte>, size: u32)
    reads fs
  {
    && name != [] && parent in fs.dirs && FreeTotal(fs.blocks) >= BlocksFor(size) && |fs.bgdt| == 16 &&
       !NoInode(fs.blocks, fs.bgdt)
  }

  /** Where `write` gets as far as listing the name, there is room to go through with it. */
  ghost predicate Safe(fs: Volume, parent: nat, name: seq<byte>, directory: bool, size: u32)
    reads fs
  {
    Reaches(fs, parent, name, size) && parent in fs.trees && |fs.dirs[parent]| > 0 ==>
      RoomToLink(fs.blocks, fs.dirs[parent], fs.trees[parent], name, directory)
  }

  /**
    write.  -1: empty name, not enough free blocks for the data alone, or no inode; 2: the parent is no directory; 1: a
    file of this name existed and was replaced, or a directory existed, or the name could not be listed; 0: a new file
    or directory.  The result is a file system exactly when the call was safe; otherwise it is none under any reading,
    and the code is 0 for a directory, 1 for a file.  When blocks run short after the check, only a prefix is stored and
    the code is the same (see `StoredAs` and `SpaceLaw`).
   */
  method Write(fs: Volume, parent: nat, name: seq<byte>, directory: bool, buf: seq<byte>, size: u32)
      returns (code: int, ghost k: nat)
    requires Valid(fs) && parent in fs.nodes && |name| <= 255 && !(name == DOT && directory)
    requires !directory ==> |buf| >= 512 * BlocksFor(size)
    requires !directory && !Safe(fs, parent, name, directory, size) ==>
      forall j :: NextInode(fs.blocks, fs.bgdt, j) ==> Tame(fs.blocks, InodeAt(fs.blocks, j))
    modifies fs
    ensures if old(Safe(fs, parent, name, directory, size)) then Valid(fs) else Broken(fs.blocks)
    ensures Broken(fs.blocks) ==> !Valid(fs)
    ensures code == if name == [] then -1 else if parent !in old(fs.dirs) then 2
                    else if old(!Reaches(fs, parent, name, size)) then -1
                    else if |old(fs.dirs)[parent]| > 0 &&
                            Linkable(old(fs.blocks), old(fs.dirs)[parent], name, directory) then 0 else 1
    ensures old(Reaches(fs, parent, name, size)) ==>
      (code == 0 <==> old(Listable(fs.blocks, fs.dirs, parent, name, directory)))
    ensures code < 0 || code == 2 || (code == 1 && directory) ==> Unchanged(fs)
    ensures code == 0 ==> NextInode(old(fs.blocks), old(fs.bgdt), k)
    ensures Valid(fs) && code == 0 ==> HasMode(fs.nodes, k, directory)
    ensures Valid(fs) && code == 0 ==>
      Created(fs, old(fs.blocks), old(fs.nodes), old(fs.trees), old(fs.dirs), old(fs.up), parent, name, directory, k)
    ensures Valid(fs) && code == 0 && !directory ==>
      StoredAs(fs, k, buf, size, AfterListing(old(fs.blocks), old(fs.dirs), old(fs.trees), parent, name))
    ensures Valid(fs) && code == 1 && !directory ==>
      LooksUp(old(fs.dirs)[parent], name, directory, k) &&
      Replaced(fs, old(fs.blocks), old(fs.nodes), old(fs.trees), old(fs.dirs), old(fs.up), k)
    ensures Valid(fs) && code == 1 && !directory ==>
      StoredAs(fs, k, buf, size, FreeTotal(old(fs.blocks)) + SpaceOf(old(fs.trees), k))
    ensures TableCurrent(fs.blocks, fs.bgdt) <==>
      code == 0 || (code == 1 && !directory) || old(TableCurrent(fs.blocks, fs.bgdt))
    ensures code == 0 ==> IsInode(parent) && InodeCountsKept(old(fs.bgdt), fs.bgdt, k, parent)
    ensures Valid(fs) && code == 0 ==>
      Settled(fs, old(fs.blocks), old(fs.trees), parent, directory, k,
              FreeTotal(old(fs.blocks)) - AfterListing(old(fs.blocks), old(fs.dirs), old(fs.trees), parent, name))
    ensures Valid(fs) && code == 1 && !directory ==>
      k in fs.trees && Home(fs.trees[k], GroupOf(parent), FreeNear(old(fs.blocks), parent))
    ensures code == 0 ==> SlotsKept(old(fs.blocks), fs.blocks, {k, parent})
  {
    hide IsMeta, Used, FreeTotal, Owned, SpaceOk, Chain, InodeAt, InodeUsed, Tidy, FileBlocks, TableCurrent, StoredAs,
      Layout, Absent, Synced, Contents, Matches, TreeOk, DirShape, Created, Replaced, LooksUp, BlocksFor, RoomToLink,
      AfterListing, SpaceOf, Linkable, NoInode, Tame, Broken, InodeCountsKept, SlotsKept,
      Home, FreeNear, GroupOf, Settled, Listable, HasMode;
    k := 0;
    if Broken(fs.blocks) { BrokenInvalid(fs); }
    if name == [] {
      return -1, k;
    }
    ValidDir(fs, parent);
    SpaceSize(fs.blocks, fs.bgdt, fs.sb, fs.account);
    var pnode := ReadInode(fs, parent);
    if FileType(pnode.mode) != MODE_DIR {
      return 2, k;
    }
    FirstIsDot(parent, fs.dirs[parent], name, directory);
    var exist := ExistFreeBlocks(fs, BlocksFor(size));
    if !exist {
      return -1, k;
    }
    var unused := AllocateNode(fs);
    if unused == 0 {
      return -1, k;
    }
    StuckUnsafe(fs, parent, name, directory, size);
    UnusedIsNew(fs, unused);
    LinkableIs(fs.blocks, fs.dirs, parent, name, directory);
    code, k := WriteLinked(fs, parent, pnode, unused, name, directory, buf, size);
    if Broken(fs.blocks) { BrokenInvalid(fs); }
    if Valid(fs) && code == 0 {
      NewMode(fs, old(fs.blocks), old(fs.nodes), old(fs.trees), old(fs.dirs), old(fs.up), parent, name, directory, k);
    }
  }

  lemma NewMode(fs: Volume, d: Disk, nodes: map<nat, Inode>, trees: map<nat, Tree>, dirs: map<nat, seq<Rec>>,
                up: map<nat, nat>, parent: nat, name: seq<byte>, directory: bool, k: nat)
    requires parent in dirs && |dirs[parent]| > 0 && parent in trees && parent in nodes
    requires Valid(fs) && k !in dirs && Created(fs, d, nodes, trees, dirs, up, parent, name, directory, k)
    ensures HasMode(fs.nodes, k, directory)
  {
    hide Owned, Synced, Contents, SpaceOk, DirShape, NoDangling, ListedOnce, DotDots, Rooted, Fits, SameFiles;
  }

  /** Whether a new name can be listed, in bytes. */
  lemma LinkableIs(d: Disk, dirs: map<nat, seq<Rec>>, p: nat, name: seq<byte>, directory: bool)
    requires p in dirs && |dirs[p]| > 0
    ensures Linkable(d, dirs[p], name, directory) <==> Listable(d, dirs, p, name, directory)
  {
    hide Absent, EntryLen, FreeTotal;
  }

  lemma StuckUnsafe(fs: Volume, parent: nat, name: seq<byte>, directory: bool, size: u32)
    requires Reaches(fs, parent, name, size) && parent in fs.trees && |fs.dirs[parent]| > 0
    ensures Safe(fs, parent, name, directory, size) <==>
            RoomToLink(fs.blocks, fs.dirs[parent], fs.trees[parent], name, directory)
    ensures !directory && Absent(fs.dirs[parent], name, directory) && Stuck(fs.blocks, fs.dirs[parent], name) ==>
      !Safe(fs, parent, name, directory, size)
  {
    hide FreeTotal, Absent, NoInode, BlocksFor, Stuck;
  }
}
