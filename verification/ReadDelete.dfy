/** Reading, deleting, and the laws tying them to writing. */
module ReadDelete {
  import opened Bytes
  import opened Geometry
  import opened Inodes
  import opened Space
  import opened BlockTree
  import opened Ownership
  import opened DirRecords
  import opened Volumes
  import opened Allocation
  import opened Loading
  import opened InodeTable
  import opened Directory
  import opened Deallocation
  import opened Metadata
  import opened Invariant
  import opened Corruption
  import opened FileSystem

  /** The record a key leads to in a directory with unique keys. */
  lemma OneMatch(recs: seq<Rec>, name: seq<byte>, directory: bool, i: nat, j: nat)
    requires KeysUnique(recs) && i < |recs| && j < |recs|
    requires Matches(recs[i], name, directory) && Matches(recs[j], name, directory)
    ensures i == j
  {
  }

  /** Codes of `read`, first failing test first. */
  ghost function ReadCode(fs: Volume, parent: nat, name: seq<byte>, directory: bool, size: nat, k: nat): (code: int)
    reads fs
  {
    if name == [] then -1 else if directory then 1
    else if parent !in fs.dirs then 4
    else if Absent(fs.dirs[parent], name, false) then 3
    else if k in fs.nodes && fs.nodes[k].size > size then 2
    else 0
  }

  /** The buffer starts with the data of inode k, and is otherwise as it was. */
  ghost predicate LoadedFile(fs: Volume, k: nat, before: seq<byte>, after: seq<byte>)
    reads fs
  {
    && k in fs.trees && |before| == |after|
    && Loaded(fs.blocks, fs.trees[k].data, after, 0, 512 * |fs.trees[k].data|)
    && forall j :: 512 * |fs.trees[k].data| <= j < |after| ==> after[j] == before[j]
  }

  /** read: load the file a name leads to, whole, if the buffer holds it; otherwise touch nothing. */
  method Read(fs: Volume, parent: nat, name: seq<byte>, directory: bool, buf: array<byte>, size: nat)
      returns (code: int, ghost k: nat)
    requires Valid(fs) && parent in fs.nodes && size <= buf.Length
    modifies buf
    ensures code == ReadCode(fs, parent, name, directory, size, k)
    ensures code == 0 || code == 2 ==>
      parent in fs.dirs && LooksUp(fs.dirs[parent], name, false, k) && k in fs.nodes && k !in fs.dirs
    ensures -1 <= code <= 4 && (code == -1 <==> name == []) && (code == 1 <==> name != [] && directory)
    ensures code == 4 <==> name != [] && !directory && parent !in fs.dirs
    ensures code == 3 <==> name != [] && !directory && parent in fs.dirs && Absent(fs.dirs[parent], name, false)
    ensures (code == 2 ==> fs.nodes[k].size > size) && (code == 0 ==> fs.nodes[k].size <= size)
    ensures code == 0 ==> LoadedFile(fs, k, old(buf[..]), buf[..])
    ensures code != 0 ==> buf[..] == old(buf[..])
  {
    hide IsMeta, Used, FreeTotal, Owned, SpaceOk, Chain, InodeAt, InodeUsed, Tidy, FileBlocks, Layout,
      Absent, Synced, Contents, Matches, TreeOk, DirShape, Loaded;
    k := 0;
    if name == [] {
      return -1, k;
    }
    if directory {
      return 1, k;
    }
    ValidDir(fs, parent);
    var node := ReadInode(fs, parent);
    if FileType(node.mode) != MODE_DIR {
      return 4, k;
    }
    var found, ino, kind, at := FindEntry(fs, node, name, false, fs.trees[parent], fs.dirs[parent]);
    if !found {
      return 3, k;
    }
    EntryLeads(fs, parent, at);
    MatchesKind(fs.dirs[parent][at], name, false);
    if kind != KIND_FILE {
      return 1, k;
    }
    k := ino;
    ValidDir(fs, k);
    node := ReadInode(fs, ino);
    LayoutSize(fs.blocks, node, fs.trees[k]);
    if node.size > size {
      return 2, k;
    }
    LoadInodeData(fs, node, buf, size, fs.trees[k]);
    code := 0;
  }

  lemma LayoutSize(d: Disk, node: Inode, t: Tree)
    requires Layout(d, node, t)
    ensures node.size == 512 * |t.data|
  {
  }

  /** What was stored and then loaded is what was stored. */
  lemma ReadBack(d: Disk, data: seq<nat>, src: seq<byte>, s: seq<byte>)
    requires Holds(d, data, src) && Loaded(d, data, s, 0, 512 * |data|)
    ensures 512 * |data| <= |src| && 512 * |data| <= |s|
    ensures s[..512 * |data|] == src[..512 * |data|]
  {
    forall j: nat | j < 512 * |data|
      ensures s[j] == src[j]
    {
      assert s[0 + j] == ByteOf(d, data, j);
      var i := j / 512;
      assert d[data[i]] == Chunk(src, i);
      assert Chunk(src, i)[j % 512] == src[512 * i + j % 512];
    }
  }

  lemma SameInode(recs: seq<Rec>, name: seq<byte>, directory: bool, j: nat, k: nat)
    requires KeysUnique(recs) && LooksUp(recs, name, directory, j) && LooksUp(recs, name, directory, k)
    ensures j == k
  {
    var a :| 0 <= a < |recs| && Matches(recs[a], name, directory) && recs[a].ino == j;
    var b :| 0 <= b < |recs| && Matches(recs[b], name, directory) && recs[b].ino == k;
    OneMatch(recs, name, directory, a, b);
  }

  lemma LooksUpNew(recs: seq<Rec>, k: nat, kind: nat, name: seq<byte>)
    requires |recs| > 0
    ensures LooksUp(recs + [NewRec(recs, k, kind, name)], name, kind == 2, k)
  {
    assert (recs + [NewRec(recs, k, kind, name)])[|recs|] == NewRec(recs, k, kind, name);
  }

  lemma LooksUpPresent(recs: seq<Rec>, name: seq<byte>, directory: bool, k: nat)
    requires LooksUp(recs, name, directory, k)
    ensures !Absent(recs, name, directory)
  {
  }

  lemma ValidKeys(fs: Volume, p: nat)
    requires Valid(fs) && p in fs.dirs
    ensures KeysUnique(fs.dirs[p]) && p in fs.nodes && |fs.dirs[p]| >= 2
  {
  }

  /** The first n bytes agree. */
  predicate Agree(a: seq<byte>, b: seq<byte>, n: nat)
  {
    n <= |a| && n <= |b| && a[..n] == b[..n]
  }

  /**
    The law of the file system: a write of a file, new or replaced, followed by a read of the same name
    into a large enough buffer, gives back the blocks written; all of them exactly when the write
    found three more blocks free than the data and the pointers before its last block need.
   */
  method WriteThenRead(fs: Volume, parent: nat, name: seq<byte>, src: seq<byte>, size: u32, buf: array<byte>)
      returns (code: int, ghost k: nat)
    requires Valid(fs) && parent in fs.nodes && |name| <= 255
    requires |src| >= 512 * BlocksFor(size) && buf.Length >= 512 * BlocksFor(size)
    requires Safe(fs, parent, name, false, size)
    modifies fs, buf
    ensures Valid(fs)
    ensures code == 0 || code == 1 ==> k in fs.trees && Agree(src, buf[..], 512 * |fs.trees[k].data|)
    ensures code == 0 ==>
      (|fs.trees[k].data| == BlocksFor(size) <==>
       EnoughFor(AfterListing(old(fs.blocks), old(fs.dirs), old(fs.trees), parent, name), BlocksFor(size)))
    ensures code == 1 ==>
      (|fs.trees[k].data| == BlocksFor(size) <==>
       EnoughFor(FreeTotal(old(fs.blocks)) + SpaceOf(old(fs.trees), k), BlocksFor(size)))
    ensures (code == 0 || code == 1) && size <= 0xFFFF_FE00 ==>
      forall n: nat :: Covers(n, size) ==>
        var free := if code == 0 then AfterListing(old(fs.blocks), old(fs.dirs), old(fs.trees), parent, name)
                    else FreeTotal(old(fs.blocks)) + SpaceOf(old(fs.trees), k);
        var stored := 512 * |fs.trees[k].data|;
        if EnoughFor(free, n) then size <= stored < size + 512 && Agree(src, buf[..], size) else stored < size
  {
    hide IsMeta, Used, FreeTotal, Owned, SpaceOk, Chain, InodeAt, InodeUsed, Tidy, FileBlocks, Layout, Contents,
      Absent, Synced, Matches, TreeOk, DirShape, Loaded, Holds, BlocksFor, Safe, Broken, TableCurrent, AfterListing,
      SpaceOf, LooksUp, SameFiles, KeysUnique, Fits;
    ghost var dirs := fs.dirs;
    if parent in fs.dirs { ValidKeys(fs, parent); }
    ghost var afterwards, reuse := AfterListing(fs.blocks, fs.dirs, fs.trees, parent, name), FreeTotal(fs.blocks);
    ghost var trees := fs.trees;
    code, k := Write(fs, parent, name, false, src, size);
    ghost var free := if code == 0 then afterwards else reuse + SpaceOf(trees, k);
    if code != 0 && code != 1 {
      return;
    }
    if code == 0 {
      LooksUpNew(dirs[parent], k, 1, name);
    }
    ValidKeys(fs, parent);
    LooksUpPresent(fs.dirs[parent], name, false, k);
    ghost var n := |fs.trees[k].data|;
    AllStored(fs, k, src, size, free);
    ValidNode(fs, k);
    var rcode;
    ghost var r;
    rcode, r := Read(fs, parent, name, false, buf, 512 * BlocksFor(size));
    if rcode == 0 || rcode == 2 {
      SameInode(fs.dirs[parent], name, false, r, k);
    }
    assert rcode == 0;
    ReadBack(fs.blocks, fs.trees[k].data, src, buf[..]);
    if size <= 0xFFFF_FE00 {
      CoversIs(size);
      WholeFile(src, buf[..], size, |fs.trees[k].data|, free);
    }
  }

  lemma WholeFile(a: seq<byte>, b: seq<byte>, size: u32, stored: nat, free: int)
    requires size <= 0xFFFF_FE00 && stored <= BlocksFor(size) && Agree(a, b, 512 * stored)
    requires stored == BlocksFor(size) <==> EnoughFor(free, BlocksFor(size))
    ensures if EnoughFor(free, BlocksFor(size)) then size <= 512 * stored < size + 512 && Agree(a, b, size)
            else 512 * stored < size
  {
    if stored == BlocksFor(size) {
      assert a[..size] == a[..512 * stored][..size] == b[..size];
    }
  }

  /** This many blocks hold the bytes, and one less would not. */
  predicate Covers(n: nat, size: u32)
  {
    512 * (n - 1) < size <= 512 * n
  }

  lemma CoversIs(size: u32)
    requires size <= 0xFFFF_FE00
    ensures forall n: nat :: Covers(n, size) <==> n == BlocksFor(size)
  {
  }

  /** Free blocks that let all n be stored (see `SpaceLaw`). */
  predicate EnoughFor(free: int, n: nat)
  {
    n == 0 || free >= n + 3 + PtrCount(n - 1)
  }

  lemma AllStored(fs: Volume, k: nat, src: seq<byte>, size: u32, before: int)
    requires StoredAs(fs, k, src, size, before)
    ensures |fs.trees[k].data| <= BlocksFor(size)
    ensures |fs.trees[k].data| == BlocksFor(size) <==> EnoughFor(before, BlocksFor(size))
  {
    hide Holds, FreeTotal, BlocksFor, PtrCount;
    var n := BlocksFor(size);
    if n > 0 {
      SpaceLaw(before, FreeTotal(fs.blocks), n, |fs.trees[k].data|, n);
    }
  }

  lemma ValidNode(fs: Volume, k: nat)
    requires Valid(fs) && k in fs.nodes
    ensures k in fs.trees && fs.nodes[k].size == 512 * |fs.trees[k].data|
  {
  }

  /** What deleting record `at` of the parent leaves behind. */
  ghost predicate Removed(fs: Volume, d: Disk, nodes: map<nat, Inode>, trees: map<nat, Tree>, dirs: map<nat, seq<Rec>>,
                          up: map<nat, nat>, parent: nat, at: nat, k: nat)
    reads fs
  {
    && parent in dirs && 2 <= at < |dirs[parent]| && k == dirs[parent][at].ino && k != parent
    && fs.dirs == TakeFrom(dirs, parent, at)
    && fs.nodes == nodes - {k} && fs.trees == trees - {k} && fs.up == up - {k}
    && SameFiles(d, fs.blocks, trees, {parent, k})
    && FreeTotal(fs.blocks) == FreeTotal(d) + SpaceOf(trees, k)
  }

  /** The record a deletion would take, and what its test for children says. */
  ghost predicate Deletable(dirs: map<nat, seq<Rec>>, p: nat, at: nat)
    requires p in dirs && at < |dirs[p]|
  {
    dirs[p][at].kind == 2 && dirs[p][at].ino in dirs ==> |dirs[dirs[p][at].ino]| == 2
  }

  lemma SecondIsDotDot(k: nat, recs: seq<Rec>, name: seq<byte>, directory: bool)
    requires DirShape(k, recs) && !(directory && (name == DOT || name == DOTDOT))
    ensures |recs| >= 2 && !Matches(recs[0], name, directory) && !Matches(recs[1], name, directory)
  {
  }

  lemma ChildDirs(fs: Volume, p: nat)
    requires Valid(fs) && p in fs.dirs
    ensures forall i :: 2 <= i < |fs.dirs[p]| && fs.dirs[p][i].kind == 2 ==> DirInode(fs, fs.dirs[p][i].ino)
  {
    hide IsMeta, Used, Layout, Chain, FileBlocks, TreeOk, InodeAt, InodeUsed, DirShape, DirOn;
    forall i | 2 <= i < |fs.dirs[p]| && fs.dirs[p][i].kind == 2
      ensures DirInode(fs, fs.dirs[p][i].ino)
    {
      EntryLeads(fs, p, i);
      var k := fs.dirs[p][i].ino;
      ValidDir(fs, k);
      ShapeStart(k, fs.dirs[k]);
    }
  }

  lemma ShapeStart(k: nat, recs: seq<Rec>)
    requires DirShape(k, recs)
    ensures |recs| >= 2 && recs[1].pos == 12
  {
  }

  /** After the record is gone and the inode deallocated, the file system is valid again. */
  lemma AfterDelete(d: Disk, nodes: map<nat, Inode>, trees: map<nat, Tree>, owner: map<nat, nat>,
                    dirs: map<nat, seq<Rec>>, up: map<nat, nat>, e: Disk, f: Disk, p: nat, at: nat, k: nat)
    requires p in dirs && p in trees && p in nodes && 2 <= at < |dirs[p]| && k == dirs[p][at].ino
    requires Owned(d, nodes, trees, owner) && Synced(d, nodes) && Contents(d, trees, dirs) && Tidy(nodes, dirs, up)
    requires Deletable(dirs, p, at)
    requires OthersKept(d, e, trees[p]) && Chain(FileBlocks(e, trees[p].data), Without(dirs[p], at))
    requires forall c: nat :: IsData(c) ==> f[c] == e[c]
    requires forall j: nat :: IsInode(j) ==>
      InodeAt(f, j) == InodeAt(e, j) && InodeUsed(f, j) == (j != k && InodeUsed(e, j))
    ensures k != p && k in nodes
    ensures Synced(f, nodes - {k}) && Contents(f, trees - {k}, TakeFrom(dirs, p, at))
    ensures Tidy(nodes - {k}, TakeFrom(dirs, p, at), up - {k})
    ensures SameFiles(d, f, trees, {p, k})
  {
    hide IsMeta, Used, FreeTotal, Owned, Chain, InodeAt, InodeUsed, FileBlocks, DirShape, TreeOk, Layout, Tidy,
      SameFiles, OthersKept, Lists, ListedBy, Contents;
    DeletableRemovable(nodes, dirs, up, p, at);
    RemovableAlone(nodes, dirs, up, p, at);
    TidyRemove(nodes, dirs, up, p, at);
    OtherFiles(d, nodes, trees, owner, p, e);
    OthersMeta(d, e, trees[p]);
    forall j: nat | IsInode(j)
      ensures InodeAt(e, j) == InodeAt(d, j) && InodeUsed(e, j) == InodeUsed(d, j)
    {
      InodesKept(d, e, j);
    }
    OwnedTreeAt(d, nodes, trees, owner, p);
    DataSameBlocks(e, f, trees[p]);
    forall j | j in trees
      ensures TreeOk(trees[j])
    {
      OwnedKeys(d, nodes, trees, owner);
      OwnedTreeAt(d, nodes, trees, owner, j);
    }
    AllSame(d, e, f, trees, p);
    DeletedContents(d, f, trees, dirs, p, at);
  }

  lemma DeletableRemovable(nodes: map<nat, Inode>, dirs: map<nat, seq<Rec>>, up: map<nat, nat>, p: nat, at: nat)
    requires Tidy(nodes, dirs, up) && p in dirs && 2 <= at < |dirs[p]| && Deletable(dirs, p, at)
    ensures Removable(dirs, p, at)
  {
    assert EntriesOk(nodes, dirs, dirs[p]);
    assert EntryOk(nodes, dirs, dirs[p][at]);
  }

  lemma OthersMeta(d: Disk, e: Disk, t: Tree)
    requires OthersKept(d, e, t)
    ensures forall c: nat :: c < 8192 && IsMeta(c) && !IsBlockBitmap(c) ==> e[c] == d[c]
  {
  }

  lemma DataSameBlocks(d: Disk, e: Disk, t: Tree)
    requires TreeOk(t) && forall c: nat :: IsData(c) ==> e[c] == d[c]
    ensures SameFile(d, e, t)
  {
    forall i | 0 <= i < |t.data|
      ensures FileBlocks(e, t.data)[i] == FileBlocks(d, t.data)[i]
    {
      assert InTree(t, t.data[i]);
    }
  }

  lemma AllSame(d: Disk, e: Disk, f: Disk, trees: map<nat, Tree>, p: nat)
    requires SameFiles(d, e, trees, {p}) && forall c: nat :: IsData(c) ==> f[c] == e[c]
    requires forall j :: j in trees ==> TreeOk(trees[j])
    ensures SameFiles(d, f, trees, {p})
  {
    hide FileBlocks, TreeOk, IsMeta;
    forall j | j in trees && j != p
      ensures SameFile(d, f, trees[j])
    {
      assert SameFile(d, e, trees[j]);
      DataSameBlocks(e, f, trees[j]);
    }
  }

  lemma DeletedContents(d: Disk, f: Disk, trees: map<nat, Tree>, dirs: map<nat, seq<Rec>>, p: nat, at: nat)
    requires Contents(d, trees, dirs) && SameFiles(d, f, trees, {p}) && p in dirs && p in trees && at < |dirs[p]|
    requires Chain(FileBlocks(f, trees[p].data), Without(dirs[p], at))
    ensures Contents(f, trees - {dirs[p][at].ino}, TakeFrom(dirs, p, at))
    ensures SameFiles(d, f, trees, {p, dirs[p][at].ino})
  {
    hide FileBlocks, Chain;
    forall j | j in dirs && j != p
      ensures Chain(FileBlocks(f, trees[j].data), dirs[j])
    {
      assert SameFile(d, f, trees[j]);
    }
  }

  /** Unlinking record `at` of p works on this disk. */
  ghost predicate Unlinking(d: Disk, trees: map<nat, Tree>, dirs: map<nat, seq<Rec>>, p: nat, at: nat)
  {
    p in trees && p in dirs && Unlinks(FileBlocks(d, trees[p].data), dirs[p], at)
  }

  /**
    delete, for a name other than the dots: -1 for an empty name, 3 if the parent is no directory, 1 if the search sees
    no such name, which it does not if the record is the last of a block other than the last, 2 for a directory with
    children, else 0. After a deletion the disk is a file system exactly if unlinking the record works, and otherwise
    under no reading.
   */
  method Delete(fs: Volume, parent: nat, name: seq<byte>, directory: bool)
      returns (code: int, ghost k: nat, ghost at: nat)
    requires Valid(fs) && parent in fs.nodes
    requires !(directory && (name == DOT || name == DOTDOT))
    modifies fs
    ensures code == if name == [] then -1 else if parent !in old(fs.dirs) then 3
                    else if Overlooked(old(fs.dirs)[parent], name, directory) then 1
                    else if at < |old(fs.dirs)[parent]| && Deletable(old(fs.dirs), parent, at) then 0 else 2
    ensures code == 0 || code == 2 ==>
      2 <= at < |old(fs.dirs)[parent]| && Matches(old(fs.dirs)[parent][at], name, directory) &&
      !Skipped(old(fs.dirs)[parent], at)
    ensures code == 0 || code == 2 ==>
      var dirs := old(fs.dirs);
      code == 2 <==> dirs[parent][at].kind == 2 && dirs[parent][at].ino in dirs && |dirs[dirs[parent][at].ino]| != 2
    ensures name != [] && parent in old(fs.dirs) ==>
      var recs := old(fs.dirs)[parent];
      code == 1 <==> forall i: nat :: i < |recs| && Matches(recs[i], name, directory) ==>
        i + 1 < |recs| && recs[i + 1].pos / 512 != recs[i].pos / 512
    ensures code != 0 ==> Valid(fs) && Unchanged(fs)
    ensures code == 0 ==>
      if Unlinking(old(fs.blocks), old(fs.trees), old(fs.dirs), parent, at) then Valid(fs) else Broken(fs.blocks)
    ensures Broken(fs.blocks) ==> !Valid(fs)
    ensures code == 0 && Unlinking(old(fs.blocks), old(fs.trees), old(fs.dirs), parent, at) ==>
      Removed(fs, old(fs.blocks), old(fs.nodes), old(fs.trees), old(fs.dirs), old(fs.up), parent, at, k)
    ensures TableCurrent(fs.blocks, fs.bgdt) <==> code == 0 || old(TableCurrent(fs.blocks, fs.bgdt))
  {
    hide IsMeta, Used, FreeTotal, Owned, SpaceOk, Chain, InodeAt, InodeUsed, Tidy, FileBlocks, TableCurrent, Layout,
      PtrCount, Absent, Synced, Contents, Matches, TreeOk, DirShape, DirInode, Deallocated, OthersKept, SameFiles,
      TakeFrom, HeadersOnly, Overlooked, Unlinks, NoChain, Broken, Skipped, Deletable;
    k, at := 0, 0;
    if Broken(fs.blocks) { BrokenInvalid(fs); }
    if name == [] {
      return -1, k, at;
    }
    ghost var d, nodes, trees, owner, dirs, up := fs.blocks, fs.nodes, fs.trees, fs.owner, fs.dirs, fs.up;
    ValidDir(fs, parent);
    var pnode := ReadInode(fs, parent);
    DirBit(fs, parent);
    var mode: int := pnode.mode;
    if (mode / 0x4000) % 2 == 0 {
      return 3, k, at;
    }
    SecondIsDotDot(parent, dirs[parent], name, directory);
    ShapeStart(parent, dirs[parent]);
    ChildDirs(fs, parent);
    var deleted;
    OverlookedIs(dirs[parent], name, directory);
    code, deleted, at := DeleteEntry(fs, parent, pnode, name, directory, dirs[parent]);
    if code != 1 { DeletableCode(dirs, parent, at); }
    if code != 0 {
      return;
    }
    k := deleted;
    ghost var e := fs.blocks;
    EntryBefore(d, nodes, trees, owner, dirs, up, parent, at, e);
    OwnedKeys(d, nodes, trees, owner);
    DeallocateNode(fs, deleted);
    ghost var f := fs.blocks;
    DeleteSynced(d, nodes, trees, dirs, up, e, f, parent, at, k);
    if Unlinks(FileBlocks(d, trees[parent].data), dirs[parent], at) {
      AfterDelete(d, nodes, trees, owner, dirs, up, e, f, parent, at, k);
      fs.dirs, fs.up := TakeFrom(dirs, parent, at), up - {k};
    }
    FlushHeaders(fs);
    if Unlinks(FileBlocks(d, trees[parent].data), dirs[parent], at) {
      FlushedValid(fs, d, f, trees, parent, k);
      BrokenInvalidIf(fs);
    } else {
      FlushedBroken(e, f, fs.blocks, fs.nodes, fs.trees, fs.owner, parent);
      BrokenInvalid(fs);
    }
  }

  lemma BrokenInvalidIf(fs: Volume)
    ensures Broken(fs.blocks) ==> !Valid(fs)
  {
    hide Broken, Valid;
    if Broken(fs.blocks) { BrokenInvalid(fs); }
  }

  lemma OverlookedIs(recs: seq<Rec>, name: seq<byte>, directory: bool)
    ensures Overlooked(recs, name, directory) <==>
      forall i: nat :: i < |recs| && Matches(recs[i], name, directory) ==>
        i + 1 < |recs| && recs[i + 1].pos / 512 != recs[i].pos / 512
  {
    hide Matches;
  }

  lemma DeletableCode(dirs: map<nat, seq<Rec>>, p: nat, at: nat)
    requires p in dirs && at < |dirs[p]|
    ensures Deletable(dirs, p, at) <==>
      !(dirs[p][at].kind == 2 && dirs[p][at].ino in dirs && |dirs[dirs[p][at].ino]| != 2)
  {
  }

  /** Bits and slots after a deletion, whatever became of the parent's records. */
  lemma DeleteSynced(d: Disk, nodes: map<nat, Inode>, trees: map<nat, Tree>, dirs: map<nat, seq<Rec>>,
                     up: map<nat, nat>, e: Disk, f: Disk, p: nat, at: nat, k: nat)
    requires p in dirs && p in trees && p in nodes && 2 <= at < |dirs[p]| && k == dirs[p][at].ino
    requires Synced(d, nodes) && Tidy(nodes, dirs, up) && Deletable(dirs, p, at) && OthersKept(d, e, trees[p])
    requires forall j: nat :: IsInode(j) ==>
      InodeAt(f, j) == InodeAt(e, j) && InodeUsed(f, j) == (j != k && InodeUsed(e, j))
    ensures k != p && k in nodes && nodes[p].mode == MODE_DIR && Synced(f, nodes - {k})
  {
    hide IsMeta, Used, InodeAt, InodeUsed, DirShape, Tidy, Lists, ListedBy, OthersKept;
    DeletableRemovable(nodes, dirs, up, p, at);
    RemovableAlone(nodes, dirs, up, p, at);
    TidyMode(nodes, dirs, up, p);
    OthersMeta(d, e, trees[p]);
    forall j: nat | IsInode(j)
      ensures InodeAt(e, j) == InodeAt(d, j) && InodeUsed(e, j) == InodeUsed(d, j)
    {
      InodesKept(d, e, j);
    }
  }

  lemma FlushedBroken(e: Disk, f: Disk, g: Disk, nodes: map<nat, Inode>, trees: map<nat, Tree>, owner: map<nat, nat>,
                      p: nat)
    requires Owned(f, nodes, trees, owner) && Synced(f, nodes) && p in nodes && p in trees && nodes[p].mode == MODE_DIR
    requires NoChain(FileBlocks(e, trees[p].data)) && HeadersOnly(f, g) && forall c: nat :: IsData(c) ==> f[c] == e[c]
    ensures Broken(g)
  {
    hide IsMeta, Used, InodeAt, InodeUsed, Owned, FileBlocks, NoChain, Broken;
    HeadersHarmless(f, g);
    MetaKeepsOwned(f, g, nodes, trees, owner);
    OwnedTreeAt(g, nodes, trees, owner, p);
    DataSameBlocks(e, g, trees[p]);
    NoChainBroken(g, nodes, trees, owner, p);
  }

  lemma DirBit(fs: Volume, k: nat)
    requires Valid(fs) && k in fs.nodes
    ensures var mode: int := fs.nodes[k].mode; (mode / 0x4000) % 2 == 0 <==> k !in fs.dirs
  {
    hide DirShape, Owned, Synced, Contents, NoDangling, ListedOnce, DotDots;
  }

  /** Between unlinking and deallocating, the doomed inode is still the one on disk. */
  lemma EntryBefore(d: Disk, nodes: map<nat, Inode>, trees: map<nat, Tree>, owner: map<nat, nat>,
                    dirs: map<nat, seq<Rec>>, up: map<nat, nat>, p: nat, at: nat, e: Disk)
    requires p in dirs && p in trees && at < |dirs[p]| && Synced(d, nodes) && Tidy(nodes, dirs, up)
    requires OthersKept(d, e, trees[p])
    ensures var k := dirs[p][at].ino; k in nodes && IsInode(k) && nodes[k] == InodeAt(e, k)
  {
    hide DirShape, InodeAt, InodeUsed, IsMeta, Used;
    assert EntriesOk(nodes, dirs, dirs[p]);
    assert EntryOk(nodes, dirs, dirs[p][at]);
    InodesKept(d, e, dirs[p][at].ino);
  }

  /** Writing the headers changes no file and no inode. */
  lemma FlushedValid(fs: Volume, d: Disk, f: Disk, trees: map<nat, Tree>, p: nat, k: nat)
    requires fs.SpaceValid() && fs.account == Exact(fs.lead, fs.mark) && Owned(f, fs.nodes, fs.trees, fs.owner)
    requires HeadersOnly(f, fs.blocks) && Synced(f, fs.nodes) && Contents(f, fs.trees, fs.dirs)
    requires Tidy(fs.nodes, fs.dirs, fs.up)
    requires SameFiles(d, f, trees, {p, k})
    requires forall j :: j in trees && j != p && j != k ==> j in fs.trees && fs.trees[j] == trees[j]
    ensures Valid(fs) && SameFiles(d, fs.blocks, trees, {p, k})
  {
    hide IsMeta, Used, FreeTotal, SpaceOk, Chain, InodeAt, InodeUsed, FileBlocks, DirShape, TreeOk, Layout, Tidy, Owned;
    HeadersHarmless(f, fs.blocks);
    MetaKeepsOwned(f, fs.blocks, fs.nodes, fs.trees, fs.owner);
    OwnedKeys(fs.blocks, fs.nodes, fs.trees, fs.owner);
    forall j | j in fs.trees
      ensures SameFile(f, fs.blocks, fs.trees[j])
    {
      OwnedTreeAt(fs.blocks, fs.nodes, fs.trees, fs.owner, j);
      DataSameBlocks(f, fs.blocks, fs.trees[j]);
    }
    SameContents(f, fs.blocks, fs.trees, fs.trees, fs.dirs, {});
    forall j | j in trees && j != p && j != k
      ensures SameFile(d, fs.blocks, trees[j])
    {
      assert SameFile(d, f, trees[j]);
    }
  }

  /**
    In a valid file system every allocatable block in use belongs to exactly one inode's tree, and no unused one to any.
   */
  lemma OwnedOnce(d: Disk, nodes: map<nat, Inode>, trees: map<nat, Tree>, owner: map<nat, nat>)
    requires Owned(d, nodes, trees, owner)
    ensures forall b: nat :: IsData(b) ==> (Used(d, b) <==> exists k :: k in trees && InTree(trees[k], b))
    ensures forall j, k, b :: j in trees && k in trees && InTree(trees[j], b) && InTree(trees[k], b) ==> j == k
  {
    hide Used, IsMeta, Layout, TreeOk, InTree;
    forall b: nat | IsData(b)
      ensures Used(d, b) <==> exists k :: k in trees && InTree(trees[k], b)
    {
      if b in owner { assert InTree(trees[owner[b]], b); }
    }
    forall j, k, b | j in trees && k in trees && InTree(trees[j], b) && InTree(trees[k], b)
      ensures j == k
    {
      assert owner[b] == j;
    }
  }

  /** Listing a new name and then unlisting it gives back the directories as they were. */
  lemma AddThenTake(dirs: map<nat, seq<Rec>>, p: nat, r: Rec, at: nat)
    requires p in dirs && r.ino !in dirs
    requires KeysUnique(dirs[p] + [r]) && at <= |dirs[p]| && Matches((dirs[p] + [r])[at], r.name, r.kind == 2)
    ensures at == |dirs[p]| && TakeFrom(AddTo(dirs, p, r), p, at) == dirs
  {
    var recs := dirs[p] + [r];
    OneMatch(recs, r.name, r.kind == 2, at, |dirs[p]|);
    assert Without(recs, |dirs[p]|) == dirs[p];
  }

  /** Freeing what was just stored gives back every block: use before and after is the same. */
  lemma StoreThenFree(d: Disk, nodes: map<nat, Inode>, trees: map<nat, Tree>, owner: map<nat, nat>, k: nat,
                      e: Disk, nodes': map<nat, Inode>, trees': map<nat, Tree>, owner': map<nat, nat>)
    requires Owned(d, nodes, trees, owner) && k in trees && trees[k] == EMPTY_TREE
    requires Owned(e, nodes', trees', owner') && k in trees' && trees' == trees[k := trees'[k]]
    ensures var f := Deallocated(e, k, trees'[k]);
      forall b: nat :: IsData(b) ==> Used(f, b) == Used(d, b)
  {
    hide Used, IsMeta, Owned, InTree, Deallocated;
    DeallocatedUse(e, nodes', trees', owner', k);
    forall b: nat | IsData(b)
      ensures Used(d, b) <==> Used(e, b) && !InTree(trees'[k], b)
    {
      UsedOutside(d, nodes, trees, owner, k, b);
      UsedOutside(e, nodes', trees', owner', k, b);
      OwnerOutside(trees, trees', k, b);
    }
  }

  /** Block b is in some tree other than that of inode k. */
  ghost predicate Elsewhere(trees: map<nat, Tree>, k: nat, b: nat)
  {
    exists j :: j in trees && j != k && InTree(trees[j], b)
  }

  lemma UsedOutside(d: Disk, nodes: map<nat, Inode>, trees: map<nat, Tree>, owner: map<nat, nat>, k: nat, b: nat)
    requires Owned(d, nodes, trees, owner) && k in trees && IsData(b)
    ensures Used(d, b) && !InTree(trees[k], b) <==> Elsewhere(trees, k, b)
    ensures trees[k] == EMPTY_TREE ==> !InTree(trees[k], b)
  {
    hide Used, IsMeta, Layout, TreeOk;
    if Used(d, b) && !InTree(trees[k], b) {
      assert b in owner && InTree(trees[owner[b]], b);
    }
  }

  lemma OwnerOutside(trees: map<nat, Tree>, trees': map<nat, Tree>, k: nat, b: nat)
    requires k in trees && k in trees' && trees' == trees[k := trees'[k]]
    ensures Elsewhere(trees, k, b) <==> Elsewhere(trees', k, b)
  {
    hide InTree;
    if Elsewhere(trees, k, b) {
      var j :| j in trees && j != k && InTree(trees[j], b);
      assert InTree(trees'[j], b);
    }
    if Elsewhere(trees', k, b) {
      var j :| j in trees' && j != k && InTree(trees'[j], b);
      assert InTree(trees[j], b);
    }
  }

  lemma DeallocatedUse(d: Disk, nodes: map<nat, Inode>, trees: map<nat, Tree>, owner: map<nat, nat>, k: nat)
    requires Owned(d, nodes, trees, owner) && k in trees
    ensures IsInode(k)
    ensures forall b: nat :: b < 8192 ==> (Used(Deallocated(d, k, trees[k]), b) <==> Used(d, b) && !InTree(trees[k], b))
    ensures forall b: nat :: InTree(trees[k], b) ==> IsData(b)
  {
    hide Used, IsMeta, Layout, FreeTotal, ClearAll, MarkInode, TreeOrder;
    OwnedTree(d, nodes, trees, owner, k);
    FreeableTree(d, trees[k]);
    TreeOrderOk(trees[k]);
    ClearAllEffect(d, TreeOrder(trees[k], 15));
    InodeWritesMetaOnly(ClearAll(d, TreeOrder(trees[k], 15)), k, false, nodes[k]);
    SameUse(ClearAll(d, TreeOrder(trees[k], 15)), Deallocated(d, k, trees[k]));
  }

  /** Mode and tree determine an inode. */
  lemma ShapeUnique(m: Inode, n: Inode, t: Tree)
    requires Shape(m, t) && Shape(n, t) && m.mode == n.mode
    ensures m == n
  {
    assert m.block == n.block;
  }

  /** The record of a new name is the last, and shares a block with the one before it exactly if it fitted there. */
  lemma NewRecUnlinks(c: seq<Block>, recs: seq<Rec>, k: nat, kind: nat, name: seq<byte>)
    requires |recs| > 0
    ensures var rs := recs + [NewRec(recs, k, kind, name)];
      !Skipped(rs, |recs|) && (Unlinks(c, rs, |recs|) <==> Fits(recs, name))
  {
    hide U16;
    var last, r := recs[|recs| - 1], NewRec(recs, k, kind, name);
    var rs := recs + [r];
    assert rs[|recs|] == r && rs[|recs| - 1] == last;
    if Fits(recs, name) {
      assert r.pos / 512 == last.pos / 512;
    } else {
      assert r.pos / 512 == last.pos / 512 + 1;
    }
  }

  /** A deletion of a name just listed finds its record, the last one, and no child. */
  lemma JustListed(dirs: map<nat, seq<Rec>>, p: nat, k: nat, directory: bool, name: seq<byte>)
    requires p in dirs && |dirs[p]| > 0 && k !in dirs && k != p
    ensures var kind := if directory then 2 else 1;
      var r := NewRec(dirs[p], k, kind, name);
      var es := AddTo(dirs, p, r);
      p in es && es[p] == dirs[p] + [r] && Matches(es[p][|dirs[p]|], name, directory) &&
      !Overlooked(es[p], name, directory) && Deletable(es, p, |dirs[p]|)
  {
    var r := NewRec(dirs[p], k, if directory then 2 else 1, name);
    var rs := dirs[p] + [r];
    assert rs[|dirs[p]|] == r && !Skipped(rs, |dirs[p]|);
  }

  /** Everything but the names' bytes is as it was: inodes, trees, directories, nesting, and which blocks are in use. */
  ghost predicate Restored(fs: Volume, d: Disk, nodes: map<nat, Inode>, trees: map<nat, Tree>, dirs: map<nat, seq<Rec>>,
                           up: map<nat, nat>)
    reads fs
  {
    && fs.nodes == nodes && fs.trees == trees && fs.dirs == dirs && fs.up == up
    && forall b: nat :: IsData(b) ==> Used(fs.blocks, b) == Used(d, b)
  }

  /** Listing and storing a new name, and then deleting it. */
  lemma WrittenAndGone(fs: Volume, d: Disk, nodes: map<nat, Inode>, trees: map<nat, Tree>, owner: map<nat, nat>,
                       dirs: map<nat, seq<Rec>>, up: map<nat, nat>, p: nat, name: seq<byte>, directory: bool, k: nat,
                       e: Disk, nodes': map<nat, Inode>, trees': map<nat, Tree>, at: nat)
    requires Mounted(d, nodes, trees, owner, dirs, up) && Valid(fs) && p in dirs && p in nodes && p in trees &&
      |dirs[p]| > 0
    requires k !in nodes && k != p && Fits(dirs[p], name)
    requires p in nodes' && p in trees' && k in nodes' && k in trees' && trees'[p] == trees[p]
    requires nodes' == With(nodes, p, nodes'[p], k, nodes'[k]) && trees' == With(trees, p, trees'[p], k, trees'[k])
    requires at == |dirs[p]| && Shape(nodes'[p], trees[p]) && nodes'[p].mode == nodes[p].mode
    requires var r := NewRec(dirs[p], k, if directory then 2 else 1, name); var es := AddTo(dirs, p, r);
      es[p] == dirs[p] + [r] && KeysUnique(es[p]) && Matches(es[p][at], name, directory) &&
      Removed(fs, e, nodes', trees', es, up[k := p], p, at, k)
    ensures Restored(fs, d, nodes, trees, dirs, up)
  {
    hide Owned, Synced, Contents, DirShape, NoDangling, DotDots, Rooted, Used, IsMeta, FreeTotal, SpaceOf, SameFiles,
      Fits, NewRec, Mounted, Valid, KeysUnique, Shape, AddTo, TakeFrom;
    MountedParts(d, nodes, trees, owner, dirs, up);
    OwnedShape(d, nodes, trees, owner, p);
    ShapeUnique(nodes'[p], nodes[p], trees[p]);
    NewRecIs(dirs[p], k, if directory then 2 else 1, name);
    AddThenTake(dirs, p, NewRec(dirs[p], k, if directory then 2 else 1, name), at);
    BackAgain(nodes, p, nodes'[p], k, nodes'[k]);
    BackAgain(trees, p, trees'[p], k, trees'[k]);
    RootUnlisted(nodes, dirs, up);
    assert up[k := p] - {k} == up;
    ValidMounted(fs);
    MountedParts(fs.blocks, fs.nodes, fs.trees, fs.owner, fs.dirs, fs.up);
    SameTreesSameUse(d, nodes, trees, owner, fs.blocks, fs.nodes, fs.owner);
  }

  lemma BackAgain<V>(m: map<nat, V>, p: nat, v: V, k: nat, w: V)
    requires p in m && m[p] == v && k !in m && k != p
    ensures With(m, p, v, k, w) - {k} == m
  {
  }

  lemma SameTreesSameUse(d: Disk, nodes: map<nat, Inode>, trees: map<nat, Tree>, owner: map<nat, nat>,
                         e: Disk, nodes': map<nat, Inode>, owner': map<nat, nat>)
    requires Owned(d, nodes, trees, owner) && Owned(e, nodes', trees, owner')
    ensures forall b: nat :: IsData(b) ==> Used(e, b) == Used(d, b)
  {
    hide Owned, Used, IsMeta, InTree;
    OwnedOnce(d, nodes, trees, owner);
    OwnedOnce(e, nodes', trees, owner');
  }

  /**
    The law of listing: a new name that was written and is then deleted leaves everything as it was exactly if its
    record fitted behind the last one of its parent.  Where it took a new block, what is left is no file system.
   */
  method WriteThenDelete(fs: Volume, parent: nat, name: seq<byte>, directory: bool, src: seq<byte>, size: u32)
      returns (written: int, deleted: int)
    requires Valid(fs) && parent in fs.nodes && |name| <= 255 && !(directory && (name == DOT || name == DOTDOT))
    requires !directory ==> |src| >= 512 * BlocksFor(size)
    requires Safe(fs, parent, name, directory, size)
    modifies fs
    ensures old(Reaches(fs, parent, name, size)) && |old(fs.dirs)[parent]| > 0 ==>
      Linkable(old(fs.blocks), old(fs.dirs)[parent], name, directory) ==> written == 0
    ensures written == 0 ==> deleted == 0 && parent in old(fs.dirs) && |old(fs.dirs)[parent]| > 0
    ensures written == 0 ==>
      if Fits(old(fs.dirs)[parent], name)
      then Valid(fs) && Restored(fs, old(fs.blocks), old(fs.nodes), old(fs.trees), old(fs.dirs), old(fs.up))
      else Broken(fs.blocks)
  {
    hide IsMeta, Used, FreeTotal, Owned, SpaceOk, Chain, InodeAt, InodeUsed, Tidy, FileBlocks, Layout, Contents,
      Absent, Synced, Matches, TreeOk, DirShape, BlocksFor, Safe, Broken, TableCurrent, AfterListing, SpaceOf,
      Linkable, StoredAs, SameFiles, KeysUnique, Fits, NewRec, AddTo, Overlooked, Deletable, Skipped, Unlinks, Removed,
      NoInode, InodeCountsKept, SlotsKept, Shape, Mounted, NextInode, Restored, Replaced, LooksUp;
    ghost var d, nodes, trees, owner, dirs, up := fs.blocks, fs.nodes, fs.trees, fs.owner, fs.dirs, fs.up;
    if parent in fs.dirs { ValidKeys(fs, parent); }
    ValidNode(fs, parent);
    ValidMounted(fs);
    ghost var k, gone, at;
    written, k := Write(fs, parent, name, directory, src, size);
    deleted := 0;
    if written != 0 {
      return;
    }
    ghost var e, nodes', trees', dirs' := fs.blocks, fs.nodes, fs.trees, fs.dirs;
    NewInode(d, nodes, trees, owner, dirs, up, parent, k);
    JustListed(dirs, parent, k, directory, name);
    NewRecUnlinks(FileBlocks(e, trees'[parent].data), dirs[parent], k, if directory then 2 else 1, name);
    ValidKeys(fs, parent);
    SameMode(fs, d, nodes, trees, owner, dirs, up, parent);
    deleted, gone, at := Delete(fs, parent, name, directory);
    OneMatch(dirs'[parent], name, directory, |dirs[parent]|, at);
    if Fits(dirs[parent], name) {
      RemovedIs(fs, e, nodes', trees', dirs', up[k := parent], parent, at, gone);
      NewRecIs(dirs[parent], k, if directory then 2 else 1, name);
      WrittenAndGone(fs, d, nodes, trees, owner, dirs, up, parent, name, directory, k, e, nodes', trees', at);
    }
  }

  lemma RemovedIs(fs: Volume, d: Disk, nodes: map<nat, Inode>, trees: map<nat, Tree>, dirs: map<nat, seq<Rec>>,
                  up: map<nat, nat>, p: nat, at: nat, k: nat)
    requires Removed(fs, d, nodes, trees, dirs, up, p, at, k)
    ensures p in dirs && at < |dirs[p]| && k == dirs[p][at].ino
  {
  }

  lemma NewInode(d: Disk, nodes: map<nat, Inode>, trees: map<nat, Tree>, owner: map<nat, nat>, dirs: map<nat, seq<Rec>>,
                 up: map<nat, nat>, p: nat, k: nat)
    requires Mounted(d, nodes, trees, owner, dirs, up) && p in nodes && k !in nodes
    ensures k != p && k !in dirs && p in trees
  {
    hide Mounted, Owned, ListedOnce, NoDangling;
    MountedParts(d, nodes, trees, owner, dirs, up);
  }

  lemma SameMode(fs: Volume, d: Disk, nodes: map<nat, Inode>, trees: map<nat, Tree>, owner: map<nat, nat>,
                 dirs: map<nat, seq<Rec>>, up: map<nat, nat>, p: nat)
    requires Mounted(d, nodes, trees, owner, dirs, up) && Valid(fs) && p in nodes && p in fs.nodes && p in dirs &&
      p in fs.dirs
    ensures p in fs.trees && Shape(fs.nodes[p], fs.trees[p]) && fs.nodes[p].mode == nodes[p].mode
  {
    hide Owned, Synced, Contents, Shape, DirShape, NoDangling, ListedOnce, DotDots, Rooted, SpaceOk;
    OwnedShape(fs.blocks, fs.nodes, fs.trees, fs.owner, p);
  }
}
