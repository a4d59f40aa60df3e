/** Runs from an unformatted disk into the states in which the driver's own guarantees give out. */
module Witnesses {
  import opened Bytes
  import opened Geometry
  import opened Inodes
  import opened Space
  import opened Ownership
  import opened DirRecords
  import opened Volumes
  import opened Allocation
  import opened InodeTable
  import opened Directory
  import opened Deallocation
  import opened Invariant
  import opened Corruption
  import opened FileSystem
  import opened ReadDelete
  import opened Metadata
  import opened Format
  import opened Paths

  /** A group whose counter was never touched and whose first inode is not in use. */
  lemma InodeLeft(fs: Volume, g: nat)
    requires Valid(fs) && g < 16 && |fs.bgdt| == 16 && fs.bgdt[g].freeInodes == 112
    requires 112 * g + 1 !in fs.nodes
    ensures !NoInode(fs.blocks, fs.bgdt)
  {
    hide InodeAt, InodeUsed, SpaceOk, Owned, Contents, Tidy;
    var j := 112 * g + 1;
    assert IsInode(j) && InodeGroup(j) == g;
    assert !InodeUsed(fs.blocks, j);
  }

  /** A new file is listed behind the dots of the root. */
  lemma BehindDots(name: seq<byte>)
    requires 2 < |name| + 2 && |name| <= 255 && name != DOT && name != DOTDOT
    ensures Absent(DotRecs(ROOT, ROOT), name, false) && Fits(DotRecs(ROOT, ROOT), name)
    ensures NewRec(DotRecs(ROOT, ROOT), 1, 1, name).pos == 24
  {
  }

  /** The first file of a freshly formatted disk. */
  method FirstFile(image: Disk, name: seq<byte>, buf: seq<byte>, size: u32) returns (fs: Volume, ghost k: nat)
    requires image[0] != Signature() && 0 < |name| <= 255 && name != DOT && name != DOTDOT
    requires |buf| >= 512 * BlocksFor(size) && BlocksFor(size) <= 7885
    ensures fresh(fs) && Valid(fs) && TableCurrent(fs.blocks, fs.bgdt)
    ensures IsInode(k) && k != ROOT && fs.nodes.Keys == {ROOT, k} && fs.dirs.Keys == {ROOT}
    ensures fs.dirs[ROOT] == DotRecs(ROOT, ROOT) + [Rec(24, k, 1, name)]
    ensures StoredAs(fs, k, buf, size, 7885)
    ensures |fs.bgdt| == 16 && forall g: nat :: 0 < g < 16 && g != InodeGroup(k) ==> fs.bgdt[g].freeInodes == 112
    ensures SlotsKept(image, fs.blocks, {ROOT, k})
  {
    hide Valid, FreeTotal, DotRecs, Signature, TableAgrees, NoInode, Absent, Fits, StoredAs, TableCurrent, SameFiles,
      NewRec, NextInode, Broken, BlocksFor, SlotsKept;
    fs := FirstStart(image);
    ghost var d := fs.blocks;
    InodeLeft(fs, 1);
    BehindDots(name);
    DotCount();
    DirLive(fs, ROOT);
    ghost var recs := fs.dirs[ROOT];
    var code;
    code, k := Write(fs, ROOT, name, false, buf, size);
    NewRecAt(recs, k, name);
    SpaceSizeOf(fs);
    SlotsKeptTrans(image, d, fs.blocks, {ROOT}, {k, ROOT});
    assert {ROOT} + {k, ROOT} == {ROOT, k};
  }

  lemma DotCount()
    ensures |DotRecs(ROOT, ROOT)| == 2
  {
  }

  lemma NewRecAt(recs: seq<Rec>, k: nat, name: seq<byte>)
    requires recs == DotRecs(ROOT, ROOT) && 0 < |name| <= 255 && Fits(recs, name)
    ensures NewRec(recs, k, 1, name) == Rec(24, k, 1, name)
  {
  }

  lemma SpaceSizeOf(fs: Volume)
    requires Valid(fs)
    ensures |fs.bgdt| == 16
  {
  }

  const FULL: u32 := 4037120

  /** A file needing every free block leaves fewer than four: the pointer blocks it needs as well were not asked for. */
  lemma FilledUp(fs: Volume, k: nat, buf: seq<byte>)
    requires StoredAs(fs, k, buf, FULL, 7885)
    ensures FreeTotal(fs.blocks) < 4 && k in fs.trees && |fs.trees[k].data| < 7885
  {
    hide FreeTotal, Holds;
    assert BlocksFor(FULL) == 7885;
  }

  lemma NoRoomForDir(fs: Volume, k: nat)
    requires Valid(fs) && ROOT in fs.dirs && fs.dirs[ROOT] == DotRecs(ROOT, ROOT) + [Rec(24, k, 1, [97])] && k != ROOT
    requires FreeTotal(fs.blocks) < 4 && |fs.bgdt| == 16 && !NoInode(fs.blocks, fs.bgdt)
    ensures Reaches(fs, ROOT, [98], 0) && !Safe(fs, ROOT, [98], true, 0)
    ensures Linkable(fs.blocks, fs.dirs[ROOT], [98], true)
  {
    hide FreeTotal, NoInode, Valid;
    DirLive(fs, ROOT);
    var recs := fs.dirs[ROOT];
    assert recs[0].name == DOT && recs[1].name == DOTDOT && recs[2].name == [97];
    assert Absent(recs, [98], true);
    assert Fits(recs, [98]);
  }

  /**
    Filling a fresh disk with one file, which is cut short without a word, and then making a directory: the answer is
    success, and what is on the disk is no file system.
   */
  method FullDisk(image: Disk) returns (fs: Volume, ghost stored: nat, code: int)
    requires image[0] != Signature()
    ensures stored < 7885 && code == 0 && Broken(fs.blocks)
  {
    hide Valid, FreeTotal, DotRecs, Signature, NoInode, Absent, Fits, StoredAs, TableCurrent, SameFiles, NextInode,
      Broken, Safe, Reaches, Linkable, Created;
    assert BlocksFor(FULL) == 7885;
    hide BlocksFor;
    ghost var k;
    var buf := seq<byte>(512 * 7885, _ => 7);
    fs, k := FirstFile(image, [97], buf, FULL);
    FilledUp(fs, k, buf);
    stored := |fs.trees[k].data|;
    InodeLeft(fs, if InodeGroup(k) == 1 then 2 else 1);
    NoRoomForDir(fs, k);
    ghost var j;
    code, j := Write(fs, ROOT, [98], true, [], 0);
  }

  /**
    A path of one component a byte longer than names can be leads nowhere, but its leaf half leads to the file named
    like it.
   */
  method LongName(image: Disk) returns (fs: Volume, inBounds: bool, whole: int, leaf: int)
    requires image[0] != Signature()
    ensures fresh(fs) && Valid(fs) && inBounds && whole == 2 && leaf == 1
  {
    hide Valid, FreeTotal, DotRecs, Signature, NoInode, Absent, Fits, StoredAs, TableCurrent, SameFiles, NextInode,
      Broken, Safe, Reaches, Linkable, Created, Components, Resolve, HoldsString, Final, Lookup, Cut;
    var name := seq<byte>(255, _ => 97);
    var path := seq<byte>(256, _ => 97);
    ghost var k, cut;
    fs, k := FirstFile(image, name, [], 0);
    LongParts(fs, name, path, k);
    var parentOut, leafOut := new byte[512](_ => 0), new byte[256](_ => 0);
    inBounds, cut := SplitPath(path, parentOut, leafOut);
    CutUnique(path, cut, 0);
    var res;
    whole, res := Exist(fs, ROOT, path);
    LeafString(leafOut, path, name);
    leaf, res := Exist(fs, ROOT, leafOut[..255]);
  }

  lemma LeafString(a: array<byte>, path: seq<byte>, name: seq<byte>)
    requires path == seq<byte>(256, _ => 97) && name == seq<byte>(255, _ => 97) && HoldsString(a, LeafPart(path, 0))
    ensures a.Length >= 255 && a[..255] == name
  {
    assert LeafPart(path, 0) == path[0..255] == name;
  }

  lemma LongParts(fs: Volume, name: seq<byte>, path: seq<byte>, k: nat)
    requires Valid(fs) && ROOT in fs.dirs && fs.dirs[ROOT] == DotRecs(ROOT, ROOT) + [Rec(24, k, 1, name)] && k != 0
    requires path == seq<byte>(256, _ => 97) && name == seq<byte>(255, _ => 97)
    ensures Components(path) == [path] && Cut(path, 0) && Components(name) == [name]
    ensures Resolve(fs.dirs, ROOT, [path]) == Missing && Resolve(fs.dirs, ROOT, [name]) == IsFile(k)
  {
    hide Valid, Lookup, Components;
    ComponentsToken(path);
    ComponentsToken(name);
    TokenAt(path, 0);
    assert path[0..] == path;
    LongMissing(fs, ROOT, path);
    var recs := fs.dirs[ROOT];
    assert recs[0].name == DOT && recs[1].name == DOTDOT;
    assert |recs[0].name| != 255 && |recs[1].name| != 255;
    LookupAbsent(recs, name, true);
    LookupAt(recs, name, false, 2);
  }

  lemma NoneStored(fs: Volume, k: nat)
    requires StoredAs(fs, k, [], 0, 7885)
    ensures FreeTotal(fs.blocks) == 7885
  {
    hide FreeTotal, Holds;
    assert BlocksFor(0) == 0;
  }

  lemma SecondName(fs: Volume, k: nat, a: seq<byte>, b: seq<byte>)
    requires Valid(fs) && ROOT in fs.dirs && fs.dirs[ROOT] == DotRecs(ROOT, ROOT) + [Rec(24, k, 1, a)]
    requires |a| == |b| == 255 && a != b && FreeTotal(fs.blocks) == 7885 && |fs.bgdt| == 16 &&
      !NoInode(fs.blocks, fs.bgdt)
    ensures Reaches(fs, ROOT, b, 0) && Safe(fs, ROOT, b, false, 0) && Linkable(fs.blocks, fs.dirs[ROOT], b, false)
    ensures forall j :: NewRec(fs.dirs[ROOT], j, 1, b) == Rec(512, j, 1, b)
    ensures !Fits(fs.dirs[ROOT], b)
  {
    hide FreeTotal, NoInode, Valid;
    DirLive(fs, ROOT);
    var recs := fs.dirs[ROOT];
    assert recs[0].name == DOT && recs[1].name == DOTDOT && recs[2].name == a;
    assert |recs[0].name| != 255 && |recs[1].name| != 255;
    assert Absent(recs, b, false);
    assert !Fits(recs, b);
  }

  lemma SecondPassed(recs: seq<Rec>, j: nat, k: nat, a: seq<byte>, b: seq<byte>)
    requires recs == DotRecs(ROOT, ROOT) + [Rec(24, k, 1, a)] + [Rec(512, j, 1, b)] && a != b && |a| == 255
    ensures Overlooked(recs, a, false) && !Absent(recs, a, false)
  {
    assert recs[0].name == DOT && recs[1].name == DOTDOT && recs[3].name == b;
    assert |recs[0].name| != 255 && |recs[1].name| != 255;
    assert Matches(recs[2], a, false) && Skipped(recs, 2);
  }

  /**
    Two files with long names in the root: the first can no longer be deleted, since its record ends the first block.
   */
  method Undeletable(image: Disk) returns (fs: Volume, code: int)
    requires image[0] != Signature()
    ensures Valid(fs) && ROOT in fs.dirs && !Absent(fs.dirs[ROOT], seq<byte>(255, _ => 97), false) && code == 1
  {
    hide Valid, FreeTotal, DotRecs, Signature, NoInode, Absent, Fits, StoredAs, TableCurrent, SameFiles, NextInode,
      Broken, Safe, Reaches, Linkable, NewRec, Overlooked;
    var a, b := seq<byte>(255, _ => 97), seq<byte>(255, _ => 98);
    assert a[0] != b[0];
    ghost var k, j, at;
    fs, k := FirstFile(image, a, [], 0);
    NoneStored(fs, k);
    InodeLeft(fs, if InodeGroup(k) == 1 then 2 else 1);
    SecondName(fs, k, a, b);
    code, j := Write(fs, ROOT, b, false, [], 0);
    DirLive(fs, ROOT);
    SecondPassed(fs.dirs[ROOT], j, k, a, b);
    code, j, at := Delete(fs, ROOT, a, false);
  }

  /**
    The second file alone, deleted right after it was written: its record starts a block, so the one before it still
    leads there, and the disk is no file system any more although both answers are success.
   */
  method DeadName(image: Disk) returns (fs: Volume, written: int, deleted: int)
    requires image[0] != Signature()
    ensures written == 0 && deleted == 0 && Broken(fs.blocks)
  {
    hide Valid, FreeTotal, DotRecs, Signature, NoInode, Absent, StoredAs, TableCurrent, SameFiles, NextInode, Broken,
      Safe, Reaches, Linkable, Restored, Fits;
    var a, b := seq<byte>(255, _ => 97), seq<byte>(255, _ => 98);
    assert a[0] != b[0];
    assert BlocksFor(0) == 0;
    hide BlocksFor;
    ghost var k;
    fs, k := FirstFile(image, a, [], 0);
    NoneStored(fs, k);
    InodeLeft(fs, if InodeGroup(k) == 1 then 2 else 1);
    SecondName(fs, k, a, b);
    written, deleted := WriteThenDelete(fs, ROOT, b, false, [], 0);
  }

  /** No inode slot was ever written. */
  ghost predicate Blank(d: Disk)
  {
    forall c: nat :: IsTableBlock(c) ==> d[c] == ZeroBlock()
  }

  /** No pointer of an inode slot that was never written leads anywhere. */
  lemma BlankTame(d: Disk, e: Disk, j: nat, except: set<nat>)
    requires Blank(d) && SlotsKept(d, e, except) && IsInode(j) && j !in except
    ensures Tame(e, InodeAt(e, j))
  {
    SlotInTable(j, 0);
    SlotTable(j);
    var n := InodeAt(e, j);
    assert n == DecodeInode(ZeroBlock(), SlotOffset(j));
    assert U32(ZeroBlock(), SlotOffset(j) + 10) == 0;
    NoneTame(e, n);
  }

  lemma NoneTame(d: Disk, n: Inode)
    requires n.block[0] == 0
    ensures Tame(d, n)
  {
    assert Stop(n.block) == 0;
  }

  lemma NoRoomForName(fs: Volume, k: nat, a: seq<byte>, b: seq<byte>)
    requires Valid(fs) && ROOT in fs.dirs && fs.dirs[ROOT] == DotRecs(ROOT, ROOT) + [Rec(24, k, 1, a)]
    requires |a| == |b| == 255 && a != b && FreeTotal(fs.blocks) < 4 && |fs.bgdt| == 16 && !NoInode(fs.blocks, fs.bgdt)
    ensures Reaches(fs, ROOT, b, 0) && !Safe(fs, ROOT, b, false, 0) && !Linkable(fs.blocks, fs.dirs[ROOT], b, false)
  {
    hide FreeTotal, NoInode, Valid;
    DirLive(fs, ROOT);
    var recs := fs.dirs[ROOT];
    assert recs[0].name == DOT && recs[1].name == DOTDOT && recs[2].name == a;
    assert |recs[0].name| != 255 && |recs[1].name| != 255;
    assert Absent(recs, b, false);
    assert !Fits(recs, b);
  }

  lemma UnusedTame(fs: Volume, d: Disk, k: nat, j: nat)
    requires Valid(fs) && Blank(d) && SlotsKept(d, fs.blocks, {ROOT, k}) && fs.nodes.Keys == {ROOT, k}
    requires NextInode(fs.blocks, fs.bgdt, j)
    ensures IsInode(j) && Tame(fs.blocks, InodeAt(fs.blocks, j))
  {
    hide InodeAt, InodeUsed, SpaceOk, Owned, Contents, Tidy, Tame, Blank;
    assert j !in fs.nodes;
    BlankTame(d, fs.blocks, j, {ROOT, k});
  }

  /**
    The same with a second file whose name needs a new block of the root: the answer is that of replacing a file, and
    what is on the disk is no file system either.
   */
  method FullRoot(image: Disk) returns (fs: Volume, code: int)
    requires image[0] != Signature() && Blank(image)
    ensures code == 1 && Broken(fs.blocks)
  {
    hide Valid, FreeTotal, DotRecs, Signature, NoInode, Absent, Fits, StoredAs, TableCurrent, SameFiles, NextInode,
      Broken, Safe, Reaches, Linkable, Created, SlotsKept, Tame, InodeAt, Blank;
    assert BlocksFor(FULL) == 7885 && BlocksFor(0) == 0;
    hide BlocksFor;
    var a, b := seq<byte>(255, _ => 97), seq<byte>(255, _ => 98);
    assert a[0] != b[0];
    ghost var k, j;
    var buf := seq<byte>(512 * 7885, _ => 7);
    fs, k := FirstFile(image, a, buf, FULL);
    FilledUp(fs, k, buf);
    InodeLeft(fs, if InodeGroup(k) == 1 then 2 else 1);
    NoRoomForName(fs, k, a, b);
    forall i | NextInode(fs.blocks, fs.bgdt, i)
      ensures IsInode(i) && Tame(fs.blocks, InodeAt(fs.blocks, i))
    {
      UnusedTame(fs, image, k, i);
    }
    code, j := Write(fs, ROOT, b, false, [], 0);
  }

  /** Names that put one file in the first block of the root and three in the second. */
  predicate FourNames(a: seq<byte>, b: seq<byte>, c: seq<byte>, d: seq<byte>)
  {
    |a| == 216 && |b| == 255 && |c| == |d| == 1
  }

  function FourRecs(a: seq<byte>, b: seq<byte>, c: seq<byte>, d: seq<byte>): (recs: seq<Rec>)
  {
    DotRecs(2, 2) + [Rec(24, 3, 1, a)] + [Rec(512, 4, 1, b)] + [Rec(776, 5, 1, c)] + [Rec(788, 6, 1, d)]
  }

  /** The blocks of the root after these four were listed in turn. */
  function FourBlocks(a: seq<byte>, b: seq<byte>, c: seq<byte>, d: seq<byte>): (blocks: seq<Block>)
    requires FourNames(a, b, c, d)
  {
    [Put16(WithRecord(DotBlock(2, 2), 12, 12, 3, 1, a), 28, 488),
     WithRecord(WithRecord(FirstRecord(4, 1, b), 0, 264, 5, 1, c), 264, 12, 6, 1, d)]
  }

  lemma FourListed(a: seq<byte>, b: seq<byte>, c: seq<byte>, d: seq<byte>)
    requires FourNames(a, b, c, d)
    ensures Chain(FourBlocks(a, b, c, d), FourRecs(a, b, c, d))
  {
    hide Chain, WithRecord, FirstRecord, DotBlock, U16, U32;
    var r0 := DotRecs(2, 2);
    DotBlockChain(2, 2);
    var x0 := DotBlock(2, 2);
    InPlaceChain([x0], r0, 12, 12, 3, 1, a);
    var x1, r1 := WithRecord(x0, 12, 12, 3, 1, a), r0 + [Rec(24, 3, 1, a)];
    assert [x0][0 := x1] == [x1];
    NewBlockChain([x1], r1, 4, 1, b);
    var x, y0, r2 := Put16(x1, 28, 488), FirstRecord(4, 1, b), r1 + [Rec(512, 4, 1, b)];
    assert [x1][0 := x] + [y0] == [x, y0];
    InPlaceChain([x, y0], r2, 0, 264, 5, 1, c);
    var y1, r3 := WithRecord(y0, 0, 264, 5, 1, c), r2 + [Rec(776, 5, 1, c)];
    assert [x, y0][1 := y1] == [x, y1];
    InPlaceChain([x, y1], r3, 264, 12, 6, 1, d);
    assert [x, y1][1 := WithRecord(y1, 264, 12, 6, 1, d)] == FourBlocks(a, b, c, d);
  }

  /** The bytes behind the last record of the first block are zero. */
  lemma TailZero(a: seq<byte>, b: seq<byte>, c: seq<byte>, d: seq<byte>)
    requires FourNames(a, b, c, d)
    ensures FourBlocks(a, b, c, d)[0][268] == 0 && FourBlocks(a, b, c, d)[0][269] == 0
  {
  }

  /**
    Deleting the second of these files works.  Deleting the third then loses the fourth: the third now follows the first
    across the block boundary, and at its offset the first block has only zeros.
   */
  lemma LosesTheRest(a: seq<byte>, b: seq<byte>, c: seq<byte>, d: seq<byte>)
    requires FourNames(a, b, c, d)
    ensures var all := FourRecs(a, b, c, d);
      var e, recs := UnlinkedBlocks(FourBlocks(a, b, c, d), all, 3), Without(all, 3);
      && Chain(e, recs) && |recs| == 5 && recs[3].name == c && recs[4].name == d
      && !Skipped(recs, 3) && !Unlinks(e, recs, 3) && NoChain(UnlinkedBlocks(e, recs, 3))
  {
    hide Chain, FourBlocks, U32, Extended, Zeroed, NoChain, DotRecs;
    DotCount();
    FourListed(a, b, c, d);
    TailZero(a, b, c, d);
    var blocks, all := FourBlocks(a, b, c, d), FourRecs(a, b, c, d);
    FourPositions(a, b, c, d);
    RecordFits(blocks, all, 0);
    RecordFits(blocks, all, 2);
    RecordFits(blocks, all, 3);
    UnlinkedChain(blocks, all, 3);
    ExtendedBytes(blocks[0], 24, 0, U16(blocks[1], 4));
    var e, recs := UnlinkedBlocks(blocks, all, 3), Without(all, 3);
    RecordFits(e, recs, 3);
    assert U16(e[0], 268) == 0;
    UnlinkedChain(e, recs, 3);
  }

  lemma FourPositions(a: seq<byte>, b: seq<byte>, c: seq<byte>, d: seq<byte>)
    ensures var r := FourRecs(a, b, c, d);
      |r| == 6 && r[0].pos == 0 && r[1].pos == 12 && r[2].pos == 24 &&
      r[3].pos == 512 && r[4].pos == 776 && r[5].pos == 788
  {
  }
}
