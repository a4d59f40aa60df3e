/**
  Freeing the blocks of an inode.  The code keeps one block bitmap in a buffer and writes
  it back only when the next block lies in another group, through the whole recursion;
  it must amount to clearing every block's bit one at a time.
 */
module Deallocation {
  import opened Bytes
  import opened Bitmap
  import opened Geometry
  import opened Inodes
  import opened Space
  import opened BlockTree
  import opened Ownership
  import opened Volumes
  import opened Loading
  import opened InodeTable

  /** The disk as it would be if the cached bitmap were flushed now. */
  function Flushed(d: Disk, bitmap: Block, last: nat): (e: Disk)
    requires last < 16
  {
    BitmapsAreMeta(last);
    d[BlockBitmapOf(last) := bitmap]
  }

  /** Clearing the bit of each listed block in turn. */
  function ClearAll(d: Disk, bs: seq<nat>): (e: Disk)
    decreases |bs|
  {
    if bs == [] then d
    else
      var e, b := ClearAll(d, bs[..|bs| - 1]), bs[|bs| - 1];
      if b < 8192 then MarkBlock(e, b, false) else e
  }

  lemma {:induction false} ClearAllAppend(d: Disk, xs: seq<nat>, ys: seq<nat>)
    ensures ClearAll(d, xs + ys) == ClearAll(ClearAll(d, xs), ys)
    decreases |ys|
  {
    if ys == [] {
      assert xs + ys == xs;
    } else {
      ClearAllAppend(d, xs, ys[..|ys| - 1]);
      assert (xs + ys)[..|xs + ys| - 1] == xs + ys[..|ys| - 1];
    }
  }

  /** Every nonzero pointer reachable at this depth is an allocatable block. */
  ghost predicate OnData(d: Disk, locs: seq<u32>, depth: nat)
    decreases depth
  {
    forall i :: 0 <= i < |locs| && locs[i] != 0 ==>
      IsData(locs[i]) && (depth > 0 ==> OnData(d, Pointees(d, locs[i]), depth - 1))
  }

  /** Blocks in the order they are freed: what a block points at before the block itself. */
  ghost function FreeOrder(d: Disk, locs: seq<u32>, depth: nat): (r: seq<nat>)
    requires OnData(d, locs, depth)
    decreases depth, |locs|
  {
    if locs == [] then []
    else
      (if locs[0] == 0 then []
       else (if depth == 0 then [] else FreeOrder(d, Pointees(d, locs[0]), depth - 1)) + [locs[0]])
      + FreeOrder(d, locs[1..], depth)
  }

  lemma {:induction false} FreeOrderAppend(d: Disk, xs: seq<u32>, ys: seq<u32>, depth: nat)
    requires OnData(d, xs, depth) && OnData(d, ys, depth)
    ensures OnData(d, xs + ys, depth)
    ensures FreeOrder(d, xs + ys, depth) == FreeOrder(d, xs, depth) + FreeOrder(d, ys, depth)
    decreases |xs|
  {
    hide OnData;
    OnDataAppend(d, xs, ys, depth);
    if xs == [] {
      assert xs + ys == ys;
    } else {
      OnDataTail(d, xs, depth);
      FreeOrderAppend(d, xs[1..], ys, depth);
      assert (xs + ys)[1..] == xs[1..] + ys;
    }
  }

  lemma OnDataAppend(d: Disk, xs: seq<u32>, ys: seq<u32>, depth: nat)
    requires OnData(d, xs, depth) && OnData(d, ys, depth)
    ensures OnData(d, xs + ys, depth)
  {
    var z := xs + ys;
    forall i | 0 <= i < |z| && z[i] != 0
      ensures IsData(z[i]) && (depth > 0 ==> OnData(d, Pointees(d, z[i]), depth - 1))
    {
      if i < |xs| { assert z[i] == xs[i]; } else { assert z[i] == ys[i - |xs|]; }
    }
  }

  lemma OnDataTail(d: Disk, xs: seq<u32>, depth: nat)
    requires OnData(d, xs, depth) && xs != []
    ensures OnData(d, xs[1..], depth)
  {
  }

  lemma OnDataOne(d: Disk, b: u32, depth: nat)
    requires b != 0 ==> IsData(b) && (depth > 0 ==> OnData(d, Pointees(d, b), depth - 1))
    ensures OnData(d, [b], depth)
  {
  }

  lemma FreeOrderOne(d: Disk, b: u32, depth: nat)
    requires OnData(d, [b], depth)
    ensures b == 0 ==> FreeOrder(d, [b], depth) == []
    ensures b != 0 ==> IsData(b)
    ensures b != 0 && depth == 0 ==> FreeOrder(d, [b], depth) == [b]
    ensures b != 0 && depth > 0 ==>
      OnData(d, Pointees(d, b), depth - 1) && FreeOrder(d, [b], depth) == FreeOrder(d, Pointees(d, b), depth - 1) + [b]
  {
    assert [b][0] == b;
    assert [b][1..] == [];
  }

  lemma FreeOrderPrefix(d: Disk, p: seq<u32>, i: nat, depth: nat)
    requires OnData(d, p, depth) && i < |p|
    ensures OnData(d, p[..i], depth) && OnData(d, [p[i]], depth) && OnData(d, p[..i + 1], depth)
    ensures FreeOrder(d, p[..i + 1], depth) == FreeOrder(d, p[..i], depth) + FreeOrder(d, [p[i]], depth)
  {
    OnDataOne(d, p[i], depth);
    assert p[..i + 1] == p[..i] + [p[i]];
    FreeOrderAppend(d, p[..i], [p[i]], depth);
  }

  lemma {:induction false} FreeOrderData(d: Disk, locs: seq<u32>, depth: nat)
    requires OnData(d, locs, depth)
    ensures forall i :: 0 <= i < |FreeOrder(d, locs, depth)| ==> IsData(FreeOrder(d, locs, depth)[i])
    decreases depth, |locs|
  {
    if locs != [] {
      FreeOrderData(d, locs[1..], depth);
      if locs[0] != 0 && depth > 0 {
        FreeOrderData(d, Pointees(d, locs[0]), depth - 1);
      }
    }
  }

  /** The order depends only on data blocks, which freeing never writes. */
  lemma {:induction false} FreeOrderFrame(d: Disk, e: Disk, locs: seq<u32>, depth: nat)
    requires OnData(d, locs, depth)
    requires forall c: nat :: IsData(c) ==> e[c] == d[c]
    ensures OnData(e, locs, depth) && FreeOrder(e, locs, depth) == FreeOrder(d, locs, depth)
    decreases depth, |locs|
  {
    forall i | 0 <= i < |locs| && locs[i] != 0
      ensures IsData(locs[i]) && (depth > 0 ==> OnData(e, Pointees(e, locs[i]), depth - 1))
      ensures depth > 0 ==>
        FreeOrder(e, Pointees(e, locs[i]), depth - 1) == FreeOrder(d, Pointees(d, locs[i]), depth - 1)
    {
      if depth > 0 {
        assert Pointees(e, locs[i]) == Pointees(d, locs[i]);
        FreeOrderFrame(d, e, Pointees(d, locs[i]), depth - 1);
      }
    }
    if locs != [] {
      FreeOrderFrame(d, e, locs[1..], depth);
    }
  }

  /** Blocks that may be freed: all allocatable and in use, none twice. */
  ghost predicate Freeable(d: Disk, bs: seq<nat>)
  {
    Distinct(bs) && forall i :: 0 <= i < |bs| ==> IsData(bs[i]) && Used(d, bs[i])
  }

  /** What clearing a list of used blocks does: exactly those become free, and only block bitmaps are written. */
  lemma {:induction false} ClearAllEffect(d: Disk, bs: seq<nat>)
    requires Freeable(d, bs)
    ensures forall c: nat :: c < 8192 ==> (Used(ClearAll(d, bs), c) <==> Used(d, c) && c !in bs)
    ensures forall c: nat :: c < 8192 && !IsBlockBitmap(c) ==> ClearAll(d, bs)[c] == d[c]
    ensures FreeTotal(ClearAll(d, bs)) == FreeTotal(d) + |bs|
    decreases |bs|
  {
    hide Used, IsMeta, MarkBlock, FreeTotal;
    if bs != [] {
      var n := |bs| - 1;
      var xs, b := bs[..n], bs[n];
      assert bs == xs + [b];
      ClearAllEffect(d, xs);
      var e := ClearAll(d, xs);
      assert b !in xs;
      MarkBlockEffect(e, b, false);
      ClearOne(e, b);
    }
  }

  lemma ClearOne(e: Disk, b: nat)
    requires IsData(b) && Used(e, b)
    ensures FreeTotal(MarkBlock(e, b, false)) == FreeTotal(e) + 1
    ensures forall c: nat :: c < 8192 && !IsBlockBitmap(c) ==> MarkBlock(e, b, false)[c] == e[c]
  {
    MarkFreeUpTo(e, b, false, 16);
    BitmapsAreMeta(b / 512);
    assert IsBlockBitmap(BlockBitmapOf(b / 512));
  }

  /** Clearing a bit in the cached bitmap is clearing it on the flushed disk. */
  lemma FlushedMark(d: Disk, bitmap: Block, b: nat)
    requires b < 8192
    ensures Flushed(d, SetBit(bitmap, b % 512, false), b / 512) == MarkBlock(Flushed(d, bitmap, b / 512), b, false)
  {
  }

  /** Writing the cached bitmap back and loading another one does not change the flushed disk. */
  lemma FlushedSwitch(d: Disk, bitmap: Block, last: nat, g: nat)
    requires last < 16 && g < 16
    ensures var e := Flushed(d, bitmap, last);
      BlockBitmapOf(g) < 8192 && Flushed(e, e[BlockBitmapOf(g)], g) == e
  {
    BitmapsAreMeta(g);
  }

  /** State of the cached deallocation: the accounting holds of the flushed disk. */
  ghost predicate Caching(fs: Volume, bitmap: Block, last: nat)
    reads fs
  {
    last < 16 && SpaceOk(Flushed(fs.blocks, bitmap, last), fs.bgdt, fs.sb, fs.account) && fs.account.mark == fs.mark &&
    fs.lead <= INITIAL_FREE
  }

  lemma FreeableSplit(d: Disk, xs: seq<nat>, ys: seq<nat>)
    requires Freeable(d, xs + ys)
    ensures Freeable(d, xs) && Freeable(ClearAll(d, xs), ys)
    ensures ClearAll(d, xs + ys) == ClearAll(ClearAll(d, xs), ys)
  {
    hide Used, ClearAll, IsMeta;
    var z := xs + ys;
    assert forall i :: 0 <= i < |xs| ==> z[i] == xs[i];
    assert forall i :: 0 <= i < |ys| ==> z[|xs| + i] == ys[i];
    ClearAllEffect(d, xs);
    ClearAllAppend(d, xs, ys);
  }

  /** The account after freeing these blocks in turn: each that was free already is counted once too often. */
  ghost function Spent(a: Account, d: Disk, bs: seq<nat>): (r: Account)
    requires |a.slack| == 16
    ensures |r.slack| == 16 && r.mark == a.mark
    decreases |bs|
  {
    if bs == [] then a
    else
      var n := |bs| - 1;
      var r, b := Spent(a, d, bs[..n]), bs[n];
      if b < 8192 && !Used(ClearAll(d, bs[..n]), b) then Over(r, b / 512) else r
  }

  lemma {:induction false} SpentAppend(a: Account, d: Disk, xs: seq<nat>, ys: seq<nat>)
    requires |a.slack| == 16
    ensures Spent(a, d, xs + ys) == Spent(Spent(a, d, xs), ClearAll(d, xs), ys)
    decreases |ys|
  {
    hide Used, ClearAll, Over;
    if ys == [] {
      assert xs + ys == xs;
    } else {
      var n := |ys| - 1;
      SpentAppend(a, d, xs, ys[..n]);
      ClearAllAppend(d, xs, ys[..n]);
      assert (xs + ys)[..|xs + ys| - 1] == xs + ys[..n];
    }
  }

  /** Freeing blocks in use keeps the counters exact. */
  lemma {:induction false} SpentFreeable(a: Account, d: Disk, bs: seq<nat>)
    requires |a.slack| == 16 && Freeable(d, bs)
    ensures Spent(a, d, bs) == a
    decreases |bs|
  {
    hide Used, ClearAll, IsMeta;
    if bs != [] {
      var n := |bs| - 1;
      assert bs == bs[..n] + [bs[n]];
      FreeableSplit(d, bs[..n], [bs[n]]);
      SpentFreeable(a, d, bs[..n]);
      FreeableOne(ClearAll(d, bs[..n]), bs[n]);
    }
  }

  /** Counting one more block as freed, whether it was in use or not. */
  lemma FreeOne(d: Disk, bgdt: seq<GroupDesc>, sb: Superblock, a: Account, b: nat)
    requires SpaceOk(d, bgdt, sb, a) && IsData(b) && Roomy(a, 1)
    ensures 0 <= bgdt[b / 512].freeBlocks + 1 < 0x1_0000 && sb.freeBlocks + 1 < 0x1_0000_0000
    ensures SpaceOk(MarkBlock(d, b, false), Counted(bgdt, b / 512, 1), sb.(freeBlocks := sb.freeBlocks + 1),
      Spent(a, d, [b]))
  {
    hide SpaceOk, FreeTotal, MarkBlock, IsMeta, Counted;
    SpentOne(a, d, b);
    SpaceGroup(d, bgdt, sb, a, b / 512);
    if Used(d, b) {
      MarkKeepsSpace(d, bgdt, sb, a, b, false);
    } else {
      OverFree(d, bgdt, sb, a, b);
    }
  }

  lemma SpentOne(a: Account, d: Disk, b: nat)
    requires |a.slack| == 16 && b < 8192
    ensures Spent(a, d, [b]) == if Used(d, b) then a else Over(a, b / 512)
    ensures ClearAll(d, [b]) == MarkBlock(d, b, false)
  {
    assert [b][..0] == [] && [b][0] == b;
  }

  /** deallocate_block, its loop body: free one block after everything below it, in use or not. */
  method DeallocateOne(fs: Volume, block: u32, bitmap: Block, depth: nat, last: nat)
      returns (bitmap': Block, last': nat)
    requires Caching(fs, bitmap, last) && OnData(fs.blocks, [block], depth)
    requires Roomy(fs.account, |FreeOrder(fs.blocks, [block], depth)|)
    modifies fs`blocks, fs`bgdt, fs`sb, fs`account
    ensures Caching(fs, bitmap', last')
    ensures Flushed(fs.blocks, bitmap', last') ==
            ClearAll(Flushed(old(fs.blocks), bitmap, last), FreeOrder(old(fs.blocks), [block], depth))
    ensures |old(fs.account).slack| == 16 && fs.account ==
            Spent(old(fs.account), Flushed(old(fs.blocks), bitmap, last), FreeOrder(old(fs.blocks), [block], depth))
    ensures forall c: nat :: c < 8192 && !IsBlockBitmap(c) ==> fs.blocks[c] == old(fs.blocks)[c]
    ensures fs.sb.freeInodes == old(fs.sb.freeInodes) && OnlyCounts(old(fs.bgdt), fs.bgdt)
    decreases depth, 0
  {
    hide Used, FreeTotal, MarkBlock, OnData, FreeOrder, SpaceOk, ClearAll, IsMeta, Flushed, SetBit, Spent;
    bitmap', last' := bitmap, last;
    ghost var d, a := fs.blocks, fs.account;
    ghost var f := Flushed(d, bitmap, last);
    FreeOrderOne(d, block, depth);
    ClearNone(f);
    SpentNone(a, f);
    if block == 0 {
      return;
    }
    ghost var below := [];
    if depth > 0 {
      below := FreeOrder(d, Pointees(d, block), depth - 1);
      bitmap', last' := DeallocateBlocks(fs, Pointees(fs.blocks, block), bitmap', depth - 1, last');
    } else {
      assert [] + [block] == [block];
    }
    ghost var f1 := ClearAll(f, below);
    ClearAllAppend(f, below, [block]);
    SpentAppend(a, f, below, [block]);
    RoomLeft(a, f, below, 1);
    var g := block / 512;
    SpaceGroup(f1, fs.bgdt, fs.sb, fs.account, last');
    SpaceGroup(f1, fs.bgdt, fs.sb, fs.account, g);
    if g != last' {
      FlushedSwitch(fs.blocks, bitmap', last', g);
      FlushedIs(fs.blocks, bitmap', last');
      fs.blocks := fs.blocks[fs.bgdt[last'].blockBitmap := bitmap'];
      bitmap' := fs.blocks[fs.bgdt[g].blockBitmap];
      last' := g;
    }
    SpentOne(fs.account, f1, block);
    FlushedMark(fs.blocks, bitmap', block);
    FreeOne(f1, fs.bgdt, fs.sb, fs.account, block);
    bitmap' := SetBit(bitmap', block % 512, false);
    fs.bgdt := Counted(fs.bgdt, g, 1);
    fs.sb := fs.sb.(freeBlocks := fs.sb.freeBlocks + 1);
    fs.account := Spent(fs.account, f1, [block]);
  }

  lemma ClearNone(d: Disk)
    ensures ClearAll(d, []) == d
  {
  }

  lemma SpentNone(a: Account, d: Disk)
    requires |a.slack| == 16
    ensures Spent(a, d, []) == a
  {
  }

  lemma {:induction false} RoomLeft(a: Account, d: Disk, bs: seq<nat>, n: nat)
    requires Roomy(a, |bs| + n)
    ensures Roomy(Spent(a, d, bs), n)
    decreases |bs|
  {
    hide Used, ClearAll;
    if bs != [] { RoomLeft(a, d, bs[..|bs| - 1], n + 1); }
  }

  lemma FlushedIs(d: Disk, bitmap: Block, last: nat)
    requires last < 16
    ensures BlockBitmapOf(last) < 8192 && IsBlockBitmap(BlockBitmapOf(last))
    ensures Flushed(d, bitmap, last) == d[BlockBitmapOf(last) := bitmap]
  {
  }

  lemma FreeableOne(d: Disk, b: nat)
    requires Freeable(d, [b])
    ensures IsData(b) && Used(d, b) && ClearAll(d, [b]) == MarkBlock(d, b, false)
  {
    assert [b][0] == b;
    assert [b][..0] == [];
  }

  /** deallocate_block over a list of pointers. */
  method DeallocateBlocks(fs: Volume, locs: seq<u32>, bitmap: Block, depth: nat, last: nat)
      returns (bitmap': Block, last': nat)
    requires Caching(fs, bitmap, last) && OnData(fs.blocks, locs, depth)
    requires Roomy(fs.account, |FreeOrder(fs.blocks, locs, depth)|)
    modifies fs`blocks, fs`bgdt, fs`sb, fs`account
    ensures Caching(fs, bitmap', last')
    ensures Flushed(fs.blocks, bitmap', last') ==
            ClearAll(Flushed(old(fs.blocks), bitmap, last), FreeOrder(old(fs.blocks), locs, depth))
    ensures |old(fs.account).slack| == 16 && fs.account ==
            Spent(old(fs.account), Flushed(old(fs.blocks), bitmap, last), FreeOrder(old(fs.blocks), locs, depth))
    ensures forall c: nat :: c < 8192 && !IsBlockBitmap(c) ==> fs.blocks[c] == old(fs.blocks)[c]
    ensures fs.sb.freeInodes == old(fs.sb.freeInodes) && OnlyCounts(old(fs.bgdt), fs.bgdt)
    decreases depth, 1
  {
    hide Used, FreeTotal, MarkBlock, OnData, FreeOrder, SpaceOk, ClearAll, IsMeta, Flushed, Spent;
    bitmap', last' := bitmap, last;
    ghost var d, a := fs.blocks, fs.account;
    ghost var f := Flushed(d, bitmap, last);
    ClearNone(f);
    SpentNone(a, f);
    NoneToFree(d, locs, depth);
    for i := 0 to |locs|
      invariant Caching(fs, bitmap', last')
      invariant OnData(d, locs[..i], depth)
      invariant Flushed(fs.blocks, bitmap', last') == ClearAll(f, FreeOrder(d, locs[..i], depth))
      invariant fs.account == Spent(a, f, FreeOrder(d, locs[..i], depth))
      invariant forall c: nat :: c < 8192 && !IsBlockBitmap(c) ==> fs.blocks[c] == d[c]
      invariant fs.sb.freeInodes == old(fs.sb.freeInodes) && OnlyCounts(old(fs.bgdt), fs.bgdt)
    {
      NextToFree(d, fs.blocks, locs, i, depth);
      ghost var xs, ys := FreeOrder(d, locs[..i], depth), FreeOrder(fs.blocks, [locs[i]], depth);
      RoomLeft(a, f, xs, |ys|);
      ClearAllAppend(f, xs, ys);
      SpentAppend(a, f, xs, ys);
      bitmap', last' := DeallocateOne(fs, locs[i], bitmap', depth, last');
    }
    assert locs[..|locs|] == locs;
  }

  lemma NoneToFree(d: Disk, locs: seq<u32>, depth: nat)
    ensures OnData(d, locs[..0], depth) && FreeOrder(d, locs[..0], depth) == []
  {
  }

  /** The list splits at pointer i, on the original disk and on the current one, which has the same data blocks. */
  lemma NextToFree(d: Disk, e: Disk, locs: seq<u32>, i: nat, depth: nat)
    requires OnData(d, locs, depth) && i < |locs|
    requires forall c: nat :: c < 8192 && !IsBlockBitmap(c) ==> e[c] == d[c]
    ensures OnData(d, locs[..i], depth)
    ensures OnData(e, [locs[i]], depth) && OnData(d, locs[..i + 1], depth) && OnData(d, [locs[i]], depth)
    ensures FreeOrder(e, [locs[i]], depth) == FreeOrder(d, [locs[i]], depth)
    ensures FreeOrder(d, locs[..i + 1], depth) == FreeOrder(d, locs[..i], depth) + FreeOrder(e, [locs[i]], depth)
    ensures |FreeOrder(d, locs[..i], depth)| + |FreeOrder(e, [locs[i]], depth)| <= |FreeOrder(d, locs, depth)|
  {
    hide OnData, FreeOrder, IsMeta;
    FreeOrderPrefix(d, locs, i, depth);
    assert IsDataNotBitmap() by { DataNotBitmap(); }
    FreeOrderFrame(d, e, [locs[i]], depth);
    assert locs == locs[..i + 1] + locs[i + 1..];
    OnDataRest(d, locs, i + 1, depth);
    FreeOrderAppend(d, locs[..i + 1], locs[i + 1..], depth);
  }

  ghost predicate IsDataNotBitmap()
  {
    forall c: nat :: IsData(c) ==> !IsBlockBitmap(c)
  }

  lemma DataNotBitmap()
    ensures IsDataNotBitmap()
  {
  }

  lemma OnDataRest(d: Disk, p: seq<u32>, i: nat, depth: nat)
    requires OnData(d, p, depth) && i <= |p|
    ensures OnData(d, p[i..], depth)
  {
  }

  /** At the lowest level nothing lies below, so the order is that of the reader. */
  lemma {:induction false} FreeOrderBottom(d: Disk, locs: seq<u32>)
    requires OnDisk(d, locs, 0) && forall i :: 0 <= i < |locs| && locs[i] != 0 ==> IsData(locs[i])
    ensures OnData(d, locs, 0) && FreeOrder(d, locs, 0) == Leaves(d, locs, 0)
  {
    if locs != [] {
      FreeOrderBottom(d, locs[1..]);
    }
  }

  function DepthOf(i: nat): (depth: nat)
    ensures i < 12 ==> depth == 0
    ensures i == 12 ==> depth == 1
    ensures i == 13 ==> depth == 2
    ensures i == 14 ==> depth == 3
  {
    if i < 12 then 0 else i - 11
  }

  /** The first j leaf pointer blocks, each after the data blocks it lists. */
  function UnderDouble(t: Tree, j: nat): (r: seq<nat>)
    requires j <= |t.leaves|
  {
    if j == 0 then []
    else
      var lo, n := 140 + 128 * (j - 1), |t.data|;
      UnderDouble(t, j - 1) + (t.data[Min(lo, n)..Min(lo + 128, n)] + [t.leaves[j - 1]])
  }

  function SinglePart(t: Tree): (r: seq<nat>)
  {
    if |t.data| > 12 then t.data[12..Min(140, |t.data|)] + [t.single] else []
  }

  function DoublePart(t: Tree): (r: seq<nat>)
  {
    if |t.data| > 140 then UnderDouble(t, |t.leaves|) + [t.double] else []
  }

  /** The order in which the first i pointers of an inode and all below them are freed. */
  function TreeOrder(t: Tree, i: nat): (r: seq<nat>)
  {
    t.data[..Min(Min(i, 12), |t.data|)]
      + (if i >= 13 then SinglePart(t) else []) + (if i >= 14 then DoublePart(t) else [])
  }

  lemma LeafOrder(d: Disk, t: Tree, j: nat)
    requires TreeOk(t) && PtrsOk(d, t) && j < |t.leaves|
    ensures var lo, n := 140 + 128 * j, |t.data|;
      0 < t.leaves[j] < 8192 && lo <= n && OnData(d, [t.leaves[j]], 1) &&
      FreeOrder(d, [t.leaves[j]], 1) == t.data[lo..Min(lo + 128, n)] + [t.leaves[j]]
  {
    hide Ptr, OnDisk, Leaves, OnData, FreeOrder;
    TreeData(t);
    LeafLeaves(d, t, j);
    var p := Pointees(d, t.leaves[j]);
    assert LeafOk(d, t, j);
    assert forall i :: 0 <= i < 128 ==> p[i] == At(t, 140 + 128 * j + i);
    FreeOrderBottom(d, p);
    OnDataOne(d, t.leaves[j], 1);
    FreeOrderOne(d, t.leaves[j], 1);
  }

  lemma TreeData(t: Tree)
    requires TreeOk(t)
    ensures forall i :: 0 <= i < |t.data| ==> IsData(t.data[i]) && t.data[i] != 0
    ensures forall i :: 0 <= i < |t.leaves| ==> IsData(t.leaves[i]) && t.leaves[i] != 0
    ensures |t.data| > 12 ==> IsData(t.single) && t.single != 0
    ensures |t.data| > 140 ==> IsData(t.double) && t.double != 0
  {
    forall i | 0 <= i < |t.data|
      ensures IsData(t.data[i]) && t.data[i] != 0
    {
      assert InTree(t, t.data[i]);
    }
    forall i | 0 <= i < |t.leaves|
      ensures IsData(t.leaves[i]) && t.leaves[i] != 0
    {
      assert InTree(t, t.leaves[i]);
    }
    assert |t.data| > 12 ==> InTree(t, t.single);
    assert |t.data| > 140 ==> InTree(t, t.double);
  }

  lemma SingleOrder(d: Disk, t: Tree)
    requires TreeOk(t) && PtrsOk(d, t)
    ensures 0 <= t.single < 8192 && OnData(d, [t.single], 1) && FreeOrder(d, [t.single], 1) == SinglePart(t)
  {
    hide Ptr, OnDisk, Leaves, OnData, FreeOrder;
    TreeData(t);
    if |t.data| > 12 {
      SingleLeaves(d, t);
      LeavesOne(d, t.single, 1);
      var p := Pointees(d, t.single);
      assert forall i :: 0 <= i < 128 ==> p[i] == At(t, 12 + i);
      FreeOrderBottom(d, p);
    }
    OnDataOne(d, t.single, 1);
    FreeOrderOne(d, t.single, 1);
  }

  lemma {:induction false} TopOrder(d: Disk, t: Tree, i: nat)
    requires TreeOk(t) && PtrsOk(d, t) && 140 < |t.data| && |t.leaves| <= 128 && i <= 128
    ensures t.double < 8192 && OnData(d, Pointees(d, t.double)[..i], 1)
    ensures FreeOrder(d, Pointees(d, t.double)[..i], 1) == UnderDouble(t, Min(i, |t.leaves|))
  {
    hide Ptr, OnDisk, OnData, PtrsOk, TreeOk, FreeOrder, UnderDouble;
    TopOnDisk(d, t);
    var p := Pointees(d, t.double);
    if i == 0 {
      TopEntry(d, t, 0);
      NoneToFree(d, p, 1);
    } else {
      TopOrder(d, t, i - 1);
      TopEntry(d, t, i - 1);
      assert p[..i] == p[..i - 1] + [p[i - 1]];
      FreeOrderAppend(d, p[..i - 1], [p[i - 1]], 1);
    }
  }

  /** What entry i of the doubly indirect block adds. */
  lemma TopEntry(d: Disk, t: Tree, i: nat)
    requires TreeOk(t) && PtrsOk(d, t) && 140 < |t.data| && |t.leaves| <= 128 && i < 128
    ensures t.double < 8192 && OnData(d, [Pointees(d, t.double)[i]], 1)
    ensures UnderDouble(t, Min(i + 1, |t.leaves|)) ==
            UnderDouble(t, Min(i, |t.leaves|)) + FreeOrder(d, [Pointees(d, t.double)[i]], 1)
    ensures UnderDouble(t, 0) == []
  {
    hide Ptr, OnDisk, OnData, PtrsOk, TreeOk, FreeOrder;
    TopOnDisk(d, t);
    if i < |t.leaves| {
      LeafOrder(d, t, i);
    } else {
      OnDataOne(d, 0, 1);
      FreeOrderOne(d, 0, 1);
    }
  }

  lemma DoubleOrder(d: Disk, t: Tree)
    requires TreeOk(t) && PtrsOk(d, t)
    ensures 0 <= t.double < 8192 && OnData(d, [t.double], 2) && FreeOrder(d, [t.double], 2) == DoublePart(t)
  {
    hide Ptr, OnDisk, OnData, FreeOrder, PtrsOk;
    TreeData(t);
    TreeBound(t);
    if |t.data| > 140 {
      TopOrder(d, t, 128);
      assert Pointees(d, t.double)[..128] == Pointees(d, t.double);
    }
    OnDataOne(d, t.double, 2);
    FreeOrderOne(d, t.double, 2);
  }

  /** Pointer i of the inode adds its part to the order. */
  lemma NextPointer(d: Disk, node: Inode, t: Tree, i: nat)
    requires TreeOk(t) && Layout(d, node, t) && i < 15
    ensures OnData(d, [node.block[i]], DepthOf(i))
    ensures TreeOrder(t, i + 1) == TreeOrder(t, i) + FreeOrder(d, [node.block[i]], DepthOf(i))
  {
    hide OnData, FreeOrder, PtrsOk, PtrCount, DoublePart, SinglePart;
    TreeData(t);
    if i < 12 {
      OnDataOne(d, node.block[i], 0);
      FreeOrderOne(d, node.block[i], 0);
      if i < |t.data| { assert t.data[..i] + [t.data[i]] == t.data[..i + 1]; }
    } else if i == 12 {
      SingleOrder(d, t);
    } else if i == 13 {
      DoubleOrder(d, t);
    } else {
      OnDataOne(d, 0, 3);
      FreeOrderOne(d, 0, 3);
    }
  }

  ghost predicate Apart(xs: seq<nat>, ys: seq<nat>)
  {
    forall i, j :: 0 <= i < |xs| && 0 <= j < |ys| ==> xs[i] != ys[j]
  }

  lemma DistinctConcat(xs: seq<nat>, ys: seq<nat>)
    requires Distinct(xs) && Distinct(ys) && Apart(xs, ys)
    ensures Distinct(xs + ys)
    ensures forall c :: c in xs + ys <==> c in xs || c in ys
  {
  }

  /** Two stretches of the data blocks, one after the other. */
  lemma DataSlices(t: Tree, a: nat, b: nat)
    requires TreeOk(t) && a <= b <= |t.data|
    ensures Distinct(t.data[a..b])
    ensures forall c :: c in t.data[a..b] ==> c in t.data
    ensures Apart(t.data[a..b], t.leaves)
  {
    forall i, j | 0 <= i < |t.data[a..b]| && 0 <= j < |t.leaves|
      ensures t.data[a..b][i] != t.leaves[j]
    {
      assert t.data[a..b][i] in t.data && t.leaves[j] in t.leaves;
    }
  }

  lemma {:induction false} UnderDoubleOk(t: Tree, j: nat)
    requires TreeOk(t) && j <= |t.leaves| && |t.data| > 140
    ensures var hi, r := Min(140 + 128 * j, |t.data|), UnderDouble(t, j);
      && |r| == hi - 140 + j && Distinct(r)
      && forall c :: c in r <==> c in t.data[140..hi] || c in t.leaves[..j]
  {
    hide IsMeta;
    if j > 0 {
      var n, lo := |t.data|, 140 + 128 * (j - 1);
      var hi := Min(lo + 128, n);
      UnderDoubleOk(t, j - 1);
      var r, xs, p := UnderDouble(t, j - 1), t.data[lo..hi], t.leaves[j - 1];
      assert t.data[140..hi] == t.data[140..lo] + xs;
      assert t.leaves[..j] == t.leaves[..j - 1] + [p];
      UnderDoubleStep(t, j, r, xs);
    }
  }

  lemma UnderDoubleStep(t: Tree, j: nat, r: seq<nat>, xs: seq<nat>)
    requires TreeOk(t) && 0 < j <= |t.leaves| && |t.data| > 140
    requires 140 + 128 * (j - 1) <= |t.data|
    requires xs == t.data[140 + 128 * (j - 1)..Min(140 + 128 * j, |t.data|)]
    requires Distinct(r) && forall c :: c in r <==> c in t.data[140..140 + 128 * (j - 1)] || c in t.leaves[..j - 1]
    ensures Distinct(r + (xs + [t.leaves[j - 1]]))
    ensures forall c :: c in r + (xs + [t.leaves[j - 1]]) <==> c in r || c in xs || c == t.leaves[j - 1]
  {
    var lo, p := 140 + 128 * (j - 1), t.leaves[j - 1];
    DataSlices(t, lo, Min(lo + 128, |t.data|));
    DistinctConcat(xs, [p]);
    forall i, k | 0 <= i < |r| && 0 <= k < |xs + [p]|
      ensures r[i] != (xs + [p])[k]
    {
      var c := r[i];
      assert c in r;
      if c in t.data[140..lo] {
        var q :| 0 <= q < lo - 140 && t.data[140..lo][q] == c;
        assert t.data[140 + q] == c;
        if k < |xs| {
          assert xs[k] == t.data[lo + k];
        } else {
          assert t.data[140 + q] in t.data && p in t.leaves;
        }
      } else {
        var q :| 0 <= q < j - 1 && t.leaves[..j - 1][q] == c;
        assert t.leaves[q] == c;
        if k < |xs| {
          assert xs[k] == t.data[lo + k];
          assert t.data[lo + k] in t.data && c in t.leaves;
        }
      }
    }
    DistinctConcat(r, xs + [p]);
  }

  lemma DoublePartOk(t: Tree)
    requires TreeOk(t) && |t.data| > 140
    ensures var r := DoublePart(t);
      && |r| == |t.data| - 140 + LeafCount(|t.data|) + 1 && Distinct(r)
      && forall c :: c in r <==> c in t.data[140..] || c in t.leaves || c == t.double
  {
    hide UnderDouble, IsMeta;
    var n := |t.data|;
    UnderDoubleOk(t, |t.leaves|);
    assert Min(140 + 128 * |t.leaves|, n) == n;
    assert t.leaves[..|t.leaves|] == t.leaves && t.data[140..n] == t.data[140..];
    var r := UnderDouble(t, |t.leaves|);
    forall i | 0 <= i < |r|
      ensures r[i] != t.double
    {
      assert r[i] in r;
      assert r[i] in t.data[140..] ==> r[i] in t.data;
      assert IsPtr(t, t.double);
    }
    DistinctConcat(r, [t.double]);
  }

  lemma SinglePartOk(t: Tree)
    requires TreeOk(t) && |t.data| > 12
    ensures var hi, r := Min(140, |t.data|), SinglePart(t);
      && |r| == hi - 12 + 1 && Distinct(r)
      && forall c :: c in r <==> c in t.data[12..hi] || c == t.single
  {
    hide IsMeta;
    var hi := Min(140, |t.data|);
    var xs := t.data[12..hi];
    DataSlices(t, 12, hi);
    assert IsPtr(t, t.single);
    assert forall i :: 0 <= i < |xs| ==> xs[i] in t.data;
    DistinctConcat(xs, [t.single]);
  }

  lemma DataApart(t: Tree, a: nat, b: nat, c: nat, e: nat)
    requires TreeOk(t) && a <= b <= c <= e <= |t.data|
    ensures forall x :: x in t.data[a..b] ==> x !in t.data[c..e] && !IsPtr(t, x)
  {
    forall x | x in t.data[a..b]
      ensures x !in t.data[c..e] && !IsPtr(t, x)
    {
      var i :| 0 <= i < b - a && t.data[a..b][i] == x;
      assert t.data[a + i] == x;
      forall k | 0 <= k < e - c
        ensures t.data[c..e][k] != x
      {
        assert t.data[c..e][k] == t.data[c + k];
      }
    }
  }

  /** The order lists every block of the tree, and each exactly once. */
  lemma TreeOrderOk(t: Tree)
    requires TreeOk(t)
    ensures var r := TreeOrder(t, 15);
      && |r| == |t.data| + PtrCount(|t.data|) && Distinct(r)
      && forall c :: c in r <==> InTree(t, c)
  {
    hide IsMeta, SinglePart, DoublePart;
    var n := |t.data|;
    var a := Min(12, n);
    DataSlices(t, 0, a);
    var x := t.data[..a];
    assert t.data[0..a] == x;
    if n <= 12 {
      assert x == t.data;
      NoParts(t);
      assert TreeOrder(t, 15) == x;
    } else {
      var hi := Min(140, n);
      SinglePartOk(t);
      var y := SinglePart(t);
      DataApart(t, 0, 12, 12, hi);
      AllApart(x, y);
      DistinctConcat(x, y);
      if n <= 140 {
        assert t.data == x + t.data[12..hi];
        NoParts(t);
        assert TreeOrder(t, 15) == x + y;
      } else {
        assert t.data == x + t.data[12..140] + t.data[140..];
        DoublePartOk(t);
        var z := DoublePart(t);
        DataApart(t, 0, 12, 140, n);
        DataApart(t, 12, 140, 140, n);
        assert t.data[140..n] == t.data[140..];
        assert forall c :: c in t.data[140..] ==> c in t.data;
        AllApart(x + y, z);
        DistinctConcat(x + y, z);
        assert TreeOrder(t, 15) == x + y + z;
      }
    }
  }

  lemma NoParts(t: Tree)
    ensures |t.data| <= 12 ==> SinglePart(t) == []
    ensures |t.data| <= 140 ==> DoublePart(t) == []
  {
  }

  lemma AllApart(xs: seq<nat>, ys: seq<nat>)
    requires forall c :: c in xs ==> c !in ys
    ensures Apart(xs, ys)
  {
    forall i, j | 0 <= i < |xs| && 0 <= j < |ys|
      ensures xs[i] != ys[j]
    {
      assert xs[i] in xs && ys[j] in ys;
    }
  }

  /** The store after inode k and all its blocks are gone. */
  lemma DropOwned(d: Disk, nodes: map<nat, Inode>, trees: map<nat, Tree>, owner: map<nat, nat>, k: nat, e: Disk)
    requires Owned(d, nodes, trees, owner) && k in nodes
    requires forall c: nat :: c < 8192 ==> (Used(e, c) <==> Used(d, c) && !InTree(trees[k], c))
    requires forall c: nat :: IsData(c) ==> e[c] == d[c]
    ensures Owned(e, nodes - {k}, trees - {k}, Remaining(owner, k))
  {
    hide Used, Layout, IsMeta, TreeOk, FreeTotal, InTree;
    var ow := Remaining(owner, k);
    forall j | j in nodes && j != k
      ensures Layout(e, nodes[j], trees[j])
    {
      DataSameLayout(d, e, nodes[j], trees[j]);
    }
    forall j, b | j in trees - {k} && InTree(trees[j], b)
      ensures b in ow && ow[b] == j
    {
      assert b in owner;
    }
    forall b: nat | IsData(b)
      ensures Used(e, b) <==> b in ow
    {
      if b in owner && owner[b] == k {
        assert InTree(trees[k], b);
      }
    }
  }

  ghost function Remaining(owner: map<nat, nat>, k: nat): map<nat, nat>
  {
    map b | b in owner && owner[b] != k :: owner[b]
  }

  function OneMore(n: u32): (r: u32)
    ensures if n == 4294967295 then r == 0 else r == n + 1
  {
    var m: int := n;
    (m + 1) % 0x1_0000_0000
  }

  function InodeGiven(bgdt: seq<GroupDesc>, g: nat, directory: bool): (r: seq<GroupDesc>)
    requires g < |bgdt|
    ensures |r| == |bgdt| && forall h :: 0 <= h < |bgdt| && h != g ==> r[h] == bgdt[h]
    ensures r[g] == bgdt[g].(freeInodes := r[g].freeInodes, usedDirs := r[g].usedDirs)
    ensures if bgdt[g].freeInodes == 65535 then r[g].freeInodes == 0 else r[g].freeInodes == bgdt[g].freeInodes + 1
    ensures if !directory then r[g].usedDirs == bgdt[g].usedDirs
            else if bgdt[g].usedDirs == 0 then r[g].usedDirs == 65535 else r[g].usedDirs + 1 == bgdt[g].usedDirs
  {
    var n: int, m: int := bgdt[g].freeInodes, bgdt[g].usedDirs;
    bgdt[g := bgdt[g].(freeInodes := (n + 1) % 0x1_0000,
                       usedDirs := if directory then (m + 0xFFFF) % 0x1_0000 else m)]
  }

  /**
    The disk after inode k, with tree t, was deallocated: each owned block's bit cleared on its own, then the inode's
    bit.
   */
  function Deallocated(d: Disk, k: nat, t: Tree): (e: Disk)
    requires IsInode(k)
  {
    MarkInode(ClearAll(d, TreeOrder(t, 15)), k, false)
  }

  /** The pointers before the first zero one, where the loop of deallocate_node stops. */
  function Stop(p: Pointers): (i: nat)
    ensures i <= 15 && (i < 15 ==> p[i] == 0) && forall j :: 0 <= j < i ==> p[j] != 0
  {
    StopFrom(p, 0)
  }

  function StopFrom(p: Pointers, i: nat): (j: nat)
    requires i <= 15
    ensures i <= j <= 15 && (j < 15 ==> p[j] == 0) && forall k :: i <= k < j ==> p[k] != 0
    decreases 15 - i
  {
    if i == 15 || p[i] == 0 then i else StopFrom(p, i + 1)
  }

  /** The first n pointers and all below them are allocatable blocks. */
  ghost predicate PointersOnData(d: Disk, p: Pointers, n: nat)
    requires n <= 15
  {
    forall i :: 0 <= i < n ==> OnData(d, [p[i]], DepthOf(i))
  }

  /** The order in which the first n pointers and all below them are freed. */
  ghost function PointerOrder(d: Disk, p: Pointers, n: nat): (r: seq<nat>)
    requires n <= 15 && PointersOnData(d, p, n)
  {
    if n == 0 then [] else PointerOrder(d, p, n - 1) + FreeOrder(d, [p[n - 1]], DepthOf(n - 1))
  }

  lemma {:induction false} PointerOrderGrows(d: Disk, p: Pointers, m: nat, n: nat)
    requires m <= n <= 15 && PointersOnData(d, p, n)
    ensures PointersOnData(d, p, m) && |PointerOrder(d, p, m)| <= |PointerOrder(d, p, n)|
  {
    hide OnData, FreeOrder;
    if m < n { PointerOrderGrows(d, p, m, n - 1); }
  }

  /** Loop of deallocate_node over the fifteen pointers, with the bitmap cached; ends with the last write-back. */
  method DeallocatePointers(fs: Volume, node: Inode, group: nat)
    requires fs.SpaceValid() && group < 16 && PointersOnData(fs.blocks, node.block, Stop(node.block))
    requires Roomy(fs.account, |PointerOrder(fs.blocks, node.block, Stop(node.block))|)
    modifies fs`blocks, fs`bgdt, fs`sb, fs`account
    ensures fs.SpaceValid()
    ensures fs.blocks == ClearAll(old(fs.blocks), PointerOrder(old(fs.blocks), node.block, Stop(node.block)))
    ensures |old(fs.account).slack| == 16 && fs.account ==
            Spent(old(fs.account), old(fs.blocks), PointerOrder(old(fs.blocks), node.block, Stop(node.block)))
    ensures forall c: nat :: c < 8192 && !IsBlockBitmap(c) ==> fs.blocks[c] == old(fs.blocks)[c]
    ensures fs.sb.freeInodes == old(fs.sb.freeInodes) && OnlyCounts(old(fs.bgdt), fs.bgdt)
  {
    hide IsMeta, Used, FreeTotal, OnData, FreeOrder, ClearAll, SpaceOk, Flushed, Spent, PointerOrder, Stop,
      PointersOnData;
    ghost var d, a, p, n := fs.blocks, fs.account, node.block, Stop(node.block);
    SpaceGroup(d, fs.bgdt, fs.sb, fs.account, group);
    var last := group;
    var bitmap := fs.blocks[fs.bgdt[group].blockBitmap];
    StartFlushed(d, group);
    StartFree(d, a, p);
    var i := 0;
    while i < 15
      invariant 0 <= i <= n
      invariant Caching(fs, bitmap, last)
      invariant PointersOnData(d, p, i) && Flushed(fs.blocks, bitmap, last) == ClearAll(d, PointerOrder(d, p, i))
      invariant fs.account == Spent(a, d, PointerOrder(d, p, i))
      invariant forall c: nat :: c < 8192 && !IsBlockBitmap(c) ==> fs.blocks[c] == d[c]
      invariant fs.sb.freeInodes == old(fs.sb.freeInodes) && OnlyCounts(old(fs.bgdt), fs.bgdt)
    {
      StopAt(p, i);
      if node.block[i] == 0 {
        break;
      }
      FreeStep(d, fs.blocks, a, p, i);
      bitmap, last := DeallocateBlocks(fs, [node.block[i]], bitmap, DepthOf(i), last);
      i := i + 1;
    }
    FlushedIs(fs.blocks, bitmap, last);
    SpaceGroup(ClearAll(d, PointerOrder(d, p, n)), fs.bgdt, fs.sb, fs.account, last);
    fs.blocks := fs.blocks[fs.bgdt[last].blockBitmap := bitmap];
  }

  lemma StopAt(p: Pointers, i: nat)
    requires i < 15 && i <= Stop(p)
    ensures p[i] == 0 <==> i == Stop(p)
  {
  }

  lemma StartFlushed(d: Disk, g: nat)
    requires g < 16
    ensures BlockBitmapOf(g) < 8192 && Flushed(d, d[BlockBitmapOf(g)], g) == d
  {
  }

  lemma StartFree(d: Disk, a: Account, p: Pointers)
    requires |a.slack| == 16
    ensures PointersOnData(d, p, 0) && PointerOrder(d, p, 0) == [] && ClearAll(d, []) == d && Spent(a, d, []) == a
  {
  }

  lemma FreeableTree(d: Disk, t: Tree)
    requires TreeOk(t) && forall c :: InTree(t, c) ==> IsData(c) && Used(d, c)
    ensures Freeable(d, TreeOrder(t, 15))
  {
    hide IsMeta, Used, TreeOrder, TreeOk;
    TreeOrderOk(t);
    var r := TreeOrder(t, 15);
    forall i | 0 <= i < |r|
      ensures IsData(r[i]) && Used(d, r[i])
    {
      assert r[i] in r;
    }
  }

  lemma FreeStep(d: Disk, e: Disk, a: Account, p: Pointers, i: nat)
    requires i < Stop(p) && PointersOnData(d, p, Stop(p)) && Roomy(a, |PointerOrder(d, p, Stop(p))|)
    requires forall c: nat :: c < 8192 && !IsBlockBitmap(c) ==> e[c] == d[c]
    ensures OnData(e, [p[i]], DepthOf(i)) && PointersOnData(d, p, i) && PointersOnData(d, p, i + 1)
    ensures var xs, ys := PointerOrder(d, p, i), FreeOrder(e, [p[i]], DepthOf(i));
      && PointerOrder(d, p, i + 1) == xs + ys && Roomy(Spent(a, d, xs), |ys|)
      && ClearAll(d, xs + ys) == ClearAll(ClearAll(d, xs), ys) &&
         Spent(a, d, xs + ys) == Spent(Spent(a, d, xs), ClearAll(d, xs), ys)
  {
    hide IsMeta, OnData, FreeOrder, ClearAll, Spent, Stop;
    DataNotBitmap();
    FreeOrderFrame(d, e, [p[i]], DepthOf(i));
    PointerOrderGrows(d, p, i + 1, Stop(p));
    var xs, ys := PointerOrder(d, p, i), FreeOrder(e, [p[i]], DepthOf(i));
    RoomLeft(a, d, xs, |ys|);
    ClearAllAppend(d, xs, ys);
    SpentAppend(a, d, xs, ys);
  }

  /** On an inode that holds a tree, that is the order of the tree. */
  lemma {:induction false} PointerOrderIsTree(d: Disk, node: Inode, t: Tree, i: nat)
    requires TreeOk(t) && Layout(d, node, t) && i <= 15
    ensures PointersOnData(d, node.block, i) && PointerOrder(d, node.block, i) == TreeOrder(t, i)
  {
    hide Layout, TreeOk, OnData, FreeOrder;
    if i == 0 {
      StartTree(t);
    } else {
      PointerOrderIsTree(d, node, t, i - 1);
      NextPointer(d, node, t, i - 1);
    }
  }

  lemma StartTree(t: Tree)
    ensures TreeOrder(t, 0) == []
  {
  }

  lemma StopIsTree(d: Disk, node: Inode, t: Tree)
    requires TreeOk(t) && Layout(d, node, t)
    ensures PointersOnData(d, node.block, Stop(node.block))
    ensures PointerOrder(d, node.block, Stop(node.block)) == TreeOrder(t, 15)
  {
    hide Layout, TreeOk, Stop, PointerOrder, TreeOrder, PointersOnData;
    PointerOrderIsTree(d, node, t, Stop(node.block));
    RestEmpty(d, node, t, Stop(node.block));
  }

  /** After the first zero pointer nothing is left to free. */
  lemma RestEmpty(d: Disk, node: Inode, t: Tree, i: nat)
    requires TreeOk(t) && Layout(d, node, t) && i <= 15
    requires i < 15 ==> node.block[i] == 0
    ensures TreeOrder(t, i) == TreeOrder(t, 15)
  {
    hide PtrsOk, IsMeta, UnderDouble;
    SingleAbsent(t);
    TreeData(t);
  }

  /** What deallocate_node makes of any slot whose pointers lead to allocatable blocks only. */
  ghost predicate Tame(d: Disk, node: Inode)
  {
    PointersOnData(d, node.block, Stop(node.block)) && |PointerOrder(d, node.block, Stop(node.block))| <= 65023
  }

  ghost function GivenBack(d: Disk, k: nat): (e: Disk)
    requires IsInode(k) && Tame(d, InodeAt(d, k))
  {
    var p := InodeAt(d, k).block;
    MarkInode(ClearAll(d, PointerOrder(d, p, Stop(p))), k, false)
  }

  /**
    deallocate_node: clear the bit of every block the slot leads to, in use or not, then the inode's bit; the slot keeps
    its bytes.
   */
  method GiveBack(fs: Volume, k: nat)
    requires fs.SpaceValid() && IsInode(k) && Tame(fs.blocks, InodeAt(fs.blocks, k)) &&
      fs.account == Exact(fs.lead, fs.mark)
    modifies fs`blocks, fs`bgdt, fs`sb, fs`account
    ensures fs.SpaceValid() && fs.blocks == GivenBack(old(fs.blocks), k)
    ensures var p := InodeAt(old(fs.blocks), k).block;
      |old(fs.account).slack| == 16 &&
        fs.account == Spent(old(fs.account), old(fs.blocks), PointerOrder(old(fs.blocks), p, Stop(p)))
    ensures forall c: nat :: IsData(c) ==> fs.blocks[c] == old(fs.blocks)[c]
    ensures forall j: nat :: IsInode(j) ==>
      InodeAt(fs.blocks, j) == InodeAt(old(fs.blocks), j) &&
        InodeUsed(fs.blocks, j) == (j != k && InodeUsed(old(fs.blocks), j))
  {
    hide IsMeta, Used, FreeTotal, ClearAll, SpaceOk, InodeAt, InodeUsed, MarkInode, SetBit, PointerOrder,
      PointersOnData, Stop, Spent, OnData;
    ghost var d := fs.blocks;
    var node := ReadInode(fs, k);
    var group := InodeGroup(k);
    DeallocatePointers(fs, node, group);
    ghost var d1 := fs.blocks;
    InodeBitmapAt(d1, fs.bgdt, fs.sb, fs.account, k);
    var bitmap: Block := fs.blocks[fs.bgdt[group].inodeBitmap];
    bitmap := SetBit(bitmap, InodeLocal(k), false);
    fs.blocks := fs.blocks[fs.bgdt[group].inodeBitmap := bitmap];
    InodeFreed(d1, fs.bgdt, fs.sb, fs.account, k, FileType(node.mode) == MODE_DIR);
    GivenBackKeeps(d, d1, k, node);
    fs.bgdt := InodeGiven(fs.bgdt, group, FileType(node.mode) == MODE_DIR);
    fs.sb := fs.sb.(freeInodes := OneMore(fs.sb.freeInodes));
  }

  lemma GivenBackKeeps(d: Disk, d1: Disk, k: nat, n: Inode)
    requires IsInode(k) && forall c: nat :: c < 8192 && !IsBlockBitmap(c) ==> d1[c] == d[c]
    ensures var e := MarkInode(d1, k, false);
      && (forall c: nat :: IsData(c) ==> e[c] == d[c])
      && (forall j: nat :: IsInode(j) ==>
           InodeAt(e, j) == InodeAt(d, j) && InodeUsed(e, j) == (j != k && InodeUsed(d, j)))
  {
    hide IsMeta, MarkInode, InodeAt, InodeUsed;
    DataNotBitmap();
    InodeWritesMetaOnly(d1, k, false, n);
    forall j: nat | IsInode(j)
      ensures InodeAt(MarkInode(d1, k, false), j) == InodeAt(d, j)
      ensures InodeUsed(MarkInode(d1, k, false), j) == (j != k && InodeUsed(d, j))
    {
      MarkInodeEffect(d1, k, false, j);
      InodesKept(d, d1, j);
    }
  }

  /** The same on a live inode: exactly its own blocks were in use, so the counters stay exact and the store owned. */
  method DeallocateNode(fs: Volume, k: nat)
    requires fs.Own()
    requires k != 0 ==> k in fs.nodes && IsInode(k) && fs.nodes[k] == InodeAt(fs.blocks, k)
    modifies fs`blocks, fs`bgdt, fs`sb, fs`account, fs`nodes, fs`trees, fs`owner
    ensures fs.Own()
    ensures k == 0 ==> fs.blocks == old(fs.blocks) && fs.bgdt == old(fs.bgdt) && fs.sb == old(fs.sb)
    ensures fs.nodes == old(fs.nodes) - {k} && fs.trees == old(fs.trees) - {k}
    ensures k != 0 ==> fs.blocks == Deallocated(old(fs.blocks), k, old(fs.trees[k]))
    ensures k != 0 ==>
      var n := |old(fs.trees[k]).data|;
      FreeTotal(fs.blocks) == FreeTotal(old(fs.blocks)) + n + PtrCount(n) &&
      fs.sb.freeBlocks == old(fs.sb).freeBlocks + n + PtrCount(n)
    ensures forall c: nat :: IsData(c) ==> fs.blocks[c] == old(fs.blocks)[c]
    ensures k != 0 ==> forall j: nat :: IsInode(j) ==>
      InodeAt(fs.blocks, j) == InodeAt(old(fs.blocks), j) &&
      InodeUsed(fs.blocks, j) == (j != k && InodeUsed(old(fs.blocks), j))
  {
    hide IsMeta, Used, FreeTotal, Layout, ClearAll, SpaceOk, TreeOrder, TreeOk, Owned, InodeAt, InodeUsed, MarkInode,
      PointerOrder, PointersOnData, Stop, Spent, Exact, GivenBack;
    OwnedNotZero(fs.blocks, fs.nodes, fs.trees, fs.owner);
    if k == 0 {
      assert fs.nodes - {k} == fs.nodes && fs.trees - {k} == fs.trees;
      return;
    }
    ghost var d := fs.blocks;
    OwnedTree(d, fs.nodes, fs.trees, fs.owner, k);
    SpaceCounts(d, fs.bgdt, fs.sb, fs.account);
    LiveTame(d, fs.nodes[k], fs.trees[k], k, fs.account);
    GiveBack(fs, k);
    DeallocatedEffect(d, fs.nodes, fs.trees, fs.owner, k);
    SpaceCounts(fs.blocks, fs.bgdt, fs.sb, fs.account);
    fs.owner := Remaining(fs.owner, k);
    fs.nodes, fs.trees := fs.nodes - {k}, fs.trees - {k};
  }

  lemma LiveTame(d: Disk, node: Inode, t: Tree, k: nat, a: Account)
    requires IsInode(k) && node == InodeAt(d, k) && TreeOk(t) && Layout(d, node, t) && |a.slack| == 16
    requires forall c :: InTree(t, c) ==> IsData(c) && Used(d, c)
    ensures Tame(d, node) && GivenBack(d, k) == Deallocated(d, k, t)
    ensures Spent(a, d, PointerOrder(d, node.block, Stop(node.block))) == a
  {
    hide IsMeta, Used, Layout, ClearAll, TreeOrder, TreeOk, InodeAt, MarkInode, PointerOrder, Stop, Spent,
      PointersOnData;
    StopIsTree(d, node, t);
    FreeableTree(d, t);
    SpentFreeable(a, d, TreeOrder(t, 15));
    OrderShort(t);
  }

  lemma OrderShort(t: Tree)
    requires TreeOk(t)
    ensures |TreeOrder(t, 15)| <= 65023
  {
    hide TreeOrder, IsMeta;
    TreeOrderOk(t);
    TreeBound(t);
  }

  lemma OwnedNotZero(d: Disk, nodes: map<nat, Inode>, trees: map<nat, Tree>, owner: map<nat, nat>)
    requires Owned(d, nodes, trees, owner)
    ensures 0 !in nodes && 0 !in trees
  {
  }

  lemma OwnedTree(d: Disk, nodes: map<nat, Inode>, trees: map<nat, Tree>, owner: map<nat, nat>, k: nat)
    requires Owned(d, nodes, trees, owner) && k in nodes
    ensures k in trees && TreeOk(trees[k]) && Layout(d, nodes[k], trees[k]) && IsInode(k)
    ensures forall c :: InTree(trees[k], c) ==> IsData(c) && Used(d, c)
  {
    hide IsMeta, Used, Layout, TreeOk;
    forall c | InTree(trees[k], c)
      ensures IsData(c) && Used(d, c)
    {
      assert c in owner;
    }
  }

  lemma SpaceCounts(d: Disk, bgdt: seq<GroupDesc>, sb: Superblock, a: Account)
    requires SpaceOk(d, bgdt, sb, a)
    ensures sb.freeBlocks == FreeTotal(d) + a.lead && |a.slack| == 16
  {
  }

  lemma InodeBitmapAt(d: Disk, bgdt: seq<GroupDesc>, sb: Superblock, a: Account, k: nat)
    requires SpaceOk(d, bgdt, sb, a) && IsInode(k)
    ensures var g := InodeGroup(k);
      |bgdt| == 16 && bgdt[g].inodeBitmap == InodeBitmapOf(g) && InodeBitmapOf(g) < 8192 &&
      MarkInode(d, k, false) == d[InodeBitmapOf(g) := SetBit(d[InodeBitmapOf(g)], InodeLocal(k), false)]
  {
    BitmapsAreMeta(InodeGroup(k));
  }

  lemma InodeFreed(d: Disk, bgdt: seq<GroupDesc>, sb: Superblock, a: Account, k: nat, directory: bool)
    requires SpaceOk(d, bgdt, sb, a) && IsInode(k)
    ensures SpaceOk(MarkInode(d, k, false), InodeGiven(bgdt, InodeGroup(k), directory),
      sb.(freeInodes := OneMore(sb.freeInodes)), a)
  {
    hide IsMeta, Used, FreeTotal, MarkInode, SpaceOk;
    InodeWritesMetaOnly(d, k, false, Inode(0, 0, 0, NoPointers()));
    MetaKeepsSpace(d, MarkInode(d, k, false), bgdt, sb, a);
    SpaceInodeCounts(MarkInode(d, k, false), bgdt, sb, a, InodeGroup(k), directory);
  }

  lemma SpaceInodeCounts(d: Disk, bgdt: seq<GroupDesc>, sb: Superblock, a: Account, g: nat, directory: bool)
    requires SpaceOk(d, bgdt, sb, a) && g < 16
    ensures SpaceOk(d, InodeGiven(bgdt, g, directory), sb.(freeInodes := OneMore(sb.freeInodes)), a)
  {
    hide IsMeta, Used, FreeTotal, GroupFree;
  }

  lemma DeallocatedEffect(d: Disk, nodes: map<nat, Inode>, trees: map<nat, Tree>, owner: map<nat, nat>, k: nat)
    requires Owned(d, nodes, trees, owner) && k in nodes
    ensures IsInode(k)
    ensures var e := Deallocated(d, k, trees[k]); var n := |trees[k].data|;
      Owned(e, nodes - {k}, trees - {k}, Remaining(owner, k)) && FreeTotal(e) == FreeTotal(d) + n + PtrCount(n)
    ensures var e := Deallocated(d, k, trees[k]);
      (forall c: nat :: IsData(c) ==> e[c] == d[c]) &&
      (forall j: nat :: IsInode(j) ==>
        InodeAt(e, j) == InodeAt(d, j) && InodeUsed(e, j) == (j != k && InodeUsed(d, j)))
  {
    hide IsMeta, Used, FreeTotal, Layout, TreeOrder, TreeOk, ClearAll, Owned, MarkInode, InodeAt, InodeUsed;
    OwnedTree(d, nodes, trees, owner, k);
    var t := trees[k];
    FreeableTree(d, t);
    TreeOrderOk(t);
    ClearAllEffect(d, TreeOrder(t, 15));
    DataNotBitmap();
    var d1 := ClearAll(d, TreeOrder(t, 15));
    var e := MarkInode(d1, k, false);
    InodeWritesMetaOnly(d1, k, false, nodes[k]);
    SameUse(d1, e);
    DropOwned(d, nodes, trees, owner, k, e);
    forall j: nat | IsInode(j)
      ensures InodeAt(e, j) == InodeAt(d, j) && InodeUsed(e, j) == (j != k && InodeUsed(d, j))
    {
      MarkInodeEffect(d1, k, false, j);
      InodesKept(d, d1, j);
    }
  }
}
