/** Growing an inode's tree one block at a time. */
module Allocation {
  import opened Bytes
  import opened Geometry
  import opened Inodes
  import opened Space
  import opened BlockTree
  import opened Ownership
  import opened Volumes

  /** What `TryInsert` needs of the subtree it is pointed at. */
  ghost predicate Insertable(d: Disk, t: Tree, root: nat, depth: nat)
  {
    && TreeOk(t) && |t.leaves| < 127 && PtrsOk(d, t)
    && ((depth == 1 && |t.data| > 12 && root == t.single) || (depth == 2 && |t.data| > 140 && root == t.double))
  }

  /** Room is left in the last pointer block of this subtree. */
  predicate HasRoom(t: Tree, depth: nat)
  {
    if depth == 1 then |t.data| < 140 else (|t.data| - 140) % 128 != 0
  }

  /** The free slot, when there is room. */
  function Slot(t: Tree, depth: nat): nat
    requires depth == 1 ==> |t.data| >= 12
    requires depth != 1 ==> |t.data| >= 140
  {
    if depth == 1 then |t.data| - 12 else (|t.data| - 140) % 128
  }

  /**
    First half of allocate_additional_indirect_block: walk down the last used
    pointers and store the block in the first empty slot of the last level.
   */
  method TryInsert(fs: Volume, root: nat, inserting: u32, depth: nat, ghost t: Tree)
      returns (done: bool, additional: int)
    requires Insertable(fs.blocks, t, root, depth)
    modifies fs`blocks
    ensures done <==> HasRoom(t, depth)
    ensures !done ==> fs.blocks == old(fs.blocks) && additional == 1
    ensures done ==> IsData(Touched(t))
    ensures done ==>
      fs.blocks == old(fs.blocks)[Touched(t) := SetPtr(old(fs.blocks)[Touched(t)], Slot(t, depth), inserting)]
  {
    hide Ptr, SetPtr, IsMeta;
    InTreeFacts(t);
    var pointerBlock := root;
    var buf := fs.blocks[pointerBlock];
    additional := 0;
    done := false;
    for level := 0 to depth
      invariant fs.blocks == old(fs.blocks)
      invariant level < depth ==> additional == 0
      invariant level == depth ==> additional == 1 && !HasRoom(t, depth)
      invariant level == 0 ==> pointerBlock == root && buf == fs.blocks[root]
      invariant level == 1 && depth == 2 ==>
        pointerBlock == t.leaves[|t.leaves| - 1] && buf == fs.blocks[pointerBlock]
    {
      assert level == 1 ==> LeafOk(fs.blocks, t, |t.leaves| - 1);
      var i := 0;
      while i < 128
        invariant 0 <= i <= 128 && fs.blocks == old(fs.blocks)
        invariant additional == if level == depth - 1 && i == 128 then 1 else 0
        invariant level == depth - 1 ==>
          (depth == 1 ==> 12 + i <= |t.data|) && (depth == 2 ==> 140 + 128 * (|t.leaves| - 1) + i <= |t.data|)
        invariant level != depth - 1 ==> i <= |t.leaves|
      {
        if level == depth - 1 && Ptr(buf, i) == 0 {
          buf := SetPtr(buf, i, inserting);
          fs.blocks := fs.blocks[pointerBlock := buf];
          return true, additional;
        } else if level == depth - 1 && Ptr(buf, i) != 0 {
          if i == 127 {
            additional := additional + 1;
          }
        } else if level != depth - 1 && Ptr(buf, i) == 0 && i > 0 {
          pointerBlock := Ptr(buf, i - 1);
          buf := fs.blocks[pointerBlock];
          if i == 127 {
            additional := additional + 1;
          }
          break;
        }
        i := i + 1;
      }
    }
  }

  lemma PtrsInTree(t: Tree)
    requires TreeOk(t)
    ensures forall c :: IsPtr(t, c) ==> InTree(t, c) && c != 0
    ensures |t.data| > 140 ==> t.leaves[|t.leaves| - 1] in t.leaves
  {
    forall c | IsPtr(t, c)
      ensures InTree(t, c) && c != 0
    {
      assert InTree(t, c);
    }
  }

  lemma InTreeFacts(t: Tree)
    requires TreeOk(t)
    ensures forall i :: 0 <= i < |t.data| ==> t.data[i] != 0 && t.data[i] < 8192 && IsData(t.data[i])
    ensures forall i :: 0 <= i < |t.leaves| ==> t.leaves[i] != 0 && t.leaves[i] < 8192 && IsData(t.leaves[i])
    ensures |t.data| > 12 ==> t.single != 0 && IsData(t.single)
    ensures |t.data| > 140 ==> t.double != 0 && IsData(t.double)
  {
    forall i | 0 <= i < |t.data|
      ensures t.data[i] != 0 && t.data[i] < 8192 && IsData(t.data[i])
    {
      assert InTree(t, t.data[i]);
    }
    forall i | 0 <= i < |t.leaves|
      ensures t.leaves[i] != 0 && t.leaves[i] < 8192 && IsData(t.leaves[i])
    {
      assert InTree(t, t.leaves[i]);
    }
    assert |t.data| > 12 ==> InTree(t, t.single);
    assert |t.data| > 140 ==> InTree(t, t.double);
  }

  /** What block i of a fresh pointer chain points at. */
  function Link(ptrs: seq<nat>, inserting: nat, i: nat): nat
    requires i < |ptrs|
  {
    if i == 0 then inserting else ptrs[i - 1]
  }

  /** Each block of a fresh pointer chain points at the one before it, the first at the inserted block. */
  ghost predicate ChainOk(d: Disk, ptrs: seq<nat>, inserting: nat)
  {
    forall i: nat :: i < |ptrs| ==> ptrs[i] < 8192 && Singleton(d[ptrs[i]], Link(ptrs, inserting, i))
  }

  /** The block number the next pointer block of the chain has to hold. */
  function ChainEnd(ptrs: seq<nat>, inserting: nat): nat
  {
    if |ptrs| == 0 then inserting else ptrs[|ptrs| - 1]
  }

  lemma TakeAndWrite(d: Disk, b: nat, buf: Block)
    requires IsData(b) && !Used(d, b) && FreeTotal(MarkBlock(d, b, true)) == FreeTotal(d) - 1
    ensures var f := MarkBlock(d, b, true)[b := buf];
      Took(d, f, [b]) && f[b] == buf && forall c: nat :: IsData(c) && c != b ==> f[c] == d[c]
  {
    hide Used, FreeTotal, IsMeta, MarkBlock, Took;
    var e := MarkBlock(d, b, true);
    MarkTook(d, b);
    WriteTook(e, b, buf);
    TookTrans(d, e, e[b := buf], [b], []);
    assert [b] + [] == [b];
  }

  lemma TookUsed(d: Disk, e: Disk, taken: seq<nat>)
    requires Took(d, e, taken)
    ensures forall i :: 0 <= i < |taken| ==> IsData(taken[i]) && Used(e, taken[i])
  {
    assert forall i :: 0 <= i < |taken| ==> taken[i] in taken;
  }

  /** Taking one more block and writing it extends the chain. */
  lemma ExtendChain(d: Disk, e: Disk, ptrs: seq<nat>, inserting: nat, b: nat, buf: Block)
    requires Took(d, e, ptrs) && ChainOk(e, ptrs, inserting)
    requires IsData(b) && !Used(e, b) && FreeTotal(MarkBlock(e, b, true)) == FreeTotal(e) - 1
    requires Singleton(buf, ChainEnd(ptrs, inserting))
    ensures var f := MarkBlock(e, b, true)[b := buf];
      Took(d, f, ptrs + [b]) && ChainOk(f, ptrs + [b], inserting) &&
      forall c: nat :: IsData(c) && c != b ==> f[c] == e[c]
  {
    hide Used, FreeTotal, IsMeta, MarkBlock, Singleton, Took;
    TookUsed(d, e, ptrs);
    TakeAndWrite(e, b, buf);
    var f := MarkBlock(e, b, true)[b := buf];
    TookTrans(d, e, f, ptrs, [b]);
    var r := ptrs + [b];
    forall i: nat | i < |r|
      ensures r[i] < 8192 && Singleton(f[r[i]], Link(r, inserting, i))
    {
      if i < |ptrs| {
        assert r[i] == ptrs[i] && Link(r, inserting, i) == Link(ptrs, inserting, i);
        assert f[ptrs[i]] == e[ptrs[i]];
      } else {
        assert r[i] == b && Link(r, inserting, i) == ChainEnd(ptrs, inserting);
      }
    }
  }

  /**
    The loop both halves of allocate_additional_indirect_block share: a chain of
    fresh pointer blocks, each holding one pointer, ending in the inserted block.
   */
  method BuildPointerChain(fs: Volume, preferred: nat, inserting: u32, levels: nat)
      returns (pointed: u32, ghost ptrs: seq<nat>)
    requires fs.SpaceValid() && FreeTotal(fs.blocks) >= levels
    modifies fs`blocks, fs`bgdt, fs`sb
    ensures fs.SpaceValid() && OnlyCounts(old(fs.bgdt), fs.bgdt)
    ensures |ptrs| == levels && Took(old(fs.blocks), fs.blocks, ptrs)
    ensures pointed == ChainEnd(ptrs, inserting)
    ensures ChainOk(fs.blocks, ptrs, inserting)
    ensures forall c: nat :: IsData(c) && c !in ptrs ==> fs.blocks[c] == old(fs.blocks)[c]
    ensures LocalTo(old(fs.blocks), fs.blocks, preferred)
  {
    hide Used, FreeTotal, IsMeta, Ptr, SetPtr, MarkBlock, SpaceOk, LocalTo, Nearest;
    ghost var d := fs.blocks;
    pointed := inserting;
    ptrs := [];
    LocalWrite(d, d, preferred);
    for level := 0 to levels
      invariant fs.SpaceValid() && OnlyCounts(old(fs.bgdt), fs.bgdt) && |ptrs| == level && Took(d, fs.blocks, ptrs)
      invariant pointed == ChainEnd(ptrs, inserting)
      invariant ChainOk(fs.blocks, ptrs, inserting)
      invariant forall c: nat :: IsData(c) && c !in ptrs ==> fs.blocks[c] == d[c]
      invariant LocalTo(d, fs.blocks, preferred)
    {
      ghost var d1 := fs.blocks;
      var pointerBlock := FindFreeAnywhere(fs, preferred);
      LocalTrans(d, d1, fs.blocks, preferred);
      ZeroPtrs();
      var buf := SetPtr(ZeroBlock(), 0, pointed);
      ExtendChain(d, d1, ptrs, inserting, pointerBlock, buf);
      WriteKeepsSpaceAt(fs.blocks, pointerBlock, buf, fs.bgdt, fs.sb, fs.account);
      LocalDataWrite(fs.blocks, pointerBlock, buf, preferred);
      LocalTrans(d, fs.blocks, fs.blocks[pointerBlock := buf], preferred);
      fs.blocks := fs.blocks[pointerBlock := buf];
      ptrs := ptrs + [pointerBlock];
      pointed := pointerBlock;
    }
  }

  lemma WriteKeepsSpaceAt(d: Disk, b: nat, buf: Block, bgdt: seq<GroupDesc>, sb: Superblock, a: Account)
    requires SpaceOk(d, bgdt, sb, a) && IsData(b)
    ensures SpaceOk(d[b := buf], bgdt, sb, a)
  {
    forall g: nat | g < 16
      ensures d[BlockBitmapOf(g)] == d[b := buf][BlockBitmapOf(g)]
    {
      BitmapsAreMeta(g);
    }
    WriteKeepsSpace(d, d[b := buf], bgdt, sb, a);
  }

  /**
    Last loop of allocate_additional_indirect_block: hang the new leaf pointer block onto the doubly indirect block.
   */
  method AppendPointer(fs: Volume, root: nat, pointer: u32, ghost t: Tree)
    requires TreeOk(t) && |t.data| > 140 && |t.leaves| < 127 && root == t.double && TopOk(fs.blocks, t)
    modifies fs`blocks
    ensures fs.blocks == old(fs.blocks)[root := SetPtr(old(fs.blocks)[root], |t.leaves|, pointer)]
  {
    hide Ptr, SetPtr, IsMeta;
    InTreeFacts(t);
    var buf := fs.blocks[root];
    var i := 0;
    while i < 128
      invariant 0 <= i <= |t.leaves| && fs.blocks == old(fs.blocks)
    {
      if Ptr(buf, i) == 0 {
        buf := SetPtr(buf, i, pointer);
        fs.blocks := fs.blocks[root := buf];
        return;
      }
      i := i + 1;
    }
  }

  /** The state `AllocateIndirect` works in: the tree is on disk and used, the block to insert is used but not in it. */
  ghost predicate Pending(d: Disk, node: Inode, t: Tree, b: nat)
  {
    && TreeOk(t) && |t.leaves| < 127 && PtrsOk(d, t)
    && node.block[12] == t.single && node.block[13] == t.double
    && IsData(b) && !InTree(t, b)
    && (forall c :: InTree(t, c) || c == b ==> IsData(c) && Used(d, c))
  }

  /**
    Block b was hung onto the indirect part of the tree, with the fresh pointer blocks
    `ptrs`; of the blocks in use before, only the touched pointer block changed.
   */
  ghost predicate Hung(d: Disk, e: Disk, node: Inode, m: Inode, t: Tree, b: u32, ptrs: seq<nat>)
    requires TreeOk(t) && |t.leaves| < 127 && IsData(b)
  {
    && |ptrs| == ExtraPtrs(|t.data|)
    && Took(d, e, ptrs)
    && Inserted(d, e, t, b, ptrs)
    && (forall c: nat :: IsData(c) && Used(d, c) && c != Touched(t) ==> e[c] == d[c])
    && var r := Grow(t, b, ptrs);
       node.blocks + |ptrs| < 0x1_0000_0000 && r.single < 0x1_0000_0000 && r.double < 0x1_0000_0000
       && m == node.(blocks := node.blocks + |ptrs|, block := node.block[12 := r.single][13 := r.double])
  }

  lemma HungByChain(d: Disk, e: Disk, node: Inode, t: Tree, b: u32, depth: nat, ptrs: seq<nat>)
    requires Pending(d, node, t, b) && node.blocks < 0x1_0000
    requires (depth == 1 && |t.data| == 12) || (depth == 2 && |t.data| == 140)
    requires |ptrs| == depth && Took(d, e, ptrs) && ChainOk(e, ptrs, b)
    requires forall c: nat :: IsData(c) && c !in ptrs ==> e[c] == d[c]
    ensures ptrs[depth - 1] < 8192
    ensures var m := node.(blocks := node.blocks + depth, block := node.block[12 + depth - 1 := ptrs[depth - 1]]);
      Hung(d, e, node, m, t, b, ptrs)
  {
    hide Used, FreeTotal, IsMeta, Ptr, SetPtr, PtrsOk;
    PtrsInTree(t);
    assert forall c :: c in ptrs ==> !Used(d, c);
    assert Singleton(e[ptrs[0]], Link(ptrs, b, 0));
    if depth == 2 { assert Singleton(e[ptrs[1]], Link(ptrs, b, 1)); }
  }

  lemma HungInPlace(d: Disk, node: Inode, t: Tree, b: u32, depth: nat)
    requires Pending(d, node, t, b) && node.blocks < 0x1_0000
    requires (depth == 1 && |t.data| > 12) || (depth == 2 && |t.data| > 140)
    requires HasRoom(t, depth)
    requires IsData(Touched(t))
    ensures Hung(d, d[Touched(t) := SetPtr(d[Touched(t)], Slot(t, depth), b)], node, node, t, b, [])
  {
    hide Used, FreeTotal, IsMeta, Ptr, SetPtr, PtrsOk;
    PtrsInTree(t);
    WriteTook(d, Touched(t), SetPtr(d[Touched(t)], Slot(t, depth), b));
  }

  /** Hanging a fresh leaf pointer block onto the doubly indirect block inserts the block it points at. */
  lemma InsertedNewLeaf(d: Disk, e: Disk, t: Tree, b: u32, leaf: nat, buf: Block)
    requires TreeOk(t) && |t.leaves| < 127 && |t.data| > 140 && (|t.data| - 140) % 128 == 0 && b < 8192
    requires leaf < 8192 && IsData(t.double) && leaf != t.double && Singleton(e[leaf], b)
    requires buf == SetPtr(d[t.double], |t.leaves|, leaf)
    requires forall c: nat :: c < 8192 && IsPtr(t, c) ==> e[c] == d[c]
    ensures Inserted(d, e[t.double := buf], t, b, [leaf])
  {
    hide Ptr, SetPtr, IsMeta, Singleton, IsPtr;
  }

  lemma HungNewLeaf(d: Disk, e: Disk, node: Inode, t: Tree, b: u32, ptrs: seq<nat>)
    requires Pending(d, node, t, b) && node.blocks < 0x1_0000
    requires |t.data| > 140 && !HasRoom(t, 2)
    requires |ptrs| == 1 && Took(d, e, ptrs) && ChainOk(e, ptrs, b)
    requires forall c: nat :: IsData(c) && c !in ptrs ==> e[c] == d[c]
    ensures IsData(t.double) && TopOk(e, t)
    ensures ptrs[0] < 8192
    ensures var f := e[t.double := SetPtr(e[t.double], |t.leaves|, ptrs[0])];
      Hung(d, f, node, node.(blocks := node.blocks + 1), t, b, ptrs)
  {
    hide Used, FreeTotal, IsMeta, Ptr, SetPtr, PtrsOk, Took, Singleton, TopOk, Inserted, Grow, HasRoom, ExtraPtrs,
      Touched;
    GrowNewLeaf(t, b, ptrs);
    InTreeFacts(t);
    NewLeafTook(d, e, t, ptrs, SetPtr(e[t.double], |t.leaves|, ptrs[0]));
    PtrsInTree(t);
    assert Singleton(e[ptrs[0]], Link(ptrs, b, 0));
    assert ptrs == [ptrs[0]];
    InsertedNewLeaf(d, e, t, b, ptrs[0], SetPtr(e[t.double], |t.leaves|, ptrs[0]));
  }

  lemma GrowNewLeaf(t: Tree, b: nat, ptrs: seq<nat>)
    requires TreeOk(t) && |t.data| > 140 && !HasRoom(t, 2) && |ptrs| == 1
    ensures (|t.data| - 140) % 128 == 0 && ExtraPtrs(|t.data|) == 1 && Touched(t) == t.double
    ensures Grow(t, b, ptrs).single == t.single && Grow(t, b, ptrs).double == t.double
  {
  }

  lemma NewLeafTook(d: Disk, e: Disk, t: Tree, ptrs: seq<nat>, buf: Block)
    requires TreeOk(t) && |t.data| > 140 && PtrsOk(d, t)
    requires forall c :: InTree(t, c) ==> IsData(c) && Used(d, c)
    requires |ptrs| == 1 && Took(d, e, ptrs)
    requires forall c: nat :: IsData(c) && c !in ptrs ==> e[c] == d[c]
    ensures IsData(t.double) && ptrs[0] < 8192 && t.double != ptrs[0]
    ensures TopOk(e, t) && e[t.double] == d[t.double]
    ensures forall c :: c in ptrs ==> !Used(d, c)
    ensures Took(d, e[t.double := buf], ptrs)
  {
    hide Used, FreeTotal, IsMeta, Ptr, SetPtr;
    assert InTree(t, t.double);
    assert ptrs[0] in ptrs;
    WriteTook(e, t.double, buf);
    TookTrans(d, e, e[t.double := buf], ptrs, []);
    assert ptrs + [] == ptrs;
  }

  /** allocate_additional_indirect_block: 0 when this level of indirection is full. */
  method AllocateIndirect(fs: Volume, node: Inode, preferred: nat, inserting: u32, depth: nat, ghost t: Tree)
      returns (status: nat, node': Inode, ghost ptrs: seq<nat>)
    requires fs.SpaceValid() && FreeTotal(fs.blocks) >= 3 && Pending(fs.blocks, node, t, inserting)
    requires (depth == 1 && |t.data| >= 12) || (depth == 2 && |t.data| >= 140)
    requires node.blocks < 0x1_0000
    modifies fs`blocks, fs`bgdt, fs`sb
    ensures fs.SpaceValid() && OnlyCounts(old(fs.bgdt), fs.bgdt)
    ensures status == if depth == 1 && |t.data| >= 140 then 0 else inserting
    ensures depth == 1 && |t.data| >= 140 ==>
      node' == node && fs.blocks == old(fs.blocks) && fs.bgdt == old(fs.bgdt) && fs.sb == old(fs.sb)
    ensures depth == 2 || |t.data| < 140 ==> Hung(old(fs.blocks), fs.blocks, node, node', t, inserting, ptrs)
    ensures LocalTo(old(fs.blocks), fs.blocks, preferred)
  {
    hide Used, FreeTotal, IsMeta, Ptr, SetPtr, Hung, Took, SpaceOk, LocalTo;
    ghost var d := fs.blocks;
    LocalWrite(d, d, preferred);
    var index := 12 + depth - 1;
    node' := node;
    ptrs := [];
    InTreeFacts(t);
    if node.block[index] == 0 {
      var pointed;
      pointed, ptrs := BuildPointerChain(fs, preferred, inserting, depth);
      HungByChain(d, fs.blocks, node, t, inserting, depth, ptrs);
      node' := node.(blocks := node.blocks + depth, block := node.block[index := pointed]);
      status := inserting;
      return;
    }
    var done, additional := TryInsert(fs, node.block[index], inserting, depth, t);
    if done {
      status := inserting;
      HungInPlace(d, node, t, inserting, depth);
      WriteKeepsSpaceAt(d, Touched(t), SetPtr(d[Touched(t)], Slot(t, depth), inserting), fs.bgdt, fs.sb, fs.account);
      LocalDataWrite(d, Touched(t), SetPtr(d[Touched(t)], Slot(t, depth), inserting), preferred);
      return;
    }
    if additional >= depth || additional == 0 {
      status := 0;
      return;
    }
    var pointed;
    pointed, ptrs := BuildPointerChain(fs, preferred, inserting, additional);
    ghost var d1 := fs.blocks;
    HungNewLeaf(d, d1, node, t, inserting, ptrs);
    AppendPointer(fs, node.block[index], pointed, t);
    WriteKeepsSpaceAt(d1, t.double, fs.blocks[t.double], fs.bgdt, fs.sb, fs.account);
    LocalDataWrite(d1, t.double, fs.blocks[t.double], preferred);
    LocalTrans(d, d1, fs.blocks, preferred);
    node' := node.(blocks := node.blocks + additional);
    status := inserting;
  }

  /** Inode and disk hold this tree, and all its blocks are in use. */
  ghost predicate Sole(d: Disk, node: Inode, t: Tree)
  {
    TreeOk(t) && Layout(d, node, t) && forall c :: InTree(t, c) ==> IsData(c) && Used(d, c)
  }

  /**
    From d to e one block was appended to tree t, and of what was in use only the pointer block it hangs from changed.
   */
  ghost predicate Added(d: Disk, node: Inode, t: Tree, e: Disk, m: Inode, r: Tree, block: nat)
    requires TreeOk(t)
  {
    && m.mode == node.mode && r.data == t.data + [block] && IsData(block) && !Used(d, block)
    && FreeTotal(e) + 1 + ExtraPtrs(|t.data|) == FreeTotal(d)
    && (forall c :: InTree(r, c) <==> InTree(t, c) || New(d, e, c))
    && (forall c: nat :: c < 8192 && Used(d, c) ==> Used(e, c))
    && (forall c: nat :: IsData(c) && Used(d, c) && c != Touched(t) ==> e[c] == d[c])
    && (forall c: nat :: c < 8192 && IsMeta(c) && !IsBlockBitmap(c) ==> e[c] == d[c])
  }

  /** Step shared by the direct and indirect cases: what the writes amount to. */
  lemma AddedByTaking(d: Disk, node: Inode, t: Tree, d1: Disk, e: Disk, m: Inode, block: nat, ptrs: seq<nat>)
    requires Sole(d, node, t) && |t.leaves| < 127
    requires IsData(block) && !Used(d, block) && d1 == MarkBlock(d, block, true) && Took(d, d1, [block])
    requires |ptrs| == ExtraPtrs(|t.data|) && Took(d1, e, ptrs)
    requires (forall i :: 0 <= i < |ptrs| ==> ptrs[i] < 8192) && Inserted(d1, e, t, block, ptrs)
    requires forall c: nat :: IsData(c) && Used(d1, c) && c != Touched(t) ==> e[c] == d1[c]
    requires Shape(m, Grow(t, block, ptrs)) && m.mode == node.mode
    ensures Sole(e, m, Grow(t, block, ptrs)) && Added(d, node, t, e, m, Grow(t, block, ptrs), block)
  {
    hide Used, FreeTotal, IsMeta, MarkBlock, PtrsOk, Inserted, Shape, Layout;
    var r := Grow(t, block, ptrs);
    TookTrans(d, d1, e, [block], ptrs);
    assert forall c :: c in [block] + ptrs <==> c == block || c in ptrs;
    assert block in [block];
    assert forall c :: c in ptrs ==> IsData(c) && !InTree(t, c);
    assert !InTree(t, block) && block !in ptrs;
    GrowOk(t, block, ptrs);
    MarkTookData(d, block);
    LayoutFrame(d, d1, node, t);
    GrownLayout(d1, e, node, m, t, block, ptrs);
    NewIsTaken(d, e, [block] + ptrs);
    assert forall c :: InTree(r, c) <==> InTree(t, c) || c in [block] + ptrs;
  }

  lemma GrownLayout(d: Disk, e: Disk, node: Inode, m: Inode, t: Tree, block: nat, ptrs: seq<nat>)
    requires TreeOk(t) && Layout(d, node, t) && |t.leaves| < 127 && |ptrs| == ExtraPtrs(|t.data|) && block < 8192
    requires (forall i :: 0 <= i < |ptrs| ==> ptrs[i] < 8192) && Inserted(d, e, t, block, ptrs)
    requires Shape(m, Grow(t, block, ptrs))
    ensures Layout(e, m, Grow(t, block, ptrs))
  {
    hide PtrsOk, Shape, Inserted, TreeOk;
    InsertedPtrs(d, t, e, block, ptrs);
  }

  lemma NewIsTaken(d: Disk, e: Disk, taken: seq<nat>)
    requires Took(d, e, taken)
    ensures forall c: nat :: New(d, e, c) <==> c in taken
    ensures forall c: nat :: c in taken ==> IsData(c) && Used(e, c)
  {
    hide Used, FreeTotal, IsMeta;
    assert forall i :: 0 <= i < |taken| ==> taken[i] in taken;
  }

  lemma MarkTookData(d: Disk, b: nat)
    requires IsData(b)
    ensures forall c: nat :: IsData(c) ==> MarkBlock(d, b, true)[c] == d[c]
  {
  }

  /** When a block was just taken, the tree is ready for the block to be inserted. */
  lemma PendingAfterTake(d: Disk, old': Inode, t: Tree, block: nat, node: Inode)
    requires Sole(d, old', t) && |t.leaves| < 127
    requires IsData(block) && !Used(d, block) && FreeTotal(MarkBlock(d, block, true)) == FreeTotal(d) - 1
    requires node.block == old'.block
    ensures Took(d, MarkBlock(d, block, true), [block])
    ensures Pending(MarkBlock(d, block, true), node, t, block)
  {
    hide FreeTotal, IsMeta, Used, MarkBlock, TreeOk;
    var d1 := MarkBlock(d, block, true);
    MarkTook(d, block);
    LayoutFrame(d, d1, old', t);
    assert block in [block];
  }

  /** allocate_additional_block: refuses unless four blocks are free, whatever it would need. */
  method AppendBlock(fs: Volume, node: Inode, preferred: nat, ghost t: Tree)
      returns (block: nat, node': Inode, ghost r: Tree)
    requires fs.SpaceValid() && Sole(fs.blocks, node, t)
    modifies fs`blocks, fs`bgdt, fs`sb
    ensures fs.SpaceValid() && OnlyCounts(old(fs.bgdt), fs.bgdt)
    ensures block == 0 <==> FreeTotal(old(fs.blocks)) < 4
    ensures block == 0 ==>
      node' == node && r == t && fs.blocks == old(fs.blocks) && fs.bgdt == old(fs.bgdt) && fs.sb == old(fs.sb)
    ensures block != 0 ==> Sole(fs.blocks, node', r) && Added(old(fs.blocks), node, t, fs.blocks, node', r, block)
    ensures block != 0 ==> Nearest(old(fs.blocks), preferred, block)
    ensures LocalTo(old(fs.blocks), fs.blocks, preferred)
  {
    hide Used, FreeTotal, IsMeta, MarkBlock, PtrsOk, SpaceOk, Added, Took, Pending, TreeOk, Sole, LocalTo, Nearest;
    LocalWrite(fs.blocks, fs.blocks, preferred);
    node' := node;
    block := 0;
    r := t;
    var exist := ExistFreeBlocks(fs, 4);
    if !exist {
      return;
    }
    ghost var d := fs.blocks;
    block := FindFreeAnywhere(fs, preferred);
    ghost var d1 := fs.blocks;
    SoleShape(d, node, t);
    TreeBound(t);
    InTreeFacts(t);
    node' := node.(blocks := node.blocks + 1, size := node.size + BLOCK_SIZE);
    PendingAfterTake(d, node, t, block, node');
    var i := 0;
    while i < 12
      invariant 0 <= i <= 12 && i <= |t.data|
      invariant fs.blocks == d1 && fs.SpaceValid() && OnlyCounts(old(fs.bgdt), fs.bgdt)
    {
      if node'.block[i] == 0 {
        node' := node'.(block := node'.block[i := block]);
        r := Grow(t, block, []);
        AddedDirect(d, node, t, d1, node', block);
        return;
      }
      i := i + 1;
    }
    node', r := AppendThroughIndirect(fs, node', preferred, block, d, node, t);
    LocalTrans(d, d1, fs.blocks, preferred);
  }

  lemma SoleShape(d: Disk, node: Inode, t: Tree)
    requires Sole(d, node, t)
    ensures Shape(node, t) && TreeOk(t)
  {
  }

  /** Second loop of allocate_additional_block: the singly, then the doubly indirect block. */
  method AppendThroughIndirect(fs: Volume, node: Inode, preferred: nat, block: u32, ghost d: Disk, ghost old': Inode,
                               ghost t: Tree)
      returns (node': Inode, ghost r: Tree)
    requires Sole(d, old', t) && 12 <= |t.data| <= 8192 && |t.leaves| <= 63
    requires Shape(old', t) && node == old'.(blocks := old'.blocks + 1, size := old'.size + 512)
    requires block != 0 && IsData(block) && !Used(d, block) && Took(d, fs.blocks, [block])
    requires fs.SpaceValid() && FreeTotal(fs.blocks) >= 3 && fs.blocks == MarkBlock(d, block, true) &&
      Pending(fs.blocks, node, t, block)
    modifies fs`blocks, fs`bgdt, fs`sb
    ensures fs.SpaceValid() && OnlyCounts(old(fs.bgdt), fs.bgdt)
    ensures Sole(fs.blocks, node', r) && Added(d, old', t, fs.blocks, node', r, block)
    ensures LocalTo(old(fs.blocks), fs.blocks, preferred)
  {
    hide Used, FreeTotal, IsMeta, MarkBlock, PtrsOk, SpaceOk, Added, Took, Pending, Hung, Sole, LocalTo;
    ghost var d1 := fs.blocks;
    ghost var ptrs;
    var status;
    node', r := node, t;
    for i := 12 to 14
      invariant fs.SpaceValid() && fs.blocks == d1 && node' == node && OnlyCounts(old(fs.bgdt), fs.bgdt)
      invariant i > 12 ==> |t.data| >= 140
      invariant i <= 13
    {
      status, node', ptrs := AllocateIndirect(fs, node', preferred, block, i - 11, t);
      if status != 0 {
        AddedHung(d, old', t, d1, fs.blocks, node, node', block, ptrs);
        r := Grow(t, block, ptrs);
        return;
      }
    }
  }

  lemma AddedHung(d: Disk, old': Inode, t: Tree, d1: Disk, e: Disk, node: Inode, m: Inode, block: u32, ptrs: seq<nat>)
    requires Sole(d, old', t) && Shape(old', t) && 12 <= |t.data| <= 8192 && |t.leaves| <= 63
    requires IsData(block) && !Used(d, block) && d1 == MarkBlock(d, block, true) && Took(d, d1, [block])
    requires node == old'.(blocks := old'.blocks + 1, size := old'.size + 512)
    requires Hung(d1, e, node, m, t, block, ptrs)
    ensures |ptrs| == ExtraPtrs(|t.data|)
    ensures Sole(e, m, Grow(t, block, ptrs)) && Added(d, old', t, e, m, Grow(t, block, ptrs), block)
  {
    hide Used, FreeTotal, IsMeta, MarkBlock, PtrsOk, Inserted, Added, Layout;
    var r := Grow(t, block, ptrs);
    assert Shape(m, r) by {
      assert forall i :: 0 <= i < 12 ==> At(r, i) == At(t, i);
      assert m.block[14] == old'.block[14];
    }
    AddedByTaking(d, old', t, d1, e, m, block, ptrs);
  }

  lemma AddedDirect(d: Disk, old': Inode, t: Tree, e: Disk, m: Inode, block: nat)
    requires Sole(d, old', t) && |t.data| < 12
    requires IsData(block) && !Used(d, block) && e == MarkBlock(d, block, true) && Took(d, e, [block])
    requires Shape(m, Grow(t, block, [])) && m.mode == old'.mode
    ensures Sole(e, m, Grow(t, block, [])) && Added(d, old', t, e, m, Grow(t, block, []), block)
  {
    hide FreeTotal, IsMeta, MarkBlock, Shape, Added, Sole;
    SoleLeaves(d, old', t);
    AddedByTaking(d, old', t, e, e, m, block, []);
  }

  lemma SoleLeaves(d: Disk, node: Inode, t: Tree)
    requires Sole(d, node, t)
    ensures TreeOk(t) && (|t.data| < 12 ==> t.leaves == [])
  {
  }

  /**
    One block was appended to the tree of inode k and nothing else that was in use changed, except the pointer block it
    hangs from.
   */
  ghost predicate Appended(d: Disk, nodes: map<nat, Inode>, trees: map<nat, Tree>,
                           e: Disk, nodes': map<nat, Inode>, trees': map<nat, Tree>, k: nat, block: nat)
    requires k in nodes && k in trees && TreeOk(trees[k])
  {
    && k in nodes' && k in trees' && nodes' == nodes[k := nodes'[k]] && trees' == trees[k := trees'[k]]
    && Added(d, nodes[k], trees[k], e, nodes'[k], trees'[k], block)
  }

  /** The same block allocator on a live inode: the store stays owned. */
  method AllocateAdditionalBlock(fs: Volume, ghost k: nat, node: Inode, preferred: nat)
      returns (block: nat, node': Inode)
    requires fs.Own() && k in fs.nodes && fs.nodes[k] == node
    modifies fs`blocks, fs`bgdt, fs`sb, fs`nodes, fs`trees, fs`owner
    ensures fs.Own() && k in fs.nodes && fs.nodes[k] == node' && OnlyCounts(old(fs.bgdt), fs.bgdt)
    ensures block == 0 <==> FreeTotal(old(fs.blocks)) < 4
    ensures block == 0 ==>
      node' == node && fs.blocks == old(fs.blocks) && fs.bgdt == old(fs.bgdt) && fs.sb == old(fs.sb) &&
      fs.nodes == old(fs.nodes) && fs.trees == old(fs.trees) && fs.owner == old(fs.owner)
    ensures block != 0 ==>
      Appended(old(fs.blocks), old(fs.nodes), old(fs.trees), fs.blocks, fs.nodes, fs.trees, k, block) &&
      Nearest(old(fs.blocks), preferred, block)
    ensures LocalTo(old(fs.blocks), fs.blocks, preferred)
  {
    hide LocalTo, Nearest, Used, FreeTotal, SpaceOk, Added, Owned, Sole, Exact;
    ghost var d, r := fs.blocks, EMPTY_TREE;
    OwnedSole(d, fs.nodes, fs.trees, fs.owner, k);
    ghost var t := fs.trees[k];
    block, node', r := AppendBlock(fs, node, preferred, t);
    if block != 0 {
      AddedOwned(d, fs.nodes, fs.trees, fs.owner, k, fs.blocks, node', r, block);
      fs.owner := Claimed(fs.owner, d, fs.blocks, k);
      fs.nodes, fs.trees := fs.nodes[k := node'], fs.trees[k := r];
    }
  }

  lemma OwnedSole(d: Disk, nodes: map<nat, Inode>, trees: map<nat, Tree>, owner: map<nat, nat>, k: nat)
    requires Owned(d, nodes, trees, owner) && k in nodes
    ensures k in trees && TreeOk(trees[k]) && Sole(d, nodes[k], trees[k])
  {
    hide Used, IsMeta, Layout, TreeOk;
    forall c | InTree(trees[k], c)
      ensures IsData(c) && Used(d, c)
    {
      assert c in owner;
    }
  }

  lemma EmptyHolds(t: Tree)
    requires t == EMPTY_TREE
    ensures TreeOk(t) && Touched(t) == 0 && forall c :: !InTree(t, c)
    ensures !IsData(0)
  {
  }

  lemma AddedOwned(d: Disk, nodes: map<nat, Inode>, trees: map<nat, Tree>, owner: map<nat, nat>, k: nat, e: Disk,
                   m: Inode, r: Tree, block: nat)
    requires Owned(d, nodes, trees, owner) && k in nodes && TreeOk(trees[k]) && Sole(e, m, r)
    requires Added(d, nodes[k], trees[k], e, m, r, block)
    ensures Owned(e, nodes[k := m], trees[k := r], Claimed(owner, d, e, k))
  {
    hide Used, IsMeta, Layout, TreeOk, FreeTotal, Claimed, InTree, Touched, New, Owned;
    GrowOwned(d, nodes, trees, owner, k, e, m, r);
  }

  lemma OwnedShape(d: Disk, nodes: map<nat, Inode>, trees: map<nat, Tree>, owner: map<nat, nat>, k: nat)
    requires Owned(d, nodes, trees, owner) && k in nodes
    ensures k in trees && Shape(nodes[k], trees[k]) && TreeOk(trees[k])
  {
  }

  /** Bytes rounded up to blocks in 32-bit arithmetic: sizes within 511 of the top wrap round to 0. */
  function BlocksFor(size: u32): (n: nat)
    ensures n <= 0x80_0000
    ensures size <= 0xFFFF_FE00 ==> size <= 512 * n < size + 512
    ensures size > 0xFFFF_FE00 ==> n == 0
  {
    ((size + 511) % 0x1_0000_0000) / 512
  }

  /** Block i of a source buffer. */
  function Chunk(src: seq<byte>, i: nat): (b: Block)
    requires 512 * (i + 1) <= |src|
  {
    src[512 * i..512 * (i + 1)]
  }

  /** The data blocks hold the leading blocks of src, in order. */
  ghost predicate Holds(d: Disk, data: seq<nat>, src: seq<byte>)
  {
    && 512 * |data| <= |src|
    && forall i: nat :: i < |data| ==> data[i] < 8192 && d[data[i]] == Chunk(src, i)
  }

  /** Overwriting a data block of a tree disturbs no tree. */
  lemma WriteDataOwned(d: Disk, nodes: map<nat, Inode>, trees: map<nat, Tree>, owner: map<nat, nat>,
                       k: nat, b: nat, buf: Block)
    requires Owned(d, nodes, trees, owner) && k in nodes && b in trees[k].data
    ensures IsData(b) && Owned(d[b := buf], nodes, trees, owner)
  {
    hide Used, TreeOk, Layout, IsMeta, FreeTotal;
    assert InTree(trees[k], b) && b in owner;
    var e := d[b := buf];
    WriteTook(d, b, buf);
    forall j | j in nodes
      ensures Layout(e, nodes[j], trees[j])
    {
      forall c: nat | c < 8192 && IsPtr(trees[j], c)
        ensures e[c] == d[c]
      {
        assert InTree(trees[j], c);
        DataNotPtr(trees[k], b);
      }
      LayoutFrame(d, e, nodes[j], trees[j]);
    }
  }

  lemma DataNotPtr(t: Tree, b: nat)
    requires TreeOk(t) && b in t.data
    ensures !IsPtr(t, b)
  {
  }

  /** One more block appended and written. */
  lemma HoldsAppend(d: Disk, node: Inode, t: Tree, e: Disk, m: Inode, r: Tree, block: nat, src: seq<byte>)
    requires Sole(d, node, t) && Added(d, node, t, e, m, r, block)
    requires Holds(d, t.data, src) && 512 * (|t.data| + 1) <= |src|
    ensures Holds(e[block := Chunk(src, |t.data|)], r.data, src)
  {
    hide Used, Layout, IsMeta, FreeTotal, Chunk;
    forall i: nat | i < |t.data|
      ensures e[t.data[i]] == d[t.data[i]] && t.data[i] != block
    {
      assert InTree(t, t.data[i]);
      TouchedInTree(t);
    }
  }

  /** Everything used in d is still used in e and, bit for bit, the same. */
  ghost predicate KeptUsed(d: Disk, e: Disk)
  {
    && (forall c: nat :: c < 8192 && Used(d, c) ==> Used(e, c))
    && (forall c: nat :: IsData(c) && Used(d, c) ==> e[c] == d[c])
    && (forall c: nat :: c < 8192 && IsMeta(c) && !IsBlockBitmap(c) ==> e[c] == d[c])
  }

  /** The tree is exactly what was taken since d. */
  ghost predicate AllNew(d: Disk, e: Disk, t: Tree)
  {
    forall c :: InTree(t, c) <==> New(d, e, c)
  }

  /** One round of the storing loop. */
  lemma StoreRound(d0: Disk, d: Disk, node: Inode, t: Tree, e: Disk, m: Inode, r: Tree, block: nat, buf: Block)
    requires Sole(d, node, t) && Sole(e, m, r) && Added(d, node, t, e, m, r, block)
    requires KeptUsed(d0, d) && AllNew(d0, d, t)
    ensures KeptUsed(d0, e[block := buf]) && AllNew(d0, e[block := buf], r) && Sole(e[block := buf], m, r)
    ensures FreeTotal(e[block := buf]) == FreeTotal(e)
  {
    hide Used, Layout, IsMeta, FreeTotal, TreeOk, InTree, Touched;
    TouchedIn(t);
    WriteTook(e, block, buf);
    SameUseNew(d0, e, e[block := buf]);
    DataBlockLayout(e, m, r, block, buf);
    assert forall c :: New(d0, e, c) <==> New(d0, d, c) || New(d, e, c);
  }

  lemma TouchedIn(t: Tree)
    requires TreeOk(t)
    ensures Touched(t) == 0 || InTree(t, Touched(t))
    ensures !IsData(0)
  {
    TouchedInTree(t);
  }

  lemma SameUseNew(d0: Disk, e: Disk, f: Disk)
    requires Took(e, f, [])
    ensures forall c: nat :: c < 8192 ==> Used(f, c) == Used(e, c)
    ensures forall c: nat :: New(d0, f, c) <==> New(d0, e, c)
    ensures FreeTotal(f) == FreeTotal(e)
  {
    hide Used, FreeTotal, IsMeta;
  }

  lemma DataBlockLayout(e: Disk, m: Inode, r: Tree, block: nat, buf: Block)
    requires TreeOk(r) && Layout(e, m, r) && block in r.data
    ensures block < 8192 && Layout(e[block := buf], m, r)
  {
    hide Layout, IsMeta;
    assert InTree(r, block);
    LayoutFrame(e, e[block := buf], m, r);
  }

  /** allocate_node_blocks: store src block by block until done or out of space. */
  method StoreBlocks(fs: Volume, src: seq<byte>, node: Inode, preferred: nat) returns (node': Inode, ghost t: Tree)
    requires fs.SpaceValid() && node.block == NoPointers()
    requires |src| >= 512 * BlocksFor(node.size)
    modifies fs`blocks, fs`bgdt, fs`sb
    ensures fs.SpaceValid() && OnlyCounts(old(fs.bgdt), fs.bgdt)
    ensures Sole(fs.blocks, node', t) && node'.mode == node.mode && Holds(fs.blocks, t.data, src)
    ensures Stored(FreeTotal(old(fs.blocks)), FreeTotal(fs.blocks), BlocksFor(node.size), |t.data|)
    ensures KeptUsed(old(fs.blocks), fs.blocks) && AllNew(old(fs.blocks), fs.blocks, t)
    ensures |t.data| > 0 ==> Nearest(old(fs.blocks), preferred, t.data[0])
    ensures LocalTo(old(fs.blocks), fs.blocks, preferred)
    ensures preferred < 16 && |t.data| + PtrCount(|t.data|) <= GroupFree(old(fs.blocks), preferred) ==>
      InGroup(t, preferred)
  {
    hide LocalTo, Nearest, InGroup, GroupFree, Used, FreeTotal, IsMeta, SpaceOk, Added, TreeOk, Holds, PtrCount, Chunk,
      BlocksFor, KeptUsed, AllNew, MarkBlock, Sole, Layout;
    var needed := BlocksFor(node.size);
    node' := node.(blocks := 0, size := 0);
    ghost var d := fs.blocks;
    t := EMPTY_TREE;
    EmptyStart(d, node', src);
    LocalWrite(d, d, preferred);
    LocalGroup(d, d, t, preferred);
    for i := 0 to needed
      invariant fs.SpaceValid() && OnlyCounts(old(fs.bgdt), fs.bgdt) && Sole(fs.blocks, node', t) &&
        node'.mode == node.mode
      invariant |t.data| == i && Holds(fs.blocks, t.data, src)
      invariant i > 0 ==> FreeTotal(d) >= i + 3 + PtrCount(i - 1)
      invariant FreeTotal(fs.blocks) + i + PtrCount(i) == FreeTotal(d)
      invariant KeptUsed(d, fs.blocks) && AllNew(d, fs.blocks, t) && LocalTo(d, fs.blocks, preferred)
      invariant if i == 0 then fs.blocks == d else Nearest(d, preferred, t.data[0])
      invariant preferred < 16 && |t.data| + PtrCount(|t.data|) <= GroupFree(d, preferred) ==> InGroup(t, preferred)
    {
      ghost var d1, node1, t1 := fs.blocks, node', t;
      var block;
      block, node', t := AppendBlock(fs, node', preferred, t);
      if block == 0 {
        return;
      }
      SoleShape(d1, node1, t1);
      AddedFacts(d1, node1, t1, fs.blocks, node', t, block);
      var buf := Chunk(src, i);
      HoldsAppend(d1, node1, t1, fs.blocks, node', t, block, src);
      StoreRound(d, d1, node1, t1, fs.blocks, node', t, block, buf);
      WriteKeepsSpaceAt(fs.blocks, block, buf, fs.bgdt, fs.sb, fs.account);
      LocalTrans(d, d1, fs.blocks, preferred);
      LocalDataWrite(fs.blocks, block, buf, preferred);
      LocalTrans(d, fs.blocks, fs.blocks[block := buf], preferred);
      fs.blocks := fs.blocks[block := buf];
      LocalGroup(d, fs.blocks, t, preferred);
    }
  }

  /** All blocks of the tree lie in group g. */
  ghost predicate InGroup(t: Tree, g: nat)
  {
    forall c: nat :: InTree(t, c) ==> c / 512 == g
  }

  /** A file that fits into the preferred group as it was lies in it. */
  lemma LocalGroup(d: Disk, e: Disk, t: Tree, g: nat)
    requires AllNew(d, e, t) && LocalTo(d, e, g)
    ensures g < 16 && FreeTotal(d) - FreeTotal(e) <= GroupFree(d, g) ==> InGroup(t, g)
  {
    hide Used, FreeTotal, GroupFree, InTree;
  }

  /** What was stored under a live inode without blocks is that inode's, and the store stays owned. */
  lemma StoredOwned(d: Disk, nodes: map<nat, Inode>, trees: map<nat, Tree>, owner: map<nat, nat>, k: nat, e: Disk,
                    m: Inode, t: Tree)
    requires Owned(d, nodes, trees, owner) && k in nodes && k in trees && trees[k] == EMPTY_TREE
    requires Sole(e, m, t) && KeptUsed(d, e) && AllNew(d, e, t)
    ensures Owned(e, nodes[k := m], trees[k := t], Claimed(owner, d, e, k))
  {
    hide Used, IsMeta, Layout, Claimed, Owned;
    EmptyHolds(EMPTY_TREE);
    GrowOwned(d, nodes, trees, owner, k, e, m, t);
  }

  /**
    Outcome of storing: n of the needed blocks went in, it stopped early only when fewer
    than four blocks were left, and the blocks used are the data plus its pointer blocks.
   */
  predicate Stored(before: nat, after: nat, needed: nat, n: nat)
  {
    && n <= needed
    && (n < needed ==> before < n + 4 + PtrCount(n))
    && (n > 0 ==> before >= n + 3 + PtrCount(n - 1))
    && after + n + PtrCount(n) == before
  }

  /**
    The space law: with `before` blocks free, m of the needed blocks can be stored
    exactly when m + 3 + PtrCount(m - 1) blocks were free; the loop stores the longest such prefix.
   */
  lemma SpaceLaw(before: nat, after: nat, needed: nat, n: nat, m: nat)
    requires Stored(before, after, needed, n) && 0 < m <= needed
    ensures m <= n <==> before >= m + 3 + PtrCount(m - 1)
    ensures before - after == n + PtrCount(n)
  {
    if m <= n {
      assert PtrCount(m - 1) <= PtrCount(n - 1);
    } else {
      assert PtrCount(n) <= PtrCount(m - 1);
    }
  }

  /** The check before storing asks for the data blocks alone; then the last of them may silently stay out. */
  lemma CheckedButShort(before: nat, after: nat, needed: nat, n: nat)
    requires Stored(before, after, needed, n) && 0 < needed <= before
    ensures n < needed <==> before < needed + 3 + PtrCount(needed - 1)
  {
    SpaceLaw(before, after, needed, n, needed);
  }

  /** Four blocks wanted and four free: the check passes, and one block is stored. */
  lemma OneOfFour(after: nat, n: nat)
    requires Stored(4, after, 4, n)
    ensures n == 1 && after == 3
  {
    CheckedButShort(4, after, 4, n);
  }

  lemma EmptyStart(d: Disk, node: Inode, src: seq<byte>)
    requires node.block == NoPointers() && node.size == 0 && node.blocks == 0
    ensures Holds(d, EMPTY_TREE.data, src) && KeptUsed(d, d) && AllNew(d, d, EMPTY_TREE) && PtrCount(0) == 0
    ensures Sole(d, node, EMPTY_TREE)
  {
  }

  lemma WriteFree(d: Disk, b: nat, buf: Block)
    requires IsData(b)
    ensures FreeTotal(d[b := buf]) == FreeTotal(d)
  {
    WriteTook(d, b, buf);
  }

  lemma AddedFacts(d: Disk, node: Inode, t: Tree, e: Disk, m: Inode, r: Tree, block: nat)
    requires TreeOk(t) && Added(d, node, t, e, m, r, block)
    ensures m.mode == node.mode && IsData(block) && block in r.data && r.data == t.data + [block]
    ensures FreeTotal(e) + 1 + PtrCount(|t.data| + 1) == FreeTotal(d) + PtrCount(|t.data|)
  {
    hide Used, Layout, IsMeta, FreeTotal;
    assert r.data[|t.data|] == block;
  }
}
