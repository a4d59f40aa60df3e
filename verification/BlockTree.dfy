/**
  The pointer tree of an inode: twelve direct blocks, one block of 128 pointers,
  and one block of pointers to such blocks.  `Tree` lists the blocks an inode
  owns; `Layout` says the inode and the disk really hold that tree, packed to the left.
 */
module BlockTree {
  import opened Bytes
  import opened Geometry
  import opened Inodes

  /**
    Data blocks in file order, the singly and doubly indirect block (0 when absent), the leaf pointer blocks under the
    latter.
   */
  datatype Tree = Tree(data: seq<nat>, single: nat, double: nat, leaves: seq<nat>)

  const EMPTY_TREE: Tree := Tree([], 0, 0, [])

  /** Leaf pointer blocks under the doubly indirect block of an n-block file. */
  function LeafCount(n: nat): (c: nat)
  {
    if n <= 140 then 0 else (n - 140 + 127) / 128
  }

  /** Pointer blocks of an n-block file. */
  function PtrCount(n: nat): (c: nat)
  {
    if n <= 12 then 0 else if n <= 140 then 1 else 2 + LeafCount(n)
  }

  /** Pointer blocks that adding block number n (counting from 0) brings along. */
  function ExtraPtrs(n: nat): (c: nat)
    ensures c == PtrCount(n + 1) - PtrCount(n)
  {
    if n == 12 then 1 else if n == 140 then 2 else if n > 140 && (n - 140) % 128 == 0 then 1 else 0
  }

  ghost predicate Distinct(s: seq<nat>)
  {
    forall i, j :: 0 <= i < j < |s| ==> s[i] != s[j]
  }

  predicate IsPtr(t: Tree, b: nat)
  {
    b in t.leaves || (|t.data| > 12 && b == t.single) || (|t.data| > 140 && b == t.double)
  }

  /** b is a data or pointer block of the tree. */
  predicate InTree(t: Tree, b: nat)
  {
    b in t.data || IsPtr(t, b)
  }

  /** The number of leaf blocks fits the size, all blocks are allocatable ones, and none occurs twice. */
  ghost predicate TreeOk(t: Tree)
  {
    && |t.leaves| == LeafCount(|t.data|)
    && (|t.data| <= 12 ==> t.single == 0)
    && (|t.data| <= 140 ==> t.double == 0)
    && (forall b :: InTree(t, b) ==> IsData(b))
    && Distinct(t.data) && Distinct(t.leaves)
    && (forall b :: b in t.data ==> !IsPtr(t, b))
    && (|t.data| > 12 ==> t.single !in t.leaves)
    && (|t.data| > 140 ==> t.double !in t.leaves && t.single != t.double)
  }

  /** Block number i of the file, 0 past its end. */
  function At(t: Tree, i: nat): (b: nat)
  {
    if i < |t.data| then t.data[i] else 0
  }

  ghost predicate SingleOk(d: Disk, t: Tree)
  {
    t.single < 8192 && forall j :: 0 <= j < 128 ==> Ptr(d[t.single], j) == At(t, 12 + j)
  }

  ghost predicate LeafOk(d: Disk, t: Tree, j: nat)
    requires j < |t.leaves|
  {
    t.leaves[j] < 8192 && forall i :: 0 <= i < 128 ==> Ptr(d[t.leaves[j]], i) == At(t, 140 + 128 * j + i)
  }

  ghost predicate TopOk(d: Disk, t: Tree)
  {
    && t.double < 8192
    && (forall j :: 0 <= j < 128 ==> Ptr(d[t.double], j) == if j < |t.leaves| then t.leaves[j] else 0)
  }

  /** What the inode itself records: sizes and the fifteen pointers. */
  ghost predicate Shape(node: Inode, t: Tree)
  {
    && node.size == 512 * |t.data|
    && node.blocks == |t.data| + PtrCount(|t.data|)
    && (forall i :: 0 <= i < 12 ==> node.block[i] == At(t, i))
    && node.block[12] == t.single && node.block[13] == t.double && node.block[14] == 0
  }

  /** The pointer blocks on disk hold the tree. */
  ghost predicate PtrsOk(d: Disk, t: Tree)
  {
    && (|t.data| > 12 ==> SingleOk(d, t))
    && (|t.data| > 140 ==> TopOk(d, t))
    && (forall j: nat :: j < |t.leaves| ==> LeafOk(d, t, j))
  }

  ghost predicate Layout(d: Disk, node: Inode, t: Tree)
  {
    Shape(node, t) && PtrsOk(d, t)
  }

  /** A tree survives any write that leaves its pointer blocks alone. */
  lemma LayoutFrame(d: Disk, e: Disk, node: Inode, t: Tree)
    requires TreeOk(t) && Layout(d, node, t)
    requires forall b: nat :: b < 8192 && IsPtr(t, b) ==> e[b] == d[b]
    ensures Layout(e, node, t)
  {
    forall j: nat | j < |t.leaves|
      ensures LeafOk(e, t, j)
    {
      assert LeafOk(d, t, j) && IsPtr(t, t.leaves[j]);
    }
  }

  /** Distinct numbers below a bound are at most as many as the bound. */
  lemma {:induction false} Pigeonhole(s: seq<nat>, bound: nat)
    requires Distinct(s) && forall b :: b in s ==> b < bound
    ensures |s| <= bound
  {
    if s != [] {
      assert s[0] in s;
      if bound - 1 in s {
        var i :| 0 <= i < |s| && s[i] == bound - 1;
        var r := s[..i] + s[i + 1..];
        assert forall j :: 0 <= j < |r| ==> r[j] == s[if j < i then j else j + 1];
        forall b | b in r
          ensures b < bound - 1
        {
          var j :| 0 <= j < |r| && r[j] == b;
          assert s[if j < i then j else j + 1] in s;
        }
        Pigeonhole(r, bound - 1);
      } else {
        Pigeonhole(s, bound - 1);
      }
    }
  }

  /** The disk is far too small to fill the doubly indirect block. */
  lemma TreeBound(t: Tree)
    requires TreeOk(t)
    ensures |t.data| <= 8192 && |t.leaves| <= 63
  {
    forall b | b in t.data ensures b < 8192 {
      assert InTree(t, b);
    }
    Pigeonhole(t.data, 8192);
  }

  /** The tree after appending data block b, with the pointer blocks it brings along (the leaf first). */
  function Grow(t: Tree, b: nat, ptrs: seq<nat>): (r: Tree)
    requires |ptrs| == ExtraPtrs(|t.data|)
    ensures r.data == t.data + [b]
  {
    var n := |t.data|;
    Tree(t.data + [b],
         if n == 12 then ptrs[0] else t.single,
         if n == 140 then ptrs[1] else t.double,
         if n >= 140 && (n - 140) % 128 == 0 then t.leaves + [ptrs[0]] else t.leaves)
  }

  /** Appending blocks the tree does not yet hold keeps it well formed. */
  lemma GrowOk(t: Tree, b: nat, ptrs: seq<nat>)
    requires TreeOk(t) && |ptrs| == ExtraPtrs(|t.data|)
    requires IsData(b) && !InTree(t, b) && b !in ptrs
    requires Distinct(ptrs) && forall c :: c in ptrs ==> IsData(c) && !InTree(t, c)
    ensures TreeOk(Grow(t, b, ptrs))
    ensures forall c :: InTree(Grow(t, b, ptrs), c) <==> InTree(t, c) || c == b || c in ptrs
    ensures forall c :: IsPtr(Grow(t, b, ptrs), c) <==> IsPtr(t, c) || c in ptrs
  {
    var r := Grow(t, b, ptrs);
    var n := |t.data|;
    assert forall c :: c in r.data <==> c in t.data || c == b;
    assert forall i :: 0 <= i < |ptrs| ==> ptrs[i] in ptrs;
    if n >= 140 && (n - 140) % 128 == 0 {
      assert r.leaves == t.leaves + [ptrs[0]];
      assert forall c :: c in r.leaves <==> c in t.leaves || c == ptrs[0];
    }
    assert forall c :: IsPtr(r, c) <==> IsPtr(t, c) || c in ptrs;
  }

  /** A fresh pointer block holding a single pointer. */
  ghost predicate Singleton(b: Block, v: nat)
  {
    forall j :: 0 <= j < 128 ==> Ptr(b, j) == if j == 0 then v else 0
  }

  /** The pointer block already in the tree that appending a block rewrites; 0 if there is none. */
  function Touched(t: Tree): (c: nat)
    requires |t.leaves| == LeafCount(|t.data|)
  {
    var n := |t.data|;
    if n <= 12 || n == 140 then 0
    else if n < 140 then t.single
    else if (n - 140) % 128 == 0 then t.double
    else t.leaves[|t.leaves| - 1]
  }

  /** What the pointer blocks look like after block b was hung onto the tree. */
  ghost predicate Inserted(d: Disk, e: Disk, t: Tree, b: nat, ptrs: seq<nat>)
    requires TreeOk(t) && |t.leaves| < 128 && |ptrs| == ExtraPtrs(|t.data|) && b < 8192
    requires forall i :: 0 <= i < |ptrs| ==> ptrs[i] < 8192
  {
    var n := |t.data|;
    assert n > 12 ==> InTree(t, t.single);
    assert n > 140 ==> InTree(t, t.double) && InTree(t, t.leaves[|t.leaves| - 1]);
    && (forall c: nat :: c < 8192 && IsPtr(t, c) && c != Touched(t) ==> e[c] == d[c])
    && (ExtraPtrs(n) >= 1 ==> Singleton(e[ptrs[0]], b))
    && (n == 140 ==> Singleton(e[ptrs[1]], ptrs[0]))
    && (12 < n < 140 ==> e[t.single] == SetPtr(d[t.single], n - 12, b))
    && (n > 140 && (n - 140) % 128 != 0 ==>
          e[Touched(t)] == SetPtr(d[Touched(t)], (n - 140) % 128, b))
    && (n > 140 && (n - 140) % 128 == 0 ==>
          e[t.double] == SetPtr(d[t.double], |t.leaves|, ptrs[0]))
  }

  lemma InsertedPtrs(d: Disk, t: Tree, e: Disk, b: nat, ptrs: seq<nat>)
    requires TreeOk(t) && |t.leaves| < 128 && |ptrs| == ExtraPtrs(|t.data|) && b < 8192
    requires forall i :: 0 <= i < |ptrs| ==> ptrs[i] < 8192
    requires PtrsOk(d, t) && Inserted(d, e, t, b, ptrs)
    ensures PtrsOk(e, Grow(t, b, ptrs))
  {
    var r := Grow(t, b, ptrs);
    var n := |t.data|;
    if n >= 12 {
      InsertedSingle(d, t, e, b, ptrs);
    }
    if n >= 140 {
      InsertedTop(d, t, e, b, ptrs);
      forall j: nat | j < |r.leaves|
        ensures LeafOk(e, r, j)
      {
        InsertedLeaf(d, t, e, b, ptrs, j);
      }
    }
  }

  lemma InsertedSingle(d: Disk, t: Tree, e: Disk, b: nat, ptrs: seq<nat>)
    requires TreeOk(t) && |t.leaves| < 128 && |ptrs| == ExtraPtrs(|t.data|) && b < 8192 && |t.data| >= 12
    requires forall i :: 0 <= i < |ptrs| ==> ptrs[i] < 8192
    requires PtrsOk(d, t) && Inserted(d, e, t, b, ptrs)
    ensures SingleOk(e, Grow(t, b, ptrs))
  {
    hide Ptr, SetPtr, Shape;
    var r := Grow(t, b, ptrs);
    var n := |t.data|;
    assert forall j :: 0 <= j ==> At(r, j) == if j == n then b else At(t, j);
    if n >= 140 {
      assert InTree(t, t.single);
      assert n > 140 ==> t.leaves[|t.leaves| - 1] in t.leaves;
      assert IsPtr(t, t.single) && t.single != Touched(t);
    }
  }

  lemma InsertedTop(d: Disk, t: Tree, e: Disk, b: nat, ptrs: seq<nat>)
    requires TreeOk(t) && |t.leaves| < 128 && |ptrs| == ExtraPtrs(|t.data|) && b < 8192 && |t.data| >= 140
    requires forall i :: 0 <= i < |ptrs| ==> ptrs[i] < 8192
    requires PtrsOk(d, t) && Inserted(d, e, t, b, ptrs)
    ensures TopOk(e, Grow(t, b, ptrs))
  {
    hide Ptr, SetPtr, Shape, IsMeta;
    if |t.data| > 140 && (|t.data| - 140) % 128 != 0 {
      assert IsPtr(t, t.double) && t.double != Touched(t) by { assert t.leaves[|t.leaves| - 1] in t.leaves; }
    }
  }

  lemma InsertedLeaf(d: Disk, t: Tree, e: Disk, b: nat, ptrs: seq<nat>, j: nat)
    requires TreeOk(t) && |t.leaves| < 128 && |ptrs| == ExtraPtrs(|t.data|) && b < 8192 && |t.data| >= 140
    requires forall i :: 0 <= i < |ptrs| ==> ptrs[i] < 8192
    requires PtrsOk(d, t) && Inserted(d, e, t, b, ptrs)
    requires j < |Grow(t, b, ptrs).leaves|
    ensures LeafOk(e, Grow(t, b, ptrs), j)
  {
    hide Ptr, SetPtr, Shape, IsMeta;
    var r := Grow(t, b, ptrs);
    var n := |t.data|;
    assert forall i :: 0 <= i ==> At(r, i) == if i == n then b else At(t, i);
    if j == |t.leaves| {
      assert n == 140 + 128 * j;
    } else {
      assert LeafOk(d, t, j) && t.leaves[j] in t.leaves && IsPtr(t, t.leaves[j]);
      var last := |t.leaves| - 1;
      if (n - 140) % 128 == 0 {
        assert n == 140 + 128 * (last + 1);
      } else {
        assert n == 140 + 128 * last + (n - 140) % 128;
        if j < last { assert t.leaves[j] != t.leaves[last]; }
      }
    }
  }
}
