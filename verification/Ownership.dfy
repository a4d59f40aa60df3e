/**
  Who owns which block.  `Owned` is the invariant of the whole block store: every
  allocatable block whose bitmap bit is set belongs to the tree of exactly one inode.
 */
module Ownership {
  import opened Bytes
  import opened Geometry
  import opened Inodes
  import opened Space
  import opened BlockTree

  /** Every block of a tree is owned by that tree's inode, and every owned block lies in its owner's tree. */
  ghost predicate Owners(trees: map<nat, Tree>, owner: map<nat, nat>)
  {
    && (forall k, b :: k in trees && InTree(trees[k], b) ==> b in owner && owner[b] == k)
    && (forall b :: b in owner ==> IsData(b) && owner[b] in trees && InTree(trees[owner[b]], b))
  }

  /**
    `nodes` are the inodes as last seen in memory, which the table on disk may lag behind;
    `owner` maps each block in use to its inode, so no two trees can share a block.
   */
  ghost predicate Owned(d: Disk, nodes: map<nat, Inode>, trees: map<nat, Tree>, owner: map<nat, nat>)
  {
    && nodes.Keys == trees.Keys
    && (forall k :: k in nodes ==> IsInode(k) && TreeOk(trees[k]) && Layout(d, nodes[k], trees[k]))
    && Owners(trees, owner)
    && (forall b: nat :: IsData(b) ==> (Used(d, b) <==> b in owner))
  }

  /** A map changed at two keys. */
  function With<V>(m: map<nat, V>, j: nat, v: V, k: nat, w: V): (r: map<nat, V>)
  {
    var n: map<nat, V> := m[j := v];
    n[k := w]
  }

  predicate IsBlockBitmap(b: nat)
  {
    b < 8192 && (b == 3 || (b >= 512 && b % 512 == 1))
  }

  /**
    From d to e, exactly the blocks listed in `taken` went from free to used, and no reserved block but bitmaps was
    written.
   */
  ghost predicate Took(d: Disk, e: Disk, taken: seq<nat>)
  {
    && Distinct(taken)
    && (forall c: nat :: c < 8192 ==> (Used(e, c) <==> Used(d, c) || c in taken))
    && (forall i :: 0 <= i < |taken| ==> IsData(taken[i]) && !Used(d, taken[i]))
    && FreeTotal(e) + |taken| == FreeTotal(d)
    && (forall c: nat :: c < 8192 && IsMeta(c) && !IsBlockBitmap(c) ==> e[c] == d[c])
  }

  lemma TookTrans(d: Disk, e: Disk, f: Disk, x: seq<nat>, y: seq<nat>)
    requires Took(d, e, x) && Took(e, f, y)
    ensures Took(d, f, x + y)
  {
    var z := x + y;
    assert forall c :: c in z <==> c in x || c in y;
    forall i | 0 <= i < |z|
      ensures IsData(z[i]) && !Used(d, z[i])
    {
      if i >= |x| { assert z[i] == y[i - |x|]; }
    }
    forall i, j | 0 <= i < j < |z|
      ensures z[i] != z[j]
    {
      if i < |x| <= j {
        assert z[i] in x && z[j] == y[j - |x|] && Used(e, z[i]);
      }
    }
  }

  /** Writing a data block takes nothing. */
  lemma WriteTook(d: Disk, b: nat, buf: Block)
    requires IsData(b)
    ensures Took(d, d[b := buf], [])
  {
    forall g: nat | g < 16
      ensures d[BlockBitmapOf(g)] == d[b := buf][BlockBitmapOf(g)]
    {
      BitmapsAreMeta(g);
    }
    SameBitmaps(d, d[b := buf], 16);
    forall c: nat | c < 8192
      ensures Used(d[b := buf], c) == Used(d, c)
    {
      BitmapsAreMeta(c / 512);
    }
  }

  lemma MarkTook(d: Disk, b: nat)
    requires IsData(b) && !Used(d, b)
    requires FreeTotal(MarkBlock(d, b, true)) == FreeTotal(d) - 1
    ensures Took(d, MarkBlock(d, b, true), [b])
    ensures forall c: nat :: IsData(c) ==> MarkBlock(d, b, true)[c] == d[c]
  {
    MarkBlockEffect(d, b, true);
    assert IsBlockBitmap(BlockBitmapOf(b / 512));
  }

  /** Block c went from free to used. */
  predicate New(d: Disk, e: Disk, c: nat)
  {
    c < 8192 && Used(e, c) && !Used(d, c)
  }

  /** The owners once inode k owns what is new. */
  ghost function Claimed(owner: map<nat, nat>, d: Disk, e: Disk, k: nat): (r: map<nat, nat>)
  {
    owner + map c: nat | c < 8192 && New(d, e, c) :: k
  }

  lemma GrowLayout(d: Disk, nodes: map<nat, Inode>, trees: map<nat, Tree>, owner: map<nat, nat>, k: nat, e: Disk,
                   j: nat)
    requires Owned(d, nodes, trees, owner) && k in nodes && j in nodes && j != k
    requires forall c: nat :: IsData(c) && Used(d, c) && c != Touched(trees[k]) ==> e[c] == d[c]
    ensures Layout(e, nodes[j], trees[j])
  {
    hide Layout, Used, TreeOk, IsMeta, Touched;
    TouchedInTree(trees[k]);
    forall b: nat | b < 8192 && IsPtr(trees[j], b)
      ensures e[b] == d[b]
    {
      assert InTree(trees[j], b) && owner[b] == j;
    }
    LayoutFrame(d, e, nodes[j], trees[j]);
  }

  lemma GrowOwners(trees: map<nat, Tree>, owner: map<nat, nat>, d: Disk, k: nat, e: Disk, t: Tree)
    requires Owners(trees, owner) && k in trees && forall b: nat :: IsData(b) && b in owner ==> Used(d, b)
    requires forall c :: InTree(t, c) <==> InTree(trees[k], c) || New(d, e, c)
    requires forall c :: InTree(t, c) ==> IsData(c)
    ensures Owners(trees[k := t], Claimed(owner, d, e, k))
  {
    hide Used, IsMeta, InTree;
    var ts, ow := trees[k := t], Claimed(owner, d, e, k);
    forall j, b | j in ts && InTree(ts[j], b)
      ensures b in ow && ow[b] == j
    {
      if j != k {
        assert InTree(trees[j], b) && b in owner;
      } else if !New(d, e, b) {
        assert InTree(trees[k], b);
      }
    }
    forall b | b in ow
      ensures IsData(b) && ow[b] in ts && InTree(ts[ow[b]], b)
    {
      if New(d, e, b) {
        assert InTree(t, b);
      }
    }
  }

  /** Growing one tree by exactly the blocks newly taken keeps the whole store owned. */
  lemma GrowOwned(d: Disk, nodes: map<nat, Inode>, trees: map<nat, Tree>, owner: map<nat, nat>,
                  k: nat, e: Disk, m: Inode, t: Tree)
    requires Owned(d, nodes, trees, owner) && k in nodes
    requires TreeOk(t) && Layout(e, m, t)
    requires forall c: nat :: c < 8192 && Used(d, c) ==> Used(e, c)
    requires forall c :: InTree(t, c) <==> InTree(trees[k], c) || New(d, e, c)
    requires forall c: nat :: IsData(c) && Used(d, c) && c != Touched(trees[k]) ==> e[c] == d[c]
    ensures Owned(e, nodes[k := m], trees[k := t], Claimed(owner, d, e, k))
  {
    hide Layout, Used, IsMeta, Touched, Distinct, IsPtr, InTree;
    forall c | InTree(t, c)
      ensures IsData(c)
    {
      InTreeData(t, c);
    }
    GrowOwners(trees, owner, d, k, e, t);
    forall j | j in nodes && j != k
      ensures Layout(e, nodes[j], trees[j])
    {
      GrowLayout(d, nodes, trees, owner, k, e, j);
    }
    hide TreeOk;
    GrowUsed(d, nodes, trees, owner, k, e);
  }

  lemma GrowUsed(d: Disk, nodes: map<nat, Inode>, trees: map<nat, Tree>, owner: map<nat, nat>, k: nat, e: Disk)
    requires Owned(d, nodes, trees, owner)
    requires forall c: nat :: c < 8192 && Used(d, c) ==> Used(e, c)
    ensures forall b: nat :: IsData(b) ==> (Used(e, b) <==> b in Claimed(owner, d, e, k))
  {
    hide Layout, Used, IsMeta, TreeOk, InTree;
  }

  lemma InTreeData(t: Tree, b: nat)
    requires TreeOk(t) && InTree(t, b)
    ensures IsData(b)
  {
  }

  lemma TouchedInTree(t: Tree)
    requires TreeOk(t)
    ensures Touched(t) == 0 || IsPtr(t, Touched(t))
    ensures !IsData(0)
  {
  }

  lemma DataSameLayout(d: Disk, e: Disk, node: Inode, t: Tree)
    requires TreeOk(t) && Layout(d, node, t)
    requires forall c: nat :: IsData(c) ==> e[c] == d[c]
    ensures Layout(e, node, t)
  {
    hide IsMeta, Layout;
    forall b: nat | b < 8192 && IsPtr(t, b)
      ensures e[b] == d[b]
    {
      assert InTree(t, b);
    }
    LayoutFrame(d, e, node, t);
  }
}
